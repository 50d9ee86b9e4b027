/**
 * The registry of named indices: creates indices under a name and routes
 * single documents, queries and whole dataframes to the index of that name.
 */
module Registry {
  import opened Common
  import opened Wrappers
  import opened PolarsDocuments
  import opened Indexable

  class IndexRegistry {
    var indices: map<string, IndexWrapper>

    /** Every registered index is consistent and knows its own name, and no
        two names share one index. */
    ghost predicate Valid()
      reads this, indices.Values
    {
      && (forall n :: n in indices ==> indices[n].Valid() && indices[n].name == n)
      && (forall n, m :: n in indices && m in indices && n != m ==> indices[n] != indices[m])
    }

    /** A registry with no indices. */
    constructor ()
      ensures Valid()
      ensures indices == map[]
    {
      indices := map[];
    }

    /** The registered names, each once, in no particular order. */
    method GetIndexNames() returns (names: seq<string>)
      ensures forall n :: n in names <==> n in indices
      ensures |names| == |indices|
      ensures forall i, j :: 0 <= i < j < |names| ==> names[i] != names[j]
    {
      names := [];
      var remaining := indices.Keys;
      while remaining != {}
        invariant remaining <= indices.Keys
        invariant forall n :: n in names <==> n in indices && n !in remaining
        invariant |names| + |remaining| == |indices|
        invariant forall i, j :: 0 <= i < j < |names| ==> names[i] != names[j]
        decreases |remaining|
      {
        var n :| n in remaining;
        names := names + [n];
        remaining := remaining - {n};
      }
    }

    /** Creates a fresh, empty index under `name`, replacing any index already
        registered under that name; always succeeds. */
    method InitializeIndex(name: string, nameField: string, fields: seq<string>) returns (r: Outcome)
      requires Valid()
      modifies this
      ensures Valid()
      ensures r == Pass
      ensures indices.Keys == old(indices).Keys + {name}
      ensures |indices.Keys| <= |old(indices).Keys| + 1
      ensures fresh(indices[name])
      ensures indices[name].name == name && indices[name].nameField == nameField && indices[name].fields == fields
      ensures forall f :: f in fields ==> f in indices[name].fieldNames
      ensures indices[name].committed == [] && indices[name].staged == [] && indices[name].history == []
      ensures forall n :: n in old(indices) && n != name ==> indices[n] == old(indices)[n]
    {
      var indexWrapper := new IndexWrapper(name, nameField, fields);
      indices := indices[name := indexWrapper];
      r := Pass;
    }

    /** Forwards one document to the index named `name`, which must be
        registered; no other index and no registration changes. */
    method IndexDocument(name: string, documentMap: Document) returns (r: Outcome)
      requires Valid() && name in indices
      modifies indices[name]
      ensures Valid()
      ensures indices == old(indices)
      ensures indices[name].history == old(indices[name].history) + [AddOp(documentMap, r)]
      ensures indices[name].committed == old(indices[name].committed)
      ensures indices[name].staged == if r.Pass? then old(indices[name].staged) + [documentMap] else old(indices[name].staged)
      ensures forall n :: n in indices && n != name ==>
                indices[n].history == old(indices[n].history) && indices[n].committed == old(indices[n].committed)
    {
      var indexWrapper := indices[name];
      r := indexWrapper.AddDocument(documentMap);
    }

    /** Forwards a query to the index named `name`, which must be registered;
        no document of any index changes. */
    method Search(name: string, query: string) returns (r: Result<seq<string>>)
      requires Valid() && name in indices
      modifies indices[name]
      ensures Valid()
      ensures indices == old(indices)
      ensures indices[name].history == old(indices[name].history) + [QueryOp(query)]
      ensures forall n :: n in indices ==>
                indices[n].committed == old(indices[n].committed) && indices[n].staged == old(indices[n].staged)
      ensures forall n :: n in indices && n != name ==> indices[n].history == old(indices[n].history)
    {
      var indexWrapper := indices[name];
      r := indexWrapper.Search(query);
    }

    /** Indexes every row of `df` into the index named `name`, which must be
        registered; always succeeds. */
    method IndexDf(name: string, df: DataFrame, order: seq<nat>) returns (r: Outcome, ghost ops: seq<Op>)
      requires Valid() && name in indices && df.Valid()
      requires IsPermutation(order, df.height)
      modifies indices[name]
      ensures Valid()
      ensures r == Pass
      ensures indices == old(indices)
      ensures indices[name].history == old(indices[name].history) + ops
      ensures InRange(order, df.height)
      ensures StageAllThenCommit(Permute(RowDocuments(df.height, GetColumns(df.columns, indices[name].fieldNames)), order), ops)
      ensures |ops| == df.height + 1
      ensures multiset(OfferedDocs(ops[..df.height])) == multiset(RowDocuments(df.height, GetColumns(df.columns, indices[name].fieldNames)))
      ensures forall n :: n in indices && n != name ==>
                indices[n].history == old(indices[n].history) && indices[n].committed == old(indices[n].committed)
    {
      var indexWrapper := indices[name];
      r, ops := DataFrameIndexCollection(df, indexWrapper, order);
    }
  }

  /** A fresh registry, one index created under `name`, a document sent to it,
      then `name` created again: the name is listed once and the second
      creation has silently replaced the first index, document and all. */
  method ReinitializeReplaces(name: string, nameField: string, fields: seq<string>, doc: Document)
    returns (names: seq<string>, documentsAfter: nat, ghost historyAfter: seq<Op>)
    ensures names == [name]
    ensures documentsAfter == 0 && historyAfter == []
  {
    var registry := new IndexRegistry();
    var created := registry.InitializeIndex(name, nameField, fields);
    var added := registry.IndexDocument(name, doc);
    assert registry.indices[name].history == [AddOp(doc, added)];
    created := registry.InitializeIndex(name, nameField, fields);
    names := registry.GetIndexNames();
    assert name in names;
    assert names == [name] by {
      assert |names| == 1;
    }
    documentsAfter := |registry.indices[name].committed| + |registry.indices[name].staged|;
    historyAfter := registry.indices[name].history;
  }
}
