/**
 * Bulk sources that know how to feed one index: a collection of file paths
 * and a dataframe. The file system is a parameter: a map from each readable
 * path to its full text.
 */
module Indexable {
  import opened Common
  import opened Wrappers
  import opened PolarsDocuments

  /** The document of one file: its path under "name", its text under "contents". */
  function FileDocument(path: string, contents: string): (doc: Document)
  {
    map["name" := path, "contents" := contents]
  }

  /** Every path of `paths` names a readable file. */
  predicate Readable(paths: seq<string>, files: map<string, string>)
  {
    forall i :: 0 <= i < |paths| ==> paths[i] in files
  }

  /** The documents of the files `paths`, in order. */
  function FileDocuments(paths: seq<string>, files: map<string, string>): (docs: seq<Document>)
    requires Readable(paths, files)
    ensures |docs| == |paths|
    decreases |paths|
  {
    if paths == [] then []
    else
      var n := |paths| - 1;
      FileDocuments(paths[..n], files) + [FileDocument(paths[n], files[paths[n]])]
  }

  /** The document at position `i` is that of the `i`-th path. */
  lemma {:induction false} FileDocumentsAt(paths: seq<string>, files: map<string, string>, i: nat)
    requires Readable(paths, files)
    requires i < |paths|
    ensures FileDocuments(paths, files)[i] == FileDocument(paths[i], files[paths[i]])
    decreases |paths|
  {
    var n := |paths| - 1;
    if i < n {
      FileDocumentsAt(paths[..n], files, i);
    }
  }

  /** A file's document has exactly the fields "name" and "contents", holding
      its path and its text. */
  lemma FileDocumentFields(path: string, contents: string)
    ensures FileDocument(path, contents).Keys == {"name", "contents"}
    ensures FileDocument(path, contents)["name"] == path
    ensures FileDocument(path, contents)["contents"] == contents
  {
  }

  /** Reads `path` and builds its document. Reading a file that cannot be read
      aborts the program, so the path must be readable. */
  method LoadFileDoc(path: string, files: map<string, string>) returns (r: Result<Document>)
    requires path in files
    ensures r == Ok(FileDocument(path, files[path]))
  {
    var doc: Document := map[];
    doc := doc["name" := path];
    var contents := files[path];
    doc := doc["contents" := contents];
    r := Ok(doc);
  }

  /** Indexes the files `paths` in order through one batch: one document per
      path, returning the first rejected add at once without committing, and
      otherwise committing once and returning the commit's result. `ops` is
      what the index received. */
  method PathsIndexCollection(paths: seq<string>, files: map<string, string>, index: IndexWrapper)
    returns (r: Outcome, ghost ops: seq<Op>)
    requires index.Valid()
    requires Readable(paths, files)
    modifies index
    ensures index.Valid()
    ensures index.history == old(index.history) + ops
    ensures StopAtFirstFailure(FileDocuments(paths, files), ops)
    ensures r == ops[|ops| - 1].outcome
    ensures ops[|ops| - 1].CommitOp? <==> |ops| == |paths| + 1
    ensures ops[|ops| - 1].CommitOp? && r.Pass? ==>
              index.committed == old(index.committed) + old(index.staged) + FileDocuments(paths, files) && index.staged == []
    ensures !(ops[|ops| - 1].CommitOp? && r.Pass?) ==>
              index.committed == old(index.committed) && index.staged == old(index.staged) + FileDocuments(paths, files)[..|ops| - 1]
  {
    ghost var docs := FileDocuments(paths, files);
    var indexer := new BatchIndexer(index);
    for i := 0 to |paths|
      invariant index.Valid()
      invariant index.history == old(index.history) + AcceptedAdds(docs[..i])
      invariant index.committed == old(index.committed)
      invariant index.staged == old(index.staged) + docs[..i]
    {
      var loaded := LoadFileDoc(paths[i], files);
      var doc := loaded.value;
      FileDocumentsAt(paths, files, i);
      var added := indexer.AddDocument(doc);
      if added.Fail? {
        ops := AcceptedAdds(docs[..i]) + [AddOp(doc, added)];
        FirstFailureStop(docs, i, AddOp(doc, added));
        AppendAssoc(old(index.history), AcceptedAdds(docs[..i]), [AddOp(doc, added)]);
        r := added;
        LastOfAppend(AcceptedAdds(docs[..i]), AddOp(doc, added));
        return;
      }
      AcceptedAddsStep(old(index.history), docs, i);
      PrefixStepAfter(old(index.staged), docs, i);
    }
    assert docs[..|paths|] == docs;
    r := indexer.Commit();
    AppendAssoc(old(index.committed), old(index.staged), docs);
    ops := AcceptedAdds(docs) + [CommitOp(r)];
    LastOfAppend(AcceptedAdds(docs), CommitOp(r));
    FirstFailureCommit(docs, CommitOp(r));
    AppendAssoc(old(index.history), AcceptedAdds(docs), [CommitOp(r)]);
  }

  /** Indexes every row of `df`, discarding the ingestion's own result: the
      answer is always success. `order` is the order in which the concurrent
      workers happen to stage the rows; whatever it is, every row document is
      offered exactly once. */
  method DataFrameIndexCollection(df: DataFrame, index: IndexWrapper, order: seq<nat>) returns (r: Outcome, ghost ops: seq<Op>)
    requires index.Valid() && df.Valid()
    requires IsPermutation(order, df.height)
    modifies index
    ensures r == Pass
    ensures index.Valid()
    ensures index.history == old(index.history) + ops
    ensures InRange(order, df.height)
    ensures StageAllThenCommit(Permute(RowDocuments(df.height, GetColumns(df.columns, index.fieldNames)), order), ops)
    ensures |ops| == df.height + 1
    ensures multiset(OfferedDocs(ops[..df.height])) == multiset(RowDocuments(df.height, GetColumns(df.columns, index.fieldNames)))
  {
    var discarded;
    discarded, ops := IndexDfRows(index, df, order);
    PermutationMultiset(RowDocuments(df.height, GetColumns(df.columns, index.fieldNames)), order);
    r := Pass;
  }

  /** The example frame indexed into a fresh index with identity field "title"
      and field "body", the workers staging the two rows in the order `order`:
      the index, whose field names `fieldNames` hold "body", receives the two
      row documents, one add each, then one commit, and ends with two
      searchable documents exactly when the engine accepted both and the
      commit succeeded. */
  method TestIndexingDf(order: seq<nat>) returns (numDocs: nat, ghost fieldNames: seq<string>, ghost ops: seq<Op>)
    requires IsPermutation(order, 2)
    ensures "body" in fieldNames
    ensures |ops| == 3
    ensures ops[0].AddOp? && ops[1].AddOp? && ops[2].CommitOp?
    ensures multiset{ops[0].doc, ops[1].doc} == multiset(TestFrameRows("title" in fieldNames))
    ensures numDocs <= 2
    ensures numDocs == 2 <==> ops[0].outcome.Pass? && ops[1].outcome.Pass? && ops[2].outcome.Pass?
  {
    var index := new IndexWrapper("test_index", "title", ["body"]);
    fieldNames := index.fieldNames;
    var df := LoadTestDf();
    var result;
    result, ops := DataFrameIndexCollection(df, index, order);
    TestFrameDocuments(fieldNames);
    BatchOfTwo(Permute(RowDocuments(2, GetColumns(df.columns, fieldNames)), order), ops);
    assert index.history == ops;
    numDocs := index.NumDocs();
  }
}
