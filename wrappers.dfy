/**
 * The search-engine collaborator as seen by the coordination layer: an index
 * that stages documents, commits them, and answers queries, and the batch
 * indexer that drives it. The engine's own behaviour is not visible, so every
 * engine call may fail; what the model records is which calls were made, in
 * which order, and what each one did to the committed and staged documents.
 * Adds and commits are recorded with the engine's answer; a query only with
 * its text, since its hits do not affect the documents.
 */
module Wrappers {
  import opened Common

  /** One request the index received: an add or a commit with the engine's
      answer, or a query's text (its hits are not recorded). */
  datatype Op = AddOp(doc: Document, outcome: Outcome) | CommitOp(outcome: Outcome) | QueryOp(text: string)

  /** The documents of an index: the searchable ones and the staged ones. */
  datatype Store = Store(committed: seq<Document>, staged: seq<Document>)

  const Empty := Store([], [])

  /** The effect of one request: an accepted add stages its document, a
      successful commit makes everything staged searchable, and a rejected
      request, a failed commit or a query changes nothing. */
  function Apply(s: Store, op: Op): (s': Store)
  {
    match op
    case AddOp(d, o) => if o.Pass? then Store(s.committed, s.staged + [d]) else s
    case CommitOp(o) => if o.Pass? then Store(s.committed + s.staged, []) else s
    case QueryOp(_) => s
  }

  /** The store reached from `s` by the requests `ops`, in order. */
  function Run(s: Store, ops: seq<Op>): (s': Store)
    decreases |ops|
  {
    if ops == [] then s else Apply(Run(s, ops[..|ops| - 1]), ops[|ops| - 1])
  }

  /** Running two logs one after the other is running their concatenation. */
  lemma {:induction false} RunConcat(s: Store, a: seq<Op>, b: seq<Op>)
    ensures Run(s, a + b) == Run(Run(s, a), b)
    decreases |b|
  {
    if b == [] {
      assert a + b == a;
    } else {
      assert (a + b)[..|a + b| - 1] == a + b[..|b| - 1];
      RunConcat(s, a, b[..|b| - 1]);
    }
  }

  /** One more request is applied to the store reached so far. */
  lemma RunStep(h: seq<Op>, op: Op)
    ensures Run(Empty, h + [op]) == Apply(Run(Empty, h), op)
  {
    assert (h + [op])[..|h|] == h;
  }

  /** Every request of `ops` is an add. */
  ghost predicate AllAdds(ops: seq<Op>)
  {
    forall i :: 0 <= i < |ops| ==> ops[i].AddOp?
  }

  /** Every request of `ops` is an add the engine accepted. */
  ghost predicate AllAccepted(ops: seq<Op>)
  {
    forall i :: 0 <= i < |ops| ==> ops[i].AddOp? && ops[i].outcome.Pass?
  }

  /** The documents of the adds of `ops`, in order, accepted or not. */
  function OfferedDocs(ops: seq<Op>): (docs: seq<Document>)
    ensures |docs| <= |ops|
    ensures AllAdds(ops) ==> |docs| == |ops|
    decreases |ops|
  {
    if ops == [] then []
    else
      var op := ops[|ops| - 1];
      OfferedDocs(ops[..|ops| - 1]) + (if op.AddOp? then [op.doc] else [])
  }

  /** In a run of adds, the `i`-th offered document is that of the `i`-th add. */
  lemma {:induction false} OfferedDocsAt(ops: seq<Op>, i: nat)
    requires AllAdds(ops) && i < |ops|
    ensures OfferedDocs(ops)[i] == ops[i].doc
    decreases |ops|
  {
    var n := |ops| - 1;
    assert AllAdds(ops[..n]);
    if i < n {
      OfferedDocsAt(ops[..n], i);
    }
  }

  /** The documents of the accepted adds of `ops`, in order. */
  function AcceptedDocs(ops: seq<Op>): (docs: seq<Document>)
    ensures |docs| <= |ops|
    decreases |ops|
  {
    if ops == [] then []
    else
      var op := ops[|ops| - 1];
      AcceptedDocs(ops[..|ops| - 1]) + (if op.AddOp? && op.outcome.Pass? then [op.doc] else [])
  }

  /** The number of commits in `ops`. */
  function CommitCount(ops: seq<Op>): (n: nat)
    decreases |ops|
  {
    if ops == [] then 0
    else CommitCount(ops[..|ops| - 1]) + (if ops[|ops| - 1].CommitOp? then 1 else 0)
  }

  /** `ops` is one add per document of `docs`, in the same order, whatever the
      engine answered. */
  ghost predicate Attempts(docs: seq<Document>, ops: seq<Op>)
  {
    AllAdds(ops) && OfferedDocs(ops) == docs
  }

  /** Adds only stage: nothing is committed, there is no commit, and the
      accepted documents are staged in order. */
  lemma {:induction false} RunAdds(s: Store, ops: seq<Op>)
    requires AllAdds(ops)
    ensures Run(s, ops) == Store(s.committed, s.staged + AcceptedDocs(ops))
    ensures CommitCount(ops) == 0
    decreases |ops|
  {
    if ops != [] {
      var n := |ops| - 1;
      assert AllAdds(ops[..n]);
      RunAdds(s, ops[..n]);
    }
  }

  /** The staged documents of a run of adds are a sub-multiset of the offered ones. */
  lemma {:induction false} AcceptedDocsSubMultiset(ops: seq<Op>)
    ensures multiset(AcceptedDocs(ops)) <= multiset(OfferedDocs(ops))
    decreases |ops|
  {
    if ops != [] {
      var n := |ops| - 1;
      AcceptedDocsSubMultiset(ops[..n]);
      var op := ops[n];
      var accepted := if op.AddOp? && op.outcome.Pass? then [op.doc] else [];
      var offered := if op.AddOp? then [op.doc] else [];
      calc {
        multiset(AcceptedDocs(ops));
      ==
        multiset(AcceptedDocs(ops[..n])) + multiset(accepted);
      <=
        multiset(OfferedDocs(ops[..n])) + multiset(offered);
      ==
        multiset(OfferedDocs(ops));
      }
    }
  }

  /** Every offered document is staged, in order, exactly when the engine
      accepted every add; as many documents are staged as adds were made
      exactly then too. */
  lemma {:induction false} AllAcceptedIff(ops: seq<Op>)
    requires AllAdds(ops)
    ensures AcceptedDocs(ops) == OfferedDocs(ops) <==> AllAccepted(ops)
    ensures |AcceptedDocs(ops)| == |ops| <==> AllAccepted(ops)
    decreases |ops|
  {
    if ops != [] {
      var n := |ops| - 1;
      assert AllAdds(ops[..n]);
      AllAcceptedIff(ops[..n]);
      if !ops[n].outcome.Pass? {
        assert |AcceptedDocs(ops)| == |AcceptedDocs(ops[..n])|;
      } else if AllAccepted(ops) {
        assert AllAccepted(ops[..n]);
      }
    }
  }

  /** The protocol of a batch that ignores rejected adds: one add per document,
      in order, then exactly one commit. */
  ghost predicate StageAllThenCommit(docs: seq<Document>, ops: seq<Op>)
  {
    |ops| >= 1 && Attempts(docs, ops[..|ops| - 1]) && ops[|ops| - 1].CommitOp?
  }

  /** One more add, of any document, extends the attempts by that document. */
  lemma AttemptsStep(docs: seq<Document>, ops: seq<Op>, op: Op)
    requires Attempts(docs, ops) && op.AddOp?
    ensures Attempts(docs + [op.doc], ops + [op])
  {
    AppendPrefix(ops, op);
  }

  /** An add stages its document after those staged so far, after any
      earlier documents `h`, exactly when the engine accepts it. */
  lemma AcceptedDocsAdd(h: seq<Document>, ops: seq<Op>, doc: Document, outcome: Outcome)
    ensures h + AcceptedDocs(ops + [AddOp(doc, outcome)]) ==
              if outcome.Pass? then h + AcceptedDocs(ops) + [doc] else h + AcceptedDocs(ops)
  {
    AppendPrefix(ops, AddOp(doc, outcome));
    if outcome.Pass? {
      AppendAssoc(h, AcceptedDocs(ops), [doc]);
    } else {
      assert AcceptedDocs(ops) + [] == AcceptedDocs(ops);
    }
  }

  /** A commit after one add per document completes a batch. */
  lemma StageAllThenCommitIntro(docs: seq<Document>, adds: seq<Op>, op: Op)
    requires Attempts(docs, adds) && op.CommitOp?
    ensures StageAllThenCommit(docs, adds + [op])
    ensures (adds + [op])[..|docs|] == adds
  {
    AppendPrefix(adds, op);
  }

  /** Such a batch commits once and stages at most the offered documents; if
      the commit succeeds, everything staged before it plus every accepted
      document is searchable and nothing remains staged; if it fails, nothing
      new is searchable. */
  lemma StageAllThenCommitEffect(s: Store, docs: seq<Document>, ops: seq<Op>)
    requires StageAllThenCommit(docs, ops)
    ensures |ops| == |docs| + 1
    ensures CommitCount(ops) == 1
    ensures multiset(AcceptedDocs(ops[..|docs|])) <= multiset(docs)
    ensures var accepted := AcceptedDocs(ops[..|docs|]);
            Run(s, ops) ==
              if ops[|docs|].outcome.Pass? then Store(s.committed + s.staged + accepted, [])
              else Store(s.committed, s.staged + accepted)
  {
    var n := |ops| - 1;
    var adds := ops[..n];
    assert |OfferedDocs(adds)| == n;
    RunAdds(s, adds);
    AcceptedDocsSubMultiset(adds);
    var mid := Store(s.committed, s.staged + AcceptedDocs(adds));
    assert Run(s, ops) == Apply(mid, ops[n]);
  }

  /** Adding the document scheduled `k`-th, whatever the engine answers,
      extends the attempts along the schedule `order` by one, after any earlier
      staged documents `s0` and any earlier requests `h`. */
  lemma ScheduledAdd(rows: seq<Document>, order: seq<nat>, k: nat, adds: seq<Op>, doc: Document, outcome: Outcome,
                     s0: seq<Document>, h: seq<Op>)
    requires InRange(order, |rows|) && k < |order| && doc == rows[order[k]]
    requires Attempts(Permute(rows, order[..k]), adds)
    ensures Attempts(Permute(rows, order[..k + 1]), adds + [AddOp(doc, outcome)])
    ensures s0 + AcceptedDocs(adds + [AddOp(doc, outcome)]) ==
              if outcome.Pass? then s0 + AcceptedDocs(adds) + [doc] else s0 + AcceptedDocs(adds)
    ensures h + (adds + [AddOp(doc, outcome)]) == h + adds + [AddOp(doc, outcome)]
  {
    AttemptsStep(Permute(rows, order[..k]), adds, AddOp(doc, outcome));
    PermuteStep(rows, order, k);
    AcceptedDocsAdd(s0, adds, doc, outcome);
    AppendAssoc(h, adds, [AddOp(doc, outcome)]);
  }

  /** A commit after one add per document along a schedule of `rows`
      completes a batch of the scheduled documents, and the documents it
      staged are a sub-multiset of `rows`. */
  lemma ScheduledCommit(rows: seq<Document>, order: seq<nat>, adds: seq<Op>, op: Op)
    requires IsPermutation(order, |rows|) && InRange(order, |rows|)
    requires Attempts(Permute(rows, order), adds) && op.CommitOp?
    ensures StageAllThenCommit(Permute(rows, order), adds + [op])
    ensures |adds + [op]| == |rows| + 1 && (adds + [op])[|rows|] == op
    ensures (adds + [op])[..|rows|] == adds
    ensures multiset(AcceptedDocs(adds)) <= multiset(rows)
  {
    PermutationMultiset(rows, order);
    AcceptedDocsSubMultiset(adds);
    StageAllThenCommitIntro(Permute(rows, order), adds, op);
    LastOfAppend(adds, op);
  }

  /** A batch of two documents into an empty index: two adds then a commit,
      and two searchable documents exactly when all three requests succeeded. */
  lemma BatchOfTwo(docs: seq<Document>, ops: seq<Op>)
    requires StageAllThenCommit(docs, ops) && |docs| == 2
    ensures |ops| == 3 && ops[0].AddOp? && ops[1].AddOp? && ops[2].CommitOp?
    ensures OfferedDocs(ops[..2]) == [ops[0].doc, ops[1].doc]
    ensures |Run(Empty, ops).committed| <= 2
    ensures |Run(Empty, ops).committed| == 2 <==>
              ops[0].outcome.Pass? && ops[1].outcome.Pass? && ops[2].outcome.Pass?
  {
    StageAllThenCommitEffect(Empty, docs, ops);
    var adds := ops[..2];
    OfferedDocsAt(adds, 0);
    OfferedDocsAt(adds, 1);
    AllAcceptedIff(adds);
    assert AllAccepted(adds) <==> ops[0].outcome.Pass? && ops[1].outcome.Pass?;
  }

  /** Every document of `docs` added, in order, and accepted. */
  function AcceptedAdds(docs: seq<Document>): (ops: seq<Op>)
    ensures |ops| == |docs|
    decreases |docs|
  {
    if docs == [] then []
    else AcceptedAdds(docs[..|docs| - 1]) + [AddOp(docs[|docs| - 1], Pass)]
  }

  /** Accepting the next document extends the log, after any earlier
      requests `h`, by its add. */
  lemma AcceptedAddsStep(h: seq<Op>, docs: seq<Document>, i: nat)
    requires i < |docs|
    ensures h + AcceptedAdds(docs[..i]) + [AddOp(docs[i], Pass)] == h + AcceptedAdds(docs[..i + 1])
  {
    assert docs[..i + 1][..i] == docs[..i];
    AppendAssoc(h, AcceptedAdds(docs[..i]), [AddOp(docs[i], Pass)]);
  }

  /** Accepted adds stage exactly their documents, in order, and never commit. */
  lemma {:induction false} RunAcceptedAdds(s: Store, docs: seq<Document>)
    ensures Run(s, AcceptedAdds(docs)) == Store(s.committed, s.staged + docs)
    ensures CommitCount(AcceptedAdds(docs)) == 0
    decreases |docs|
  {
    if docs != [] {
      var n := |docs| - 1;
      RunAcceptedAdds(s, docs[..n]);
      AppendPrefix(AcceptedAdds(docs[..n]), AddOp(docs[n], Pass));
      assert docs == docs[..n] + [docs[n]];
    }
  }

  /** The protocol of a batch that stops at the first rejected add: accepted
      adds for a prefix of `docs`, then either the rejected add of the next
      document, or, once every document was accepted, exactly one commit. */
  ghost predicate StopAtFirstFailure(docs: seq<Document>, ops: seq<Op>)
  {
    && 1 <= |ops| <= |docs| + 1
    && var k := |ops| - 1;
       && ops[..k] == AcceptedAdds(docs[..k])
       && if k < |docs| then ops[k].AddOp? && ops[k].doc == docs[k] && ops[k].outcome.Fail?
          else ops[k].CommitOp?
  }

  /** A rejected add of the next document ends the batch. */
  lemma FirstFailureStop(docs: seq<Document>, i: nat, op: Op)
    requires i < |docs|
    requires op.AddOp? && op.doc == docs[i] && op.outcome.Fail?
    ensures StopAtFirstFailure(docs, AcceptedAdds(docs[..i]) + [op])
  {
    AppendPrefix(AcceptedAdds(docs[..i]), op);
  }

  /** Once every document was accepted, one commit ends the batch. */
  lemma FirstFailureCommit(docs: seq<Document>, op: Op)
    requires op.CommitOp?
    ensures StopAtFirstFailure(docs, AcceptedAdds(docs) + [op])
  {
    AppendPrefix(AcceptedAdds(docs), op);
    assert docs[..|docs|] == docs;
  }

  /** Such a batch commits at most once, and exactly once when no add was
      rejected; a rejected add leaves the searchable documents as they were
      (only the accepted prefix is staged); a successful commit makes every
      document searchable. */
  lemma StopAtFirstFailureEffect(s: Store, docs: seq<Document>, ops: seq<Op>)
    requires StopAtFirstFailure(docs, ops)
    ensures CommitCount(ops) == (if ops[|ops| - 1].CommitOp? then 1 else 0)
    ensures ops[|ops| - 1].CommitOp? <==> |ops| == |docs| + 1
    ensures Run(s, ops) ==
              if ops[|ops| - 1].CommitOp? && ops[|ops| - 1].outcome.Pass? then Store(s.committed + s.staged + docs, [])
              else Store(s.committed, s.staged + docs[..|ops| - 1])
  {
    var k := |ops| - 1;
    RunAcceptedAdds(s, docs[..k]);
    assert k == |docs| ==> docs[..k] == docs;
  }

  /** One index of the engine: its name, identity field and indexed fields,
      fixed at creation, and its documents. `history` records every request. */
  class IndexWrapper {
    const name: string
    const nameField: string
    const fields: seq<string>
    /** The names of the fields the index accepts, as the engine reports them:
        at least the declared fields, and possibly more, such as the identity
        field. */
    const fieldNames: seq<string>
    var committed: seq<Document>
    var staged: seq<Document>
    ghost var history: seq<Op>

    /** The documents are those the recorded requests produce. */
    ghost predicate Valid()
      reads this
    {
      Store(committed, staged) == Run(Empty, history)
    }

    constructor (name: string, nameField: string, fields: seq<string>)
      ensures Valid()
      ensures this.name == name && this.nameField == nameField && this.fields == fields
      ensures forall f :: f in fields ==> f in fieldNames
      ensures committed == [] && staged == [] && history == []
    {
      this.name := name;
      this.nameField := nameField;
      this.fields := fields;
      var others: seq<string> := *;
      this.fieldNames := fields + others;
      committed, staged, history := [], [], [];
    }

    /** The number of searchable documents. */
    function NumDocs(): (n: nat)
      reads this
      ensures Valid() ==> n == |Run(Empty, history).committed|
    {
      |committed|
    }

    /** Stages one document; the engine may reject it. */
    method AddDocument(doc: Document) returns (r: Outcome)
      requires Valid()
      modifies this
      ensures Valid()
      ensures history == old(history) + [AddOp(doc, r)]
      ensures committed == old(committed)
      ensures staged == if r.Pass? then old(staged) + [doc] else old(staged)
    {
      r := *;
      if r.Pass? {
        staged := staged + [doc];
      }
      RunStep(history, AddOp(doc, r));
      history := history + [AddOp(doc, r)];
    }

    /** Makes every staged document searchable; the engine may fail, and then
        nothing changes. */
    method Commit() returns (r: Outcome)
      requires Valid()
      modifies this
      ensures Valid()
      ensures history == old(history) + [CommitOp(r)]
      ensures r.Pass? ==> committed == old(committed) + old(staged) && staged == []
      ensures r.Fail? ==> committed == old(committed) && staged == old(staged)
    {
      r := *;
      if r.Pass? {
        committed, staged := committed + staged, [];
      }
      RunStep(history, CommitOp(r));
      history := history + [CommitOp(r)];
    }

    /** Answers a query; ranking and tokenisation belong to the engine, so the
        answer is unconstrained and the documents do not change. */
    method Search(query: string) returns (r: Result<seq<string>>)
      requires Valid()
      modifies this
      ensures Valid()
      ensures history == old(history) + [QueryOp(query)]
      ensures committed == old(committed) && staged == old(staged)
    {
      r := *;
      RunStep(history, QueryOp(query));
      history := history + [QueryOp(query)];
    }
  }

  /** Accumulates documents against one index and commits them together. */
  class BatchIndexer {
    const index: IndexWrapper

    constructor (index: IndexWrapper)
      ensures this.index == index
    {
      this.index := index;
    }

    method AddDocument(doc: Document) returns (r: Outcome)
      requires index.Valid()
      modifies index
      ensures index.Valid()
      ensures index.history == old(index.history) + [AddOp(doc, r)]
      ensures index.committed == old(index.committed)
      ensures index.staged == if r.Pass? then old(index.staged) + [doc] else old(index.staged)
    {
      r := index.AddDocument(doc);
    }

    method Commit() returns (r: Outcome)
      requires index.Valid()
      modifies index
      ensures index.Valid()
      ensures index.history == old(index.history) + [CommitOp(r)]
      ensures r.Pass? ==> index.committed == old(index.committed) + old(index.staged) && index.staged == []
      ensures r.Fail? ==> index.committed == old(index.committed) && index.staged == old(index.staged)
    {
      r := index.Commit();
    }
  }
}
