/** Shared vocabulary: failure-carrying results and the document type. */
module Common {

  /** The `Result<()>` of the Rust code: success, or an error rendered as text. */
  datatype Outcome = Pass | Fail(error: string)

  /** A value-carrying result, `Result<T>` in the Rust code. */
  datatype Result<T> = Ok(value: T) | Err(error: string)

  /** A nullable cell of a column. */
  datatype Option<T> = None | Some(value: T)

  /** A document: field name to text value. */
  type Document = map<string, string>

  /** Growing a prefix by one element, after a fixed prefix `h`, appends that
      element. */
  lemma PrefixStepAfter<T>(h: seq<T>, s: seq<T>, i: nat)
    requires i < |s|
    ensures h + s[..i] + [s[i]] == h + s[..i + 1]
  {
    assert s[..i + 1] == s[..i] + [s[i]];
  }

  /** Concatenation is associative. */
  lemma AppendAssoc<T>(a: seq<T>, b: seq<T>, c: seq<T>)
    ensures a + (b + c) == a + b + c
  {
  }

  /** The last element of `s + [x]` is `x`. */
  lemma LastOfAppend<T>(s: seq<T>, x: T)
    ensures (s + [x])[|s + [x]| - 1] == x
  {
  }

  /** Appending one element leaves the old sequence as a prefix. */
  lemma AppendPrefix<T>(s: seq<T>, x: T)
    ensures (s + [x])[..|s|] == s
  {
  }

  /** The numbers `0 .. n`, ascending. */
  function Range(n: nat): (r: seq<nat>)
    ensures |r| == n
    ensures forall i :: 0 <= i < n ==> r[i] == i
  {
    if n == 0 then [] else Range(n - 1) + [n - 1]
  }

  /** `order` lists each of `0 .. n` exactly once: one schedule of `n` tasks. */
  ghost predicate IsPermutation(order: seq<nat>, n: nat)
  {
    multiset(order) == multiset(Range(n))
  }

  /** Every position in `idx` is below `n`. */
  ghost predicate InRange(idx: seq<nat>, n: nat)
  {
    forall i :: 0 <= i < |idx| ==> idx[i] < n
  }

  /** A schedule of `n` tasks has `n` entries, each below `n`. */
  lemma PermutationBounds(order: seq<nat>, n: nat)
    requires IsPermutation(order, n)
    ensures |order| == n && InRange(order, n)
  {
    assert |order| == |multiset(order)| == |multiset(Range(n))| == n;
    forall i | 0 <= i < |order|
      ensures order[i] < n
    {
      assert order[i] in multiset(Range(n));
    }
  }

  /** The elements of `s` at the positions `idx`, in that order. */
  function Permute<T>(s: seq<T>, idx: seq<nat>): (r: seq<T>)
    requires InRange(idx, |s|)
    ensures |r| == |idx|
    decreases |idx|
  {
    if idx == [] then []
    else Permute(s, idx[..|idx| - 1]) + [s[idx[|idx| - 1]]]
  }

  /** The `k`-th picked element is the element at the `k`-th position. */
  lemma {:induction false} PermuteAt<T>(s: seq<T>, idx: seq<nat>, k: nat)
    requires InRange(idx, |s|) && k < |idx|
    ensures Permute(s, idx)[k] == s[idx[k]]
    decreases |idx|
  {
    var n := |idx| - 1;
    if k < n {
      PermuteAt(s, idx[..n], k);
    }
  }

  /** Picking one more position appends its element. */
  lemma PermuteStep<T>(s: seq<T>, idx: seq<nat>, k: nat)
    requires InRange(idx, |s|) && k < |idx|
    ensures Permute(s, idx[..k + 1]) == Permute(s, idx[..k]) + [s[idx[k]]]
  {
    assert idx[..k + 1][..k] == idx[..k];
  }

  /** Picking two runs of positions picks each run in turn. */
  lemma {:induction false} PermuteAppend<T>(s: seq<T>, a: seq<nat>, b: seq<nat>)
    requires InRange(a, |s|) && InRange(b, |s|)
    ensures Permute(s, a + b) == Permute(s, a) + Permute(s, b)
    decreases |b|
  {
    if b == [] {
      assert a + b == a;
    } else {
      var n := |b| - 1;
      assert (a + b)[..|a + b| - 1] == a + b[..n];
      PermuteAppend(s, a, b[..n]);
    }
  }

  /** Picking every position in ascending order gives `s` back. */
  lemma PermuteRange<T>(s: seq<T>)
    ensures InRange(Range(|s|), |s|)
    ensures Permute(s, Range(|s|)) == s
  {
    forall k | 0 <= k < |s|
      ensures Permute(s, Range(|s|))[k] == s[k]
    {
      PermuteAt(s, Range(|s|), k);
    }
  }

  /** A sequence is what precedes position `j`, the element there, and what follows. */
  lemma SplitAt<T>(b: seq<T>, j: nat)
    requires j < |b|
    ensures b == b[..j] + [b[j]] + b[j + 1..]
  {
  }

  /** Dropping the element at `j` drops one occurrence of it. */
  lemma MultisetRemove<T>(b: seq<T>, j: nat)
    requires j < |b|
    ensures multiset(b[..j] + b[j + 1..]) == multiset(b) - multiset{b[j]}
  {
    SplitAt(b, j);
  }

  /** Positions below `n` stay below `n` when cut or joined. */
  lemma InRangeParts(b: seq<nat>, j: nat, n: nat)
    requires InRange(b, n) && j < |b|
    ensures InRange(b[..j], n) && InRange([b[j]], n) && InRange(b[j + 1..], n)
    ensures InRange(b[..j] + [b[j]], n) && InRange(b[..j] + b[j + 1..], n)
  {
    var l, r := b[..j], b[j + 1..];
    forall i | 0 <= i < |l + r|
      ensures (l + r)[i] < n
    {
      if i < |l| {
        assert (l + r)[i] == b[i];
      } else {
        assert (l + r)[i] == b[i + 1];
      }
    }
  }

  /** Taking out one middle element takes one occurrence out of the multiset. */
  lemma MultisetMiddle<T>(p: seq<T>, y: T, q: seq<T>)
    ensures multiset(p + [y] + q) == multiset(p + q) + multiset{y}
  {
  }

  /** Picking around position `j` of `b` is picking before it, at it, and after it. */
  lemma PermuteAround<T>(s: seq<T>, b: seq<nat>, j: nat)
    requires InRange(b, |s|) && j < |b|
    ensures InRange(b[..j], |s|) && InRange(b[j + 1..], |s|) && InRange(b[..j] + b[j + 1..], |s|)
    ensures Permute(s, b) == Permute(s, b[..j]) + [s[b[j]]] + Permute(s, b[j + 1..])
    ensures Permute(s, b[..j] + b[j + 1..]) == Permute(s, b[..j]) + Permute(s, b[j + 1..])
  {
    var x := b[j];
    var l, r := b[..j], b[j + 1..];
    InRangeParts(b, j, |s|);
    assert Permute(s, b) == Permute(s, l) + [s[x]] + Permute(s, r) by {
      SplitAt(b, j);
      PermuteAppend(s, l + [x], r);
      PermuteAppend(s, l, [x]);
      assert Permute(s, [x]) == [s[x]];
    }
    PermuteAppend(s, l, r);
  }

  /** Picking the positions `b` picks the element at `b[j]` once more than
      picking them without `b[j]`. */
  lemma PermuteSplit<T>(s: seq<T>, b: seq<nat>, j: nat)
    requires InRange(b, |s|) && j < |b|
    ensures InRange(b[..j] + b[j + 1..], |s|)
    ensures multiset(Permute(s, b)) == multiset(Permute(s, b[..j] + b[j + 1..])) + multiset{s[b[j]]}
  {
    PermuteAround(s, b, j);
    MultisetMiddle(Permute(s, b[..j]), s[b[j]], Permute(s, b[j + 1..]));
  }

  /** An element of a sequence's multiset occurs at some position. */
  lemma PositionOf<T>(b: seq<T>, x: T) returns (j: nat)
    requires x in multiset(b)
    ensures j < |b| && b[j] == x
  {
    j :| 0 <= j < |b| && b[j] == x;
  }

  /** Picking the last position last: the multiset gains its element. */
  lemma PermuteLast<T>(s: seq<T>, a: seq<nat>)
    requires InRange(a, |s|) && a != []
    ensures InRange(a[..|a| - 1], |s|)
    ensures multiset(Permute(s, a)) == multiset(Permute(s, a[..|a| - 1])) + multiset{s[a[|a| - 1]]}
  {
  }

  /** Positions that agree as multisets pick elements that agree as multisets. */
  lemma {:induction false} PermuteMultiset<T>(s: seq<T>, a: seq<nat>, b: seq<nat>)
    requires InRange(a, |s|) && InRange(b, |s|)
    requires multiset(a) == multiset(b)
    ensures multiset(Permute(s, a)) == multiset(Permute(s, b))
    decreases |a|
  {
    if a == [] {
      assert |b| == |multiset(b)| == 0;
    } else {
      var n := |a| - 1;
      var x := a[n];
      var j := PositionOf(b, x);
      var rest := b[..j] + b[j + 1..];
      assert multiset(a[..n]) == multiset(rest) by {
        MultisetRemove(a, n);
        assert a[..n] + a[n + 1..] == a[..n];
        MultisetRemove(b, j);
      }
      PermuteSplit(s, b, j);
      PermuteMultiset(s, a[..n], rest);
      PermuteLast(s, a);
    }
  }

  /** Following a schedule of `|s|` tasks picks every element of `s` exactly once. */
  lemma PermutationMultiset<T>(s: seq<T>, order: seq<nat>)
    requires IsPermutation(order, |s|)
    ensures |order| == |s| && InRange(order, |s|)
    ensures multiset(Permute(s, order)) == multiset(s)
  {
    PermutationBounds(order, |s|);
    PermuteRange(s);
    PermuteMultiset(s, order, Range(|s|));
  }
}
