/**
 * Sequence helpers shared by the model: `Array.prototype.filter` as a
 * recursive function, and the subsequence relation used to say that a
 * filter keeps the original order.
 */
module Seqs {

  /** `s.filter(keep)`: the elements of `s` for which `keep` holds, in order. */
  function Filter<T(==)>(s: seq<T>, keep: T -> bool): (r: seq<T>)
    ensures |r| <= |s|
    ensures forall i :: 0 <= i < |r| ==> r[i] in s && keep(r[i])
    ensures forall i :: 0 <= i < |s| && keep(s[i]) ==> s[i] in r
  {
    if |s| == 0 then []
    else if keep(s[0]) then [s[0]] + Filter(s[1..], keep)
    else Filter(s[1..], keep)
  }

  /** `a` is obtained from `b` by deleting elements (order is kept). */
  predicate IsSubsequence<T(==)>(a: seq<T>, b: seq<T>)
  {
    if |a| == 0 then true
    else if |b| == 0 then false
    else if a[0] == b[0] then IsSubsequence(a[1..], b[1..])
    else IsSubsequence(a, b[1..])
  }

  /** A filter deletes elements and never reorders them. */
  lemma {:induction false} FilterIsSubsequence<T>(s: seq<T>, keep: T -> bool)
    ensures IsSubsequence(Filter(s, keep), s)
  {
    if |s| > 0 {
      FilterIsSubsequence(s[1..], keep);
      var r := Filter(s, keep);
      if !keep(s[0]) && |r| > 0 {
        assert r[0] in r;
        assert r[0] != s[0];
      }
    }
  }

  /** A filter keeps every copy of a passing element and no copy of a failing one. */
  lemma {:induction false} FilterMultiplicity<T>(s: seq<T>, keep: T -> bool, x: T)
    ensures multiset(Filter(s, keep))[x] == if keep(x) then multiset(s)[x] else 0
  {
    if |s| > 0 {
      FilterMultiplicity(s[1..], keep, x);
      assert s == [s[0]] + s[1..];
    }
  }

  /** `FilterMultiplicity` for every element at once. */
  lemma FilterMultiplicities<T>(s: seq<T>, keep: T -> bool)
    ensures forall x :: multiset(Filter(s, keep))[x] == if keep(x) then multiset(s)[x] else 0
  {
    forall x ensures multiset(Filter(s, keep))[x] == if keep(x) then multiset(s)[x] else 0 {
      FilterMultiplicity(s, keep, x);
    }
  }

  /** The test `x => p(x) && q(x)`. */
  function And<T>(p: T -> bool, q: T -> bool): T -> bool {
    x => p(x) && q(x)
  }

  /** Filtering twice is filtering once by the conjunction. */
  lemma {:induction false} FilterCompose<T>(s: seq<T>, p: T -> bool, q: T -> bool)
    ensures Filter(Filter(s, p), q) == Filter(s, And(p, q))
  {
    if |s| > 0 {
      FilterCompose(s[1..], p, q);
    }
  }

  /** Two tests that agree on every element of `s` filter it alike. */
  lemma {:induction false} FilterExtensional<T>(s: seq<T>, p: T -> bool, q: T -> bool)
    requires forall i :: 0 <= i < |s| ==> p(s[i]) == q(s[i])
    ensures Filter(s, p) == Filter(s, q)
  {
    if |s| > 0 {
      FilterExtensional(s[1..], p, q);
    }
  }

  /** A filter whose test every element passes is the identity. */
  lemma {:induction false} FilterKeepsAll<T>(s: seq<T>, keep: T -> bool)
    requires forall i :: 0 <= i < |s| ==> keep(s[i])
    ensures Filter(s, keep) == s
  {
    if |s| > 0 {
      FilterKeepsAll(s[1..], keep);
    }
  }

  /** Filtering by a weaker test first and a stronger one afterwards is filtering by the stronger one. */
  lemma FilterNarrowing<T>(s: seq<T>, weak: T -> bool, strong: T -> bool)
    requires forall x :: strong(x) ==> weak(x)
    ensures Filter(Filter(s, weak), strong) == Filter(s, strong)
  {
    FilterCompose(s, weak, strong);
    FilterExtensional(s, And(weak, strong), strong);
  }

  /** A filter is idempotent. */
  lemma FilterIdempotent<T>(s: seq<T>, keep: T -> bool)
    ensures Filter(Filter(s, keep), keep) == Filter(s, keep)
  {
    FilterNarrowing(s, keep, keep);
  }
  /** A filter keeps at least two elements exactly when two different positions pass the test. */
  lemma {:induction false} FilterHasTwo<T>(s: seq<T>, keep: T -> bool)
    ensures |Filter(s, keep)| > 1 <==> exists i, j :: 0 <= i < j < |s| && keep(s[i]) && keep(s[j])
  {
    if |s| > 0 {
      var t := s[1..];
      FilterHasTwo(t, keep);
      assert forall k :: 1 <= k < |s| ==> s[k] == t[k - 1];
      if keep(s[0]) {
        if |Filter(t, keep)| > 0 {
          var x := Filter(t, keep)[0];
          var k :| 0 <= k < |t| && t[k] == x;
          assert keep(s[0]) && keep(s[k + 1]);
        }
        if exists i, j :: 0 <= i < j < |s| && keep(s[i]) && keep(s[j]) {
          var i, j :| 0 <= i < j < |s| && keep(s[i]) && keep(s[j]);
          assert t[j - 1] in Filter(t, keep);
        }
      } else {
        if exists i, j :: 0 <= i < j < |s| && keep(s[i]) && keep(s[j]) {
          var i, j :| 0 <= i < j < |s| && keep(s[i]) && keep(s[j]);
          assert keep(t[i - 1]) && keep(t[j - 1]);
        }
      }
    }
  }
}
