/** Sequence operations the store and the views are built from: `Array.prototype.filter` and a summing `reduce`. */
module Seqs {

  /** The elements of `s` that satisfy `p`, in their original order. */
  function Filter<T>(s: seq<T>, p: T -> bool): (r: seq<T>)
    ensures |r| <= |s|
    ensures forall i :: 0 <= i < |r| ==> p(r[i])
    ensures forall i :: 0 <= i < |s| && p(s[i]) ==> s[i] in r
    ensures forall i :: 0 <= i < |r| ==> r[i] in s
    decreases |s|
  {
    if |s| == 0 then []
    else if p(s[0]) then [s[0]] + Filter(s[1..], p)
    else Filter(s[1..], p)
  }

  /**
    `r` occurs in `s` with its elements in the same relative order
    (greedy matching, which is exact for subsequences).
  */
  predicate IsSubsequence<T(==)>(r: seq<T>, s: seq<T>)
    decreases |s|
  {
    if |r| == 0 then true
    else if |s| == 0 then false
    else if r[0] == s[0] then IsSubsequence(r[1..], s[1..])
    else IsSubsequence(r, s[1..])
  }

  /** The elements of `s` before the first occurrence of `stop` (all of `s` when it has none). */
  function TakeUntil<T(==)>(s: seq<T>, stop: T): (r: seq<T>)
    ensures |r| <= |s| && r == s[..|r|]
    ensures forall i :: 0 <= i < |r| ==> r[i] != stop
    ensures |r| < |s| ==> s[|r|] == stop
    decreases |s|
  {
    if |s| == 0 || s[0] == stop then [] else [s[0]] + TakeUntil(s[1..], stop)
  }

  /** What precedes the first `stop` is exactly the part written before it. */
  lemma TakeUntilFirst<T>(x: seq<T>, stop: T, y: seq<T>)
    requires forall i :: 0 <= i < |x| ==> x[i] != stop
    ensures TakeUntil(x + [stop] + y, stop) == x
  {
    var s := x + [stop] + y;
    var r := TakeUntil(s, stop);
    assert s[|x|] == stop;
  }

  /** Without `stop`, nothing is cut off. */
  lemma TakeUntilAbsent<T>(s: seq<T>, stop: T)
    requires forall i :: 0 <= i < |s| ==> s[i] != stop
    ensures TakeUntil(s, stop) == s
  {
  }

  /** Summation of `f` over the elements of `s`, as `reduce((sum, a) => sum + f(a), 0)`. */
  function SumOf<T>(s: seq<T>, f: T -> int): int
    decreases |s|
  {
    if |s| == 0 then 0 else f(s[0]) + SumOf(s[1..], f)
  }

  lemma SplitLast<T>(s: seq<T>)
    requires |s| > 0
    ensures s == s[..|s| - 1] + [s[|s| - 1]]
  {
  }

  /** Filtering keeps relative order. */
  lemma {:induction false} FilterIsSubsequence<T>(s: seq<T>, p: T -> bool)
    ensures IsSubsequence(Filter(s, p), s)
    decreases |s|
  {
    if |s| > 0 {
      FilterIsSubsequence(s[1..], p);
      var r := Filter(s, p);
      if !p(s[0]) && |r| > 0 {
        assert p(r[0]);
        assert r[0] != s[0];
      }
    }
  }

  /** Filtering distributes over concatenation. */
  lemma {:induction false} FilterAppend<T>(a: seq<T>, b: seq<T>, p: T -> bool)
    ensures Filter(a + b, p) == Filter(a, p) + Filter(b, p)
    decreases |a|
  {
    if |a| == 0 {
      assert a + b == b;
    } else {
      assert (a + b)[0] == a[0];
      assert (a + b)[1..] == a[1..] + b;
      FilterAppend(a[1..], b, p);
    }
  }

  /** A filter that every element passes is the identity. */
  lemma {:induction false} FilterKeepsAll<T>(s: seq<T>, p: T -> bool)
    requires forall i :: 0 <= i < |s| ==> p(s[i])
    ensures Filter(s, p) == s
    decreases |s|
  {
    if |s| > 0 {
      FilterKeepsAll(s[1..], p);
    }
  }

  /** A filter that no element passes yields the empty sequence. */
  lemma {:induction false} FilterDropsAll<T>(s: seq<T>, p: T -> bool)
    requires forall i :: 0 <= i < |s| ==> !p(s[i])
    ensures Filter(s, p) == []
    decreases |s|
  {
    if |s| > 0 {
      FilterDropsAll(s[1..], p);
    }
  }

  /** A predicate and its complement split `s`: the two filters' lengths add up to `|s|`. */
  lemma {:induction false} FilterPartition<T>(s: seq<T>, p: T -> bool, q: T -> bool)
    requires forall x :: q(x) == !p(x)
    ensures |Filter(s, p)| + |Filter(s, q)| == |s|
    decreases |s|
  {
    if |s| > 0 {
      FilterPartition(s[1..], p, q);
    }
  }

  /** Two filters applied one after the other keep the same elements whichever runs first. */
  lemma {:induction false} FilterCommute<T>(s: seq<T>, p: T -> bool, q: T -> bool)
    ensures Filter(Filter(s, p), q) == Filter(Filter(s, q), p)
    decreases |s|
  {
    if |s| > 0 {
      FilterCommute(s[1..], p, q);
      assert Filter(s, p) == (if p(s[0]) then [s[0]] else []) + Filter(s[1..], p);
      assert Filter(s, q) == (if q(s[0]) then [s[0]] else []) + Filter(s[1..], q);
      FilterAppend(if p(s[0]) then [s[0]] else [], Filter(s[1..], p), q);
      FilterAppend(if q(s[0]) then [s[0]] else [], Filter(s[1..], q), p);
    }
  }

  lemma SumOfCons<T>(x: T, t: seq<T>, f: T -> int)
    ensures SumOf([x] + t, f) == f(x) + SumOf(t, f)
  {
    assert ([x] + t)[1..] == t;
  }

  /** A predicate and its complement split the sum of `f` over `s`. */
  lemma {:induction false} SumFilterPartition<T>(s: seq<T>, f: T -> int, p: T -> bool, q: T -> bool)
    requires forall x :: q(x) == !p(x)
    ensures SumOf(Filter(s, p), f) + SumOf(Filter(s, q), f) == SumOf(s, f)
    decreases |s|
  {
    if |s| > 0 {
      SumFilterPartition(s[1..], f, p, q);
      if p(s[0]) {
        SumOfCons(s[0], Filter(s[1..], p), f);
      } else {
        SumOfCons(s[0], Filter(s[1..], q), f);
      }
    }
  }

  /** A sum of non-negative terms is non-negative. */
  lemma {:induction false} SumOfNonNegative<T>(s: seq<T>, f: T -> int)
    requires forall i :: 0 <= i < |s| ==> f(s[i]) >= 0
    ensures SumOf(s, f) >= 0
    decreases |s|
  {
    if |s| > 0 {
      SumOfNonNegative(s[1..], f);
    }
  }
}
