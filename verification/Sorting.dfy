/** Sorted sequences, and counting how many elements satisfy a predicate. */
module Sorting {
  import opened Wrappers

  ghost predicate Sorted(s: seq<int>) {
    forall i, j :: 0 <= i < j < |s| ==> s[i] <= s[j]
  }

  ghost predicate IsSortOf(t: seq<int>, s: seq<int>) {
    Sorted(t) && multiset(t) == multiset(s)
  }

  function InsertSorted(t: seq<int>, x: int): seq<int> {
    if t == [] || t[|t| - 1] <= x then t + [x]
    else InsertSorted(t[..|t| - 1], x) + [t[|t| - 1]]
  }

  /** `sort.Float64s`: the sorted arrangement of `s`. */
  function SortOf(s: seq<int>): seq<int> {
    if s == [] then [] else InsertSorted(SortOf(s[..|s| - 1]), s[|s| - 1])
  }

  lemma SameLength(a: seq<int>, b: seq<int>)
    requires multiset(a) == multiset(b)
    ensures |a| == |b|
  {
    assert |multiset(a)| == |a| && |multiset(b)| == |b|;
  }

  lemma {:induction false} InsertSortedPermutes(t: seq<int>, x: int)
    ensures multiset(InsertSorted(t, x)) == multiset(t) + multiset{x}
  {
    if t != [] && t[|t| - 1] > x {
      InsertSortedPermutes(t[..|t| - 1], x);
      SplitLast(t);
    }
  }

  lemma {:induction false} InsertSortedSorts(t: seq<int>, x: int)
    requires Sorted(t)
    ensures Sorted(InsertSorted(t, x))
  {
    if t != [] && t[|t| - 1] > x {
      var front, z := t[..|t| - 1], t[|t| - 1];
      InsertSortedSorts(front, x);
      InsertSortedPermutes(front, x);
      var r := InsertSorted(front, x);
      forall i | 0 <= i < |r|
        ensures r[i] <= z
      {
        assert r[i] in multiset(r);
        assert r[i] == x || r[i] in front;
      }
    }
  }

  lemma {:induction false} SortOfSorts(s: seq<int>)
    ensures IsSortOf(SortOf(s), s)
    ensures |SortOf(s)| == |s|
  {
    if s != [] {
      SortOfSorts(s[..|s| - 1]);
      SplitLast(s);
      InsertSortedSorts(SortOf(s[..|s| - 1]), s[|s| - 1]);
      InsertSortedPermutes(SortOf(s[..|s| - 1]), s[|s| - 1]);
    }
    SameLength(SortOf(s), s);
  }

  /** A sequence has one sorted arrangement. */
  lemma {:induction false} SortUnique(a: seq<int>, b: seq<int>)
    requires Sorted(a) && Sorted(b) && multiset(a) == multiset(b)
    ensures a == b
  {
    SameLength(a, b);
    if a != [] {
      var n := |a| - 1;
      LastIsMax(a, b);
      LastIsMax(b, a);
      assert b[n] in b && a[n] in a;
      assert a[n] == b[n];
      SplitLast(a);
      SplitLast(b);
      Cancel(a[n], multiset(a[..n]), multiset(b[..n]));
      SortUnique(a[..n], b[..n]);
      assert a == a[..n] + [a[n]] && b == b[..n] + [b[n]];
    }
  }

  lemma LastIsMax(a: seq<int>, b: seq<int>)
    requires Sorted(a) && a != [] && multiset(a) == multiset(b)
    ensures forall x :: x in b ==> x <= a[|a| - 1]
  {
    forall x | x in b
      ensures x <= a[|a| - 1]
    {
      assert x in multiset(a);
      var i :| 0 <= i < |a| && a[i] == x;
    }
  }

  ghost function CountIf(s: seq<int>, p: int -> bool): (c: nat)
    ensures c <= |s|
  {
    if s == [] then 0 else CountIf(s[..|s| - 1], p) + if p(s[|s| - 1]) then 1 else 0
  }

  lemma {:induction false} CountIfAppend(a: seq<int>, b: seq<int>, p: int -> bool)
    ensures CountIf(a + b, p) == CountIf(a, p) + CountIf(b, p)
    decreases |b|
  {
    if b == [] {
      assert a + b == a;
    } else {
      assert (a + b)[..|a + b| - 1] == a + b[..|b| - 1];
      CountIfAppend(a, b[..|b| - 1], p);
    }
  }

  /** Counting does not depend on the order of the elements. */
  lemma {:induction false} CountIfPermutation(a: seq<int>, b: seq<int>, p: int -> bool)
    requires multiset(a) == multiset(b)
    ensures CountIf(a, p) == CountIf(b, p)
    decreases |a|
  {
    SameLength(a, b);
    if a != [] {
      var n := |a| - 1;
      var i := RemoveLast(a, b);
      CountIfPermutation(a[..n], b[..i] + b[i + 1..], p);
      assert b == b[..i] + ([b[i]] + b[i + 1..]);
      CountIfAppend(b[..i], [b[i]] + b[i + 1..], p);
      CountIfAppend([b[i]], b[i + 1..], p);
      CountIfAppend(b[..i], b[i + 1..], p);
      assert CountIf([b[i]], p) == if p(b[i]) then 1 else 0;
    }
  }

  /** The last element of `a` occurs in any rearrangement `b`, and taking both away leaves a rearrangement. */
  lemma RemoveLast(a: seq<int>, b: seq<int>) returns (i: nat)
    requires multiset(a) == multiset(b) && a != []
    ensures i < |b| && b[i] == a[|a| - 1]
    ensures multiset(b[..i] + b[i + 1..]) == multiset(a[..|a| - 1])
  {
    var x := a[|a| - 1];
    assert x in multiset(b);
    i :| 0 <= i < |b| && b[i] == x;
    SplitLast(a);
    assert b == b[..i] + ([x] + b[i + 1..]);
    var rest := b[..i] + b[i + 1..];
    assert multiset(rest) == multiset(b[..i]) + multiset(b[i + 1..]);
    assert multiset(b) == multiset(rest) + multiset{x};
    Cancel(x, multiset(rest), multiset(a[..|a| - 1]));
  }

  ghost predicate DownwardClosed(p: int -> bool) {
    forall x, y :: x <= y && p(y) ==> p(x)
  }

  /** In a sorted sequence, at least `k` elements are below a cut exactly when the `k`-th is. */
  lemma {:induction false} CountIfSorted(s: seq<int>, p: int -> bool, k: nat)
    requires Sorted(s) && DownwardClosed(p) && 1 <= k <= |s|
    ensures CountIf(s, p) >= k <==> p(s[k - 1])
    decreases |s|
  {
    var n := |s| - 1;
    if k == |s| {
      if p(s[n]) {
        CountIfAll(s, p);
      }
    } else {
      CountIfSorted(s[..n], p, k);
      if p(s[n]) {
        assert s[k - 1] <= s[n];
      }
    }
  }

  lemma {:induction false} CountIfAll(s: seq<int>, p: int -> bool)
    requires forall i :: 0 <= i < |s| ==> p(s[i])
    ensures CountIf(s, p) == |s|
  {
    if s != [] {
      CountIfAll(s[..|s| - 1], p);
    }
  }

  /** Counting is the number of places at which the predicate holds. */
  lemma {:induction false} CountIfPlaces(s: seq<int>, p: int -> bool)
    ensures CountIf(s, p) == |Places(s, p)|
  {
    if s != [] {
      var n := |s| - 1;
      CountIfPlaces(s[..n], p);
      PlacesSnoc(s, p);
    }
  }

  // --- Ranks --------------------------------------------------------------------

  ghost function AtMost(v: int): int -> bool {
    x => x <= v
  }

  ghost function Below(v: int): int -> bool {
    x => x < v
  }

  /** The element of a rank is the one value that so many elements do not exceed, and fewer are below. */
  lemma RankIff(t: seq<int>, rank: nat, v: int)
    requires Sorted(t) && 1 <= rank <= |t|
    ensures v == t[rank - 1] <==> CountIf(t, AtMost(v)) >= rank && CountIf(t, Below(v)) < rank
  {
    CountIfSorted(t, AtMost(v), rank);
    CountIfSorted(t, Below(v), rank);
  }

  lemma SortRankIff(s: seq<int>, rank: nat, v: int)
    requires 1 <= rank <= |s| == |SortOf(s)|
    ensures v == SortOf(s)[rank - 1] <==> CountIf(s, AtMost(v)) >= rank && CountIf(s, Below(v)) < rank
  {
    SortOfSorts(s);
    RankIff(SortOf(s), rank, v);
    CountIfPermutation(s, SortOf(s), AtMost(v));
    CountIfPermutation(s, SortOf(s), Below(v));
  }
}
