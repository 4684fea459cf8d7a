/**
 The leaderboard: an in-place insertion sort under the repository's own order,
 and the cut to the limit.
 */
module Leaderboard {
  import opened Wrappers

  datatype Entry = Entry(engineerID: string, costUSD: real, mergedPRCount: int, revertRate: real,
                         dollarsPerMergedPR: real)

  predicate Less(a: Entry, b: Entry) {
    if a.mergedPRCount == 0 && b.mergedPRCount > 0 then false
    else if a.mergedPRCount > 0 && b.mergedPRCount == 0 then true
    else a.dollarsPerMergedPR < b.dollarsPerMergedPR
  }

  // --- The order ------------------------------------------------------------------

  /** Counts of merged pull requests, as the collector stores them. */
  predicate Counted(es: seq<Entry>) {
    forall i :: 0 <= i < |es| ==> es[i].mergedPRCount >= 0
  }

  /** Neither comes before the other. */
  predicate Tied(a: Entry, b: Entry) {
    !Less(a, b) && !Less(b, a)
  }

  /** On counts that are not negative, the order is a strict weak one. */
  lemma LessIsWeakOrder(a: Entry, b: Entry, c: Entry)
    requires Counted([a, b, c])
    ensures !Less(a, a) && !(Less(a, b) && Less(b, a))
    ensures Less(a, b) && Less(b, c) ==> Less(a, c)
    ensures Tied(a, b) && Tied(b, c) ==> Tied(a, c)
  {
    assert [a, b, c][0] == a && [a, b, c][1] == b && [a, b, c][2] == c;
  }

  /** With a negative count the order has a cycle. */
  lemma NegativeCountsCycle()
    ensures exists a: Entry, b: Entry, c: Entry :: a.mergedPRCount > 0 && b.mergedPRCount == 0 && c.mergedPRCount < 0 &&
                              Less(a, b) && Less(b, c) && Less(c, a)
  {
    var a, b, c := Entry("a", 9.0, 1, 0.0, 9.0), Entry("b", 1.0, 0, 0.0, 1.0), Entry("c", 5.0, -1, 0.0, 5.0);
    assert Less(a, b) && Less(b, c) && Less(c, a);
  }

  // --- The sort -------------------------------------------------------------------

  /** The entry walks left past every entry it comes before, until it meets one it does not. */
  function Insert(s: seq<Entry>, e: Entry): (r: seq<Entry>)
    ensures |r| == |s| + 1
  {
    if s == [] || !Less(e, s[|s| - 1]) then s + [e]
    else Insert(s[..|s| - 1], e) + [s[|s| - 1]]
  }

  function SortOf(s: seq<Entry>): (r: seq<Entry>)
    ensures |r| == |s|
  {
    if |s| <= 1 then s else Insert(SortOf(s[..|s| - 1]), s[|s| - 1])
  }

  lemma SortSnoc(s: seq<Entry>, i: nat)
    requires 0 < i < |s|
    ensures SortOf(s[..i + 1]) == Insert(SortOf(s[..i]), s[i])
  {
    assert s[..i + 1][..i] == s[..i];
  }

  method SortLeaderboard(es: array<Entry>)
    modifies es
    ensures es[..] == SortOf(old(es[..]))
  {
    ghost var before := es[..];
    var i := 1;
    while i < es.Length
      invariant 1 <= i && (es.Length > 0 ==> i <= es.Length)
      invariant es.Length > 0 ==> es[..i] == SortOf(before[..i]) && es[i..] == before[i..]
    {
      assert es[i] == before[i] && es[i + 1..] == es[i..][1..] == before[i + 1..];
      SortSnoc(before, i);
      WalkIn(es, i);
      i := i + 1;
    }
    if es.Length > 0 {
      assert es[..] == es[..i] && before[..i] == before;
    }
  }

  /** The array while the entry `e` stands at `j`, in the middle of the sorted entries. */
  ghost function Walking(sorted: seq<Entry>, e: Entry, rest: seq<Entry>, j: nat): seq<Entry>
    requires j <= |sorted|
  {
    sorted[..j] + [e] + sorted[j..] + rest
  }

  lemma WalkOne(sorted: seq<Entry>, e: Entry, rest: seq<Entry>, j: nat)
    requires 0 < j <= |sorted|
    ensures var a := Walking(sorted, e, rest, j);
            && a[j - 1] == sorted[j - 1] && a[j] == e
            && Walking(sorted, e, rest, j - 1) == a[j := sorted[j - 1]][j - 1 := e]
  {
  }

  /** The inner loop: the entry at `i` walks into the sorted part before it. */
  method WalkIn(es: array<Entry>, i: nat)
    requires 0 < i < es.Length
    modifies es
    ensures es[..] == Insert(old(es[..i]), old(es[i])) + old(es[i + 1..])
  {
    ghost var sorted, e, rest := es[..i], es[i], es[i + 1..];
    var j := i;
    assert es[..] == Walking(sorted, e, rest, i);
    while j > 0 && Less(es[j], es[j - 1])
      invariant 0 <= j <= i
      invariant es[..] == Walking(sorted, e, rest, j)
      invariant forall k :: j <= k < i ==> Less(e, sorted[k])
    {
      WalkOne(sorted, e, rest, j);
      es[j], es[j - 1] := es[j - 1], es[j];
      j := j - 1;
    }
    if j > 0 {
      WalkOne(sorted, e, rest, j);
    }
    assert es[..][j] == e;
    InsertPlace(sorted, e, j);
  }

  lemma {:induction false} InsertPlace(s: seq<Entry>, e: Entry, j: nat)
    requires j <= |s| && (forall k :: j <= k < |s| ==> Less(e, s[k])) && (j > 0 ==> !Less(e, s[j - 1]))
    ensures Insert(s, e) == s[..j] + [e] + s[j..]
  {
    if j < |s| {
      InsertPlace(s[..|s| - 1], e, j);
    }
  }

  // --- What the sort promises -----------------------------------------------------

  ghost predicate InOrder(s: seq<Entry>) {
    forall i, j :: 0 <= i < j < |s| ==> !Less(s[j], s[i])
  }

  lemma {:induction false} InsertPermutes(s: seq<Entry>, e: Entry)
    ensures multiset(Insert(s, e)) == multiset(s) + multiset{e}
  {
    if s != [] && Less(e, s[|s| - 1]) {
      InsertPermutes(s[..|s| - 1], e);
      assert s == s[..|s| - 1] + [s[|s| - 1]];
    }
  }

  /** The sort loses nothing and invents nothing. */
  lemma {:induction false} SortPermutes(s: seq<Entry>)
    ensures multiset(SortOf(s)) == multiset(s)
  {
    if |s| > 1 {
      var init, last := s[..|s| - 1], s[|s| - 1];
      SortPermutes(init);
      var sorted := SortOf(init);
      assert SortOf(s) == Insert(sorted, last);
      InsertPermutes(sorted, last);
      SplitLast(s);
    }
  }

  lemma MultisetCounted(s: seq<Entry>, t: seq<Entry>)
    requires multiset(s) == multiset(t) && Counted(s)
    ensures Counted(t)
  {
    forall i | 0 <= i < |t|
      ensures t[i].mergedPRCount >= 0
    {
      assert t[i] in multiset(t);
    }
  }

  lemma {:induction false} InsertInOrder(s: seq<Entry>, e: Entry)
    requires InOrder(s) && Counted(s) && e.mergedPRCount >= 0
    ensures InOrder(Insert(s, e))
  {
    if s != [] {
      var init, last := s[..|s| - 1], s[|s| - 1];
      if Less(e, last) {
        InsertInOrder(init, e);
        InsertPermutes(init, e);
        var r := Insert(init, e);
        forall x | x in r
          ensures !Less(last, x)
        {
          assert x in multiset(init) + multiset{e};
        }
      } else {
        forall i | 0 <= i < |s|
          ensures !Less(e, s[i])
        {
          assert Counted([e, last, s[i]]);
          LessIsWeakOrder(e, s[i], last);
        }
      }
    }
  }

  lemma {:induction false} SortInOrder(s: seq<Entry>)
    requires Counted(s)
    ensures InOrder(SortOf(s))
  {
    if |s| > 1 {
      var init := s[..|s| - 1];
      SortInOrder(init);
      SortPermutes(init);
      MultisetCounted(init, SortOf(init));
      InsertInOrder(SortOf(init), s[|s| - 1]);
    }
  }

  /** The entries tied with `k`, in their order. */
  ghost function TiedWith(s: seq<Entry>, k: Entry): seq<Entry> {
    if s == [] then []
    else TiedWith(s[..|s| - 1], k) + if Tied(s[|s| - 1], k) then [s[|s| - 1]] else []
  }

  lemma TiedWithSnoc(s: seq<Entry>, e: Entry, k: Entry)
    ensures TiedWith(s + [e], k) == TiedWith(s, k) + if Tied(e, k) then [e] else []
  {
    assert (s + [e])[..|s|] == s;
  }

  lemma {:induction false} InsertStable(s: seq<Entry>, e: Entry, k: Entry)
    requires Counted(s) && e.mergedPRCount >= 0 && k.mergedPRCount >= 0
    ensures TiedWith(Insert(s, e), k) == TiedWith(s, k) + if Tied(e, k) then [e] else []
  {
    if s == [] || !Less(e, s[|s| - 1]) {
      TiedWithSnoc(s, e, k);
    } else {
      var init, last := s[..|s| - 1], s[|s| - 1];
      InsertStable(init, e, k);
      TiedWithSnoc(Insert(init, e), last, k);
      LessIsWeakOrder(e, k, last);
      assert !(Tied(e, k) && Tied(last, k));
    }
  }

  /** The sort is stable: tied entries keep the order they had. */
  lemma {:induction false} SortStable(s: seq<Entry>, k: Entry)
    requires Counted(s) && k.mergedPRCount >= 0
    ensures TiedWith(SortOf(s), k) == TiedWith(s, k)
  {
    if |s| > 1 {
      var init := s[..|s| - 1];
      SortStable(init, k);
      SortPermutes(init);
      MultisetCounted(init, SortOf(init));
      InsertStable(SortOf(init), s[|s| - 1], k);
    }
  }

  // --- The cut --------------------------------------------------------------------

  function Cut(n: nat, limit: int): nat {
    var limit := if limit <= 0 then 100 else limit;
    if n > limit then limit else n
  }

  /** `rows` are the latest snapshots of the window, one an engineer. */
  method TopEntries(rows: seq<Entry>, limit: int) returns (entries: seq<Entry>)
    ensures entries == SortOf(rows)[..Cut(|rows|, limit)]
    ensures var most := if limit > 0 then limit else 100; |entries| == if |rows| <= most then |rows| else most
  {
    var limit' := limit;
    if limit' <= 0 {
      limit' := 100;
    }
    var es := new Entry[|rows|](i requires 0 <= i < |rows| => rows[i]);
    assert es[..] == rows;
    SortLeaderboard(es);
    entries := es[..];
    if |entries| > limit' {
      entries := entries[..limit'];
    }
  }

  /** None of the entries from `n` on comes before the first `n`, and those without merges are last among all. */
  ghost predicate KeepsLeast(sorted: seq<Entry>, n: nat) {
    && (forall i, j :: 0 <= i < n <= j < |sorted| ==> !Less(sorted[j], sorted[i]))
    && (forall i, j :: 0 <= i < j < |sorted| && sorted[i].mergedPRCount == 0 ==> sorted[j].mergedPRCount == 0)
  }

  /** Those with merges come by ascending dollars per merged pull request, and so do those without, behind them. */
  ghost predicate Ranked(sorted: seq<Entry>) {
    forall i, j :: 0 <= i < j < |sorted| ==>
      || (sorted[i].mergedPRCount > 0 && sorted[j].mergedPRCount == 0)
      || ((sorted[i].mergedPRCount > 0 <==> sorted[j].mergedPRCount > 0) &&
          sorted[i].dollarsPerMergedPR <= sorted[j].dollarsPerMergedPR)
  }

  lemma SortedKeepsLeast(sorted: seq<Entry>, n: nat)
    requires InOrder(sorted) && Counted(sorted)
    ensures KeepsLeast(sorted, n) && Ranked(sorted)
  {
    forall i, j | 0 <= i < j < |sorted| && sorted[i].mergedPRCount == 0
      ensures sorted[j].mergedPRCount == 0
    {
      assert !Less(sorted[j], sorted[i]);
    }
  }

  lemma SplitAt(s: seq<Entry>, n: nat)
    requires n <= |s|
    ensures multiset(s[..n]) + multiset(s[n..]) == multiset(s)
  {
    assert s == s[..n] + s[n..];
  }

  /**
   Wherever the cut falls, what is shown are the least entries, nothing is lost between them and
   what is cut off, and nobody with merges is cut off while somebody without them is shown.
   */
  lemma CutKeepsLeast(rows: seq<Entry>, n: nat)
    requires Counted(rows) && n <= |rows|
    ensures KeepsLeast(SortOf(rows), n) && Ranked(SortOf(rows))
    ensures multiset(SortOf(rows)[..n]) + multiset(SortOf(rows)[n..]) == multiset(rows)
  {
    SortInOrder(rows);
    SortPermutes(rows);
    MultisetCounted(rows, SortOf(rows));
    SortedKeepsLeast(SortOf(rows), n);
    SplitAt(SortOf(rows), n);
  }
}
