/**
 The nightly cohort pass: the team's median and every engineer's percentile rank.
 Dollars per merged pull request are whole units of any scale shared by the cohort.
 */
module Rollup {
  import opened Wrappers
  import opened Sorting

  // --- The median -------------------------------------------------------------------

  /** The greatest element of the lower half of `n` sorted ones, the middle one included. */
  function LowerMiddle(n: nat): int {
    if n % 2 == 1 then n / 2 else n / 2 - 1
  }

  function MedianOf(xs: seq<int>): real {
    var cp := SortOf(xs);
    SortOfSorts(xs);
    if xs == [] then 0.0
    else if |xs| % 2 == 1 then cp[|xs| / 2] as real
    else (cp[|xs| / 2 - 1] + cp[|xs| / 2]) as real / 2.0
  }

  ghost function AtOrBelow(m: real): int -> bool {
    x => x as real <= m
  }

  ghost function AtOrAbove(m: real): int -> bool {
    x => x as real >= m
  }

  ghost function Strictly(m: real): int -> bool {
    x => (x as real) < m
  }

  ghost predicate Halves(xs: seq<int>, m: real) {
    2 * CountIf(xs, AtOrBelow(m)) >= |xs| && 2 * CountIf(xs, AtOrAbove(m)) >= |xs|
  }

  /** At least half of the cohort is at or below the median, and at least half at or above. */
  lemma MedianHalves(xs: seq<int>)
    requires xs != []
    ensures Halves(xs, MedianOf(xs))
  {
    var t, m, low := MedianBounds(xs);
    HalfBelow(t, m, low);
    HalfAbove(t, m, |xs| / 2);
    CountIfPermutation(xs, t, AtOrBelow(m));
    CountIfPermutation(xs, t, AtOrAbove(m));
  }

  /** The median lies between the middle elements. */
  lemma MedianBounds(xs: seq<int>) returns (t: seq<int>, m: real, low: nat)
    requires xs != []
    ensures m == MedianOf(xs) && IsSortOf(t, xs) && |t| == |xs|
    ensures 2 * low + 1 >= |xs| - 1 && low <= |xs| / 2 && t[low] as real <= m <= t[|xs| / 2] as real
  {
    SortOfSorts(xs);
    t, m, low := SortOf(xs), MedianOf(xs), LowerMiddle(|xs|);
    assert t[low] <= t[|xs| / 2];
  }

  lemma HalfBelow(t: seq<int>, m: real, low: nat)
    requires Sorted(t) && low < |t| && t[low] as real <= m
    ensures CountIf(t, AtOrBelow(m)) > low
  {
    CountIfSorted(t, AtOrBelow(m), low + 1);
  }

  lemma HalfAbove(t: seq<int>, m: real, k: nat)
    requires Sorted(t) && k < |t| && t[k] as real >= m
    ensures CountIf(t, AtOrAbove(m)) >= |t| - k
  {
    CountIfSorted(t, Strictly(m), k + 1);
    Complement(t, m);
  }

  lemma {:induction false} Complement(xs: seq<int>, m: real)
    ensures CountIf(xs, Strictly(m)) + CountIf(xs, AtOrAbove(m)) == |xs|
  {
    if xs != [] {
      Complement(xs[..|xs| - 1], m);
    }
  }

  /** At least half of the cohort is at or below `v`, and less than half is below it. */
  ghost predicate IsLowerMiddle(xs: seq<int>, v: int) {
    2 * CountIf(xs, AtMost(v)) >= |xs| && 2 * CountIf(xs, Below(v)) < |xs|
  }

  /** At least half of the cohort is at or above `v`, and less than half is above it. */
  ghost predicate IsUpperMiddle(xs: seq<int>, v: int) {
    2 * (|xs| - CountIf(xs, Below(v))) >= |xs| && 2 * (|xs| - CountIf(xs, AtMost(v))) < |xs|
  }

  lemma MiddlesIff(xs: seq<int>, v: int)
    requires xs != []
    ensures |SortOf(xs)| == |xs|
    ensures IsLowerMiddle(xs, v) <==> v == SortOf(xs)[LowerMiddle(|xs|)]
    ensures IsUpperMiddle(xs, v) <==> v == SortOf(xs)[|xs| / 2]
  {
    var t := SortOf(xs);
    SortOfSorts(xs);
    CountIfPermutation(xs, t, AtMost(v));
    CountIfPermutation(xs, t, Below(v));
    MiddlesOfSorted(t, v);
  }

  lemma MiddlesOfSorted(t: seq<int>, v: int)
    requires Sorted(t) && t != []
    ensures IsLowerMiddle(t, v) <==> v == t[LowerMiddle(|t|)]
    ensures IsUpperMiddle(t, v) <==> v == t[|t| / 2]
  {
    RankIff(t, LowerMiddle(|t|) + 1, v);
    RankIff(t, |t| / 2 + 1, v);
  }

  /** The median is the mean of the lower and the upper middle, which are the same if the cohort is odd. */
  lemma MedianIff(xs: seq<int>, m: real)
    requires xs != []
    ensures m == MedianOf(xs) <==>
            exists lo, hi :: IsLowerMiddle(xs, lo) && IsUpperMiddle(xs, hi) && m == (lo + hi) as real / 2.0
  {
    SortOfSorts(xs);
    var lo, hi := SortOf(xs)[LowerMiddle(|xs|)], SortOf(xs)[|xs| / 2];
    MiddlesIff(xs, lo);
    MiddlesIff(xs, hi);
    assert MedianOf(xs) == (lo + hi) as real / 2.0;
    forall a, b | IsLowerMiddle(xs, a) && IsUpperMiddle(xs, b)
      ensures a == lo && b == hi
    {
      MiddlesIff(xs, a);
      MiddlesIff(xs, b);
    }
  }

  // --- The percentile rank ----------------------------------------------------------

  ghost function NotCheaper(value: int): int -> bool {
    x => x >= value
  }

  ghost function RankOf(cohort: seq<int>, value: int): int {
    if cohort == [] then 0 else CountIf(cohort, NotCheaper(value)) * 100 / |cohort|
  }

  method PercentileRank(cohort: seq<int>, value: int) returns (pct: int)
    ensures pct == RankOf(cohort, value)
  {
    if |cohort| == 0 {
      return 0;
    }
    var better := 0;
    for k := 0 to |cohort|
      invariant better == CountIf(cohort[..k], NotCheaper(value))
    {
      assert cohort[..k + 1][..k] == cohort[..k];
      if cohort[k] >= value {
        better := better + 1;
      }
    }
    assert cohort[..|cohort|] == cohort;
    return better * 100 / |cohort|;
  }

  /**
   The rank is the share of the cohort that is not cheaper: 100 exactly for those that
   nobody undercuts, so here a high rank is what reads as doing well.
   */
  lemma HundredIff(cohort: seq<int>, value: int)
    requires cohort != []
    ensures 0 <= RankOf(cohort, value) <= 100
    ensures RankOf(cohort, value) == 100 <==> forall x :: x in cohort ==> x >= value
  {
    PercentBounds(CountIf(cohort, NotCheaper(value)), |cohort|);
    if forall x :: x in cohort ==> x >= value {
      assert forall i :: 0 <= i < |cohort| ==> cohort[i] in cohort;
      CountIfAll(cohort, NotCheaper(value));
    } else {
      var x :| x in cohort && x < value;
      var i :| 0 <= i < |cohort| && cohort[i] == x;
      OneOut(cohort, NotCheaper(value), i);
    }
  }

  lemma TimesMonotone(n: nat, a: int, b: int)
    requires a <= b
    ensures n * a <= n * b
  {
  }

  lemma QuotientBelow(x: nat, n: nat, k: nat)
    requires n > 0 && x < n * k
    ensures x / n < k
  {
    if x / n >= k {
      TimesMonotone(n, k, x / n);
      assert false;
    }
  }

  lemma QuotientExact(n: nat, k: nat)
    requires n > 0
    ensures n * k / n == k
  {
    QuotientBelow(n * k, n, k + 1);
    var q := n * k / n;
    if q < k {
      TimesMonotone(n, q + 1, k);
      assert false;
    }
  }

  lemma PercentBounds(c: nat, n: nat)
    requires c <= n && n > 0
    ensures 0 <= c * 100 / n <= 100
    ensures c * 100 / n == 100 <==> c == n
  {
    if c < n {
      QuotientBelow(c * 100, n, 100);
    } else {
      QuotientExact(n, 100);
    }
  }

  /** The rank is the whole part of the percentage of the cohort that is not cheaper. */
  lemma RankOfIff(cohort: seq<int>, value: int, r: int)
    requires cohort != []
    ensures r == RankOf(cohort, value) <==>
            var n := |set i | 0 <= i < |cohort| && cohort[i] >= value|;
            r * |cohort| <= 100 * n < (r + 1) * |cohort|
  {
    CountIfPlaces(cohort, NotCheaper(value));
    assert Places(cohort, NotCheaper(value)) == set i | 0 <= i < |cohort| && cohort[i] >= value;
    WholePart(CountIf(cohort, NotCheaper(value)) * 100, |cohort|, r);
  }

  lemma WholePart(x: nat, n: nat, r: int)
    requires n > 0
    ensures r == x / n <==> r * n <= x < (r + 1) * n
  {
    var q := x / n;
    assert q * n <= x < (q + 1) * n;
    if r < q {
      TimesMonotone(n, r + 1, q);
    } else if r > q {
      TimesMonotone(n, q + 1, r);
    }
  }

  lemma {:induction false} OneOut(s: seq<int>, p: int -> bool, i: nat)
    requires i < |s| && !p(s[i])
    ensures CountIf(s, p) < |s|
  {
    if i < |s| - 1 {
      OneOut(s[..|s| - 1], p, i);
    }
  }

  /** A cheaper engineer never ranks lower. */
  lemma CheaperRanksNoLower(cohort: seq<int>, u: int, v: int)
    requires u <= v
    ensures RankOf(cohort, u) >= RankOf(cohort, v)
  {
    if cohort != [] {
      MoreCounted(cohort, u, v);
      QuotientMonotone(CountIf(cohort, NotCheaper(v)) * 100, CountIf(cohort, NotCheaper(u)) * 100, |cohort|);
    }
  }

  lemma {:induction false} MoreCounted(s: seq<int>, u: int, v: int)
    requires u <= v
    ensures CountIf(s, NotCheaper(u)) >= CountIf(s, NotCheaper(v))
  {
    if s != [] {
      MoreCounted(s[..|s| - 1], u, v);
    }
  }

  lemma QuotientMonotone(x: nat, y: nat, n: nat)
    requires n > 0 && x <= y
    ensures x / n <= y / n
  {
    QuotientBelow(x, n, y / n + 1);
  }

  // --- The two passes ---------------------------------------------------------------

  /** One engineer's row for a window; `peers` is the team's median and the engineer's rank. */
  datatype Row = Row(dpr: Option<int>, peers: Option<(real, int)>)

  /**
   What the first pass made of an engineer: nothing, or a row that was written. An engineer whose write reported an
   error although it took effect takes no part in the second pass; `backFill` is what becomes of the others' update.
   */
  datatype Computed =
    | Failed
    | Unheard(email: string, dpr: Option<int>)
    | Written(email: string, dpr: Option<int>, backFill: Fault)

  ghost predicate DistinctEmails(cs: seq<Computed>) {
    forall i, j :: 0 <= i < j < |cs| && !cs[i].Failed? && !cs[j].Failed? ==> cs[i].email != cs[j].email
  }

  /** The defined values, in order. */
  function ValidOf(cs: seq<Computed>): seq<int> {
    if cs == [] then []
    else
      var c := cs[|cs| - 1];
      ValidOf(cs[..|cs| - 1]) + if c.Written? && c.dpr.Some? then [c.dpr.value] else []
  }

  ghost function Ranked(valid: seq<int>, dpr: int): (real, int) {
    (MedianOf(valid), RankOf(valid, dpr))
  }

  /** The second pass updates the engineer's row. */
  predicate BackFills(c: Computed) {
    c.Written? && c.dpr.Some? && !c.backFill.ErrorBefore?
  }

  /** What the row of an engineer ends up as. */
  ghost function Final(cs: seq<Computed>, c: Computed): Row
    requires !c.Failed?
  {
    Row(c.dpr, if BackFills(c) && |ValidOf(cs)| >= 3 then Some(Ranked(ValidOf(cs), c.dpr.value)) else None)
  }

  /** The upserts of the first pass; they clear whatever rank there was. */
  function Upserted(rows: map<string, Row>, cs: seq<Computed>): map<string, Row> {
    if cs == [] then rows
    else
      var c, before := cs[|cs| - 1], Upserted(rows, cs[..|cs| - 1]);
      if c.Failed? then before else before[c.email := Row(c.dpr, None)]
  }

  /** The updates of the second pass; an update without a row to update does nothing. */
  ghost function BackFilled(rows: map<string, Row>, cs: seq<Computed>, valid: seq<int>): map<string, Row> {
    if cs == [] then rows
    else
      var c, before := cs[|cs| - 1], BackFilled(rows, cs[..|cs| - 1], valid);
      if BackFills(c) && c.email in before
      then before[c.email := before[c.email].(peers := Some(Ranked(valid, c.dpr.value)))] else before
  }

  ghost function AfterWindow(rows: map<string, Row>, cs: seq<Computed>): map<string, Row> {
    if |ValidOf(cs)| < 3 then Upserted(rows, cs) else BackFilled(Upserted(rows, cs), cs, ValidOf(cs))
  }

  /** The value of a row is defined and was written, so that it belongs to the cohort. */
  predicate Joins(c: Computed) {
    c.Written? && c.dpr.Some?
  }

  /** The cohort is as large as the rows that join it are many, and each has its own value in it. */
  lemma {:induction false} CohortIs(cs: seq<Computed>, joins: Computed -> bool)
    requires forall c :: joins(c) == Joins(c)
    ensures |ValidOf(cs)| == |Places(cs, joins)|
    ensures forall i :: 0 <= i < |cs| && Joins(cs[i]) ==>
              |ValidOf(cs[..i])| < |ValidOf(cs)| && ValidOf(cs)[|ValidOf(cs[..i])|] == cs[i].dpr.value
  {
    if cs != [] {
      var n := |cs| - 1;
      CohortIs(cs[..n], joins);
      PlacesSnoc(cs, joins);
      forall i | 0 <= i < |cs| && Joins(cs[i])
        ensures |ValidOf(cs[..i])| < |ValidOf(cs)| && ValidOf(cs)[|ValidOf(cs[..i])|] == cs[i].dpr.value
      {
        if i < n {
          assert cs[..n][..i] == cs[..i] && cs[..n][i] == cs[i];
        }
      }
    }
  }

  class SignalTable {
    var rows: map<string, Row>

    /** One window of a run. */
    method RunWindow(cs: seq<Computed>)
      modifies this
      ensures rows == AfterWindow(old(rows), cs)
    {
      for k := 0 to |cs|
        invariant rows == Upserted(old(rows), cs[..k])
      {
        assert cs[..k + 1][..k] == cs[..k];
        if !cs[k].Failed? {
          rows := rows[cs[k].email := Row(cs[k].dpr, None)];
        }
      }
      assert cs[..|cs|] == cs;
      var valid := ValidOf(cs);
      if |valid| < 3 {
        return;
      }
      var median := MedianOf(valid);
      ghost var upserted := rows;
      for k := 0 to |cs|
        invariant rows == BackFilled(upserted, cs[..k], valid)
      {
        assert cs[..k + 1][..k] == cs[..k];
        if cs[k].Written? && cs[k].dpr.Some? {
          var pct := PercentileRank(valid, cs[k].dpr.value);
          if !cs[k].backFill.ErrorBefore? && cs[k].email in rows {
            rows := rows[cs[k].email := rows[cs[k].email].(peers := Some((median, pct)))];
          }
        }
      }
    }
  }

  ghost predicate Mentions(cs: seq<Computed>, email: string) {
    exists i :: 0 <= i < |cs| && !cs[i].Failed? && cs[i].email == email
  }

  lemma FrontMentions(cs: seq<Computed>, email: string)
    requires cs != [] && !Mentions(cs, email)
    ensures !Mentions(cs[..|cs| - 1], email)
  {
  }

  ghost predicate SameAt(r: map<string, Row>, s: map<string, Row>, email: string) {
    (email in r <==> email in s) && (email in r ==> r[email] == s[email])
  }

  lemma {:induction false} OthersKept(rows: map<string, Row>, cs: seq<Computed>, valid: seq<int>, email: string)
    requires !Mentions(cs, email)
    ensures SameAt(rows, Upserted(rows, cs), email) && SameAt(rows, BackFilled(rows, cs, valid), email)
  {
    if cs != [] {
      FrontMentions(cs, email);
      assert !cs[|cs| - 1].Failed? ==> cs[|cs| - 1].email != email;
      OthersKept(rows, cs[..|cs| - 1], valid, email);
    }
  }

  lemma LastIsNew(cs: seq<Computed>)
    requires DistinctEmails(cs) && cs != [] && !cs[|cs| - 1].Failed?
    ensures !Mentions(cs[..|cs| - 1], cs[|cs| - 1].email)
  {
  }

  lemma {:induction false} RowUpserted(rows: map<string, Row>, cs: seq<Computed>, i: nat)
    requires DistinctEmails(cs) && i < |cs| && !cs[i].Failed?
    ensures cs[i].email in Upserted(rows, cs) && Upserted(rows, cs)[cs[i].email] == Row(cs[i].dpr, None)
  {
    if i < |cs| - 1 {
      RowUpserted(rows, cs[..|cs| - 1], i);
    }
  }

  lemma {:induction false} RowBackFilled(rows: map<string, Row>, cs: seq<Computed>, valid: seq<int>, i: nat)
    requires DistinctEmails(cs) && i < |cs| && !cs[i].Failed? && cs[i].email in rows
    ensures var r := BackFilled(rows, cs, valid); var before := rows[cs[i].email];
            && cs[i].email in r
            && r[cs[i].email] ==
               if BackFills(cs[i]) then before.(peers := Some(Ranked(valid, cs[i].dpr.value))) else before
  {
    if i < |cs| - 1 {
      RowBackFilled(rows, cs[..|cs| - 1], valid, i);
    } else {
      LastIsNew(cs);
      OthersKept(rows, cs[..i], valid, cs[i].email);
    }
  }

  /**
   After a window, an engineer whose row was written carries the rank within this very cohort, or
   none, and never an older one: none exactly when the value is undefined, fewer than three are
   defined, or the write or the back-fill failed.
   */
  lemma RowAfterWindow(rows: map<string, Row>, cs: seq<Computed>, i: nat)
    requires DistinctEmails(cs) && i < |cs| && !cs[i].Failed?
    ensures cs[i].email in AfterWindow(rows, cs) && AfterWindow(rows, cs)[cs[i].email] == Final(cs, cs[i])
  {
    RowUpserted(rows, cs, i);
    RowBackFilled(Upserted(rows, cs), cs, ValidOf(cs), i);
  }

  /**
   A written row carries a rank exactly if its value is defined, at least three rows of the window have a defined value
   and were written, and its own back-fill took effect.
   */
  lemma RankedIff(rows: map<string, Row>, cs: seq<Computed>, i: nat)
    requires DistinctEmails(cs) && i < |cs| && !cs[i].Failed?
    ensures var after := AfterWindow(rows, cs);
            && cs[i].email in after && after[cs[i].email].dpr == cs[i].dpr
            && (after[cs[i].email].peers.Some? <==>
                && cs[i].Written? && cs[i].dpr.Some? && !cs[i].backFill.ErrorBefore?
                && |set k | 0 <= k < |cs| && cs[k].Written? && cs[k].dpr.Some?| >= 3)
            && (after[cs[i].email].peers.Some? ==>
                  after[cs[i].email].peers.value == (MedianOf(ValidOf(cs)), RankOf(ValidOf(cs), cs[i].dpr.value)))
  {
    RowAfterWindow(rows, cs, i);
    var joins := (c: Computed) => Joins(c);
    CohortIs(cs, joins);
    assert Places(cs, joins) == set k | 0 <= k < |cs| && cs[k].Written? && cs[k].dpr.Some?;
  }

  /** Everybody else's row stays as it was. */
  lemma OtherRowsStay(rows: map<string, Row>, cs: seq<Computed>, email: string)
    requires !Mentions(cs, email)
    ensures SameAt(rows, AfterWindow(rows, cs), email)
  {
    OthersKept(rows, cs, ValidOf(cs), email);
    OthersKept(Upserted(rows, cs), cs, ValidOf(cs), email);
  }
}
