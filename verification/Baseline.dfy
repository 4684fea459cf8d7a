/**
 The nightly baseline: the daily costs filled into a window, their mean and variance,
 the nearest-rank percentile of the hourly costs, and the hour-of-day distribution.
 */
module Baseline {
  import opened Clock
  import opened Wrappers
  import opened Sorting

  // --- Filling the window -----------------------------------------------------------

  /** What was spent on one UTC day, numbered from the epoch. */
  datatype Daily = Daily(day: int, cost: int)

  /** Division that truncates towards zero. */
  function Truncated(x: int, d: int): int
    requires d > 0
  {
    if x >= 0 then x / d else -((-x) / d)
  }

  function Ago(now: int, day: int): int {
    Truncated(now - day * DAY, DAY)
  }

  function FillOf(daily: seq<Daily>, now: int, window: nat): (costs: seq<int>)
    ensures |costs| == window
  {
    if daily == [] then seq(window, _ => 0)
    else
      var d := daily[|daily| - 1];
      var costs := FillOf(daily[..|daily| - 1], now, window);
      if 0 <= Ago(now, d.day) < window then costs[Ago(now, d.day) := d.cost] else costs
  }

  method Fill(daily: seq<Daily>, now: int, window: nat) returns (costs: array<int>)
    ensures fresh(costs) && costs[..] == FillOf(daily, now, window)
  {
    costs := new int[window](_ => 0);
    assert costs[..] == FillOf([], now, window);
    for k := 0 to |daily|
      invariant costs[..] == FillOf(daily[..k], now, window)
    {
      assert daily[..k + 1][..k] == daily[..k];
      var ago := Ago(now, daily[k].day);
      if ago >= 0 && ago < window {
        costs[ago] := daily[k].cost;
      }
    }
    assert daily[..|daily|] == daily;
  }

  /** As queried: one row a day, the latest day first. */
  ghost predicate Descending(daily: seq<Daily>) {
    forall i, j :: 0 <= i < j < |daily| ==> daily[i].day > daily[j].day
  }

  /** The spend on one day; days without a row count as 0. */
  ghost function SpendOn(daily: seq<Daily>, day: int): int {
    if daily == [] then 0
    else if daily[|daily| - 1].day == day then daily[|daily| - 1].cost else SpendOn(daily[..|daily| - 1], day)
  }

  ghost predicate HasDay(daily: seq<Daily>, day: int) {
    exists i :: 0 <= i < |daily| && daily[i].day == day
  }

  /** Tomorrow counts as today unless it is midnight sharp; the days after it count as the future. */
  lemma AgoIff(now: int, day: int, a: nat)
    ensures Ago(now, day) == a <==> day == DayOf(now) - a || (a == 0 && day == DayOf(now) + 1 && now % DAY != 0)
  {
    var d := now - day * DAY;
    assert now == DayOf(now) * DAY + now % DAY;
    if d >= 0 {
      DivOf(d, DayOf(now) - day, now % DAY);
    } else if day == DayOf(now) + 1 {
      assert -d == DAY - now % DAY;
    } else {
      assert -d >= DAY;
    }
  }

  lemma DivOf(x: int, q: int, r: int)
    requires x == q * DAY + r && 0 <= r < DAY
    ensures x / DAY == q
  {
  }

  /**
   Slot `a` holds what was spent `a` days ago. Only slot 0 can hold anything else: what is
   dated tomorrow, when nothing is dated today.
   */
  lemma {:induction false} SlotIs(daily: seq<Daily>, now: int, window: nat, a: nat)
    requires Descending(daily) && a < window
    ensures FillOf(daily, now, window)[a] ==
            if a == 0 && now % DAY != 0 && !HasDay(daily, DayOf(now)) then SpendOn(daily, DayOf(now) + 1)
            else SpendOn(daily, DayOf(now) - a)
  {
    if daily != [] {
      var front, d := daily[..|daily| - 1], daily[|daily| - 1];
      SlotIs(front, now, window, a);
      AgoIff(now, d.day, a);
      assert HasDay(daily, d.day);
      assert forall day :: HasDay(daily, day) <==> day == d.day || HasDay(front, day) by {
        forall day | HasDay(daily, day) && day != d.day
          ensures HasDay(front, day)
        {
          var i :| 0 <= i < |daily| && daily[i].day == day;
          assert front[i].day == day;
        }
        forall day | HasDay(front, day)
          ensures HasDay(daily, day)
        {
          var i :| 0 <= i < |front| && front[i].day == day;
          assert daily[i].day == day;
        }
      }
    }
  }

  function Sum(s: seq<int>): int {
    if s == [] then 0 else Sum(s[..|s| - 1]) + s[|s| - 1]
  }

  lemma {:induction false} SumUpdate(s: seq<int>, i: nat, x: int)
    requires i < |s|
    ensures Sum(s[i := x]) == Sum(s) - s[i] + x
  {
    var n := |s| - 1;
    if i < n {
      SumUpdate(s[..n], i, x);
      assert s[i := x][..n] == s[..n][i := x];
    } else {
      assert s[i := x][..n] == s[..n];
    }
  }

  lemma {:induction false} SumOfZeros(n: nat)
    ensures Sum(seq(n, _ => 0)) == 0
  {
    if n > 0 {
      SumOfZeros(n - 1);
      assert seq(n, _ => 0)[..n - 1] == seq(n - 1, _ => 0);
    }
  }

  /** The spend of the rows that fall into the window. */
  ghost function InWindowSum(daily: seq<Daily>, now: int, window: nat): int {
    if daily == [] then 0
    else
      var d := daily[|daily| - 1];
      InWindowSum(daily[..|daily| - 1], now, window) + if 0 <= Ago(now, d.day) < window then d.cost else 0
  }

  /** Today's row overwrites tomorrow's. */
  ghost predicate Collides(daily: seq<Daily>, now: int) {
    now % DAY != 0 && HasDay(daily, DayOf(now)) && HasDay(daily, DayOf(now) + 1)
  }

  lemma {:induction false} SpendOnNone(daily: seq<Daily>, day: int)
    requires !HasDay(daily, day)
    ensures SpendOn(daily, day) == 0
  {
    if daily != [] {
      var front := daily[..|daily| - 1];
      assert daily[|daily| - 1].day != day;
      forall i | 0 <= i < |front|
        ensures front[i].day != day
      {
        assert daily[i].day != day;
      }
      SpendOnNone(front, day);
    }
  }

  /** Exactly the spend dated tomorrow is lost, exactly when something is dated today as well. */
  lemma {:induction false} SpendKept(daily: seq<Daily>, now: int, window: nat)
    requires Descending(daily) && window > 0
    ensures Sum(FillOf(daily, now, window)) ==
            InWindowSum(daily, now, window) - if Collides(daily, now) then SpendOn(daily, DayOf(now) + 1) else 0
  {
    if daily == [] {
      SumOfZeros(window);
    } else {
      var front, d := daily[..|daily| - 1], daily[|daily| - 1];
      SpendKept(front, now, window);
      HasDaySnoc(front, d);
      assert front + [d] == daily;
      RowsBeforeAreLater(front, d);
      SpendOnNone(front, d.day);
      var ago := Ago(now, d.day);
      if 0 <= ago < window {
        AgoIff(now, d.day, ago);
        SlotIs(front, now, window, ago);
        SumUpdate(FillOf(front, now, window), ago, d.cost);
        if d.day == DayOf(now) && !HasDay(front, DayOf(now) + 1) {
          SpendOnNone(front, DayOf(now) + 1);
        }
      } else {
        AgoIff(now, d.day, 0);
      }
    }
  }

  lemma HasDaySnoc(front: seq<Daily>, d: Daily)
    ensures forall day :: HasDay(front + [d], day) <==> HasDay(front, day) || day == d.day
  {
    var daily := front + [d];
    assert daily[|front|] == d;
    forall day | HasDay(front, day)
      ensures HasDay(daily, day)
    {
      var i :| 0 <= i < |front| && front[i].day == day;
      assert daily[i].day == day;
    }
    forall day | HasDay(daily, day) && day != d.day
      ensures HasDay(front, day)
    {
      var i :| 0 <= i < |daily| && daily[i].day == day;
      assert front[i].day == day;
    }
  }

  /** The rows before the last one are all of later days. */
  lemma RowsBeforeAreLater(front: seq<Daily>, d: Daily)
    requires Descending(front + [d])
    ensures forall day :: HasDay(front, day) ==> day > d.day
  {
    var daily := front + [d];
    forall i | 0 <= i < |front|
      ensures front[i].day > d.day
    {
      assert front[i] == daily[i] && daily[|front|] == d;
    }
  }

  // --- Mean and variance --------------------------------------------------------------

  ghost function Deviations(xs: seq<int>, m: real): seq<real> {
    seq(|xs|, i requires 0 <= i < |xs| => xs[i] as real - m)
  }

  function Times(x: real, y: real): real {
    x * y
  }

  ghost function SumOfSquares(ds: seq<real>): real {
    if ds == [] then 0.0 else SumOfSquares(ds[..|ds| - 1]) + Times(ds[|ds| - 1], ds[|ds| - 1])
  }

  ghost function MeanOf(xs: seq<int>): real {
    if xs == [] then 0.0 else Sum(xs) as real / |xs| as real
  }

  /** The square of the standard deviation. */
  ghost function VarianceOf(xs: seq<int>): real {
    if xs == [] then 0.0 else SumOfSquares(Deviations(xs, MeanOf(xs))) / |xs| as real
  }

  ghost function Squares(xs: seq<int>): int {
    if xs == [] then 0 else Squares(xs[..|xs| - 1]) + xs[|xs| - 1] * xs[|xs| - 1]
  }

  lemma {:induction false} SquaresOfDeviations(xs: seq<int>, m: real)
    ensures SumOfSquares(Deviations(xs, m)) ==
            Squares(xs) as real - 2.0 * Times(m, Sum(xs) as real) + Times(|xs| as real, Times(m, m))
  {
    if xs != [] {
      var front, x := xs[..|xs| - 1], xs[|xs| - 1];
      SquaresOfDeviations(front, m);
      assert Deviations(xs, m)[..|xs| - 1] == Deviations(front, m);
      SquareOfDeviation(x, m);
      AddTerm(front, x, m);
    }
  }

  lemma SquareOfDeviation(x: int, m: real)
    ensures Times(x as real - m, x as real - m) == (x * x) as real - 2.0 * Times(m, x as real) + Times(m, m)
  {
  }

  lemma AddTerm(front: seq<int>, x: int, m: real)
    ensures Times(m, (Sum(front) + x) as real) == Times(m, Sum(front) as real) + Times(m, x as real)
    ensures Times((|front| + 1) as real, Times(m, m)) == Times(|front| as real, Times(m, m)) + Times(m, m)
  {
  }

  /** The mean times the number of days is their total, and the variance is the mean square less the squared mean. */
  lemma MeanAndVarianceIff(xs: seq<int>, mean: real, variance: real)
    requires xs != []
    ensures mean == MeanOf(xs) <==> Times(|xs| as real, mean) == Sum(xs) as real
    ensures variance == VarianceOf(xs) <==>
            Times(|xs| as real, variance) == Squares(xs) as real - Times(|xs| as real, Times(MeanOf(xs), MeanOf(xs)))
  {
    var m, n := MeanOf(xs), |xs| as real;
    QuotientIs(Sum(xs) as real, n, mean);
    QuotientIs(Sum(xs) as real, n, m);
    SquaresOfDeviations(xs, m);
    QuotientIs(SumOfSquares(Deviations(xs, m)), n, variance);
    TimesSwaps(m, n);
  }

  lemma QuotientIs(x: real, n: real, q: real)
    requires n > 0.0
    ensures q == x / n <==> Times(n, q) == x
  {
    QuotientAgainst(x, n, q);
  }

  lemma TimesSwaps(m: real, n: real)
    ensures Times(m, Times(n, m)) == Times(n, Times(m, m))
  {
  }

  /** What the square root of the mathematics library is for. */
  ghost predicate IsRoot(sqrt: real -> real) {
    forall v :: v >= 0.0 ==> sqrt(v) >= 0.0 && Times(sqrt(v), sqrt(v)) == v
  }

  method MeanStddev(xs: seq<int>, sqrt: real -> real) returns (mean: real, stddev: real)
    requires IsRoot(sqrt)
    ensures mean == MeanOf(xs) && stddev >= 0.0 && Times(stddev, stddev) == VarianceOf(xs)
  {
    if |xs| == 0 {
      SameSigns(0.0, 0.0);
      return 0.0, 0.0;
    }
    var sum := 0;
    for k := 0 to |xs|
      invariant sum == Sum(xs[..k])
    {
      assert xs[..k + 1][..k] == xs[..k];
      sum := sum + xs[k];
    }
    assert xs[..|xs|] == xs;
    mean := sum as real / |xs| as real;
    var ss := 0.0;
    ghost var ds := Deviations(xs, mean);
    for k := 0 to |xs|
      invariant ss == SumOfSquares(ds[..k])
    {
      assert ds[..k + 1][..k] == ds[..k];
      var d := xs[k] as real - mean;
      assert ds[k] == d;
      ss := ss + Times(d, d);
    }
    assert ds[..|xs|] == ds;
    VarianceZeroIff(xs);
    stddev := sqrt(ss / |xs| as real);
  }

  lemma SameSigns(x: real, y: real)
    ensures x > 0.0 && y > 0.0 ==> Times(x, y) > 0.0
    ensures x < 0.0 && y < 0.0 ==> Times(x, y) > 0.0
    ensures x == 0.0 ==> Times(x, y) == 0.0
  {
    if x < 0.0 && y < 0.0 {
      assert Times(-x, -y) > 0.0;
    }
  }

  lemma {:induction false} SquaresNonNegative(ds: seq<real>)
    ensures SumOfSquares(ds) >= 0.0
  {
    if ds != [] {
      SquaresNonNegative(ds[..|ds| - 1]);
      SameSigns(ds[|ds| - 1], ds[|ds| - 1]);
    }
  }

  lemma {:induction false} SquaresZero(ds: seq<real>)
    requires forall i :: 0 <= i < |ds| ==> ds[i] == 0.0
    ensures SumOfSquares(ds) == 0.0
  {
    if ds != [] {
      SquaresZero(ds[..|ds| - 1]);
    }
  }

  lemma {:induction false} SquaresPositive(ds: seq<real>, i: nat)
    requires i < |ds| && (ds[i] < 0.0 || ds[i] > 0.0)
    ensures SumOfSquares(ds) > 0.0
  {
    var n := |ds| - 1;
    SameSigns(ds[n], ds[n]);
    if i < n {
      SquaresPositive(ds[..n], i);
    } else {
      SquaresNonNegative(ds[..n]);
    }
  }

  lemma {:induction false} SumOfEqual(xs: seq<int>, c: int)
    requires forall i :: 0 <= i < |xs| ==> xs[i] == c
    ensures Sum(xs) == |xs| * c
  {
    if xs != [] {
      SumOfEqual(xs[..|xs| - 1], c);
    }
  }

  lemma VarianceZeroIff(xs: seq<int>)
    ensures VarianceOf(xs) >= 0.0
    ensures VarianceOf(xs) == 0.0 <==> forall i, j :: 0 <= i < j < |xs| ==> xs[i] == xs[j]
  {
    if xs != [] {
      var m, n := MeanOf(xs), |xs| as real;
      var ds := Deviations(xs, m);
      SquaresNonNegative(ds);
      QuotientAgainst(SumOfSquares(ds), n, 0.0);
      if forall i, j :: 0 <= i < j < |xs| ==> xs[i] == xs[j] {
        assert forall i :: 0 <= i < |xs| ==> xs[i] == xs[0];
        SumOfEqual(xs, xs[0]);
        QuotientAgainst((|xs| * xs[0]) as real, n, xs[0] as real);
        SquaresZero(ds);
      } else {
        var i, j :| 0 <= i < j < |xs| && xs[i] != xs[j];
        assert ds[i] == xs[i] as real - m && ds[j] == xs[j] as real - m;
        SquaresPositive(ds, if ds[i] != 0.0 then i else j);
      }
    }
  }

  /** The Z-score is defined, its divisor being positive, exactly when some two days were not spent alike. */
  lemma StddevZeroIff(xs: seq<int>, stddev: real)
    requires stddev >= 0.0 && Times(stddev, stddev) == VarianceOf(xs)
    ensures stddev == 0.0 <==> forall i, j :: 0 <= i < j < |xs| ==> xs[i] == xs[j]
  {
    VarianceZeroIff(xs);
    SameSigns(stddev, stddev);
  }

  // --- The nearest-rank percentile ------------------------------------------------------

  /** Where the percentile stands in sorted samples. */
  function IndexOf(p: real, n: nat): (i: nat)
    requires n > 0
    ensures i < n
  {
    if p <= 0.0 then 0
    else if p >= 1.0 then n - 1
    else
      var idx := Ceil(p * n as real) - 1;
      if idx < 0 then 0 else if idx >= n then n - 1 else idx
  }

  function PickPercentile(sorted: seq<int>, p: real): int {
    if sorted == [] then 0 else sorted[IndexOf(p, |sorted|)]
  }

  function PercentileOf(xs: seq<int>, p: real): int {
    PickPercentile(SortOf(xs), p)
  }

  /** The standard library's sort, in place. */
  method SortFloat64s(xs: array<int>)
    modifies xs
    ensures xs[..] == SortOf(old(xs[..]))
  {
    var sorted := SortOf(xs[..]);
    SortOfSorts(xs[..]);
    forall i | 0 <= i < xs.Length {
      xs[i] := sorted[i];
    }
    assert xs[..] == sorted;
  }

  method Percentile(xs: array<int>, p: real) returns (r: int)
    modifies xs
    ensures r == PercentileOf(old(xs[..]), p) && xs[..] == SortOf(old(xs[..]))
  {
    SortOfSorts(xs[..]);
    if xs.Length == 0 {
      assert SortOf(xs[..]) == xs[..];
      return 0;
    }
    SortFloat64s(xs);
    ghost var _ := PercentileAt(old(xs[..]), p);
    var idx := NearestRank(p, xs.Length);
    return xs[idx];
  }

  method NearestRank(p: real, n: nat) returns (idx: int)
    requires n > 0
    ensures idx == IndexOf(p, n)
  {
    if p <= 0.0 {
      return 0;
    }
    if p >= 1.0 {
      return n - 1;
    }
    idx := Ceil(p * n as real) - 1;
    if idx < 0 {
      idx := 0;
    }
    if idx >= n {
      idx := n - 1;
    }
  }

  lemma PercentileAt(xs: seq<int>, p: real) returns (i: nat)
    requires xs != []
    ensures i == IndexOf(p, |xs|) < |SortOf(xs)| == |xs| && PercentileOf(xs, p) == SortOf(xs)[i]
  {
    SortOfSorts(xs);
    i := IndexOf(p, |xs|);
  }

  lemma ShareIff(k: int, x: real)
    ensures k as real >= x <==> k >= Ceil(x)
  {
  }

  lemma IndexIsRank(p: real, n: nat)
    requires 0.0 < p < 1.0 && n > 0
    ensures IndexOf(p, n) == Ceil(p * n as real) - 1
  {
    var x := p * n as real;
    assert x > 0.0;
    assert (1.0 - p) * n as real > 0.0;
    assert x < n as real;
  }

  ghost predicate HoldsShare(xs: seq<int>, p: real, v: int) {
    SplitBy(p, |xs|, CountIf(xs, AtMost(v)), CountIf(xs, Below(v)))
  }

  /** Of `n` samples, `a` are at least the share `p`, and `b` are less. */
  ghost predicate SplitBy(p: real, n: nat, a: int, b: int) {
    a as real >= p * n as real && (b as real) < p * n as real
  }

  lemma RankShares(p: real, n: nat, a: int, b: int, i: nat)
    requires 0.0 < p < 1.0 && n > 0 && i == IndexOf(p, n)
    ensures SplitBy(p, n, a, b) <==> a > i && b <= i
  {
    IndexIsRank(p, n);
    ShareIff(a, p * n as real);
    ShareIff(b, p * n as real);
  }

  /** It is the one value with at least the share `p` of the samples at or below it, and less than that below it. */
  lemma PercentileIff(xs: seq<int>, p: real, v: int)
    requires xs != [] && 0.0 < p < 1.0
    ensures v == PercentileOf(xs, p) <==> HoldsShare(xs, p, v)
  {
    var i := PercentileAt(xs, p);
    RankShares(p, |xs|, CountIf(xs, AtMost(v)), CountIf(xs, Below(v)), i);
    SortRankIff(xs, i + 1, v);
  }

  /** The extremes: the least sample from 0 on, the greatest from 1 on, and 0 without samples. */
  lemma PercentileEnds(xs: seq<int>, p: real)
    ensures xs == [] ==> PercentileOf(xs, p) == 0
    ensures xs != [] && p <= 0.0 ==> PercentileOf(xs, p) in xs && forall x :: x in xs ==> PercentileOf(xs, p) <= x
    ensures xs != [] && p >= 1.0 ==> PercentileOf(xs, p) in xs && forall x :: x in xs ==> PercentileOf(xs, p) >= x
  {
    var t := SortOf(xs);
    SortOfSorts(xs);
    forall x
      ensures x in xs <==> x in t
    {
      assert x in multiset(xs) <==> x in multiset(t);
    }
  }

  // --- The hour-of-day distribution -------------------------------------------------------

  /** How many events fell into one UTC hour. */
  datatype HourRow = HourRow(hour: int, n: nat)

  ghost function RealSum(s: seq<real>): real {
    if s == [] then 0.0 else RealSum(s[..|s| - 1]) + s[|s| - 1]
  }

  ghost function HourCount(rows: seq<HourRow>, h: int): nat {
    if rows == [] then 0
    else if rows[|rows| - 1].hour == h then rows[|rows| - 1].n else HourCount(rows[..|rows| - 1], h)
  }

  ghost function HourCounts(rows: seq<HourRow>): seq<int> {
    seq(24, h requires 0 <= h => HourCount(rows, h))
  }

  /** As queried, one row an hour. */
  method HourOfDayDistribution(rows: seq<HourRow>) returns (dist: seq<real>)
    requires forall i, j :: 0 <= i < j < |rows| ==> rows[i].hour != rows[j].hour
    ensures dist == SharesOf(HourCounts(rows))
  {
    var counts := seq(24, _ => 0);
    var total := 0;
    SumOfZeros(24);
    for k := 0 to |rows|
      invariant |counts| == 24 && total == Sum(counts)
      invariant forall h :: 0 <= h < 24 ==> counts[h] == HourCount(rows[..k], h)
    {
      assert rows[..k + 1][..k] == rows[..k];
      var h, n := rows[k].hour, rows[k].n;
      if h >= 0 && h < 24 {
        NewHour(rows, k);
        SumUpdate(counts, h, n);
        counts := counts[h := n];
        total := total + n;
      }
    }
    assert rows[..|rows|] == rows;
    assert counts == HourCounts(rows);
    if total == 0 {
      return seq(24, _ => 0.0);
    }
    dist := seq(24, i requires 0 <= i < 24 => counts[i] as real / total as real);
  }

  function SharesOf(counts: seq<int>): (dist: seq<real>)
    ensures |dist| == |counts|
  {
    var total := Sum(counts);
    seq(|counts|, i requires 0 <= i < |counts| => if total == 0 then 0.0 else counts[i] as real / total as real)
  }

  lemma {:induction false} HourCountNone(rows: seq<HourRow>, h: int)
    requires forall i :: 0 <= i < |rows| ==> rows[i].hour != h
    ensures HourCount(rows, h) == 0
  {
    if rows != [] {
      HourCountNone(rows[..|rows| - 1], h);
    }
  }

  /** As queried, an hour's count is that of its row, and 0 if it has none. */
  lemma {:induction false} HourCountIs(rows: seq<HourRow>, i: nat)
    requires i < |rows| && forall i, j :: 0 <= i < j < |rows| ==> rows[i].hour != rows[j].hour
    ensures HourCount(rows, rows[i].hour) == rows[i].n
    ensures forall h :: (forall k :: 0 <= k < |rows| ==> rows[k].hour != h) ==> HourCount(rows, h) == 0
  {
    if i < |rows| - 1 {
      HourCountIs(rows[..|rows| - 1], i);
    }
    forall h | forall k :: 0 <= k < |rows| ==> rows[k].hour != h
      ensures HourCount(rows, h) == 0
    {
      HourCountNone(rows, h);
    }
  }

  lemma NewHour(rows: seq<HourRow>, k: nat)
    requires k < |rows| && forall i, j :: 0 <= i < j < |rows| ==> rows[i].hour != rows[j].hour
    ensures HourCount(rows[..k], rows[k].hour) == 0
  {
    HourCountNone(rows[..k], rows[k].hour);
  }

  lemma {:induction false} SharesAddUp(counts: seq<int>, total: int, k: nat)
    requires total > 0 && k <= |counts|
    ensures RealSum(seq(k, i requires 0 <= i < k => counts[i] as real / total as real)) ==
      Sum(counts[..k]) as real / total as real
  {
    var shares := seq(k, i requires 0 <= i < k => counts[i] as real / total as real);
    if k > 0 {
      SharesAddUp(counts, total, k - 1);
      assert shares[..k - 1] == seq(k - 1, i requires 0 <= i < k - 1 => counts[i] as real / total as real);
      assert counts[..k][..k - 1] == counts[..k - 1];
      AddQuotients(Sum(counts[..k - 1]) as real, counts[k - 1] as real, total as real);
    }
  }

  lemma AddQuotients(x: real, y: real, d: real)
    requires d > 0.0
    ensures x / d + y / d == (x + y) / d
  {
    assert (x / d + y / d) * d == x + y;
  }

  lemma {:induction false} SumNonNegative(counts: seq<int>)
    requires forall i :: 0 <= i < |counts| ==> counts[i] >= 0
    ensures Sum(counts) >= 0
    ensures forall i :: 0 <= i < |counts| ==> counts[i] <= Sum(counts)
  {
    if counts != [] {
      SumNonNegative(counts[..|counts| - 1]);
    }
  }

  lemma ShareInRange(c: int, total: int)
    requires 0 <= c <= total && total > 0
    ensures 0.0 <= c as real / total as real <= 1.0
  {
    QuotientAgainst(c as real, total as real, 0.0);
    QuotientAgainst(c as real, total as real, 1.0);
  }

  /** The shares lie in [0, 1] and add up to 1, unless nothing was counted; then all are 0. */
  lemma SharesAreADistribution(counts: seq<int>)
    requires forall i :: 0 <= i < |counts| ==> counts[i] >= 0
    ensures forall i :: 0 <= i < |counts| ==> 0.0 <= SharesOf(counts)[i] <= 1.0
    ensures RealSum(SharesOf(counts)) == if Sum(counts) == 0 then 0.0 else 1.0
    ensures Sum(counts) == 0 <==> forall i :: 0 <= i < |counts| ==> counts[i] == 0
  {
    var total := Sum(counts);
    SumNonNegative(counts);
    if forall i :: 0 <= i < |counts| ==> counts[i] == 0 {
      ZeroSum(counts);
    }
    if total > 0 {
      forall i | 0 <= i < |counts|
        ensures 0.0 <= SharesOf(counts)[i] <= 1.0
      {
        ShareInRange(counts[i], total);
      }
      WholeIsOne(counts, total);
    } else {
      ZeroShares(SharesOf(counts));
    }
  }

  /** Each hour's share of the total is its own count. */
  lemma ShareTimesTotal(counts: seq<int>, i: nat)
    requires i < |counts| && forall i :: 0 <= i < |counts| ==> counts[i] >= 0
    ensures Times(SharesOf(counts)[i], Sum(counts) as real) == counts[i] as real
  {
    SumNonNegative(counts);
    if Sum(counts) != 0 {
      QuotientIs(counts[i] as real, Sum(counts) as real, SharesOf(counts)[i]);
      TimesCommutes(SharesOf(counts)[i], Sum(counts) as real);
    }
  }

  lemma TimesCommutes(x: real, y: real)
    ensures Times(x, y) == Times(y, x)
  {
  }

  lemma WholeIsOne(counts: seq<int>, total: int)
    requires total == Sum(counts) > 0
    ensures RealSum(SharesOf(counts)) == 1.0
  {
    SharesAddUp(counts, total, |counts|);
    assert counts[..|counts|] == counts;
    assert total as real / total as real == 1.0;
    assert SharesOf(counts) == seq(|counts|, i requires 0 <= i < |counts| => counts[i] as real / total as real);
  }

  lemma {:induction false} ZeroSum(counts: seq<int>)
    requires forall i :: 0 <= i < |counts| ==> counts[i] == 0
    ensures Sum(counts) == 0
  {
    if counts != [] {
      ZeroSum(counts[..|counts| - 1]);
    }
  }

  lemma {:induction false} ZeroShares(s: seq<real>)
    requires forall i :: 0 <= i < |s| ==> s[i] == 0.0
    ensures RealSum(s) == 0.0
  {
    if s != [] {
      ZeroShares(s[..|s| - 1]);
    }
  }
}
