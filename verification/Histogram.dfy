/**
 The latency histogram of the load tester: recording, merging, and the
 percentile scan, proved against the multiset of recorded samples.
 */
module Histogram {
  import opened Buckets
  import opened Sorting
  import opened Wrappers

  /** A 64-bit sample. */
  type Word = v: nat | v < TWO_64

  /** The bucket a sample is counted in: values past the last bucket are clamped into it. */
  function ClampedIndex(v: nat): (i: nat)
    ensures i < BUCKETS
  {
    if IndexFor(v) >= BUCKETS then BUCKETS - 1 else IndexFor(v)
  }

  ghost function InBucket(i: nat): int -> bool {
    x => x >= 0 && ClampedIndex(x) == i
  }

  ghost function UpToBucket(i: int): int -> bool {
    x => x < 0 || ClampedIndex(x) <= i
  }

  ghost function Sum(s: seq<nat>): nat {
    if s == [] then 0 else Sum(s[..|s| - 1]) + s[|s| - 1]
  }

  ghost function MaxOf(s: seq<nat>): nat {
    if s == [] then 0
    else var m := MaxOf(s[..|s| - 1]); if s[|s| - 1] > m then s[|s| - 1] else m
  }

  ghost function MinOf(s: seq<nat>): nat {
    if s == [] then 0
    else var m := MinOf(s[..|s| - 1]); if |s| == 1 || s[|s| - 1] < m then s[|s| - 1] else m
  }

  /** The running minimum of the code, in which 0 stands for "no sample yet". */
  function Offer(min: nat, v: nat): nat {
    if min == 0 || v < min then v else min
  }

  ghost function RunningMin(s: seq<nat>): nat {
    if s == [] then 0 else Offer(RunningMin(s[..|s| - 1]), s[|s| - 1])
  }

  /** Addition of `uint64` values, which wraps around. */
  function AddWord(a: nat, b: nat): nat {
    (a + b) % TWO_64
  }

  /** What a histogram says about the samples recorded in it. */
  datatype Summary = Summary(counts: seq<nat>, sum: nat, n: nat, max: nat)

  ghost function Summarise(s: seq<nat>): Summary {
    Summary(seq(BUCKETS, i requires 0 <= i => CountIf(s, InBucket(i))), Sum(s) % TWO_64, |s|, MaxOf(s))
  }

  /** The rank the percentile scan looks for. */
  function Target(p: real, n: nat): (t: nat)
    requires p >= 0.0
    ensures t >= 1
  {
    var t := Ceil(p / 100.0 * n as real);
    RankNonNegative(p, n);
    if t == 0 then 1 else t
  }

  lemma RankNonNegative(p: real, n: nat)
    requires p >= 0.0
    ensures Ceil(p / 100.0 * n as real) >= 0
  {
    assert p / 100.0 >= 0.0;
    assert p / 100.0 * n as real >= 0.0;
  }

  /** The percentile of a list of samples: the representative of the bucket of the nearest-rank sample. */
  ghost function PercentileOf(s: seq<nat>, p: real): nat
    requires p >= 0.0
  {
    if s == [] then 0
    else if Target(p, |s|) > |s| then MaxOf(s)
    else ValueForIndex(ClampedIndex(NearestRank(s, p)))
  }

  ghost function NearestRank(s: seq<nat>, p: real): nat
    requires p >= 0.0 && Target(p, |s|) <= |s|
  {
    SortOfSorts(s);
    var t := SortOf(s);
    assert t[Target(p, |s|) - 1] in multiset(t);
    t[Target(p, |s|) - 1]
  }

  /** The histogram and its minimum are those of the samples; a minimum of 0 says nothing. */
  ghost predicate Fits(view: Summary, min: nat, s: seq<nat>) {
    view == Summarise(s) && (0 !in s ==> min == MinOf(s))
  }

  class Hist {
    const counts: array<nat>
    var sum: nat
    var n: nat
    var min: nat
    var max: nat
    ghost var samples: seq<nat>

    ghost predicate Valid()
      reads this, counts
    {
      counts.Length == BUCKETS && Fits(View(), min, samples)
    }

    ghost function View(): Summary
      reads this, counts
    {
      Summary(counts[..], sum, n, max)
    }

    constructor ()
      ensures Valid() && fresh(counts) && samples == [] && min == 0
    {
      counts := new nat[BUCKETS](_ => 0);
      sum, n, min, max := 0, 0, 0, 0;
      samples := [];
    }

    method Record(v: Word)
      requires Valid()
      modifies this, counts
      ensures Valid() && samples == old(samples) + [v] && min == Offer(old(min), v)
    {
      var idx := IndexFor(v);
      if idx >= counts.Length {
        idx := counts.Length - 1;
      }
      counts[idx] := counts[idx] + 1;
      sum := AddWord(sum, v);
      n := n + 1;
      if min == 0 || v < min {
        min := v;
      }
      if v > max {
        max := v;
      }
      samples := samples + [v];
      FitsSnoc(old(View()), old(min), old(samples), v);
      assert counts[..] == old(counts[..])[idx := old(counts[idx]) + 1];
    }

    method Merge(o: Hist)
      requires Valid() && o.Valid() && o != this && o.counts != counts
      modifies this, counts
      ensures Valid() && samples == old(samples) + o.samples
      ensures min == if o.n > 0 then Offer(old(min), o.min) else old(min)
    {
      for i := 0 to o.counts.Length
        modifies counts
        invariant forall k :: 0 <= k < i ==> counts[k] == old(counts[k]) + o.counts[k]
        invariant forall k :: i <= k < counts.Length ==> counts[k] == old(counts[k])
      {
        counts[i] := counts[i] + o.counts[i];
      }
      sum := AddWord(sum, o.sum);
      n := n + o.n;
      if o.n > 0 && (min == 0 || o.min < min) {
        min := o.min;
      }
      if o.max > max {
        max := o.max;
      }
      samples := samples + o.samples;
      FitsAppend(old(View()), old(min), old(samples), o.View(), o.min, o.samples, counts[..]);
    }

    method Percentile(p: real) returns (r: nat)
      requires Valid() && p >= 0.0
      ensures r == PercentileOf(samples, p)
      ensures Represents(samples, p, r)
    {
      if n == 0 {
        return 0;
      }
      PercentileRepresents(samples, p);
      var target := Target(p, n);
      var cum := 0;
      CountUpToNone(samples);
      for i := 0 to counts.Length
        invariant cum == CountIf(samples, UpToBucket(i - 1)) < target
      {
        CountUpToStep(samples, i);
        cum := cum + counts[i];
        if cum >= target {
          ScanStops(samples, target, i);
          return ValueForIndex(i);
        }
      }
      CountUpToAll(samples);
      return max;
    }

    method Mean() returns (r: nat)
      requires Valid()
      ensures r == if samples == [] then 0 else Sum(samples) % TWO_64 / |samples|
    {
      if n == 0 {
        return 0;
      }
      return sum / n;
    }
  }

  lemma {:induction false} MinPositive(s: seq<nat>)
    ensures 0 !in s ==> (MinOf(s) == 0 <==> s == [])
  {
    if |s| > 1 {
      MinPositive(s[..|s| - 1]);
    }
  }

  lemma SummariseSnoc(s: seq<nat>, v: nat)
    ensures var before, i := Summarise(s), ClampedIndex(v);
            Summarise(s + [v]) == Summary(before.counts[i := before.counts[i] + 1],
                                          AddWord(before.sum, v), before.n + 1,
                                          if v > before.max then v else before.max)
  {
    assert (s + [v])[..|s + [v]| - 1] == s;
    ModAdd(Sum(s), v);
    assert Summarise(s + [v]).counts ==
      Summarise(s).counts[ClampedIndex(v) := Summarise(s).counts[ClampedIndex(v)] + 1];
  }

  lemma MinSnoc(s: seq<nat>, v: nat)
    ensures 0 !in s + [v] ==> 0 !in s && MinOf(s + [v]) == Offer(MinOf(s), v)
  {
    assert (s + [v])[..|s + [v]| - 1] == s;
    if 0 !in s + [v] {
      forall x | x in s
        ensures x != 0
      {
        assert x in s + [v];
      }
    }
    MinPositive(s);
  }

  lemma MinMerge(a: seq<nat>, b: seq<nat>)
    ensures 0 !in a + b ==> 0 !in a && 0 !in b &&
                            MinOf(a + b) == if b != [] then Offer(MinOf(a), MinOf(b)) else MinOf(a)
  {
    if 0 !in a + b {
      forall x | x in a || x in b
        ensures x != 0
      {
        assert x in a + b;
      }
    }
    MinAppend(a, b);
    MinPositive(a);
  }

  lemma FitsSnoc(view: Summary, min: nat, s: seq<nat>, v: nat)
    requires Fits(view, min, s)
    ensures var i := ClampedIndex(v);
            Fits(Summary(view.counts[i := view.counts[i] + 1], AddWord(view.sum, v), view.n + 1,
                         if v > view.max then v else view.max),
                 Offer(min, v), s + [v])
  {
    SummariseSnoc(s, v);
    MinSnoc(s, v);
  }

  lemma FitsAppend(a: Summary, amin: nat, s: seq<nat>, b: Summary, bmin: nat, t: seq<nat>, c: seq<nat>)
    requires Fits(a, amin, s) && Fits(b, bmin, t)
    requires |c| == BUCKETS && forall i :: 0 <= i < BUCKETS ==> c[i] == a.counts[i] + b.counts[i]
    ensures Fits(Summary(c, AddWord(a.sum, b.sum), a.n + b.n, if b.max > a.max then b.max else a.max),
                 if b.n > 0 then Offer(amin, bmin) else amin, s + t)
  {
    SummariseAppend(s, t, c);
    MinMerge(s, t);
  }

  /** Concatenating sample lists adds counts, sums and sizes and takes the larger maximum. */
  lemma SummariseAppend(a: seq<nat>, b: seq<nat>, c: seq<nat>)
    requires |c| == BUCKETS
    requires forall i :: 0 <= i < BUCKETS ==> c[i] == Summarise(a).counts[i] + Summarise(b).counts[i]
    ensures var sa, sb := Summarise(a), Summarise(b);
            Summarise(a + b) ==
            Summary(c, AddWord(sa.sum, sb.sum), sa.n + sb.n, if sb.max > sa.max then sb.max else sa.max)
  {
    forall i | 0 <= i < BUCKETS
      ensures CountIf(a + b, InBucket(i)) == c[i]
    {
      CountIfAppend(a, b, InBucket(i));
    }
    assert Summarise(a + b).counts == c;
    SumAppend(a, b);
    ModAdd(Sum(a), Sum(b) % TWO_64);
    ModAdd(Sum(b), Sum(a));
    MaxAppend(a, b);
  }

  lemma ModAdd(a: nat, b: nat)
    ensures AddWord(a % TWO_64, b) == AddWord(a, b)
  {
    var q := a / TWO_64;
    assert a + b == q * TWO_64 + (a % TWO_64 + b);
  }

  lemma {:induction false} SumAppend(a: seq<nat>, b: seq<nat>)
    ensures Sum(a + b) == Sum(a) + Sum(b)
    decreases |b|
  {
    if b == [] {
      assert a + b == a;
    } else {
      assert (a + b)[..|a + b| - 1] == a + b[..|b| - 1];
      SumAppend(a, b[..|b| - 1]);
    }
  }

  lemma {:induction false} MaxAppend(a: seq<nat>, b: seq<nat>)
    ensures MaxOf(a + b) == if MaxOf(b) > MaxOf(a) then MaxOf(b) else MaxOf(a)
    decreases |b|
  {
    if b == [] {
      assert a + b == a;
    } else {
      assert (a + b)[..|a + b| - 1] == a + b[..|b| - 1];
      MaxAppend(a, b[..|b| - 1]);
    }
  }

  lemma {:induction false} MinAppend(a: seq<nat>, b: seq<nat>)
    ensures MinOf(a + b) == if a == [] then MinOf(b) else if b != [] && MinOf(b) < MinOf(a) then MinOf(b) else MinOf(a)
    decreases |b|
  {
    if b == [] {
      assert a + b == a;
    } else if a == [] {
      assert a + b == b;
    } else {
      assert (a + b)[..|a + b| - 1] == a + b[..|b| - 1];
      MinAppend(a, b[..|b| - 1]);
    }
  }

  // --- The percentile scan -------------------------------------------------

  lemma ClampedMonotone(u: nat, v: nat)
    requires u <= v
    ensures ClampedIndex(u) <= ClampedIndex(v)
  {
    IndexMonotone(u, v);
  }

  lemma UpToDownwardClosed(i: int)
    ensures DownwardClosed(UpToBucket(i))
  {
    forall x, y | x <= y && UpToBucket(i)(y)
      ensures UpToBucket(i)(x)
    {
      if x >= 0 {
        ClampedMonotone(x, y);
      }
    }
  }

  lemma {:induction false} CountUpToNone(s: seq<nat>)
    ensures CountIf(s, UpToBucket(-1)) == 0
  {
    if s != [] {
      CountUpToNone(s[..|s| - 1]);
    }
  }

  lemma {:induction false} CountUpToStep(s: seq<nat>, i: nat)
    ensures CountIf(s, UpToBucket(i - 1)) + CountIf(s, InBucket(i)) == CountIf(s, UpToBucket(i))
  {
    if s != [] {
      CountUpToStep(s[..|s| - 1], i);
    }
  }

  lemma CountUpToAll(s: seq<nat>)
    ensures CountIf(s, UpToBucket(BUCKETS - 1)) == |s|
  {
    CountIfAll(s, UpToBucket(BUCKETS - 1));
  }

  /** At least `k` samples are counted up to bucket `i` exactly when the `k`-th smallest is. */
  lemma CountUpToIff(s: seq<nat>, i: int, k: nat)
    requires 1 <= k <= |s|
    ensures |SortOf(s)| == |s| && SortOf(s)[k - 1] >= 0
    ensures CountIf(s, UpToBucket(i)) >= k <==> ClampedIndex(SortOf(s)[k - 1]) <= i
  {
    SortOfSorts(s);
    var t := SortOf(s);
    assert t[k - 1] in multiset(t);
    UpToDownwardClosed(i);
    CountIfSorted(t, UpToBucket(i), k);
    CountIfPermutation(s, t, UpToBucket(i));
  }

  /** The first bucket whose cumulative count reaches the target holds the nearest-rank sample. */
  lemma ScanStops(s: seq<nat>, target: nat, i: nat)
    requires target >= 1
    requires CountIf(s, UpToBucket(i - 1)) < target <= CountIf(s, UpToBucket(i))
    ensures target <= |s| == |SortOf(s)| && SortOf(s)[target - 1] >= 0
    ensures ClampedIndex(SortOf(s)[target - 1]) == i
  {
    CountUpToIff(s, i, target);
    CountUpToIff(s, i - 1, target);
  }

  // --- Accuracy -------------------------------------------------------------

  lemma TargetInRange(p: real, n: nat)
    requires 0.0 <= p <= 100.0 && n >= 1
    ensures 1 <= Target(p, n) <= n
  {
    var f := p / 100.0;
    assert f * n as real <= n as real;
    CeilBounds(f * n as real);
  }

  lemma TargetMonotone(p: real, q: real, n: nat)
    requires 0.0 <= p <= q
    ensures Target(p, n) <= Target(q, n)
  {
    var f, g := p / 100.0, q / 100.0;
    assert 0.0 <= f <= g;
    assert (g - f) * n as real >= 0.0;
    CeilMonotone(f * n as real, g * n as real);
  }

  lemma CeilMonotone(x: real, y: real)
    requires x <= y
    ensures Ceil(x) <= Ceil(y)
  {
    CeilBounds(x);
    CeilBounds(y);
  }

  /** Of `n` samples, `k` are at least `p` percent. */
  predicate IsPercent(p: real, n: nat, k: nat) {
    100.0 * k as real >= p * n as real
  }

  /** At least `p` percent of the samples are at most `v`, and less than that are below it. */
  ghost predicate HoldsPercent(s: seq<nat>, p: real, v: int) {
    IsPercent(p, |s|, CountIf(s, AtMost(v))) && !IsPercent(p, |s|, CountIf(s, Below(v)))
  }

  /** The value stands for the bucket of the one sample that splits the others at `p` percent. */
  ghost predicate Represents(s: seq<nat>, p: real, r: nat) {
    s != [] && 0.0 < p <= 100.0 ==> exists v: nat :: HoldsPercent(s, p, v) && r == ValueForIndex(ClampedIndex(v))
  }

  lemma TargetIff(p: real, n: nat, k: nat)
    requires 0.0 < p <= 100.0 && n >= 1
    ensures k >= Target(p, n) <==> IsPercent(p, n, k)
  {
    var x := p / 100.0 * n as real;
    assert 100.0 * x == p * n as real;
    assert x > 0.0;
    CeilBounds(x);
  }

  lemma TargetShares(s: seq<nat>, p: real, v: int)
    requires s != [] && 0.0 < p <= 100.0
    ensures HoldsPercent(s, p, v) <==>
            CountIf(s, AtMost(v)) >= Target(p, |s|) && CountIf(s, Below(v)) < Target(p, |s|)
  {
    TargetIff(p, |s|, CountIf(s, AtMost(v)));
    TargetIff(p, |s|, CountIf(s, Below(v)));
  }

  /** The nearest-rank sample is the one value that splits the samples at `p` percent. */
  lemma NearestRankIff(s: seq<nat>, p: real, v: int)
    requires s != [] && 0.0 < p <= 100.0
    ensures Target(p, |s|) <= |s|
    ensures v == NearestRank(s, p) <==> HoldsPercent(s, p, v)
  {
    TargetInRange(p, |s|);
    SortOfSorts(s);
    TargetShares(s, p, v);
    SortRankIff(s, Target(p, |s|), v);
  }

  lemma PercentileRepresents(s: seq<nat>, p: real)
    requires p >= 0.0
    ensures Represents(s, p, PercentileOf(s, p))
  {
    if s != [] && 0.0 < p <= 100.0 {
      TargetInRange(p, |s|);
      NearestRankIff(s, p, NearestRank(s, p));
    }
  }

  lemma TargetEnds(p: real, n: nat)
    requires p >= 0.0 && n >= 1
    ensures p == 0.0 ==> Target(p, n) == 1
    ensures p > 100.0 ==> Target(p, n) > n
  {
    var f := p / 100.0;
    CeilBounds(f * n as real);
    if p > 100.0 {
      assert (f - 1.0) * n as real > 0.0;
    }
  }

  /** The 0th percentile is that of the least sample; past the 100th comes the maximum itself. */
  lemma PercentileEnds(s: seq<nat>, p: real)
    requires p >= 0.0
    ensures s == [] ==> PercentileOf(s, p) == 0
    ensures s != [] && p == 0.0 ==> PercentileOf(s, p) == ValueForIndex(ClampedIndex(MinOf(s)))
    ensures s != [] && p > 100.0 ==> PercentileOf(s, p) == MaxOf(s)
  {
    if s != [] {
      TargetEnds(p, |s|);
      SortOfSorts(s);
      FirstIsMin(s, SortOf(s));
    }
  }

  lemma FirstIsMin(s: seq<nat>, t: seq<int>)
    requires s != [] && Sorted(t) && multiset(t) == multiset(s) && |t| == |s|
    ensures MinOf(s) == t[0]
  {
    assert t[0] in multiset(s);
    forall x | x in s
      ensures t[0] <= x
    {
      assert x in multiset(t);
      var i :| 0 <= i < |t| && t[i] == x;
    }
    MinIff(s, t[0]);
  }

  lemma {:induction false} MinIsLeast(s: seq<nat>)
    requires s != []
    ensures exists i :: 0 <= i < |s| && s[i] == MinOf(s)
    ensures forall i :: 0 <= i < |s| ==> MinOf(s) <= s[i]
  {
    var n := |s| - 1;
    if n == 0 {
      assert s[0] == MinOf(s);
    } else {
      MinIsLeast(s[..n]);
      var i :| 0 <= i < n && s[..n][i] == MinOf(s[..n]);
      assert s[i] == MinOf(s) || s[n] == MinOf(s);
      assert forall j :: 0 <= j < n ==> s[..n][j] == s[j];
    }
  }

  lemma {:induction false} MaxIsGreatest(s: seq<nat>)
    requires s != []
    ensures exists i :: 0 <= i < |s| && s[i] == MaxOf(s)
    ensures forall i :: 0 <= i < |s| ==> s[i] <= MaxOf(s)
  {
    var n := |s| - 1;
    if n == 0 {
      assert s[0] == MaxOf(s);
    } else {
      MaxIsGreatest(s[..n]);
      var i :| 0 <= i < n && s[..n][i] == MaxOf(s[..n]);
      assert s[i] == MaxOf(s) || s[n] == MaxOf(s);
      assert forall j :: 0 <= j < n ==> s[..n][j] == s[j];
    }
  }

  lemma MinIff(s: seq<nat>, m: nat)
    requires s != []
    ensures m == MinOf(s) <==> m in s && forall x :: x in s ==> m <= x
  {
    MinIsLeast(s);
    var i :| 0 <= i < |s| && s[i] == MinOf(s);
    assert s[i] in s;
  }

  lemma MaxIff(s: seq<nat>, m: nat)
    requires s != []
    ensures m == MaxOf(s) <==> m in s && forall x :: x in s ==> x <= m
  {
    MaxIsGreatest(s);
    var i :| 0 <= i < |s| && s[i] == MaxOf(s);
    assert s[i] in s;
  }

  /**
   A percentile is within one part in 128 of the exact nearest-rank sample,
   precisely as long as that sample is at most 604.508192 s. Beyond the last
   bucket's end (603.979776 s) its value is lost to clamping.
   */
  lemma PercentileAccuracy(s: seq<nat>, p: real)
    requires s != [] && 0.0 <= p <= 100.0
    ensures Target(p, |s|) <= |s|
    ensures var v, r := NearestRank(s, p), PercentileOf(s, p);
            (128 * (r - v) <= v && 128 * (v - r) <= v) <==> v <= 604_508_192
  {
    TargetInRange(p, |s|);
    var v := NearestRank(s, p);
    TrackedRange(v);
    RelativeError(v);
  }

  lemma {:induction false} PercentileMonotone(s: seq<nat>, p: real, q: real)
    requires 0.0 <= p <= q <= 100.0
    ensures PercentileOf(s, p) <= PercentileOf(s, q)
  {
    if s != [] {
      TargetInRange(p, |s|);
      TargetInRange(q, |s|);
      TargetMonotone(p, q, |s|);
      SortOfSorts(s);
      var u, v := NearestRank(s, p), NearestRank(s, q);
      assert u <= v;
      ClampedMonotone(u, v);
      var i, j := ClampedIndex(u), ClampedIndex(v);
      RepresentativeInBucket(i);
      RepresentativeInBucket(j);
      LowMonotone(i, j);
    }
  }

  /** A percentile may exceed the maximum, being a bucket midpoint, but by at most one part in 128. */
  lemma PercentileAboveMax(s: seq<nat>, p: real)
    requires p >= 0.0
    ensures 128 * PercentileOf(s, p) <= 129 * MaxOf(s)
  {
    if s != [] && Target(p, |s|) <= |s| {
      var v := NearestRank(s, p);
      SortOfSorts(s);
      assert v in multiset(SortOf(s));
      assert v in s;
      var i :| 0 <= i < |s| && s[i] == v;
      MaxIsGreatest(s);
      TrackedRange(v);
      RelativeError(v);
    }
  }

  /** The bound is met: one sample at the bottom of a wide octave has every percentile above itself. */
  lemma PercentileAboveMaxAttained(k: nat, p: real) returns (v: nat)
    requires 0.0 <= p <= 100.0
    ensures v == Shl(1, k + 7)
    ensures v < 603_979_776 ==> 128 * PercentileOf([v], p) == 129 * MaxOf([v])
  {
    v := RelativeErrorAttained(k);
    TargetInRange(p, 1);
    SortOfSorts([v]);
    assert NearestRank([v], p) in multiset(SortOf([v]));
    TrackedRange(v);
    assert [v][..0] == [];
  }

  // --- Sharding -------------------------------------------------------------

  ghost function Flatten(shards: seq<seq<nat>>): seq<nat> {
    if shards == [] then [] else Flatten(shards[..|shards| - 1]) + shards[|shards| - 1]
  }

  lemma {:induction false} SumMaxMinPermutation(a: seq<nat>, b: seq<nat>)
    requires multiset(a) == multiset(b)
    ensures Sum(a) == Sum(b) && MaxOf(a) == MaxOf(b) && MinOf(a) == MinOf(b)
    decreases |a|
  {
    SameLength(a, b);
    if a != [] {
      var i := RemoveLast(a, b);
      SumMaxMinPermutation(a[..|a| - 1], b[..i] + b[i + 1..]);
      assert a == a[..|a| - 1] + [a[|a| - 1]];
      assert b == b[..i] + ([b[i]] + b[i + 1..]);
      SumAppend(b[..i], [b[i]] + b[i + 1..]);
      SumAppend([b[i]], b[i + 1..]);
      SumAppend(b[..i], b[i + 1..]);
      MaxAppend(b[..i], [b[i]] + b[i + 1..]);
      MaxAppend([b[i]], b[i + 1..]);
      MaxAppend(b[..i], b[i + 1..]);
      MinAppend(b[..i], [b[i]] + b[i + 1..]);
      MinAppend([b[i]], b[i + 1..]);
      MinAppend(b[..i], b[i + 1..]);
      MinAppend(a[..|a| - 1], [a[|a| - 1]]);
      MaxAppend(a[..|a| - 1], [a[|a| - 1]]);
      SumAppend(a[..|a| - 1], [a[|a| - 1]]);
    }
  }

  /**
   However the samples are dealt out to workers, and in whatever order the
   workers are merged, the merged histogram is that of recording them all in one.
   */
  lemma Sharding(shards: seq<seq<nat>>, s: seq<nat>, p: real)
    requires multiset(Flatten(shards)) == multiset(s)
    requires p >= 0.0
    ensures Summarise(Flatten(shards)) == Summarise(s)
    ensures MinOf(Flatten(shards)) == MinOf(s)
    ensures PercentileOf(Flatten(shards), p) == PercentileOf(s, p)
  {
    var f := Flatten(shards);
    SumMaxMinPermutation(f, s);
    SameCounts(f, s);
    SameSort(f, s);
  }

  lemma SameCounts(a: seq<nat>, b: seq<nat>)
    requires multiset(a) == multiset(b)
    ensures |a| == |b| && Summarise(a).counts == Summarise(b).counts
  {
    SameLength(a, b);
    forall i | 0 <= i < BUCKETS
      ensures CountIf(a, InBucket(i)) == CountIf(b, InBucket(i))
    {
      CountIfPermutation(a, b, InBucket(i));
    }
  }

  lemma SameSort(a: seq<int>, b: seq<int>)
    requires multiset(a) == multiset(b)
    ensures SortOf(a) == SortOf(b)
  {
    SortOfSorts(a);
    SortOfSorts(b);
    SortUnique(SortOf(a), SortOf(b));
  }

  /** The bucket counts add up to the number of samples. */
  lemma CountsSumToN(s: seq<nat>)
    ensures Sum(Summarise(s).counts) == Summarise(s).n
  {
    CountsPrefix(s, BUCKETS);
    assert Summarise(s).counts[..BUCKETS] == Summarise(s).counts;
    CountUpToAll(s);
  }

  lemma {:induction false} CountsPrefix(s: seq<nat>, k: nat)
    requires k <= BUCKETS
    ensures Sum(Summarise(s).counts[..k]) == CountIf(s, UpToBucket(k - 1))
  {
    if k == 0 {
      CountUpToNone(s);
    } else {
      var c := Summarise(s).counts;
      assert c[..k][..k - 1] == c[..k - 1];
      CountsPrefix(s, k - 1);
      CountUpToStep(s, k - 1);
    }
  }

  // --- The minimum ----------------------------------------------------------

  /**
   Because 0 doubles as "unset", the running minimum is the true minimum exactly
   when no zero sample is followed by a later one: a recorded 0 is forgotten by
   the next positive sample.
   */
  lemma RunningMinIff(s: seq<nat>)
    ensures RunningMin(s) == MinOf(s) <==> (0 in s ==> s[|s| - 1] == 0)
  {
    if 0 in s {
      MinWithZero(s);
      RunningMinZero(s);
    } else {
      RunningMinPositive(s);
    }
  }

  /** In any case, the running minimum is the least of the samples after the last 0, and 0 if there are none. */
  lemma {:induction false} RunningMinIs(s: seq<nat>, z: nat)
    requires z <= |s| && (z == 0 || s[z - 1] == 0) && forall i :: z <= i < |s| ==> s[i] != 0
    ensures RunningMin(s) == if z == |s| then 0 else MinOf(s[z..])
  {
    if z < |s| {
      var front := s[..|s| - 1];
      RunningMinIs(front, z);
      assert s[z..][..|s| - 1 - z] == front[z..];
      MinPositive(front[z..]);
    }
  }

  lemma {:induction false} MinWithZero(s: seq<nat>)
    requires 0 in s
    ensures MinOf(s) == 0
  {
    if s[|s| - 1] != 0 {
      assert s == s[..|s| - 1] + [s[|s| - 1]];
      MinWithZero(s[..|s| - 1]);
    }
  }

  lemma RunningMinZero(s: seq<nat>)
    requires s != []
    ensures RunningMin(s) == 0 <==> s[|s| - 1] == 0
  {
  }

  lemma {:induction false} RunningMinPositive(s: seq<nat>)
    requires 0 !in s
    ensures RunningMin(s) == MinOf(s)
  {
    if s != [] {
      RunningMinPositive(s[..|s| - 1]);
      MinPositive(s[..|s| - 1]);
    }
  }

  lemma RunningMinSnoc(s: seq<nat>, v: nat)
    ensures RunningMin(s + [v]) == Offer(RunningMin(s), v)
  {
    assert (s + [v])[..|s|] == s;
  }

  /** The minimum that merging leaves: empty histograms are passed over, and 0 again stands for "no sample yet". */
  ghost function MergedMin(shards: seq<seq<nat>>): nat {
    if shards == [] then 0
    else
      var front, last := MergedMin(shards[..|shards| - 1]), shards[|shards| - 1];
      if last == [] then front else Offer(front, RunningMin(last))
  }

  lemma {:induction false} MergedMinZero(shards: seq<seq<nat>>)
    ensures var f := Flatten(shards); MergedMin(shards) == 0 <==> f == [] || f[|f| - 1] == 0
  {
    if shards != [] {
      var last := shards[|shards| - 1];
      MergedMinZero(shards[..|shards| - 1]);
      if last != [] {
        RunningMinZero(last);
      }
    }
  }

  lemma {:induction false} MergedMinPositive(shards: seq<seq<nat>>)
    requires 0 !in Flatten(shards)
    ensures MergedMin(shards) == MinOf(Flatten(shards))
  {
    if shards != [] {
      var front, last := shards[..|shards| - 1], shards[|shards| - 1];
      MinMerge(Flatten(front), last);
      MergedMinPositive(front);
      RunningMinPositive(last);
      if last == [] {
        assert Flatten(shards) == Flatten(front);
      }
    }
  }

  /** The merged minimum is the true one exactly when the last of all samples is 0, or none is. */
  lemma MergedMinIff(shards: seq<seq<nat>>)
    ensures var f := Flatten(shards); MergedMin(shards) == MinOf(f) <==> (0 in f ==> f[|f| - 1] == 0)
  {
    if 0 in Flatten(shards) {
      MinWithZero(Flatten(shards));
      MergedMinZero(shards);
    } else {
      MergedMinPositive(shards);
    }
  }
}
