/** The load tester's bookkeeping: per-worker statistics, their merge, and the open-loop pacer. */
module LoadTest {
  import opened Wrappers
  import opened Histogram

  /** One finished request: its latency, its status code, and whether the transport failed. */
  datatype Outcome = Outcome(micros: Word, code: int, failed: bool)

  ghost function Latencies(os: seq<Outcome>): seq<nat> {
    if os == [] then []
    else Latencies(os[..|os| - 1]) + if os[|os| - 1].failed then [] else [os[|os| - 1].micros]
  }

  ghost function Failures(os: seq<Outcome>): nat {
    if os == [] then 0 else Failures(os[..|os| - 1]) + if os[|os| - 1].failed then 1 else 0
  }

  predicate IsError(o: Outcome) {
    o.failed || !(200 <= o.code < 300)
  }

  ghost function Errors(os: seq<Outcome>): nat {
    if os == [] then 0 else Errors(os[..|os| - 1]) + if IsError(os[|os| - 1]) then 1 else 0
  }

  ghost function CodeCount(os: seq<Outcome>, code: int): nat {
    if os == [] then 0
    else CodeCount(os[..|os| - 1], code) + if !os[|os| - 1].failed && os[|os| - 1].code == code then 1 else 0
  }

  function Lookup(m: map<int, nat>, code: int): nat {
    if code in m then m[code] else 0
  }

  /** The totals of these outcomes. */
  ghost predicate Totals(os: seq<Outcome>, total: nat, errors: nat, statusCount: map<int, nat>) {
    total == |os| && errors == Errors(os) && forall c :: Lookup(statusCount, c) == CodeCount(os, c)
  }

  /** How one more outcome changes the totals. */
  lemma TotalsSnoc(os: seq<Outcome>, o: Outcome, total: nat, errors: nat, statusCount: map<int, nat>)
    requires Totals(os, total, errors, statusCount)
    ensures Totals(os + [o], total + 1, errors + (if IsError(o) then 1 else 0),
                   if o.failed then statusCount else statusCount[o.code := Lookup(statusCount, o.code) + 1])
    ensures Latencies(os + [o]) == if o.failed then Latencies(os) else Latencies(os) + [o.micros]
  {
    assert (os + [o])[..|os|] == os;
    var counts := if o.failed then statusCount else statusCount[o.code := Lookup(statusCount, o.code) + 1];
    forall c
      ensures Lookup(counts, c) == CodeCount(os + [o], c)
    {
      assert Lookup(statusCount, c) == CodeCount(os, c);
    }
  }

  class WorkerStat {
    const h: Hist
    var count: nat
    var errors: nat
    var statusCount: map<int, nat>
    var live: nat
    ghost var outcomes: seq<Outcome>

    ghost predicate Valid()
      reads this, h, h.counts
    {
      && h.Valid() && h.samples == Latencies(outcomes) && h.min == RunningMin(h.samples)
      && Totals(outcomes, count, errors, statusCount) && live == count
    }

    constructor ()
      ensures Valid() && outcomes == [] && fresh(h) && fresh(h.counts)
    {
      h := new Hist();
      count, errors, live := 0, 0, 0;
      statusCount := map[];
      outcomes := [];
    }

    method Record(o: Outcome)
      requires Valid()
      modifies this, h, h.counts
      ensures Valid() && outcomes == old(outcomes) + [o]
    {
      TotalsSnoc(outcomes, o, count, errors, statusCount);
      outcomes := outcomes + [o];
      live := live + 1;
      count := count + 1;
      if o.failed {
        errors := errors + 1;
        return;
      }
      statusCount := statusCount[o.code := Lookup(statusCount, o.code) + 1];
      if !(200 <= o.code < 300) {
        errors := errors + 1;
      }
      RunningMinSnoc(h.samples, o.micros);
      h.Record(o.micros);
    }
  }

  ghost function Shards(stats: seq<WorkerStat>): seq<seq<Outcome>>
    reads stats
  {
    seq(|stats|, i requires 0 <= i < |stats| reads stats => stats[i].outcomes)
  }

  ghost function Concat(shards: seq<seq<Outcome>>): seq<Outcome> {
    if shards == [] then [] else Concat(shards[..|shards| - 1]) + shards[|shards| - 1]
  }

  /** The latencies of every worker on its own. */
  ghost function LatencyShards(shards: seq<seq<Outcome>>): seq<seq<nat>> {
    seq(|shards|, i requires 0 <= i < |shards| => Latencies(shards[i]))
  }

  /** The merge loop of the report. */
  method MergeStats(stats: seq<WorkerStat>)
    returns (merged: Hist, total: nat, errors: nat, statusCount: map<int, nat>)
    requires forall i :: 0 <= i < |stats| ==> stats[i].Valid()
    ensures merged.Valid() && merged.samples == Latencies(Concat(Shards(stats)))
    ensures merged.min == MergedMin(LatencyShards(Shards(stats)))
    ensures Totals(Concat(Shards(stats)), total, errors, statusCount)
  {
    merged := new Hist();
    total, errors, statusCount := 0, 0, map[];
    ghost var shards := Shards(stats);
    for i := 0 to |stats|
      modifies merged, merged.counts
      invariant merged.Valid() && merged.samples == Latencies(Concat(shards[..i]))
      invariant merged.min == MergedMin(LatencyShards(shards[..i]))
      invariant Totals(Concat(shards[..i]), total, errors, statusCount)
    {
      assert stats[i].Valid() && stats[i].outcomes == shards[i];
      MergeStep(shards, i);
      merged.Merge(stats[i].h);
      var counts := AddStatuses(statusCount, stats[i].statusCount);
      TotalsStep(shards, i, total, errors, statusCount, counts);
      total, errors, statusCount := total + stats[i].count, errors + stats[i].errors, counts;
    }
    assert shards[..|stats|] == shards;
  }

  /** What merging the next worker's histogram does to samples and minimum. */
  lemma MergeStep(shards: seq<seq<Outcome>>, i: nat)
    requires i < |shards|
    ensures var last := Latencies(shards[i]);
            && Latencies(Concat(shards[..i + 1])) == Latencies(Concat(shards[..i])) + last
            && MergedMin(LatencyShards(shards[..i + 1])) ==
               if last == [] then MergedMin(LatencyShards(shards[..i]))
               else Offer(MergedMin(LatencyShards(shards[..i])), RunningMin(last))
  {
    assert shards[..i + 1][..i] == shards[..i];
    OutcomesAppend(Concat(shards[..i]), shards[i]);
    var ls := LatencyShards(shards[..i + 1]);
    assert ls[..i] == LatencyShards(shards[..i]) && ls[i] == Latencies(shards[i]);
  }

  lemma TotalsStep(shards: seq<seq<Outcome>>, i: nat, total: nat, errors: nat, statusCount: map<int, nat>,
                   counts: map<int, nat>)
    requires i < |shards| && Totals(Concat(shards[..i]), total, errors, statusCount)
    requires forall c :: Lookup(counts, c) == Lookup(statusCount, c) + CodeCount(shards[i], c)
    ensures Totals(Concat(shards[..i + 1]), total + |shards[i]|, errors + Errors(shards[i]), counts)
  {
    assert shards[..i + 1][..i] == shards[..i];
    OutcomesAppend(Concat(shards[..i]), shards[i]);
  }

  lemma {:induction false} FlattenLatencies(shards: seq<seq<Outcome>>)
    ensures Flatten(LatencyShards(shards)) == Latencies(Concat(shards))
  {
    if shards != [] {
      var n := |shards| - 1;
      FlattenLatencies(shards[..n]);
      OutcomesAppend(Concat(shards[..n]), shards[n]);
      var ls := LatencyShards(shards);
      assert ls[..n] == LatencyShards(shards[..n]) && ls[n] == Latencies(shards[n]);
    }
  }

  /** The minimum of the report is the true one exactly when the last of the latencies in its order is 0, or none is. */
  lemma ReportedMinIff(shards: seq<seq<Outcome>>)
    ensures var all := Latencies(Concat(shards));
            MergedMin(LatencyShards(shards)) == MinOf(all) <==> (0 in all ==> all[|all| - 1] == 0)
  {
    FlattenLatencies(shards);
    MergedMinIff(LatencyShards(shards));
  }

  /** Taking one outcome out of the middle takes out what it contributes. */
  lemma OutcomesWithout(os: seq<Outcome>, i: nat)
    requires i < |os|
    ensures var rest, o := os[..i] + os[i + 1..], os[i];
            && multiset(os) == multiset(rest) + multiset{o}
            && multiset(Latencies(os)) == multiset(Latencies(rest)) + multiset(Latencies([o]))
            && Errors(os) == Errors(rest) + Errors([o]) && Failures(os) == Failures(rest) + Failures([o])
            && forall c :: CodeCount(os, c) == CodeCount(rest, c) + CodeCount([o], c)
  {
    assert os == os[..i] + ([os[i]] + os[i + 1..]);
    OutcomesAppend(os[..i], [os[i]] + os[i + 1..]);
    OutcomesAppend([os[i]], os[i + 1..]);
    OutcomesAppend(os[..i], os[i + 1..]);
  }

  /** The last outcome of `a` occurs in any rearrangement `b`, and taking both away leaves a rearrangement. */
  lemma RemoveOutcome(a: seq<Outcome>, b: seq<Outcome>) returns (i: nat)
    requires multiset(a) == multiset(b) && a != []
    ensures i < |b| && b[i] == a[|a| - 1]
    ensures multiset(a[..|a| - 1]) == multiset(b[..i] + b[i + 1..])
  {
    var n := |a| - 1;
    assert a[n] in multiset(b);
    i :| 0 <= i < |b| && b[i] == a[n];
    assert a[..n] + a[n + 1..] == a[..n];
    OutcomesWithout(a, n);
    OutcomesWithout(b, i);
    Cancel(a[n], multiset(a[..n]), multiset(b[..i] + b[i + 1..]));
  }

  lemma {:induction false} SameOutcomes(a: seq<Outcome>, b: seq<Outcome>)
    requires multiset(a) == multiset(b)
    ensures |a| == |b| && multiset(Latencies(a)) == multiset(Latencies(b))
    ensures Errors(a) == Errors(b) && Failures(a) == Failures(b) && forall c :: CodeCount(a, c) == CodeCount(b, c)
    decreases |a|
  {
    assert |multiset(a)| == |a| && |multiset(b)| == |b|;
    if a != [] {
      var i := RemoveOutcome(a, b);
      var front, rest := a[..|a| - 1], b[..i] + b[i + 1..];
      assert a == front + [a[|a| - 1]];
      OutcomesAppend(front, [a[|a| - 1]]);
      OutcomesWithout(b, i);
      SameOutcomes(front, rest);
    }
  }

  /**
   Whichever worker did which request, and in whatever order workers are merged, the report is the same: its
   totals, and everything its histogram shows but the minimum (`ReportedMinIff`).
   */
  lemma ReportsAgree(shards: seq<seq<Outcome>>, others: seq<seq<Outcome>>, total: nat, errors: nat,
                     statusCount: map<int, nat>, p: real)
    requires multiset(Concat(shards)) == multiset(Concat(others)) && p >= 0.0
    ensures Totals(Concat(shards), total, errors, statusCount) <==> Totals(Concat(others), total, errors, statusCount)
    ensures var a, b := Latencies(Concat(shards)), Latencies(Concat(others));
            Summarise(a) == Summarise(b) && MinOf(a) == MinOf(b) && PercentileOf(a, p) == PercentileOf(b, p)
  {
    SameOutcomes(Concat(shards), Concat(others));
    FlattenLatencies(shards);
    Sharding(LatencyShards(shards), Latencies(Concat(others)), p);
  }

  /** Adds one worker's status counts, visiting the codes in no particular order. */
  method AddStatuses(into: map<int, nat>, from: map<int, nat>) returns (m: map<int, nat>)
    ensures forall c :: Lookup(m, c) == Lookup(into, c) + Lookup(from, c)
  {
    m := into;
    var todo := from.Keys;
    while todo != {}
      invariant todo <= from.Keys
      invariant forall c :: c in todo ==> Lookup(m, c) == Lookup(into, c)
      invariant forall c :: c !in todo ==> Lookup(m, c) == Lookup(into, c) + Lookup(from, c)
      decreases |todo|
    {
      ghost var _ := NonEmpty(todo);
      var code :| code in todo;
      m := m[code := Lookup(m, code) + from[code]];
      todo := todo - {code};
    }
  }

  lemma {:induction false} OutcomesAppend(a: seq<Outcome>, b: seq<Outcome>)
    ensures Latencies(a + b) == Latencies(a) + Latencies(b)
    ensures Failures(a + b) == Failures(a) + Failures(b)
    ensures Errors(a + b) == Errors(a) + Errors(b)
    ensures forall c :: CodeCount(a + b, c) == CodeCount(a, c) + CodeCount(b, c)
    decreases |b|
  {
    if b == [] {
      assert a + b == a;
    } else {
      assert (a + b)[..|a + b| - 1] == a + b[..|b| - 1];
      OutcomesAppend(a, b[..|b| - 1]);
    }
  }

  /** Every request is either a latency sample or a transport failure, and failures are errors. */
  lemma {:induction false} RequestsConserved(os: seq<Outcome>)
    ensures |Latencies(os)| + Failures(os) == |os|
    ensures Failures(os) <= Errors(os) <= |os|
  {
    if os != [] {
      RequestsConserved(os[..|os| - 1]);
    }
  }

  /** Errors are the failed requests and those whose status lies outside 200 to 299; each code counts its own. */
  lemma {:induction false} CountsAre(os: seq<Outcome>, code: int)
    ensures Errors(os) == |set i | 0 <= i < |os| && (os[i].failed || os[i].code < 200 || os[i].code > 299)|
    ensures CodeCount(os, code) == |set i | 0 <= i < |os| && !os[i].failed && os[i].code == code|
    ensures Failures(os) == |set i | 0 <= i < |os| && os[i].failed|
  {
    var error := (o: Outcome) => o.failed || o.code < 200 || o.code > 299;
    var coded := (o: Outcome) => !o.failed && o.code == code;
    var failed := (o: Outcome) => o.failed;
    PlacesOf(os, error, coded, failed, code);
    assert Places(os, error) == set i | 0 <= i < |os| && (os[i].failed || os[i].code < 200 || os[i].code > 299);
    assert Places(os, coded) == set i | 0 <= i < |os| && !os[i].failed && os[i].code == code;
    assert Places(os, failed) == set i | 0 <= i < |os| && os[i].failed;
  }

  lemma {:induction false} PlacesOf(os: seq<Outcome>, error: Outcome -> bool, coded: Outcome -> bool,
                                    failed: Outcome -> bool, code: int)
    requires forall o :: error(o) == IsError(o) && coded(o) == (!o.failed && o.code == code) && failed(o) == o.failed
    ensures Errors(os) == |Places(os, error)|
    ensures CodeCount(os, code) == |Places(os, coded)|
    ensures Failures(os) == |Places(os, failed)|
  {
    if os != [] {
      PlacesOf(os[..|os| - 1], error, coded, failed, code);
      PlacesSnoc(os, error);
      PlacesSnoc(os, coded);
      PlacesSnoc(os, failed);
    }
  }

  /** Each request that did not fail has its own latency as a sample, after those of the ones before it. */
  lemma {:induction false} LatencyAt(os: seq<Outcome>, i: nat)
    requires i < |os| && !os[i].failed
    ensures var k := i - Failures(os[..i]); 0 <= k < |Latencies(os)| && Latencies(os)[k] == os[i].micros
  {
    var front, last := os[..|os| - 1], os[|os| - 1];
    if i < |os| - 1 {
      LatencyAt(front, i);
      assert front[..i] == os[..i];
    } else {
      RequestsConserved(front);
    }
  }

  // --- The pacer ------------------------------------------------------------

  /** `k` copies of one intended send time. */
  ghost function Repeat(now: int, k: nat): seq<int> {
    seq(k, _ => now)
  }

  /**
   The pacer with the channel it feeds. `taken` are the send times the workers
   have received so far, `offered` counts every job due so far.
   */
  class Pacer {
    const rate: nat
    var acc: real
    var jobs: seq<int>
    var overruns: nat
    ghost var ticks: nat
    ghost var offered: nat
    ghost var sent: seq<int>
    ghost var taken: seq<int>

    ghost predicate Valid()
      reads this
    {
      && |jobs| <= rate
      && 0.0 <= acc < 1.0
      && offered as real + acc == (ticks * rate) as real / 1000.0
      && |sent| + overruns == offered
      && sent == taken + jobs
    }

    constructor (rate: nat)
      ensures Valid() && this.rate == rate && ticks == 0 && taken == []
    {
      this.rate := rate;
      acc, jobs, overruns := 0.0, [], 0;
      ticks, offered, sent, taken := 0, 0, [], [];
    }

    /** One millisecond tick. */
    method Tick(now: int)
      requires Valid()
      modifies this
      ensures Valid() && ticks == old(ticks) + 1 && taken == old(taken)
      ensures var room, due := rate - |old(jobs)|, offered - old(offered);
              && due == ticks * rate / 1000 - old(ticks) * rate / 1000
              && jobs == old(jobs) + Repeat(now, if due <= room then due else room)
              && overruns == old(overruns) + if due <= room then 0 else due - room
    {
      DueExactly(ticks, rate, offered, acc);
      TickStep(ticks, rate, offered, acc);
      var perTick := rate as real / 1000.0;
      acc := acc + perTick;
      var emit := acc.Floor;
      acc := acc - emit as real;
      ticks := ticks + 1;
      Send(now, emit);
    }

    /** The send loop of one tick: a job that does not fit is dropped and counted as an overrun. */
    method Send(now: int, emit: nat)
      requires |jobs| <= rate && sent == taken + jobs && |sent| + overruns == offered
      modifies this
      ensures acc == old(acc) && ticks == old(ticks) && taken == old(taken)
      ensures |jobs| <= rate && sent == taken + jobs && |sent| + overruns == offered == old(offered) + emit
      ensures var room := rate - |old(jobs)|;
              && jobs == old(jobs) + Repeat(now, if emit <= room then emit else room)
              && overruns == old(overruns) + if emit <= room then 0 else emit - room
    {
      ghost var room := rate - |jobs|;
      for i := 0 to emit
        invariant acc == old(acc) && ticks == old(ticks) && taken == old(taken)
        invariant sent == taken + jobs && |sent| + overruns == offered == old(offered) + i
        invariant jobs == old(jobs) + Repeat(now, if i <= room then i else room)
        invariant overruns == old(overruns) + if i <= room then 0 else i - room
      {
        if |jobs| < rate {
          jobs := jobs + [now];
          sent := sent + [now];
        } else {
          overruns := overruns + 1;
        }
        offered := offered + 1;
      }
    }

    /** A worker receives the oldest pending job. */
    method Take() returns (intended: int)
      requires Valid() && jobs != []
      modifies this
      ensures Valid() && [intended] + jobs == old(jobs) && taken == old(taken) + [intended]
      ensures ticks == old(ticks) && offered == old(offered) && overruns == old(overruns)
    {
      intended := jobs[0];
      jobs := jobs[1..];
      taken := taken + [intended];
    }

    /** After k ticks, the jobs sent and the overruns together are floor(k * rate / 1000). */
    lemma PacedExactly()
      requires Valid()
      ensures |taken| + |jobs| + overruns == ticks * rate / 1000
    {
      DueExactly(ticks, rate, offered, acc);
    }
  }

  lemma TickStep(ticks: nat, rate: nat, offered: nat, acc: real)
    requires 0.0 <= acc < 1.0
    requires offered as real + acc == (ticks * rate) as real / 1000.0
    ensures var due := acc + rate as real / 1000.0;
            && due.Floor >= 0
            && 0.0 <= due - due.Floor as real < 1.0
            && (offered + due.Floor) as real + (due - due.Floor as real) == ((ticks + 1) * rate) as real / 1000.0
            && offered + due.Floor == (ticks + 1) * rate / 1000
  {
    var due := acc + rate as real / 1000.0;
    assert (ticks + 1) * rate == ticks * rate + rate;
    assert ((ticks + 1) * rate) as real == (ticks * rate) as real + rate as real;
    DueExactly(ticks + 1, rate, offered + due.Floor, due - due.Floor as real);
  }

  /** A whole part and a remainder below one determine the quotient. */
  lemma DueExactly(ticks: nat, rate: nat, offered: nat, acc: real)
    requires 0.0 <= acc < 1.0
    requires offered as real + acc == (ticks * rate) as real / 1000.0
    ensures offered == ticks * rate / 1000
  {
    var x := ticks * rate;
    assert 1000.0 * offered as real <= x as real < 1000.0 * offered as real + 1000.0;
    assert (1000 * offered) as real <= x as real < (1000 * offered + 1000) as real;
  }
}
