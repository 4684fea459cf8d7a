/**
 The three detectors that run on every event, and the whole path of a burst alarm:
 from the sorted set over the severity to the claimed row.
 */
module Detection {
  import opened Clock
  import opened Wrappers
  import opened Text
  import opened Claims
  import opened BurstWindow
  import opened Signals
  import B = Baseline

  /** Amounts are micro-dollars; the standard deviation is given, not computed. */
  datatype Baseline = Baseline(dailyMean: real, dailyStddev: real, hourlyP95: real, activeDays: int, hours: seq<real>)

  datatype Config = Config(burstWindow: int, burstMultiplier: real, minBaselineDays: int,
                           zScoreWarn: real, zScoreCritical: real, rhythmBreakPct: real)

  // --- Severities -----------------------------------------------------------------

  function BurstSeverity(c: Config, b: Option<Baseline>, rolling: real): Option<Severity> {
    if b.None? || b.value.hourlyP95 <= 0.0 then None
    else
      var warn := c.burstMultiplier * b.value.hourlyP95;
      if rolling < warn then None
      else if rolling >= 1.5 * warn then Some(Critical) else Some(Warn)
  }

  function ZScoreSeverity(c: Config, b: Baseline, today: real): Option<Severity> {
    if b.dailyStddev <= 0.0 || today <= 0.0 then None
    else
      var z := (today - b.dailyMean) / b.dailyStddev;
      if z < c.zScoreWarn then None
      else if z >= c.zScoreCritical then Some(Critical)
      else if z >= (c.zScoreWarn + c.zScoreCritical) / 2.0 then Some(Warn)
      else Some(Warn)
  }

  function RhythmSeverity(c: Config, frac: real): Option<Severity> {
    if frac == 0.0 || frac >= c.rhythmBreakPct then None
    else if frac < 0.01 then Some(Critical)
    else if frac < 0.02 then Some(Warn)
    else Some(Info)
  }

  function Rank(s: Option<Severity>): nat {
    match s
    case None => 0
    case Some(Info) => 1
    case Some(Warn) => 2
    case Some(Critical) => 3
  }

  /** A burst is critical exactly if it would still be one with a third less spend. */
  lemma CriticalIff(c: Config, b: Option<Baseline>, rolling: real)
    requires c.burstMultiplier >= 0.0
    ensures BurstSeverity(c, b, rolling) == Some(Critical) <==>
        BurstSeverity(c, b, rolling * 2.0 / 3.0).Some? && rolling >= 0.0
    ensures BurstSeverity(c, b, rolling).Some? <==>
            b.Some? && b.value.hourlyP95 > 0.0 && rolling >= c.burstMultiplier * b.value.hourlyP95
  {
    if b.Some? && b.value.hourlyP95 > 0.0 {
      assert c.burstMultiplier * b.value.hourlyP95 >= 0.0;
    }
  }

  /** Spending more never lowers a severity. */
  lemma MoreSpendIsNotMilder(c: Config, b: Baseline, x: real, y: real)
    requires x <= y
    ensures Rank(BurstSeverity(c, Some(b), x)) <= Rank(BurstSeverity(c, Some(b), y))
    ensures Rank(ZScoreSeverity(c, b, x)) <= Rank(ZScoreSeverity(c, b, y))
  {
    if b.dailyStddev > 0.0 {
      var z := (y - b.dailyMean) / b.dailyStddev;
      QuotientAgainst(y - b.dailyMean, b.dailyStddev, z);
      QuotientAgainst(x - b.dailyMean, b.dailyStddev, z);
    }
  }

  /**
   Without division: today's spend raises a warning from so many deviations above the mean on, and a critical
   one from more; the midpoint between the two changes nothing.
   */
  lemma ZScoreIff(c: Config, b: Baseline, today: real)
    requires b.dailyStddev > 0.0 && today > 0.0
    ensures var s := ZScoreSeverity(c, b, today); var above := today - b.dailyMean;
            && (s.Some? <==> above >= c.zScoreWarn * b.dailyStddev)
            && (s == Some(Critical) <==>
                above >= c.zScoreWarn * b.dailyStddev && above >= c.zScoreCritical * b.dailyStddev)
            && s != Some(Info)
  {
    QuotientAgainst(today - b.dailyMean, b.dailyStddev, c.zScoreWarn);
    QuotientAgainst(today - b.dailyMean, b.dailyStddev, c.zScoreCritical);
  }

  /** The severity for an hour with `n` of `total` events. */
  ghost predicate RhythmOf(c: Config, s: Option<Severity>, n: int, total: int) {
    && (s.Some? <==> n > 0 && (n as real) < c.rhythmBreakPct * total as real)
    && (s == Some(Critical) <==> s.Some? && (n as real) < 0.01 * total as real)
    && (s == Some(Warn) <==> s.Some? && 0.01 * total as real <= n as real < 0.02 * total as real)
  }

  /**
   An hour breaks the rhythm if it was active, but less than the share asks for; a never active hour raises nothing.
   */
  lemma RhythmIff(c: Config, counts: seq<int>, hour: nat)
    requires hour < |counts| && forall i :: 0 <= i < |counts| ==> counts[i] >= 0
    ensures RhythmOf(c, RhythmSeverity(c, B.SharesOf(counts)[hour]), counts[hour], B.Sum(counts))
  {
    B.SumNonNegative(counts);
    if B.Sum(counts) > 0 {
      RhythmOfShare(c, counts[hour], B.Sum(counts), B.SharesOf(counts)[hour]);
    } else {
      RhythmOfNothing(c);
    }
  }

  lemma RhythmOfNothing(c: Config)
    ensures RhythmOf(c, RhythmSeverity(c, 0.0), 0, 0)
  {
  }

  lemma RhythmOfShare(c: Config, n: int, total: int, frac: real)
    requires 0 <= n <= total && total > 0 && frac == n as real / total as real
    ensures RhythmOf(c, RhythmSeverity(c, frac), n, total)
  {
    ShareAgainst(n, total, 0.0);
    ShareAgainst(n, total, c.rhythmBreakPct);
    ShareAgainst(n, total, 0.01);
    ShareAgainst(n, total, 0.02);
    RhythmBands(c, frac, n, total);
  }

  lemma RhythmBands(c: Config, frac: real, n: int, total: int)
    requires n >= 0 && (frac == 0.0 <==> n == 0)
    requires frac >= c.rhythmBreakPct <==> n as real >= c.rhythmBreakPct * total as real
    requires frac >= 0.01 <==> n as real >= 0.01 * total as real
    requires frac >= 0.02 <==> n as real >= 0.02 * total as real
    ensures RhythmOf(c, RhythmSeverity(c, frac), n, total)
  {
  }

  lemma ShareAgainst(n: int, total: int, c: real)
    requires total > 0
    ensures n as real / total as real >= c <==> n as real >= c * total as real
    ensures n as real / total as real <= c <==> n as real <= c * total as real
  {
    QuotientAgainst(n as real, total as real, c);
  }

  // --- One event ------------------------------------------------------------------

  /** How Redis and Postgres answer when a finding is claimed and written. */
  datatype Outcome = Outcome(fault: Fault, writeFails: bool)

  /**
   One event of a known engineer, with all that is read for it. A missing cost is 0; a
   baseline is None if there is none or it could not be read, and it is read twice.
   */
  datatype Incoming = Incoming(cost: int, at: int, wall: int, bump: Fault,
                               burstBaseline: Option<Baseline>, baseline: Option<Baseline>, today: real,
                               burst: Outcome, rhythm: Outcome, zScore: Outcome)

  /** The event's cost reaches the window, whether or not an error is reported. */
  predicate Bumps(ev: Incoming) {
    ev.cost > 0 && !ev.bump.ErrorBefore?
  }

  /** The window's total comes back as well. */
  predicate Answered(ev: Incoming) {
    ev.cost > 0 && ev.bump.NoFault?
  }

  function OutcomeOf(ev: Incoming, s: SignalType): Outcome {
    match s
    case Burst => ev.burst
    case RhythmBreak => ev.rhythm
    case ZScoreHigh => ev.zScore
  }

  function One(email: string, signal: SignalType, severity: Option<Severity>, at: int): seq<Finding> {
    if severity.None? then [] else [Finding(email, signal, severity.value, at)]
  }

  function HourOfDay(t: int): int {
    (t / HOUR) % 24
  }

  function BurstsOf(c: Config, email: string, ev: Incoming, rolling: Option<nat>): seq<Finding> {
    if rolling.None? then [] else One(email, Burst, BurstSeverity(c, ev.burstBaseline, rolling.value as real), ev.at)
  }

  /** What one event raises, in this order; without enough history, only the burst check. */
  function Raised(c: Config, email: string, ev: Incoming, rolling: Option<nat>): seq<Finding> {
    var bursts := BurstsOf(c, email, ev, rolling);
    if ev.baseline.None? || ev.baseline.value.activeDays < c.minBaselineDays then bursts
    else
      var b := ev.baseline.value;
      var frac := if HourOfDay(ev.at) < |b.hours| then b.hours[HourOfDay(ev.at)] else 0.0;
      bursts + One(email, RhythmBreak, RhythmSeverity(c, frac), ev.at) +
        One(email, ZScoreHigh, ZScoreSeverity(c, b, ev.today), ev.at)
  }

  /** The hour of the UTC day that an instant falls into. */
  lemma HourOfDayIff(t: int, h: int)
    ensures h == HourOfDay(t) <==>
            0 <= h < 24 && exists day, rest :: 0 <= rest < HOUR && t == InHour(day, h, rest)
  {
    var day, rest := t / HOUR / 24, t % HOUR;
    assert t == InHour(day, HourOfDay(t), rest) && 0 <= rest < HOUR && 0 <= HourOfDay(t) < 24;
    if d, r :| 0 <= h < 24 && 0 <= r < HOUR && t == InHour(d, h, r) {
      HourUnique(d, h, r);
    }
  }

  function InHour(day: int, h: int, rest: int): int {
    day * DAY + h * HOUR + rest
  }

  lemma HourUnique(day: int, h: int, rest: int)
    requires 0 <= h < 24 && 0 <= rest < HOUR
    ensures HourOfDay(InHour(day, h, rest)) == h
  {
    assert InHour(day, h, rest) == (day * 24 + h) * HOUR + rest;
    assert InHour(day, h, rest) / HOUR == day * 24 + h;
  }

  /** There is a baseline of enough days. */
  predicate Enough(c: Config, ev: Incoming) {
    ev.baseline.Some? && ev.baseline.value.activeDays >= c.minBaselineDays
  }

  ghost predicate BurstFound(c: Config, ev: Incoming, rolling: Option<nat>, s: Severity) {
    && rolling.Some? && ev.burstBaseline.Some? && ev.burstBaseline.value.hourlyP95 > 0.0
    && var warn, spent := c.burstMultiplier * ev.burstBaseline.value.hourlyP95, rolling.value as real;
       spent >= warn && s == if spent >= 1.5 * warn then Critical else Warn
  }

  ghost predicate RhythmFound(c: Config, ev: Incoming, s: Severity) {
    && Enough(c, ev) && HourOfDay(ev.at) < |ev.baseline.value.hours|
    && var share := ev.baseline.value.hours[HourOfDay(ev.at)];
       share != 0.0 && share < c.rhythmBreakPct &&
       s == if share < 0.01 then Critical else if share < 0.02 then Warn else Info
  }

  ghost predicate ZScoreFound(c: Config, ev: Incoming, s: Severity) {
    && Enough(c, ev) && ev.baseline.value.dailyStddev > 0.0 && ev.today > 0.0
    && var above, stddev := ev.today - ev.baseline.value.dailyMean, ev.baseline.value.dailyStddev;
       above >= c.zScoreWarn * stddev && s == if above >= c.zScoreCritical * stddev then Critical else Warn
  }

  /**
   Just these findings are raised: a burst by the window's total against the hourly baseline, a break of rhythm by the
   share of the event's own hour, a Z-score by today's spend against mean and deviation; the last two only with a
   baseline of enough days.
   */
  lemma RaisedIff(c: Config, email: string, ev: Incoming, rolling: Option<nat>, f: Finding)
    ensures f in Raised(c, email, ev, rolling) <==>
            && f.email == email && f.at == ev.at
            && match f.signal
               case Burst => BurstFound(c, ev, rolling, f.severity)
               case RhythmBreak => RhythmFound(c, ev, f.severity)
               case ZScoreHigh => ZScoreFound(c, ev, f.severity)
  {
    if Enough(c, ev) && ev.baseline.value.dailyStddev > 0.0 && ev.today > 0.0 {
      ZScoreIff(c, ev.baseline.value, ev.today);
    }
  }

  function FireAll(d: Detector, fs: seq<Finding>, ev: Incoming): Detector {
    if fs == [] then d
    else
      var f := fs[|fs| - 1];
      FireStep(FireAll(d, fs[..|fs| - 1], ev), f, OutcomeOf(ev, f.signal).fault, OutcomeOf(ev, f.signal).writeFails)
  }

  lemma FireAllSnoc(d: Detector, fs: seq<Finding>, f: Finding, ev: Incoming)
    ensures FireAll(d, fs + [f], ev) ==
            FireStep(FireAll(d, fs, ev), f, OutcomeOf(ev, f.signal).fault, OutcomeOf(ev, f.signal).writeFails)
  {
    assert (fs + [f])[..|fs|] == fs;
  }

  /** The detector as one engineer's events see it. */
  class EventDetector {
    const email: string
    const config: Config
    const window: BurstStore
    const signals: SignalDetector

    constructor (email: string, config: Config, window: BurstStore, signals: SignalDetector)
      ensures this.email == email && this.config == config && this.window == window && this.signals == signals
    {
      this.email, this.config, this.window, this.signals := email, config, window, signals;
    }

    method Fire(signal: SignalType, severity: Option<Severity>, ev: Incoming)
      modifies signals
      ensures signals.state == FireAll(old(signals.state), One(email, signal, severity, ev.at), ev)
    {
      if severity.Some? {
        var o := OutcomeOf(ev, signal);
        FireAllSnoc(signals.state, [], Finding(email, signal, severity.value, ev.at), ev);
        assert [] + [Finding(email, signal, severity.value, ev.at)] == One(email, signal, severity, ev.at);
        signals.Fire(Finding(email, signal, severity.value, ev.at), o.fault, o.writeFails);
      }
    }

    /** Nothing happens for an unknown engineer; errors in the bump or in reading a baseline only skip checks. */
    method HandleEvent(known: bool, ev: Incoming) returns (rolling: Option<nat>)
      requires window.Valid()
      modifies window, signals
      ensures window.Valid()
      ensures known && ev.cost > 0 && !ev.bump.ErrorBefore? ==>
          window.View() == Bumped(old(window.View()), Spend(ev.at, ev.cost), ev.wall, config.burstWindow)
      ensures !known || ev.cost <= 0 || ev.bump.ErrorBefore? ==> window.View() == old(window.View())
      ensures rolling == if known && ev.cost > 0 && ev.bump.NoFault? then Some(Total(window.View().kept)) else None
      ensures signals.state == if known then FireAll(old(signals.state), Raised(config, email, ev, rolling), ev)
                               else old(signals.state)
    {
      rolling := None;
      if !known {
        return;
      }
      if ev.cost > 0 && !ev.bump.ErrorBefore? {
        var sum := window.BumpBurstWindow(ev.cost, ev.at, config.burstWindow, ev.wall);
        if ev.bump.NoFault? {
          rolling := Some(sum);
          Fire(Burst, BurstSeverity(config, ev.burstBaseline, sum as real), ev);
        }
      }
      ghost var bursts := BurstsOf(config, email, ev, rolling);
      assert signals.state == FireAll(old(signals.state), bursts, ev);
      if ev.baseline.None? || ev.baseline.value.activeDays < config.minBaselineDays {
        return;
      }
      var b := ev.baseline.value;
      var frac := if HourOfDay(ev.at) < |b.hours| then b.hours[HourOfDay(ev.at)] else 0.0;
      ghost var r := One(email, RhythmBreak, RhythmSeverity(config, frac), ev.at);
      ghost var z := One(email, ZScoreHigh, ZScoreSeverity(config, b, ev.today), ev.at);
      FireAllAppend(old(signals.state), bursts, r, ev);
      FireAllAppend(old(signals.state), bursts + r, z, ev);
      Fire(RhythmBreak, RhythmSeverity(config, frac), ev);
      Fire(ZScoreHigh, ZScoreSeverity(config, b, ev.today), ev);
    }
  }

  lemma {:induction false} FireAllAppend(d: Detector, a: seq<Finding>, b: seq<Finding>, ev: Incoming)
    ensures FireAll(d, a + b, ev) == FireAll(FireAll(d, a, ev), b, ev)
    decreases |b|
  {
    if b == [] {
      assert a + b == a;
    } else {
      FireAllAppend(d, a, b[..|b| - 1], ev);
      assert (a + b)[..|a + b| - 1] == a + b[..|b| - 1];
    }
  }

  // --- A run of events --------------------------------------------------------------

  ghost function Rolling(c: Config, calls: seq<Call>): nat {
    Total(After(calls, c.burstWindow).kept)
  }

  function CallOf(ev: Incoming): Call
    requires Bumps(ev)
  {
    Call(Spend(ev.at, ev.cost), ev.wall)
  }

  function CallsOf(evs: seq<Incoming>): seq<Call> {
    if evs == [] then []
    else CallsOf(evs[..|evs| - 1]) + if Bumps(evs[|evs| - 1]) then [CallOf(evs[|evs| - 1])] else []
  }

  /** The detector's clock never runs backwards. */
  function ClockTo(d: Detector, wall: int): Detector {
    d.(store := Advance(d.store, if wall >= d.store.now then wall - d.store.now else 0))
  }

  ghost function Finds(c: Config, email: string, evs: seq<Incoming>): seq<Finding>
    requires evs != []
  {
    var ev := evs[|evs| - 1];
    Raised(c, email, ev, if Answered(ev) then Some(Rolling(c, CallsOf(evs))) else None)
  }

  /** All events of one engineer, handled in turn. */
  ghost function Watched(c: Config, email: string, now: int, evs: seq<Incoming>): Detector {
    if evs == [] then Detector(Store(map[], now, []), [], [])
    else
      var d := Watched(c, email, now, evs[..|evs| - 1]);
      FireAll(ClockTo(d, evs[|evs| - 1].wall), Finds(c, email, evs), evs[|evs| - 1])
  }

  lemma {:induction false} FireAllRows(d: Detector, fs: seq<Finding>, ev: Incoming, r: Finding)
    requires r in FireAll(d, fs, ev).rows
    ensures r in d.rows || r in fs
  {
    if fs != [] {
      var f := fs[|fs| - 1];
      if r != f {
        assert r in FireAll(d, fs[..|fs| - 1], ev).rows;
        FireAllRows(d, fs[..|fs| - 1], ev, r);
      }
    }
  }

  /** Every row was raised by some event. */
  lemma {:induction false} RowsAreRaised(c: Config, email: string, now: int, evs: seq<Incoming>, r: Finding)
    returns (n: nat)
    requires r in Watched(c, email, now, evs).rows
    ensures n < |evs| && r in Finds(c, email, evs[..n + 1])
  {
    var m := |evs| - 1;
    var d := ClockTo(Watched(c, email, now, evs[..m]), evs[m].wall);
    FireAllRows(d, Finds(c, email, evs), evs[m], r);
    if r in Finds(c, email, evs) {
      n := m;
      assert evs[..n + 1] == evs;
    } else {
      n := RowsAreRaised(c, email, now, evs[..m], r);
      assert evs[..m][..n + 1] == evs[..n + 1];
    }
  }

  lemma BurstRaised(c: Config, email: string, ev: Incoming, rolling: Option<nat>, f: Finding)
    ensures f in Raised(c, email, ev, rolling) && f.signal == Burst ==>
              rolling.Some? && BurstSeverity(c, ev.burstBaseline, rolling.value as real) == Some(f.severity) &&
                f.at == ev.at
    ensures rolling.Some? && BurstSeverity(c, ev.burstBaseline, rolling.value as real).Some? ==>
              Finding(email, Burst, BurstSeverity(c, ev.burstBaseline, rolling.value as real).value, ev.at)
              in Raised(c, email, ev, rolling)
  {
  }

  /** The last bump carries the latest event time so far, and finds all of its window (`BurstExactIff`). */
  ghost predicate EndsWithLatest(calls: seq<Call>, window: int) {
    LatestIsLast(calls) && NoneForgotten(calls, window)
  }

  /** What was spent and has neither expired nor been trimmed since. */
  ghost function SurvivingSpend(c: Config, evs: seq<Incoming>): nat {
    var calls := CallsOf(evs);
    Total(set p | p in Spends(calls) && Survives(calls, c.burstWindow, p))
  }

  lemma RollingSurvives(c: Config, evs: seq<Incoming>)
    ensures Rolling(c, CallsOf(evs)) == SurvivingSpend(c, evs)
  {
    var calls := CallsOf(evs);
    WindowLaw(calls, c.burstWindow);
    KeptAreRecent(calls, c.burstWindow);
    assert After(calls, c.burstWindow).kept == set p | p in Spends(calls) && Survives(calls, c.burstWindow, p);
  }

  /** What was spent in the window that ends with the last event, as far as it reached Redis. */
  ghost function WindowSpend(c: Config, evs: seq<Incoming>): nat
    requires evs != []
  {
    Total(InWindow(CallsOf(evs), evs[|evs| - 1].at, c.burstWindow))
  }

  lemma RollingIsWindowSpend(c: Config, evs: seq<Incoming>)
    requires evs != [] && Bumps(evs[|evs| - 1]) && EndsWithLatest(CallsOf(evs), c.burstWindow)
    ensures Rolling(c, CallsOf(evs)) == WindowSpend(c, evs)
  {
    var calls := CallsOf(evs);
    assert calls[|calls| - 1] == CallOf(evs[|evs| - 1]);
    BurstExactIff(calls, c.burstWindow);
  }

  /** What was spent since the window that ends with the last event began, as far as it reached Redis. */
  ghost function SpendSince(c: Config, evs: seq<Incoming>): nat
    requires evs != []
  {
    Total(Since(CallsOf(evs), evs[|evs| - 1].at, c.burstWindow))
  }

  lemma RollingIsRecent(c: Config, evs: seq<Incoming>)
    requires evs != [] && Bumps(evs[|evs| - 1])
    ensures Rolling(c, CallsOf(evs)) <= SpendSince(c, evs)
  {
    var calls := CallsOf(evs);
    assert calls[|calls| - 1] == CallOf(evs[|evs| - 1]);
    KeptAreRecent(calls, c.burstWindow);
    TotalSubset(After(calls, c.burstWindow).kept, Since(calls, evs[|evs| - 1].at, c.burstWindow));
  }

  /**
   No false alarm: behind every burst row stands an event for which what survives in the window has just that
   severity, and since whose window began at least as much was spent. If its time was the latest so far and nothing of
   its window was forgotten, the spend in its window has just that severity, however late or often others came.
   */
  lemma BurstRowsAreTrue(c: Config, email: string, now: int, evs: seq<Incoming>, r: Finding) returns (n: nat)
    requires r in Watched(c, email, now, evs).rows && r.signal == Burst
    ensures n < |evs| && evs[n].cost > 0 && evs[n].bump.NoFault? && r.at == evs[n].at
    ensures BurstSeverity(c, evs[n].burstBaseline, SurvivingSpend(c, evs[..n + 1]) as real) == Some(r.severity)
    ensures Rank(Some(r.severity)) <= Rank(BurstSeverity(c, evs[n].burstBaseline, SpendSince(c, evs[..n + 1]) as real))
    ensures EndsWithLatest(CallsOf(evs[..n + 1]), c.burstWindow) ==>
              BurstSeverity(c, evs[n].burstBaseline, WindowSpend(c, evs[..n + 1]) as real) == Some(r.severity)
  {
    n := RowsAreRaised(c, email, now, evs, r);
    var upTo := evs[..n + 1];
    assert upTo[|upTo| - 1] == evs[n];
    BurstRaised(c, email, evs[n], if Answered(evs[n]) then Some(Rolling(c, CallsOf(upTo))) else None, r);
    RollingIsRecent(c, upTo);
    RollingSurvives(c, upTo);
    MoreSpendIsNotMilder(c, evs[n].burstBaseline.value, Rolling(c, CallsOf(upTo)) as real, SpendSince(c, upTo) as real);
    if EndsWithLatest(CallsOf(upTo), c.burstWindow) {
      RollingIsWindowSpend(c, upTo);
    }
  }

  // --- No missed alarm --------------------------------------------------------------

  lemma {:induction false} FireAllKeeps(d: Detector, fs: seq<Finding>, ev: Incoming)
    requires RowsInv(d)
    ensures RowsInv(FireAll(d, fs, ev))
    ensures d.store.grants <= FireAll(d, fs, ev).store.grants && FireAll(d, fs, ev).store.now == d.store.now
  {
    if fs != [] {
      var f := fs[|fs| - 1];
      FireAllKeeps(d, fs[..|fs| - 1], ev);
      var o := OutcomeOf(ev, f.signal);
      NextKeepsRows(FireAll(d, fs[..|fs| - 1], ev), Step.Fire(f, o.fault, o.writeFails));
    }
  }

  /**
   Unless the claim errs or the day is long over, firing leaves a finding claimed, by this event or by an earlier one.
   */
  lemma FireClaims(d: Detector, f: Finding, fault: Fault, writeFails: bool)
    requires RowsInv(d) && !fault.ErrorBefore?
    ensures Claimed(FireStep(d, f, fault, writeFails), FindingKey(f)) || d.store.now >= FindingDeadline(f)
  {
    var key, s := FindingKey(f), d.store;
    if Attempt(s, key, FindingDeadline(f)).0 {
      var t := FireStep(d, f, fault, writeFails);
      assert t.store.grants[|s.grants|].key == key;
      assert t.store.grants[|s.grants|] in t.store.grants;
    } else if s.now < FindingDeadline(f) {
      assert Live(s.keys, key, s.now);
      assert KeyBacked(s, key);
      var i :| 0 <= i < |s.grants| && s.grants[i].key == key && s.grants[i].deadline == s.keys[key];
      assert s.grants[i] in s.grants;
    }
  }

  lemma ClaimedStays(d: Detector, e: Detector, key: RedisKey)
    requires Claimed(d, key) && d.store.grants <= e.store.grants
    ensures Claimed(e, key)
  {
    var g :| g in d.store.grants && g.key == key;
    assert g in e.store.grants;
  }

  lemma {:induction false} FireAllClaims(d: Detector, fs: seq<Finding>, ev: Incoming, f: Finding)
    requires RowsInv(d) && f in fs && !OutcomeOf(ev, f.signal).fault.ErrorBefore?
    ensures Claimed(FireAll(d, fs, ev), FindingKey(f)) || d.store.now >= FindingDeadline(f)
  {
    var front, last := fs[..|fs| - 1], fs[|fs| - 1];
    var e := FireAll(d, front, ev);
    FireAllKeeps(d, front, ev);
    if f == last {
      FireClaims(e, f, OutcomeOf(ev, f.signal).fault, OutcomeOf(ev, f.signal).writeFails);
    } else {
      assert f in front;
      FireAllClaims(d, front, ev, f);
      if Claimed(e, FindingKey(f)) {
        FireAllKeeps(d, fs, ev);
        FireAllKeeps(e, [last], ev);
        FireAllSnoc(d, front, last, ev);
        FireAllSnoc(e, [], last, ev);
        ClaimedStays(e, FireAll(d, fs, ev), FindingKey(f));
      }
    }
  }

  lemma {:induction false} WatchedKeeps(c: Config, email: string, now: int, evs: seq<Incoming>)
    ensures RowsInv(Watched(c, email, now, evs))
  {
    if evs == [] {
      EmptyInv(Store(map[], now, []));
    } else {
      var m := |evs| - 1;
      var d := Watched(c, email, now, evs[..m]);
      WatchedKeeps(c, email, now, evs[..m]);
      NextKeepsRows(d, Wait(if evs[m].wall >= d.store.now then evs[m].wall - d.store.now else 0));
      FireAllKeeps(ClockTo(d, evs[m].wall), Finds(c, email, evs), evs[m]);
    }
  }

  /** Whatever an event raises is claimed, unless its claim errs outright or its day ended over an hour ago. */
  lemma RaisedIsClaimed(c: Config, email: string, now: int, evs: seq<Incoming>, f: Finding)
    requires evs != [] && f in Finds(c, email, evs)
    requires var ev := evs[|evs| - 1];
             match f.signal
             case Burst => !ev.burst.fault.ErrorBefore?
             case RhythmBreak => !ev.rhythm.fault.ErrorBefore?
             case ZScoreHigh => !ev.zScore.fault.ErrorBefore?
    ensures var d := Watched(c, email, now, evs); Claimed(d, FindingKey(f)) || d.store.now >= FindingDeadline(f)
  {
    var m, ev := |evs| - 1, evs[|evs| - 1];
    var d := Watched(c, email, now, evs[..m]);
    WatchedKeeps(c, email, now, evs[..m]);
    NextKeepsRows(d, Wait(if ev.wall >= d.store.now then ev.wall - d.store.now else 0));
    FireAllClaims(ClockTo(d, ev.wall), Finds(c, email, evs), ev, f);
    FireAllKeeps(ClockTo(d, ev.wall), Finds(c, email, evs), ev);
  }

  /** The event's burst check gets as far as the claim, with this severity for the spend. */
  ghost predicate Alarms(c: Config, evs: seq<Incoming>, spend: int, severity: Severity)
    requires evs != []
  {
    var ev := evs[|evs| - 1];
    && Answered(ev) && !ev.burst.fault.ErrorBefore?
    && BurstSeverity(c, ev.burstBaseline, spend as real) == Some(severity)
  }

  function AlarmOf(email: string, severity: Severity, evs: seq<Incoming>): Finding
    requires evs != []
  {
    Finding(email, Burst, severity, evs[|evs| - 1].at)
  }

  /** Whatever the clocks do: a severity for what survives in the window is claimed, unless its day is long over. */
  lemma SurvivingIsClaimed(c: Config, email: string, now: int, evs: seq<Incoming>, severity: Severity)
    requires evs != [] && Alarms(c, evs, SurvivingSpend(c, evs), severity)
    ensures var d, f := Watched(c, email, now, evs), AlarmOf(email, severity, evs);
            Claimed(d, FindingKey(f)) || d.store.now >= FindingDeadline(f)
  {
    var ev := evs[|evs| - 1];
    RollingSurvives(c, evs);
    BurstRaised(c, email, ev, Some(Rolling(c, CallsOf(evs))), AlarmOf(email, severity, evs));
    RaisedIsClaimed(c, email, now, evs, AlarmOf(email, severity, evs));
  }

  /**
   No missed alarm: when an event with the latest time so far, of whose window nothing was forgotten, brings the spend
   in the window to a threshold, the finding is claimed once it is handled, unless its claim fails outright or its day
   ended over an hour ago.
   */
  lemma BurstIsClaimed(c: Config, email: string, now: int, evs: seq<Incoming>, severity: Severity)
    requires evs != [] && EndsWithLatest(CallsOf(evs), c.burstWindow)
    requires Alarms(c, evs, WindowSpend(c, evs), severity)
    ensures var d, f := Watched(c, email, now, evs), AlarmOf(email, severity, evs);
            Claimed(d, FindingKey(f)) || d.store.now >= FindingDeadline(f)
  {
    RollingIsWindowSpend(c, evs);
    RollingSurvives(c, evs);
    SurvivingIsClaimed(c, email, now, evs, severity);
  }

  // --- From the claim to the row ----------------------------------------------------

  predicate BurstOf(key: RedisKey, day: int) {
    key.SignalFired? && key.signal == Burst && key.day == day
  }

  /** Every burst claimed for the day has its row. */
  ghost predicate BurstsReported(d: Detector, day: int) {
    forall g :: g in d.store.grants && BurstOf(g.key, day) ==> Reported(d, g.key)
  }

  predicate Written(o: Outcome) {
    !o.fault.ErrorAfter? && !o.writeFails
  }

  /** No claim of a burst of the day errs once it took effect, and its row is written. */
  ghost predicate BurstsWritten(evs: seq<Incoming>, day: int) {
    forall i :: 0 <= i < |evs| && DayOf(evs[i].at) == day ==> Written(evs[i].burst)
  }

  lemma FireReports(d: Detector, f: Finding, o: Outcome, day: int)
    requires BurstsReported(d, day) && (BurstOf(FindingKey(f), day) ==> Written(o))
    ensures BurstsReported(FireStep(d, f, o.fault, o.writeFails), day)
  {
    var e := FireStep(d, f, o.fault, o.writeFails);
    forall g | g in e.store.grants && BurstOf(g.key, day)
      ensures Reported(e, g.key)
    {
      if g in d.store.grants {
        var r :| r in d.rows && FindingKey(r) == g.key;
        assert r in e.rows;
      } else {
        assert f in e.rows;
      }
    }
  }

  lemma {:induction false} FireAllReports(d: Detector, fs: seq<Finding>, ev: Incoming, day: int)
    requires BurstsReported(d, day) && (DayOf(ev.at) == day ==> Written(ev.burst))
    requires forall f :: f in fs ==> f.at == ev.at
    ensures BurstsReported(FireAll(d, fs, ev), day)
  {
    if fs != [] {
      var front, f := fs[..|fs| - 1], fs[|fs| - 1];
      assert f in fs && forall x :: x in front ==> x in fs;
      FireAllReports(d, front, ev, day);
      FireReports(FireAll(d, front, ev), f, OutcomeOf(ev, f.signal), day);
    }
  }

  lemma {:induction false} WatchedReports(c: Config, email: string, now: int, evs: seq<Incoming>, day: int)
    requires BurstsWritten(evs, day)
    ensures BurstsReported(Watched(c, email, now, evs), day)
  {
    if evs != [] {
      var m := |evs| - 1;
      var d := Watched(c, email, now, evs[..m]);
      WatchedReports(c, email, now, evs[..m], day);
      var e := ClockTo(d, evs[m].wall);
      forall g | g in e.store.grants && BurstOf(g.key, day)
        ensures Reported(e, g.key)
      {
        assert Reported(d, g.key);
      }
      FireAllReports(e, Finds(c, email, evs), evs[m], day);
    }
  }

  /**
   No missed alarm, down to the row: if that day's burst claims err at most before they take effect and their rows are
   written, such an event leaves a row of its severity and day, unless the day ended over an hour ago. Otherwise the
   alarm may be lost for the day (`LostForGood`).
   */
  lemma BurstIsReported(c: Config, email: string, now: int, evs: seq<Incoming>, severity: Severity)
    requires evs != [] && EndsWithLatest(CallsOf(evs), c.burstWindow)
    requires Alarms(c, evs, WindowSpend(c, evs), severity) && BurstsWritten(evs, DayOf(evs[|evs| - 1].at))
    ensures var d, day := Watched(c, email, now, evs), DayOf(evs[|evs| - 1].at);
            || d.store.now >= (day + 1) * DAY + HOUR - SEC
            || exists r :: r in d.rows && r.email == email && r.signal == Burst && r.severity == severity
                           && DayOf(r.at) == day
  {
    BurstIsClaimed(c, email, now, evs, severity);
    WatchedReports(c, email, now, evs, DayOf(evs[|evs| - 1].at));
  }
}
