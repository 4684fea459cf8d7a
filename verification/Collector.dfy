/**
 The efficiency collector's scheduler: any number of goroutines call `Run` on one
 collector, whose trigger channel holds one token and whose mutex is only ever
 tried. Every request made by `Trigger` is followed to what becomes of it.
 */
module Collector {
  import opened Wrappers

  datatype Source = Startup | Cron | Triggered

  /** What one `Run` loop is doing; `Due` is about to try the mutex. */
  datatype Loop = Due(source: Source) | Selecting | Running(source: Source, start: int) | Stopped

  /** What became of a request: `Taken` by a loop, `Served` by a run that started then, or dropped. */
  datatype Fate = Waiting | Taken(loop: nat) | Served(start: int) | Debounced(at: int) | Skipped(at: int)

  datatype Request = Request(at: int, fate: Fate)

  datatype Span = Span(source: Source, start: int, end: int)

  /** `pending` is the channel's token, `holder` the loop that holds the mutex, `runs` the finished runs. */
  datatype State = State(debounce: int, now: int, pending: bool, holder: Option<nat>, lastRunAt: Option<int>,
                         loops: seq<Loop>, runs: seq<Span>, requests: seq<Request>)

  datatype Event =
    | Tick(dt: nat) | Trigger
    | CronTick(i: nat) | TakeTrigger(i: nat) | Begin(i: nat) | Finish(i: nat) | Stop(i: nat)

  /** Every loop begins with its startup run. */
  function Init(debounce: int, now: int, n: nat): State {
    State(debounce, now, false, None, None, seq(n, _ => Due(Startup)), [], [])
  }

  /** All requests with one fate come to another. */
  function Settle(rs: seq<Request>, from: Fate, to: Fate): (r: seq<Request>)
    ensures |r| == |rs|
    ensures forall k :: 0 <= k < |rs| ==> r[k] == if rs[k].fate == from then rs[k].(fate := to) else rs[k]
  {
    seq(|rs|, k requires 0 <= k < |rs| => if rs[k].fate == from then rs[k].(fate := to) else rs[k])
  }

  predicate TooSoon(s: State) {
    s.lastRunAt.Some? && s.now - s.lastRunAt.value < s.debounce
  }

  predicate Enabled(s: State, e: Event) {
    match e
    case Tick(_) => true
    case Trigger => true
    case CronTick(i) => i < |s.loops| && s.loops[i].Selecting?
    case TakeTrigger(i) => i < |s.loops| && s.loops[i].Selecting? && s.pending
    case Begin(i) => i < |s.loops| && s.loops[i].Due?
    case Finish(i) => i < |s.loops| && s.loops[i].Running?
    case Stop(i) => i < |s.loops| && s.loops[i].Selecting?
  }

  function Apply(s: State, e: Event): State
    requires Enabled(s, e)
  {
    match e
    case Tick(dt) => s.(now := s.now + dt)
    case Trigger => s.(pending := true, requests := s.requests + [Request(s.now, Waiting)])
    case CronTick(i) => s.(loops := s.loops[i := Due(Cron)])
    case TakeTrigger(i) =>
      if TooSoon(s) then s.(pending := false, requests := Settle(s.requests, Waiting, Debounced(s.now)))
      else s.(pending := false, loops := s.loops[i := Due(Triggered)],
              requests := Settle(s.requests, Waiting, Taken(i)))
    case Begin(i) =>
      if s.holder.Some?
      then s.(loops := s.loops[i := Selecting], requests := Settle(s.requests, Taken(i), Skipped(s.now)))
      else s.(holder := Some(i), loops := s.loops[i := Running(s.loops[i].source, s.now)],
              requests := Settle(s.requests, Taken(i), Served(s.now)))
    case Finish(i) =>
      s.(holder := None, lastRunAt := Some(s.now), loops := s.loops[i := Selecting],
         runs := s.runs + [Span(s.loops[i].source, s.loops[i].start, s.now)])
    case Stop(i) => s.(loops := s.loops[i := Stopped])
  }

  /** An event that cannot happen yet changes nothing, so every script is a run. */
  function Step(s: State, e: Event): State {
    if Enabled(s, e) then Apply(s, e) else s
  }

  function Play(s: State, script: seq<Event>): State {
    if script == [] then s else Step(Play(s, script[..|script| - 1]), script[|script| - 1])
  }

  // --- Invariants ---------------------------------------------------------------

  /** The mutex is held by exactly the loop that runs. */
  ghost predicate Exclusive(s: State) {
    && (s.holder.Some? ==> s.holder.value < |s.loops|)
    && forall i :: 0 <= i < |s.loops| ==> (s.loops[i].Running? <==> s.holder == Some(i))
  }

  function LastEnd(runs: seq<Span>): Option<int> {
    if runs == [] then None else Some(runs[|runs| - 1].end)
  }

  /** Finished runs follow one another, and the present run follows them. */
  ghost predicate Ordered(s: State) {
    && (forall k :: 0 <= k < |s.runs| ==> s.runs[k].start <= s.runs[k].end <= s.now)
    && (forall k, l :: 0 <= k < l < |s.runs| ==> s.runs[k].end <= s.runs[l].start)
    && s.lastRunAt == LastEnd(s.runs)
    && (forall i :: 0 <= i < |s.loops| && s.loops[i].Running? ==>
          s.loops[i].start <= s.now && forall k :: 0 <= k < |s.runs| ==> s.runs[k].end <= s.loops[i].start)
  }

  ghost predicate InProgress(s: State, t: int) {
    || (exists k :: 0 <= k < |s.runs| && s.runs[k].start <= t <= s.runs[k].end)
    || (exists i :: 0 <= i < |s.loops| && s.loops[i].Running? && s.loops[i].start <= t)
  }

  ghost predicate TriggeredRunAt(s: State, start: int) {
    || (exists k :: 0 <= k < |s.runs| && s.runs[k].source == Triggered && s.runs[k].start == start)
    || (exists i :: 0 <= i < |s.loops| && s.loops[i] == Running(Triggered, start))
  }

  /** `t` falls after the end of a run by less than the debounce interval. */
  ghost predicate JustAfterRun(s: State, t: int) {
    exists k :: 0 <= k < |s.runs| && s.runs[k].end <= t < s.runs[k].end + s.debounce
  }

  ghost predicate Accounted(s: State, r: Request) {
    r.at <= s.now &&
    match r.fate
    case Waiting => s.pending
    case Taken(i) => i < |s.loops| && s.loops[i] == Due(Triggered)
    case Served(start) => r.at <= start <= s.now && TriggeredRunAt(s, start)
    case Debounced(t) => r.at <= t <= s.now && JustAfterRun(s, t)
    case Skipped(t) => r.at <= t <= s.now && InProgress(s, t)
  }

  ghost predicate AllAccounted(s: State) {
    forall k :: 0 <= k < |s.requests| ==> Accounted(s, s.requests[k])
  }

  ghost predicate TokenMeansWaiting(s: State) {
    s.pending ==> exists k :: 0 <= k < |s.requests| && s.requests[k].fate == Waiting
  }

  ghost predicate Inv(s: State) {
    Exclusive(s) && Ordered(s) && AllAccounted(s) && TokenMeansWaiting(s)
  }

  lemma ExclusiveStep(s: State, e: Event)
    requires Exclusive(s)
    ensures Exclusive(Step(s, e))
  {
  }

  lemma OrderedStep(s: State, e: Event)
    requires Exclusive(s) && Ordered(s)
    ensures Ordered(Step(s, e))
  {
    if Enabled(s, e) {
      if e.Finish? {
        FinishOrdered(s, e.i);
      } else if e.Begin? && s.holder.None? {
        BeginOrdered(s, e.i);
      } else {
        var t := Step(s, e);
        assert forall j :: 0 <= j < |t.loops| && t.loops[j].Running? ==> t.loops[j] == s.loops[j];
      }
    }
  }

  lemma BeginOrdered(s: State, i: nat)
    requires Exclusive(s) && Ordered(s) && s.holder.None? && Enabled(s, Begin(i))
    ensures Ordered(Apply(s, Begin(i)))
  {
    var t := Apply(s, Begin(i));
    assert forall j :: 0 <= j < |t.loops| && t.loops[j].Running? ==> j == i && t.loops[j].start == s.now;
  }

  lemma FinishOrdered(s: State, i: nat)
    requires Exclusive(s) && Ordered(s) && Enabled(s, Finish(i))
    ensures Ordered(Apply(s, Finish(i)))
  {
    var t := Apply(s, Finish(i));
    assert forall j :: 0 <= j < |t.loops| ==> !t.loops[j].Running?;
    assert forall k :: 0 <= k < |s.runs| ==> t.runs[k] == s.runs[k];
  }

  /** A later state still shows every run that an earlier one shows. */
  ghost predicate Extends(s: State, t: State) {
    && s.now <= t.now && s.debounce == t.debounce && s.runs <= t.runs
    && forall i :: 0 <= i < |s.loops| && s.loops[i].Running? ==>
         || (i < |t.loops| && t.loops[i] == s.loops[i])
         || (exists k :: 0 <= k < |t.runs| && t.runs[k] == Span(s.loops[i].source, s.loops[i].start, t.now))
  }

  lemma StepExtends(s: State, e: Event)
    ensures Extends(s, Step(s, e))
  {
    var t := Step(s, e);
    if Enabled(s, e) && e.Finish? {
      assert t.runs[|s.runs|] == Span(s.loops[e.i].source, s.loops[e.i].start, t.now);
    }
  }

  lemma ExtendsKeeps(s: State, t: State, u: int)
    requires Extends(s, t) && u <= s.now
    ensures InProgress(s, u) ==> InProgress(t, u)
    ensures TriggeredRunAt(s, u) ==> TriggeredRunAt(t, u)
    ensures JustAfterRun(s, u) ==> JustAfterRun(t, u)
  {
    assert forall k :: 0 <= k < |s.runs| ==> s.runs[k] == t.runs[k];
  }

  /** The requests a step settles; all others keep their fate. */
  lemma AccountedStep(s: State, e: Event, k: nat)
    requires Exclusive(s) && Ordered(s) && AllAccounted(s) && k < |Step(s, e).requests|
    ensures Accounted(Step(s, e), Step(s, e).requests[k])
  {
    var t := Step(s, e);
    StepExtends(s, e);
    if k < |s.requests| {
      var r := s.requests[k];
      assert Accounted(s, r);
      if r.fate.Served? || r.fate.Debounced? || r.fate.Skipped? {
        ExtendsKeeps(s, t, if r.fate.Served? then r.fate.start else r.fate.at);
      } else if t.requests[k] != r {
        SettledNow(s, e, r, t.requests[k].fate);
      }
    }
  }

  lemma SettledNow(s: State, e: Event, r: Request, fate: Fate)
    requires Exclusive(s) && Ordered(s) && Accounted(s, r) && Enabled(s, e)
    requires e.TakeTrigger? ==> r.fate == Waiting && fate == if TooSoon(s) then Debounced(s.now) else Taken(e.i)
    requires e.Begin? ==> r.fate == Taken(e.i) && fate == if s.holder.Some? then Skipped(s.now) else Served(s.now)
    requires e.TakeTrigger? || e.Begin?
    ensures Accounted(Apply(s, e), r.(fate := fate))
  {
    var t := Apply(s, e);
    if e.TakeTrigger? {
      if TooSoon(s) {
        var last := |s.runs| - 1;
        assert t.runs[last].end <= s.now < t.runs[last].end + t.debounce;
      }
    } else if s.holder.None? {
      assert t.loops[e.i] == Running(Triggered, s.now);
    } else {
      var j := s.holder.value;
      assert t.loops[j] == s.loops[j];
    }
  }

  lemma TokenStep(s: State, e: Event)
    requires TokenMeansWaiting(s)
    ensures TokenMeansWaiting(Step(s, e))
  {
    var t := Step(s, e);
    if t.pending {
      if Enabled(s, e) && e.Trigger? {
        assert t.requests[|s.requests|].fate == Waiting;
      } else {
        var k :| 0 <= k < |s.requests| && s.requests[k].fate == Waiting;
        assert t.requests[k].fate == Waiting;
      }
    }
  }

  lemma InvStep(s: State, e: Event)
    requires Inv(s)
    ensures Inv(Step(s, e))
  {
    ExclusiveStep(s, e);
    OrderedStep(s, e);
    TokenStep(s, e);
    var t := Step(s, e);
    forall k | 0 <= k < |t.requests|
      ensures Accounted(t, t.requests[k])
    {
      AccountedStep(s, e, k);
    }
  }

  lemma {:induction false} InvAlways(debounce: int, now: int, n: nat, script: seq<Event>)
    ensures Inv(Play(Init(debounce, now, n), script))
    decreases |script|
  {
    if script != [] {
      InvAlways(debounce, now, n, script[..|script| - 1]);
      InvStep(Play(Init(debounce, now, n), script[..|script| - 1]), script[|script| - 1]);
    }
  }

  // --- Main results -------------------------------------------------------------

  /** However many loops there are, no two run at once and no finished run overlaps another or the present one. */
  lemma RunsNeverOverlap(debounce: int, now: int, n: nat, script: seq<Event>)
    ensures var s := Play(Init(debounce, now, n), script);
            && (forall i, j :: 0 <= i < j < |s.loops| ==> !(s.loops[i].Running? && s.loops[j].Running?))
            && (forall k, l :: 0 <= k < l < |s.runs| ==> s.runs[k].end <= s.runs[l].start)
            && (forall i, k :: 0 <= i < |s.loops| && s.loops[i].Running? && 0 <= k < |s.runs| ==>
                  s.runs[k].end <= s.loops[i].start)
  {
    InvAlways(debounce, now, n, script);
  }

  /**
   No request is forgotten: it waits for the channel's one token, is with a loop about to
   run, was served by a run that began at or after it, was dropped within the debounce
   interval after a run, or was dropped because a run was in progress.
   */
  lemma EveryRequestAccounted(debounce: int, now: int, n: nat, script: seq<Event>, k: nat)
    requires k < |Play(Init(debounce, now, n), script).requests|
    ensures var s := Play(Init(debounce, now, n), script); Accounted(s, s.requests[k])
  {
    InvAlways(debounce, now, n, script);
  }

  // --- One loop -------------------------------------------------------------------

  ghost predicate FarFromEnd(s: State, t: int) {
    s.lastRunAt.Some? ==> t - s.lastRunAt.value >= s.debounce
  }

  /** With one loop, a triggered run keeps its distance from the run before it, and nothing is skipped. */
  ghost predicate Spaced(s: State) {
    && |s.loops| == 1
    && (s.loops[0] == Due(Triggered) ==> FarFromEnd(s, s.now))
    && (s.loops[0].Running? && s.loops[0].source == Triggered ==> FarFromEnd(s, s.loops[0].start))
    && (forall k :: 0 < k < |s.runs| && s.runs[k].source == Triggered ==>
          s.runs[k].start - s.runs[k - 1].end >= s.debounce)
    && (forall k :: 0 <= k < |s.requests| ==> !s.requests[k].fate.Skipped?)
  }

  lemma SpacedStep(s: State, e: Event)
    requires Inv(s) && Spaced(s)
    ensures Spaced(Step(s, e))
  {
    var t := Step(s, e);
    if Enabled(s, e) && e.Finish? {
      assert forall k :: 0 <= k < |s.runs| ==> t.runs[k] == s.runs[k];
    } else {
      assert t.runs == s.runs;
      if Enabled(s, e) && e.Begin? {
        assert s.holder.None?;
      }
    }
  }

  lemma {:induction false} SpacedAlways(debounce: int, now: int, script: seq<Event>)
    ensures Spaced(Play(Init(debounce, now, 1), script))
    decreases |script|
  {
    if script != [] {
      SpacedAlways(debounce, now, script[..|script| - 1]);
      InvAlways(debounce, now, 1, script[..|script| - 1]);
      SpacedStep(Play(Init(debounce, now, 1), script[..|script| - 1]), script[|script| - 1]);
    }
  }

  /** With one loop, a triggered run starts at least the debounce interval after every earlier run ended. */
  lemma TriggeredRunsSpaced(debounce: int, now: int, script: seq<Event>, k: nat, l: nat)
    requires var s := Play(Init(debounce, now, 1), script); k < l < |s.runs| && s.runs[l].source == Triggered
    ensures var s := Play(Init(debounce, now, 1), script); s.runs[l].start - s.runs[k].end >= debounce
  {
    SpacedAlways(debounce, now, script);
    InvAlways(debounce, now, 1, script);
    DebounceKept(debounce, now, 1, script);
    var s := Play(Init(debounce, now, 1), script);
    assert s.runs[k].end <= s.runs[l - 1].end;
  }

  lemma {:induction false} DebounceKept(debounce: int, now: int, n: nat, script: seq<Event>)
    ensures Play(Init(debounce, now, n), script).debounce == debounce
    decreases |script|
  {
    if script != [] {
      DebounceKept(debounce, now, n, script[..|script| - 1]);
    }
  }

  /** With one loop, a request is dropped only in the debounce interval after a run. */
  lemma DroppedOnlyByDebounce(debounce: int, now: int, script: seq<Event>, k: nat)
    requires k < |Play(Init(debounce, now, 1), script).requests|
    ensures var s := Play(Init(debounce, now, 1), script); var fate := s.requests[k].fate;
            && !fate.Skipped?
            && (fate.Debounced? ==> JustAfterRun(s, fate.at))
            && (fate.Served? ==> s.requests[k].at <= fate.start && TriggeredRunAt(s, fate.start))
  {
    SpacedAlways(debounce, now, script);
    EveryRequestAccounted(debounce, now, 1, script, k);
  }

  /** Once dropped or served, a request's fate is sealed. */
  lemma {:induction false} FatesAreFinal(s: State, script: seq<Event>, k: nat)
    requires k < |s.requests| && !s.requests[k].fate.Waiting? && !s.requests[k].fate.Taken?
    ensures k < |Play(s, script).requests| && Play(s, script).requests[k] == s.requests[k]
    decreases |script|
  {
    if script != [] {
      FatesAreFinal(s, script[..|script| - 1], k);
    }
  }

  /** Taking the token drops the waiting requests exactly when the last run ended less than the interval ago. */
  lemma DroppedIff(s: State, i: nat, k: nat)
    requires Inv(s) && Enabled(s, TakeTrigger(i)) && k < |s.requests| && s.requests[k].fate.Waiting?
    ensures Step(s, TakeTrigger(i)).requests[k].fate.Debounced? <==>
            s.runs != [] && s.now < s.runs[|s.runs| - 1].end + s.debounce
    ensures !Step(s, TakeTrigger(i)).requests[k].fate.Debounced? ==> Step(s, TakeTrigger(i)).loops[i] == Due(Triggered)
  {
  }

  lemma PlayFive(s: State, a: Event, b: Event, c: Event, d: Event, e: Event)
    ensures Play(s, [a, b, c, d, e]) == Step(Step(Step(Step(Step(s, a), b), c), d), e)
  {
    var script := [a, b, c, d, e];
    assert script[..4][..3] == script[..3] && script[..3][..2] == script[..2];
    assert script[..2][..1] == script[..1] && script[..1][..0] == [];
    assert Play(s, script[..1]) == Step(s, a);
    assert Play(s, script[..2]) == Step(Play(s, script[..1]), b);
    assert Play(s, script[..3]) == Step(Play(s, script[..2]), c);
    assert Play(s, script[..4]) == Step(Play(s, script[..3]), d);
  }

  lemma LostAtFive()
    ensures var s := Play(Init(60, 0, 1), [Begin(0), Tick(5), Finish(0), Trigger, TakeTrigger(0)]);
            |s.requests| > 0 && s.requests[0] == Request(5, Debounced(5))
  {
    PlayFive(Init(60, 0, 1), Begin(0), Tick(5), Finish(0), Trigger, TakeTrigger(0));
  }

  /** So a trigger can get lost: the debounced one is served by no run, whatever happens next. */
  lemma TriggersCanGetLost(script: seq<Event>)
    ensures var s := Play(Play(Init(60, 0, 1), [Begin(0), Tick(5), Finish(0), Trigger, TakeTrigger(0)]), script);
            |s.requests| > 0 && s.requests[0] == Request(5, Debounced(5))
  {
    LostAtFive();
    FatesAreFinal(Play(Init(60, 0, 1), [Begin(0), Tick(5), Finish(0), Trigger, TakeTrigger(0)]), script, 0);
  }

  // --- The collector object -------------------------------------------------------

  /** What happens around the loop while it works or waits. */
  datatype Outside = Elapse(dt: nat) | Asked

  /** One turn of the loop: what happens until `select` picks, its pick, and what happens during the run it starts. */
  datatype Turn = OnTick(before: seq<Outside>, work: seq<Outside>) | OnTrigger(before: seq<Outside>, work: seq<Outside>)

  /** `s` is where the script leads one loop. */
  ghost predicate Follows(s: State, debounce: int, began: int, script: seq<Event>) {
    s == Play(Init(debounce, began, 1), script)
  }

  lemma FollowsStep(s: State, debounce: int, began: int, script: seq<Event>, e: Event)
    returns (t: State, longer: seq<Event>)
    requires Follows(s, debounce, began, script)
    ensures Follows(t, debounce, began, longer) && t == Step(s, e) && longer == script + [e]
  {
    t, longer := Step(s, e), script + [e];
    assert longer[..|script|] == script;
  }

  lemma OneLoop(s: State, debounce: int, began: int, script: seq<Event>)
    requires Follows(s, debounce, began, script)
    ensures s.debounce == debounce && |s.loops| == 1 && (s.holder.Some? <==> s.loops[0].Running?)
  {
    InvAlways(debounce, began, 1, script);
    SpacedAlways(debounce, began, script);
    DebounceKept(debounce, began, 1, script);
  }

  // --- What the loop makes of its turns --------------------------------------------

  /** What comes from outside, as events. */
  ghost function Heard(outside: seq<Outside>): seq<Event> {
    seq(|outside|, k requires 0 <= k < |outside| =>
      match outside[k] case Elapse(dt) => Tick(dt) case Asked => Event.Trigger)
  }

  ghost function RunScript(work: seq<Outside>): seq<Event> {
    [Begin(0)] + Heard(work) + [Finish(0)]
  }

  /** What follows the pick of `select`: a tick always runs; a token, unless the last run ended too recently. */
  ghost function PickScript(u: State, turn: Turn): seq<Event> {
    if turn.OnTick? then [CronTick(0)] + RunScript(turn.work)
    else if !u.pending then []
    else if u.lastRunAt.Some? && u.now < u.lastRunAt.value + u.debounce then [TakeTrigger(0)]
    else [TakeTrigger(0)] + RunScript(turn.work)
  }

  ghost function TurnScript(s: State, turn: Turn): seq<Event> {
    Heard(turn.before) + PickScript(Play(s, Heard(turn.before)), turn)
  }

  ghost function LoopScript(debounce: int, began: int, startup: seq<Outside>, turns: seq<Turn>): seq<Event> {
    if turns == [] then RunScript(startup)
    else
      var before := LoopScript(debounce, began, startup, turns[..|turns| - 1]);
      before + TurnScript(Play(Init(debounce, began, 1), before), turns[|turns| - 1])
  }

  lemma {:induction false} PlayAppend(s: State, a: seq<Event>, b: seq<Event>)
    ensures Play(s, a + b) == Play(Play(s, a), b)
    decreases |b|
  {
    if b == [] {
      assert a + b == a;
    } else {
      assert (a + b)[..|a + b| - 1] == a + b[..|b| - 1];
      PlayAppend(s, a, b[..|b| - 1]);
    }
  }

  lemma PlayOne(s: State, e: Event)
    ensures Play(s, [e]) == Step(s, e)
  {
    assert [e][..0] == [];
  }

  lemma HeardSnoc(outside: seq<Outside>, k: nat)
    requires k < |outside|
    ensures Heard(outside[..k + 1]) ==
            Heard(outside[..k]) + [match outside[k] case Elapse(dt) => Tick(dt) case Asked => Event.Trigger]
  {
  }

  ghost function Elapsed(outside: seq<Outside>): nat {
    if outside == [] then 0
    else Elapsed(outside[..|outside| - 1]) + if outside[|outside| - 1].Elapse? then outside[|outside| - 1].dt else 0
  }

  /** Time has passed and requests have come in; nothing else has changed. */
  ghost predicate OnlyHeard(s: State, t: State, outside: seq<Outside>) {
    && t.now == s.now + Elapsed(outside) && t.debounce == s.debounce
    && t.loops == s.loops && t.holder == s.holder && t.lastRunAt == s.lastRunAt && t.runs == s.runs
    && s.requests <= t.requests && (forall k :: |s.requests| <= k < |t.requests| ==> t.requests[k].fate == Waiting)
    && (t.pending <==> s.pending || |t.requests| > |s.requests|)
    && |t.requests| == |s.requests| + |set k | 0 <= k < |outside| && outside[k].Asked?|
  }

  lemma {:induction false} HeardPlays(s: State, outside: seq<Outside>)
    ensures OnlyHeard(s, Play(s, Heard(outside)), outside)
  {
    var asked := (o: Outside) => o.Asked?;
    assert Places(outside, asked) == set k | 0 <= k < |outside| && outside[k].Asked?;
    if outside != [] {
      var front := outside[..|outside| - 1];
      HeardPlays(s, front);
      assert outside == outside[..|outside| - 1 + 1];
      HeardSnoc(outside, |outside| - 1);
      assert Heard(outside)[..|outside| - 1] == Heard(front);
      PlacesSnoc(outside, asked);
      assert Places(front, asked) == set k | 0 <= k < |front| && front[k].Asked?;
    }
  }

  /** A run that begins with the mutex free lasts as long as its work, and serves the requests its loop has taken. */
  lemma RunPlays(s: State, source: Source, work: seq<Outside>)
    requires s.loops == [Due(source)] && s.holder.None?
    ensures var t := Play(s, RunScript(work));
            && t.loops == [Selecting] && t.now == s.now + Elapsed(work)
            && t.runs == s.runs + [Span(source, s.now, t.now)]
            && |s.requests| <= |t.requests|
            && forall k :: 0 <= k < |s.requests| ==>
                 t.requests[k] == if s.requests[k].fate == Taken(0) then s.requests[k].(fate := Served(s.now))
                                  else s.requests[k]
  {
    PlayAppend(s, [Begin(0)] + Heard(work), [Finish(0)]);
    PlayAppend(s, [Begin(0)], Heard(work));
    PlayOne(s, Begin(0));
    var u := Step(s, Begin(0));
    BeginAlone(s, source);
    HeardPlays(u, work);
    var v := Play(u, Heard(work));
    PlayOne(v, Finish(0));
    FinishAlone(v, source, s.now);
    assert Step(v, Finish(0)).requests == v.requests;
  }

  /** The last run so far ended less than the interval before `t`. */
  ghost predicate JustRan(s: State, t: int) {
    s.runs != [] && t < s.runs[|s.runs| - 1].end + s.debounce
  }

  lemma TurnSplits(s: State, turn: Turn, e: Event, rest: seq<Event>)
    requires PickScript(Play(s, Heard(turn.before)), turn) == [e] + rest
    ensures Play(s, TurnScript(s, turn)) == Play(Step(Play(s, Heard(turn.before)), e), rest)
  {
    var u := Play(s, Heard(turn.before));
    PlayAppend(s, Heard(turn.before), [e] + rest);
    PlayAppend(u, [e], rest);
    PlayOne(u, e);
  }

  /** A tick always runs. */
  lemma TickRuns(s: State, turn: Turn)
    requires Inv(s) && s.loops == [Selecting] && turn.OnTick?
    ensures var u, t := Play(s, Heard(turn.before)), Play(s, TurnScript(s, turn));
            && OnlyHeard(s, u, turn.before)
            && t.runs == s.runs + [Span(Cron, u.now, t.now)] && t.now == u.now + Elapsed(turn.work)
  {
    HeardPlays(s, turn.before);
    assert s.holder.None?;
    TurnSplits(s, turn, CronTick(0), RunScript(turn.work));
    RunPlays(Step(Play(s, Heard(turn.before)), CronTick(0)), Cron, turn.work);
  }

  lemma TakeServes(u: State)
    requires u.loops == [Selecting] && u.pending && !TooSoon(u)
    ensures var v := Step(u, TakeTrigger(0));
            && v.loops == [Due(Triggered)] && v.holder == u.holder && v.now == u.now && v.runs == u.runs
            && |v.requests| == |u.requests|
            && forall k :: 0 <= k < |u.requests| && u.requests[k].fate == Waiting ==> v.requests[k].fate == Taken(0)
  {
  }

  lemma ServeFrom(u: State, work: seq<Outside>)
    requires u.loops == [Selecting] && u.holder.None? && u.pending && !TooSoon(u)
    ensures var t := Play(Step(u, TakeTrigger(0)), RunScript(work));
            && t.runs == u.runs + [Span(Triggered, u.now, t.now)] && t.now == u.now + Elapsed(work)
            && |u.requests| <= |t.requests|
            && forall k :: 0 <= k < |u.requests| && u.requests[k].fate == Waiting ==>
                 t.requests[k].fate == Served(u.now)
  {
    TakeServes(u);
    RunPlays(Step(u, TakeTrigger(0)), Triggered, work);
  }

  lemma DropFrom(u: State)
    requires u.loops == [Selecting] && u.pending && TooSoon(u)
    ensures var t := Step(u, TakeTrigger(0));
            && t.runs == u.runs && t.now == u.now && |u.requests| == |t.requests|
            && forall k :: 0 <= k < |u.requests| && u.requests[k].fate == Waiting ==>
                 t.requests[k].fate == Debounced(u.now)
  {
  }

  /** When `select` picks, the loop is alone, and it is too soon exactly if the last run ended too recently. */
  lemma WhenPicking(s: State, outside: seq<Outside>)
    requires Inv(s) && s.loops == [Selecting]
    ensures var u := Play(s, Heard(outside));
            && OnlyHeard(s, u, outside) && u.loops == [Selecting] && u.holder.None? && u.runs == s.runs
            && (TooSoon(u) <==> JustRan(s, u.now))
  {
    HeardPlays(s, outside);
    assert s.holder.None? && s.lastRunAt == LastEnd(s.runs);
  }

  /** With a token in the channel, unless it is too soon, a run starts at once and serves all that have come in. */
  lemma TriggerServes(s: State, turn: Turn)
    requires Inv(s) && s.loops == [Selecting] && turn.OnTrigger?
    requires var u := Play(s, Heard(turn.before)); u.pending && !JustRan(s, u.now)
    ensures var u, t := Play(s, Heard(turn.before)), Play(s, TurnScript(s, turn));
            && OnlyHeard(s, u, turn.before)
            && t.runs == s.runs + [Span(Triggered, u.now, t.now)] && t.now == u.now + Elapsed(turn.work)
            && |u.requests| <= |t.requests|
            && forall k :: 0 <= k < |u.requests| && u.requests[k].fate == Waiting ==>
                 t.requests[k].fate == Served(u.now)
  {
    WhenPicking(s, turn.before);
    ServeFrom(Play(s, Heard(turn.before)), turn.work);
    TurnSplits(s, turn, TakeTrigger(0), RunScript(turn.work));
  }

  /** If the last run ended too recently, all that have come in are dropped. */
  lemma TriggerDrops(s: State, turn: Turn)
    requires Inv(s) && s.loops == [Selecting] && turn.OnTrigger?
    requires var u := Play(s, Heard(turn.before)); u.pending && JustRan(s, u.now)
    ensures var u, t := Play(s, Heard(turn.before)), Play(s, TurnScript(s, turn));
            && OnlyHeard(s, u, turn.before)
            && t.runs == s.runs && t.now == u.now && |u.requests| == |t.requests|
            && forall k :: 0 <= k < |u.requests| && u.requests[k].fate == Waiting ==>
                 t.requests[k].fate == Debounced(u.now)
  {
    WhenPicking(s, turn.before);
    DropFrom(Play(s, Heard(turn.before)));
    assert [TakeTrigger(0)] + [] == [TakeTrigger(0)];
    TurnSplits(s, turn, TakeTrigger(0), []);
  }

  lemma BeginAlone(s: State, source: Source)
    requires s.loops == [Due(source)] && s.holder.None?
    ensures var t := Step(s, Begin(0));
            && t.loops == [Running(source, s.now)] && t.holder == Some(0)
            && t.now == s.now && t.runs == s.runs && t.pending == s.pending && t.lastRunAt == s.lastRunAt
  {
  }

  lemma FinishAlone(s: State, source: Source, start: int)
    requires s.loops == [Running(source, start)]
    ensures var t := Step(s, Finish(0));
            && t.loops == [Selecting] && t.holder == None
            && t.now == s.now && t.runs == s.runs + [Span(source, start, s.now)]
            && t.pending == s.pending && t.lastRunAt == Some(s.now)
  {
  }

  lemma LoopOnce(debounce: int, began: int, startup: seq<Outside>, turns: seq<Turn>, k: nat)
    requires k < |turns|
    ensures var before := LoopScript(debounce, began, startup, turns[..k]);
            LoopScript(debounce, began, startup, turns[..k + 1]) ==
            before + TurnScript(Play(Init(debounce, began, 1), before), turns[k])
  {
    assert turns[..k + 1][..k] == turns[..k];
  }

  /** `script` is what has happened to the one collector that `Run` is called on once, and `state` where it led. */
  class EfficiencyCollector {
    const debounce: int
    ghost const began: int
    var triggerCh: nat
    var runMu: bool
    var lastRunAt: Option<int>
    ghost var state: State
    ghost var script: seq<Event>

    ghost predicate Valid()
      reads this
    {
      && Follows(state, debounce, began, script)
      && triggerCh == (if state.pending then 1 else 0)
      && runMu == state.holder.Some?
      && lastRunAt == state.lastRunAt
    }

    ghost method Observe(e: Event)
      requires Follows(state, debounce, began, script)
      modifies this`state, this`script
      ensures Follows(state, debounce, began, script)
      ensures state == Step(old(state), e) && script == old(script) + [e]
    {
      state, script := FollowsStep(state, debounce, began, script, e);
    }

    constructor (debounce: int, now: int)
      ensures Valid() && state == Init(debounce, now, 1) && script == [] && began == now && this.debounce == debounce
    {
      this.debounce := debounce;
      began := now;
      triggerCh, runMu, lastRunAt := 0, false, None;
      state, script := Init(debounce, now, 1), [];
    }

    /** Non-blocking: the token is put in the channel unless one is there. */
    method Trigger()
      requires Valid()
      modifies this
      ensures Valid() && state == Step(old(state), Event.Trigger) && script == old(script) + [Event.Trigger]
    {
      Observe(Event.Trigger);
      if triggerCh < 1 {
        triggerCh := triggerCh + 1;
      }
    }

    method Pass(now: int, outside: seq<Outside>) returns (later: int)
      requires Valid() && now == state.now
      modifies this
      ensures Valid() && later == state.now >= now
      ensures state.loops == old(state.loops) && state.runs == old(state.runs) && lastRunAt == old(lastRunAt)
      ensures script == old(script) + Heard(outside) && state == Play(old(state), Heard(outside))
    {
      later := now;
      for k := 0 to |outside|
        invariant Valid() && later == state.now >= now
        invariant state.loops == old(state.loops) && state.runs == old(state.runs) && lastRunAt == old(lastRunAt)
        invariant script == old(script) + Heard(outside[..k])
      {
        HeardSnoc(outside, k);
        match outside[k] {
          case Elapse(dt) =>
            Observe(Tick(dt));
            later := later + dt;
          case Asked => Trigger();
        }
      }
      assert outside[..|outside|] == outside;
      PlayAppend(Init(debounce, began, 1), old(script), Heard(outside));
    }

    /** The fetch, the revert detection and the snapshots take as long as `work` does. */
    method RunOnce(now: int, source: Source, work: seq<Outside>) returns (run: Span)
      requires Valid() && now == state.now && state.loops == [Due(source)]
      modifies this
      ensures Valid() && state.loops == [Selecting]
      ensures run == Span(source, now, state.now) && state.runs == old(state.runs) + [run]
      ensures script == old(script) + RunScript(work)
    {
      OneLoop(state, debounce, began, script);
      // With one loop the mutex is always free here, so the branch that skips the run is never taken.
      assert !runMu;
      BeginAlone(state, source);
      Observe(Begin(0));
      runMu := true;
      var end := Pass(now, work);
      FinishAlone(state, source, now);
      Observe(Finish(0));
      lastRunAt := Some(end);
      runMu := false;
      run := Span(source, now, end);
    }

    /** What `select` picks; a trigger can only be picked with a token in the channel. */
    method Pick(now: int, turn: Turn) returns (run: Option<Span>, later: int)
      requires Valid() && now == state.now && state.loops == [Selecting]
      modifies this
      ensures Valid() && state.loops == [Selecting] && later == state.now
      ensures script == old(script) + PickScript(old(state), turn)
      ensures state.runs == old(state.runs) + if run.Some? then [run.value] else []
    {
      run, later := None, now;
      if turn.OnTick? {
        Observe(CronTick(0));
        var span := RunOnce(now, Cron, turn.work);
        run, later := Some(span), span.end;
      } else if triggerCh > 0 {
        run, later := TakeToken(now, turn);
      }
    }

    /** A token is taken, and a run follows unless the last one ended less than the interval ago. */
    method TakeToken(now: int, turn: Turn) returns (run: Option<Span>, later: int)
      requires Valid() && now == state.now && state.loops == [Selecting] && turn.OnTrigger? && triggerCh > 0
      modifies this
      ensures Valid() && state.loops == [Selecting] && later == state.now
      ensures script == old(script) + PickScript(old(state), turn)
      ensures state.runs == old(state.runs) + if run.Some? then [run.value] else []
    {
      OneLoop(state, debounce, began, script);
      ghost var u, pick := state, PickScript(state, turn);
      triggerCh := triggerCh - 1;
      Observe(TakeTrigger(0));
      if lastRunAt.Some? && now - lastRunAt.value < debounce {
        assert TooSoon(u) && pick == [TakeTrigger(0)];
        return None, now;
      }
      assert !TooSoon(u) && pick == [TakeTrigger(0)] + RunScript(turn.work);
      TakeServes(u);
      var span := RunOnce(now, Triggered, turn.work);
      run, later := Some(span), span.end;
    }

    /** One turn of the loop. */
    method Select(now: int, turn: Turn) returns (run: Option<Span>, later: int)
      requires Valid() && now == state.now && state.loops == [Selecting]
      modifies this
      ensures Valid() && state.loops == [Selecting] && later == state.now
      ensures script == old(script) + TurnScript(old(state), turn)
      ensures state.runs == old(state.runs) + if run.Some? then [run.value] else []
    {
      later := Pass(now, turn.before);
      ghost var heard, u := script, state;
      run, later := Pick(later, turn);
      assert script == heard + PickScript(u, turn);
    }

    /** The main loop through some turns. */
    method Run(now: int, startup: seq<Outside>, turns: seq<Turn>) returns (runs: seq<Span>)
      requires Valid() && state == Init(debounce, now, 1) && script == [] && began == now
      modifies this
      ensures Valid() && runs == state.runs && state == Play(Init(debounce, now, 1), script)
      ensures script == LoopScript(debounce, now, startup, turns)
      ensures runs != [] && runs[0].source == Startup
      ensures forall k, l :: 0 <= k < l < |runs| ==> runs[k].end <= runs[l].start
      ensures forall k :: 0 < k < |runs| && runs[k].source == Triggered ==> runs[k].start - runs[k - 1].end >= debounce
    {
      var first := RunOnce(now, Startup, startup);
      runs := [first];
      var clock := first.end;
      for k := 0 to |turns|
        invariant Valid() && clock == state.now && state.loops == [Selecting]
        invariant runs == state.runs && runs != [] && runs[0].source == Startup
        invariant script == LoopScript(debounce, now, startup, turns[..k])
      {
        LoopOnce(debounce, now, startup, turns, k);
        var run;
        run, clock := Select(clock, turns[k]);
        if run.Some? {
          runs := runs + [run.value];
        }
      }
      assert turns[..|turns|] == turns;
      RunsNeverOverlap(debounce, now, 1, script);
      SpacedAlways(debounce, now, script);
      DebounceKept(debounce, now, 1, script);
    }
  }
}
