/** Budget alerts as a protocol: every interleaving of workers, events, budget edits and clock advances. */
module ThresholdProtocol {
  import opened Wrappers
  import opened Clock
  import opened Text
  import opened Claims
  import opened Thresholds

  /** The (engineer, period, percent) a grant was made for, in step with `store.grants`. */
  datatype Tuple = Tuple(email: string, period: Period, threshold: int)

  /** A worker inside `checkPeriod`, about to look at tier `idx`; `started` is the clock it computed `expireAt` from. */
  datatype Worker = Idle | Checking(c: Check, started: int, idx: nat)

  /** `fires` lists the grants that were reported to a worker, which then alerted. */
  datatype State = State(store: Store, claims: seq<Tuple>, fires: seq<nat>, workers: map<nat, Worker>)

  datatype Step =
    | Tick(dt: nat)
    | Begin(w: nat, email: string, period: Period, spend: int, budget: int, started: int)
    | Tier(w: nat, fault: Fault)

  function NextOf(month: int -> int, period: Period): int -> int {
    if period.Daily? then NextDay else month
  }

  /** A step that is not enabled changes nothing. */
  function Next(s: State, tiers: seq<int>, month: int -> int, step: Step): State {
    match step
    case Tick(dt) => s.(store := Advance(s.store, dt))
    case Begin(w, email, period, spend, budget, started) =>
      if (w in s.workers && s.workers[w].Checking?) || started > s.store.now || budget <= 0 || spend <= 0 then s
      else
        var c := Check(email, period, spend, budget, EndOf(NextOf(month, period), started));
        s.(workers := s.workers[w := Checking(c, started, 0)])
    case Tier(w, fault) =>
      if w !in s.workers || s.workers[w].Idle? then s
      else
        var Checking(c, started, idx) := s.workers[w];
        if idx >= |tiers| then s.(workers := s.workers[w := Idle])
        else
          var (granted, t) := TryTier(s.store, c, tiers[idx], fault);
          var fired := granted && fault.NoFault?;
          State(t,
                if granted then s.claims + [Tuple(c.email, c.period, tiers[idx])] else s.claims,
                if fired then s.fires + [|s.claims|] else s.fires,
                s.workers[w := if fired then Idle else Checking(c, started, idx + 1)])
  }

  function Run(s: State, tiers: seq<int>, month: int -> int, steps: seq<Step>): State {
    if steps == [] then s else Next(Run(s, tiers, month, steps[..|steps| - 1]), tiers, month, steps[|steps| - 1])
  }

  ghost predicate Init(s: State) {
    Empty(s.store) && s.claims == [] && s.fires == [] && s.workers == map[]
  }

  /** Grant `i` belongs to tuple `i`, and lasts to the end of the period it was made in. */
  ghost predicate GrantOnPeriod(s: State, month: int -> int, i: nat)
    requires i < |s.claims| == |s.store.grants|
  {
    var t, g := s.claims[i], s.store.grants[i];
    g.key == ThresholdFired(t.email, t.period, t.threshold) && g.deadline == EndOf(NextOf(month, t.period), g.at)
  }

  ghost predicate WorkerOk(s: State, month: int -> int, w: Worker) {
    w.Checking? ==>
      w.started <= s.store.now && w.c.budget > 0 && w.c.expireAt == EndOf(NextOf(month, w.c.period), w.started)
  }

  ghost predicate SafetyInv(s: State, month: int -> int) {
    && Inv(s.store)
    && |s.claims| == |s.store.grants|
    && (forall i :: 0 <= i < |s.claims| ==> GrantOnPeriod(s, month, i))
    && (forall i :: 0 <= i < |s.fires| ==> s.fires[i] < |s.claims|)
    && (forall i, j :: 0 <= i < j < |s.fires| ==> s.fires[i] < s.fires[j])
    && (forall w :: w in s.workers ==> WorkerOk(s, month, s.workers[w]))
  }

  lemma NextIsPeriod(month: int -> int, period: Period)
    requires IsPeriod(month)
    ensures IsPeriod(NextOf(month, period))
  {
    DaysArePeriods();
  }

  lemma SafetyStep(s: State, tiers: seq<int>, month: int -> int, step: Step)
    requires IsPeriod(month) && SafetyInv(s, month)
    ensures SafetyInv(Next(s, tiers, month, step), month)
  {
    var t := Next(s, tiers, month, step);
    match step
    case Tick(dt) =>
      AdvanceInv(s.store, dt);
      KeepsGrants(s, t, month);
    case Begin(_, _, _, _, _, _) =>
      KeepsGrants(s, t, month);
    case Tier(w, fault) =>
      if w in s.workers && s.workers[w].Checking? && s.workers[w].idx < |tiers| {
        SafetyTier(s, tiers, month, w, fault);
      } else {
        KeepsGrants(s, t, month);
      }
  }

  lemma KeepsGrants(s: State, t: State, month: int -> int)
    requires |s.claims| == |s.store.grants| && t.claims == s.claims && t.store.grants == s.store.grants
    requires forall i :: 0 <= i < |s.claims| ==> GrantOnPeriod(s, month, i)
    ensures forall i :: 0 <= i < |t.claims| ==> GrantOnPeriod(t, month, i)
  {
    forall i | 0 <= i < |t.claims|
      ensures GrantOnPeriod(t, month, i)
    {
      assert GrantOnPeriod(s, month, i);
    }
  }

  lemma SafetyTier(s: State, tiers: seq<int>, month: int -> int, w: nat, fault: Fault)
    requires IsPeriod(month) && SafetyInv(s, month)
    requires w in s.workers && s.workers[w].Checking? && s.workers[w].idx < |tiers|
    ensures SafetyInv(Next(s, tiers, month, Tier(w, fault)), month)
  {
    var t := Next(s, tiers, month, Tier(w, fault));
    var Checking(c, started, idx) := s.workers[w];
    assert WorkerOk(s, month, s.workers[w]);
    if !TryTier(s.store, c, tiers[idx], fault).0 {
      KeepsGrants(s, t, month);
    } else {
      AttemptInv(s.store, KeyOf(c, tiers[idx]), c.expireAt);
      ClaimOnPeriod(s, tiers, month, w, fault);
    }
  }

  /** A claim that takes effect does so in the period in which its check began. */
  lemma ClaimOnPeriod(s: State, tiers: seq<int>, month: int -> int, w: nat, fault: Fault)
    requires IsPeriod(month) && SafetyInv(s, month)
    requires w in s.workers && s.workers[w].Checking? && s.workers[w].idx < |tiers|
    requires TryTier(s.store, s.workers[w].c, tiers[s.workers[w].idx], fault).0
    ensures var t := Next(s, tiers, month, Tier(w, fault));
            |t.claims| == |t.store.grants| && forall i :: 0 <= i < |t.claims| ==> GrantOnPeriod(t, month, i)
  {
    var t := Next(s, tiers, month, Tier(w, fault));
    var Checking(c, started, idx) := s.workers[w];
    assert WorkerOk(s, month, s.workers[w]);
    NextIsPeriod(month, c.period);
    SamePeriod(NextOf(month, c.period), started, s.store.now);
    forall i | 0 <= i < |t.claims|
      ensures GrantOnPeriod(t, month, i)
    {
      if i < |s.claims| {
        assert GrantOnPeriod(s, month, i);
      }
    }
  }

  /** The invariant holds throughout every run. */
  lemma {:induction false} SafetyRun(s: State, tiers: seq<int>, month: int -> int, steps: seq<Step>)
    requires IsPeriod(month) && Init(s)
    ensures SafetyInv(Run(s, tiers, month, steps), month)
  {
    if steps == [] {
      EmptyInv(s.store);
    } else {
      SafetyRun(s, tiers, month, steps[..|steps| - 1]);
      SafetyStep(Run(s, tiers, month, steps[..|steps| - 1]), tiers, month, steps[|steps| - 1]);
    }
  }

  /**
   In every run, two alerts for the same (engineer, period, percent) lie in
   different days (or months), whatever faults occur and however tiers are ordered.
   */
  lemma AtMostOncePerPeriod(s: State, tiers: seq<int>, month: int -> int, steps: seq<Step>, i: nat, j: nat)
    requires IsPeriod(month) && Init(s)
    requires var t := Run(s, tiers, month, steps); i < j < |t.fires|
    ensures var t := Run(s, tiers, month, steps);
            && t.fires[i] < t.fires[j] < |t.claims| == |t.store.grants|
            && (t.claims[t.fires[i]] == t.claims[t.fires[j]] ==>
                  var next := NextOf(month, t.claims[t.fires[i]].period);
                  next(t.store.grants[t.fires[i]].at) < next(t.store.grants[t.fires[j]].at))
  {
    SafetyRun(s, tiers, month, steps);
    var t := Run(s, tiers, month, steps);
    var a, b := t.fires[i], t.fires[j];
    assert GrantOnPeriod(t, month, a) && GrantOnPeriod(t, month, b);
    if t.claims[a] == t.claims[b] {
      GrantedOnce(t.store, a, b);
    }
  }

  // --- What an alert means ----------------------------------------------------

  /** Some check of the run began for this engineer and period with a spend that has reached this percentage. */
  ghost predicate BegunReaching(steps: seq<Step>, t: Tuple) {
    exists j :: 0 <= j < |steps| && steps[j].Begin? && BeginReaches(steps[j], t)
  }

  predicate BeginReaches(b: Step, t: Tuple)
    requires b.Begin?
  {
    && b.email == t.email && b.period == t.period && b.budget > 0 && b.spend > 0
    && b.spend * 100 >= t.threshold * b.budget
  }

  /** A worker looks at what some check of the run has begun with. */
  ghost predicate BegunWith(steps: seq<Step>, w: Worker) {
    w.Checking? ==>
      w.c.budget > 0 && w.c.spend > 0 &&
      exists j :: 0 <= j < |steps| && steps[j].Begin? && steps[j].email == w.c.email && steps[j].period == w.c.period
                  && steps[j].spend == w.c.spend && steps[j].budget == w.c.budget
  }

  ghost predicate ReachedInv(s: State, tiers: seq<int>, steps: seq<Step>) {
    && (forall n :: 0 <= n < |s.claims| ==> s.claims[n].threshold in tiers && BegunReaching(steps, s.claims[n]))
    && (forall w :: w in s.workers ==> BegunWith(steps, s.workers[w]))
  }

  lemma LongerRun(front: seq<Step>, step: Step, t: Tuple, w: Worker)
    ensures BegunReaching(front, t) ==> BegunReaching(front + [step], t)
    ensures BegunWith(front, w) ==> BegunWith(front + [step], w)
  {
    var steps := front + [step];
    assert forall j :: 0 <= j < |front| ==> steps[j] == front[j];
  }

  lemma ClaimReaches(steps: seq<Step>, w: Worker, threshold: int)
    requires BegunWith(steps, w) && w.Checking? && Crossed(w.c, threshold)
    ensures BegunReaching(steps, Tuple(w.c.email, w.c.period, threshold))
  {
    var j :| 0 <= j < |steps| && steps[j].Begin? && steps[j].email == w.c.email && steps[j].period == w.c.period
             && steps[j].spend == w.c.spend && steps[j].budget == w.c.budget;
    assert BeginReaches(steps[j], Tuple(w.c.email, w.c.period, threshold));
  }

  lemma ReachedStep(s: State, tiers: seq<int>, month: int -> int, front: seq<Step>, step: Step)
    requires ReachedInv(s, tiers, front)
    ensures ReachedInv(Next(s, tiers, month, step), tiers, front + [step])
  {
    var t := Next(s, tiers, month, step);
    assert (front + [step])[|front|] == step;
    forall n | 0 <= n < |t.claims|
      ensures t.claims[n].threshold in tiers && BegunReaching(front + [step], t.claims[n])
    {
      if n == |s.claims| {
        ClaimReaches(front, s.workers[step.w], t.claims[n].threshold);
      }
      LongerRun(front, step, t.claims[n], Idle);
    }
    forall w | w in t.workers
      ensures BegunWith(front + [step], t.workers[w])
    {
      if w in s.workers {
        LongerRun(front, step, Tuple("", Daily, 0), s.workers[w]);
      }
    }
  }

  /** In every run, whatever is claimed, and so alerted, is a tier that the spend read by some check has reached. */
  lemma {:induction false} AlertsReached(s: State, tiers: seq<int>, month: int -> int, steps: seq<Step>)
    requires Init(s)
    ensures var t := Run(s, tiers, month, steps);
            forall n :: 0 <= n < |t.claims| ==> t.claims[n].threshold in tiers && BegunReaching(steps, t.claims[n])
    ensures ReachedInv(Run(s, tiers, month, steps), tiers, steps)
  {
    if steps != [] {
      var front, last := steps[..|steps| - 1], steps[|steps| - 1];
      AlertsReached(s, tiers, month, front);
      ReachedStep(Run(s, tiers, month, front), tiers, month, front, last);
      assert front + [last] == steps;
    }
  }

  // --- Order ----------------------------------------------------------------

  ghost predicate Ascending(tiers: seq<int>) {
    forall i, j :: 0 <= i < j < |tiers| ==> tiers[i] <= tiers[j]
  }

  ghost predicate NoFaults(steps: seq<Step>) {
    forall i :: 0 <= i < |steps| && steps[i].Tier? ==> steps[i].fault.NoFault?
  }

  /** Grant `n` or an earlier one claimed `tuple` for `deadline`. */
  ghost predicate ClaimedBy(s: State, tuple: Tuple, deadline: int, n: nat)
    requires |s.claims| == |s.store.grants|
  {
    exists i :: 0 <= i < n && i < |s.claims| && s.claims[i] == tuple && s.store.grants[i].deadline == deadline
  }

  /** A worker has passed over a crossed tier only because it was claimed already or the period was over. */
  ghost predicate WorkerSettled(s: State, tiers: seq<int>, w: Worker)
    requires |s.claims| == |s.store.grants|
  {
    w.Checking? ==>
      forall k :: 0 <= k < w.idx && k < |tiers| && Crossed(w.c, tiers[k]) ==>
        w.c.expireAt <= s.store.now || ClaimedBy(s, Tuple(w.c.email, w.c.period, tiers[k]), w.c.expireAt, |s.claims|)
  }

  /** Whatever tier grant `n` claimed, every lower tier had been claimed for the same period before. */
  ghost predicate LowerFirst(s: State, tiers: seq<int>, n: nat)
    requires n < |s.claims| == |s.store.grants|
  {
    forall k :: 0 <= k < |tiers| && tiers[k] < s.claims[n].threshold ==>
      ClaimedBy(s, s.claims[n].(threshold := tiers[k]), s.store.grants[n].deadline, n)
  }

  /** Workers have passed over claimed tiers only, and every claim so far was reported to the worker that made it. */
  ghost predicate SettledInv(s: State, tiers: seq<int>, month: int -> int) {
    && SafetyInv(s, month)
    && (forall w :: w in s.workers ==> WorkerSettled(s, tiers, s.workers[w]))
    && AllReported(s)
  }

  ghost predicate AllReported(s: State) {
    |s.fires| == |s.claims| && forall i :: 0 <= i < |s.fires| ==> s.fires[i] == i
  }

  ghost predicate OrderInv(s: State, tiers: seq<int>, month: int -> int) {
    SettledInv(s, tiers, month) && forall n :: 0 <= n < |s.claims| ==> LowerFirst(s, tiers, n)
  }

  /** Claims are only ever added, and the clock only moves forward. */
  ghost predicate Grows(s: State, t: State) {
    && |s.claims| == |s.store.grants| && |t.claims| == |t.store.grants|
    && s.claims <= t.claims && s.store.grants <= t.store.grants && s.store.now <= t.store.now
  }

  lemma ClaimedByExtends(s: State, t: State, tuple: Tuple, deadline: int, n: nat, m: nat)
    requires Grows(s, t) && n <= m && ClaimedBy(s, tuple, deadline, n)
    ensures ClaimedBy(t, tuple, deadline, m)
  {
    var i :| 0 <= i < n && i < |s.claims| && s.claims[i] == tuple && s.store.grants[i].deadline == deadline;
    assert t.claims[i] == s.claims[i] && t.store.grants[i] == s.store.grants[i];
  }

  lemma SettledExtends(s: State, t: State, tiers: seq<int>, w: Worker)
    requires Grows(s, t) && WorkerSettled(s, tiers, w)
    ensures WorkerSettled(t, tiers, w)
  {
    if w.Checking? {
      forall k | 0 <= k < w.idx && k < |tiers| && Crossed(w.c, tiers[k]) && t.store.now < w.c.expireAt
        ensures ClaimedBy(t, Tuple(w.c.email, w.c.period, tiers[k]), w.c.expireAt, |t.claims|)
      {
        ClaimedByExtends(s, t, Tuple(w.c.email, w.c.period, tiers[k]), w.c.expireAt, |s.claims|, |t.claims|);
      }
    }
  }

  lemma LowerFirstExtends(s: State, t: State, tiers: seq<int>, n: nat)
    requires Grows(s, t) && n < |s.claims| && LowerFirst(s, tiers, n)
    ensures n < |t.claims| && LowerFirst(t, tiers, n)
  {
    assert t.claims[n] == s.claims[n] && t.store.grants[n] == s.store.grants[n];
    forall k | 0 <= k < |tiers| && tiers[k] < t.claims[n].threshold
      ensures ClaimedBy(t, t.claims[n].(threshold := tiers[k]), t.store.grants[n].deadline, n)
    {
      ClaimedByExtends(s, t, t.claims[n].(threshold := tiers[k]), t.store.grants[n].deadline, n, n);
    }
  }

  /** A claim refused within the period has been granted for this very period before. */
  lemma RefusedMeansClaimed(s: State, month: int -> int, w: Worker, threshold: int)
    requires IsPeriod(month) && SafetyInv(s, month) && w.Checking? && WorkerOk(s, month, w)
    requires s.store.now < w.c.expireAt && !Attempt(s.store, KeyOf(w.c, threshold), w.c.expireAt).0
    ensures ClaimedBy(s, Tuple(w.c.email, w.c.period, threshold), w.c.expireAt, |s.claims|)
  {
    var key := KeyOf(w.c, threshold);
    AttemptIff(s.store, key, w.c.expireAt);
    var g :| g in s.store.grants && g.key == key && s.store.now < g.deadline;
    var i :| 0 <= i < |s.store.grants| && s.store.grants[i] == g;
    assert GrantOnPeriod(s, month, i) && GrantStored(s.store, s.store.grants[i]);
    NextIsPeriod(month, w.c.period);
    SameDeadline(NextOf(month, w.c.period), g.at, w.started, s.store.now);
  }

  lemma CrossedBelow(c: Check, low: int, high: int)
    requires c.budget > 0 && low <= high && Crossed(c, high)
    ensures Crossed(c, low)
  {
    assert (high - low) * c.budget >= 0;
    assert high * c.budget == low * c.budget + (high - low) * c.budget;
  }

  lemma StepExtends(s: State, tiers: seq<int>, month: int -> int, step: Step)
    requires IsPeriod(month) && SafetyInv(s, month)
    ensures Grows(s, Next(s, tiers, month, step))
  {
    SafetyStep(s, tiers, month, step);
  }

  /** Looking at one more tier leaves a worker settled. */
  lemma SettleTier(s: State, tiers: seq<int>, month: int -> int, w: nat)
    requires IsPeriod(month) && SettledInv(s, tiers, month)
    requires w in s.workers && s.workers[w].Checking? && s.workers[w].idx < |tiers|
    ensures var t := Next(s, tiers, month, Tier(w, NoFault));
            |t.claims| == |t.store.grants| && WorkerSettled(t, tiers, t.workers[w])
  {
    var t := Next(s, tiers, month, Tier(w, NoFault));
    StepExtends(s, tiers, month, Tier(w, NoFault));
    var worker := s.workers[w];
    var Checking(c, started, idx) := worker;
    SettledExtends(s, t, tiers, worker);
    assert WorkerOk(s, month, worker);
    if !TryTier(s.store, c, tiers[idx], NoFault).0 && Crossed(c, tiers[idx]) && s.store.now < c.expireAt {
      RefusedMeansClaimed(s, month, worker, tiers[idx]);
      ClaimedByExtends(s, t, Tuple(c.email, c.period, tiers[idx]), c.expireAt, |s.claims|, |t.claims|);
    }
  }

  lemma SettledStep(s: State, tiers: seq<int>, month: int -> int, step: Step)
    requires IsPeriod(month) && SettledInv(s, tiers, month)
    requires step.Tier? ==> step.fault.NoFault?
    ensures SettledInv(Next(s, tiers, month, step), tiers, month)
  {
    var t := Next(s, tiers, month, step);
    SafetyStep(s, tiers, month, step);
    StepExtends(s, tiers, month, step);
    if step.Tier? && step.w in s.workers && s.workers[step.w].Checking? && s.workers[step.w].idx < |tiers| {
      SettleTier(s, tiers, month, step.w);
    }
    forall w | w in t.workers
      ensures WorkerSettled(t, tiers, t.workers[w])
    {
      if w in s.workers && t.workers[w] == s.workers[w] {
        SettledExtends(s, t, tiers, s.workers[w]);
      }
    }
  }

  lemma {:induction false} SettledRun(s: State, tiers: seq<int>, month: int -> int, steps: seq<Step>)
    requires IsPeriod(month) && SettledInv(s, tiers, month) && NoFaults(steps)
    ensures SettledInv(Run(s, tiers, month, steps), tiers, month)
  {
    if steps != [] {
      SettledRun(s, tiers, month, steps[..|steps| - 1]);
      SettledStep(Run(s, tiers, month, steps[..|steps| - 1]), tiers, month, steps[|steps| - 1]);
    }
  }

  lemma InitSettled(s: State, tiers: seq<int>, month: int -> int)
    requires Init(s)
    ensures SettledInv(s, tiers, month)
  {
    EmptyInv(s.store);
  }

  /** A new claim has all lower tiers claimed before it. */
  lemma LowerFirstTier(s: State, tiers: seq<int>, month: int -> int, w: nat)
    requires IsPeriod(month) && Ascending(tiers) && SettledInv(s, tiers, month)
    requires w in s.workers && s.workers[w].Checking? && s.workers[w].idx < |tiers|
    requires TryTier(s.store, s.workers[w].c, tiers[s.workers[w].idx], NoFault).0
    ensures var t := Next(s, tiers, month, Tier(w, NoFault));
            |t.claims| == |t.store.grants| == |s.claims| + 1 && LowerFirst(t, tiers, |s.claims|)
  {
    var t := Next(s, tiers, month, Tier(w, NoFault));
    StepExtends(s, tiers, month, Tier(w, NoFault));
    var Checking(c, started, idx) := s.workers[w];
    assert WorkerOk(s, month, s.workers[w]) && WorkerSettled(s, tiers, s.workers[w]);
    var n := |s.claims|;
    forall k | 0 <= k < |tiers| && tiers[k] < t.claims[n].threshold
      ensures ClaimedBy(t, t.claims[n].(threshold := tiers[k]), t.store.grants[n].deadline, n)
    {
      CrossedBelow(c, tiers[k], tiers[idx]);
      ClaimedByExtends(s, t, Tuple(c.email, c.period, tiers[k]), c.expireAt, n, n);
    }
  }

  lemma OrderStep(s: State, tiers: seq<int>, month: int -> int, step: Step)
    requires IsPeriod(month) && Ascending(tiers) && OrderInv(s, tiers, month)
    requires step.Tier? ==> step.fault.NoFault?
    ensures OrderInv(Next(s, tiers, month, step), tiers, month)
  {
    var t := Next(s, tiers, month, step);
    SettledStep(s, tiers, month, step);
    StepExtends(s, tiers, month, step);
    if |t.claims| > |s.claims| {
      LowerFirstTier(s, tiers, month, step.w);
    }
    forall n | 0 <= n < |t.claims|
      ensures LowerFirst(t, tiers, n)
    {
      if n < |s.claims| {
        LowerFirstExtends(s, t, tiers, n);
      }
    }
  }

  /**
   With an ascending tier list and no Redis errors, the tiers of a period are
   claimed from the bottom up, whatever workers race and budgets change.
   */
  lemma {:induction false} LowerTiersFirst(s: State, tiers: seq<int>, month: int -> int, steps: seq<Step>)
    requires IsPeriod(month) && Ascending(tiers) && NoFaults(steps) && Init(s)
    ensures OrderInv(Run(s, tiers, month, steps), tiers, month)
  {
    if steps == [] {
      InitSettled(s, tiers, month);
    } else {
      LowerTiersFirst(s, tiers, month, steps[..|steps| - 1]);
      OrderStep(Run(s, tiers, month, steps[..|steps| - 1]), tiers, month, steps[|steps| - 1]);
    }
  }

  /** In particular, a grant of one tier has every lower tier's grant of the same period before it. */
  lemma LowerTierClaimedBefore(s: State, tiers: seq<int>, month: int -> int, steps: seq<Step>, n: nat, k: nat)
    returns (i: nat)
    requires IsPeriod(month) && Ascending(tiers) && NoFaults(steps) && Init(s)
    requires n < |Run(s, tiers, month, steps).claims| && k < |tiers|
    requires tiers[k] < Run(s, tiers, month, steps).claims[n].threshold
    ensures var t := Run(s, tiers, month, steps);
            && i < n < |t.claims| == |t.store.grants|
            && t.claims[i] == t.claims[n].(threshold := tiers[k])
            && t.store.grants[i].deadline == t.store.grants[n].deadline
  {
    LowerTiersFirst(s, tiers, month, steps);
    var t := Run(s, tiers, month, steps);
    assert LowerFirst(t, tiers, n);
    i :| 0 <= i < n && i < |t.claims| && t.claims[i] == t.claims[n].(threshold := tiers[k])
         && t.store.grants[i].deadline == t.store.grants[n].deadline;
  }

  // --- Progress -------------------------------------------------------------

  /**
   Every reachable store is one from which `CheckProgress` promises progress,
   for a check whose clock reading lies in the current period.
   */
  lemma ReachableIsSound(s: State, tiers: seq<int>, month: int -> int, steps: seq<Step>, c: Check, started: int)
    requires IsPeriod(month) && Init(s)
    requires started <= Run(s, tiers, month, steps).store.now < c.expireAt == EndOf(NextOf(month, c.period), started)
    ensures Sound(Run(s, tiers, month, steps).store, c, tiers)
  {
    SafetyRun(s, tiers, month, steps);
    NextIsPeriod(month, c.period);
    var t := Run(s, tiers, month, steps);
    forall k, g | 0 <= k < |tiers| && g in t.store.grants && g.key == KeyOf(c, tiers[k]) && t.store.now < g.deadline
      ensures g.deadline == c.expireAt
    {
      var i :| 0 <= i < |t.store.grants| && t.store.grants[i] == g;
      assert GrantOnPeriod(t, month, i) && GrantStored(t.store, t.store.grants[i]);
      SameDeadline(NextOf(month, c.period), g.at, started, t.store.now);
    }
  }

  /**
   The step ends a check of the same engineer, period and end as `c` before that end, by an
   alert or because no tier is left; the check has read spend that crosses the first `m` tiers.
   */
  ghost predicate Finishes(s: State, tiers: seq<int>, step: Step, c: Check, m: nat)
    requires m <= |tiers|
  {
    && step.Tier? && step.w in s.workers && s.workers[step.w].Checking?
    && var Checking(d, _, idx) := s.workers[step.w];
       && Crosses(d, c, tiers, m) && s.store.now < c.expireAt
       && (idx >= |tiers| || TryTier(s.store, d, tiers[idx], NoFault).0)
  }

  /** How many such checks finish in the course of a run. */
  ghost function Finished(s: State, tiers: seq<int>, month: int -> int, steps: seq<Step>, c: Check, m: nat): nat
    requires m <= |tiers|
  {
    if steps == [] then 0
    else
      var front := steps[..|steps| - 1];
      Finished(s, tiers, month, front, c, m)
      + if Finishes(Run(s, tiers, month, front), tiers, steps[|steps| - 1], c, m) then 1 else 0
  }

  /** The tiers that a finishing check has passed over are claimed for its period. */
  lemma PassedAreClaimed(s: State, tiers: seq<int>, month: int -> int, step: Step, c: Check, m: nat, k: nat)
    requires SettledInv(s, tiers, month) && m <= |tiers| && Finishes(s, tiers, step, c, m)
    requires k < m && k < s.workers[step.w].idx
    ensures Claimed(s.store, c, tiers[k])
  {
    var Checking(d, _, idx) := s.workers[step.w];
    assert WorkerSettled(s, tiers, s.workers[step.w]) && Crossed(d, tiers[k]);
    var i :| 0 <= i < |s.claims| && s.claims[i] == Tuple(d.email, d.period, tiers[k])
             && s.store.grants[i].deadline == d.expireAt;
    assert GrantOnPeriod(s, month, i);
    assert s.store.grants[i] in s.store.grants;
  }

  lemma FinishClaims(s: State, tiers: seq<int>, month: int -> int, step: Step, c: Check, m: nat)
    requires IsPeriod(month) && SettledInv(s, tiers, month) && m <= |tiers|
    requires Finishes(s, tiers, step, c, m) && step.fault.NoFault?
    ensures var t := Next(s, tiers, month, step);
            Unclaimed(t.store, c, tiers, m) == 0 || Unclaimed(t.store, c, tiers, m) < Unclaimed(s.store, c, tiers, m)
  {
    var t := Next(s, tiers, month, step);
    var Checking(d, _, idx) := s.workers[step.w];
    StepExtends(s, tiers, month, step);
    UnclaimedMonotone(s.store, t.store, c, tiers, m);
    if idx < m {
      var key := KeyOf(c, tiers[idx]);
      AttemptIff(s.store, key, c.expireAt);
      assert !Claimed(s.store, c, tiers[idx]);
      assert t.store.grants[|s.claims|] in t.store.grants;
      UnclaimedDrops(s.store, t.store, c, tiers, m, idx);
    } else {
      forall k | 0 <= k < m
        ensures Claimed(s.store, c, tiers[k])
      {
        PassedAreClaimed(s, tiers, month, step, c, m, k);
      }
      UnclaimedZero(s.store, c, tiers, m);
    }
  }

  /** What is left of `n` after `k` of them are taken away. */
  function Minus(n: nat, k: nat): nat {
    if k >= n then 0 else n - k
  }

  lemma {:induction false} FinishedClaim(u: State, tiers: seq<int>, month: int -> int, steps: seq<Step>, c: Check,
                                         m: nat)
    requires IsPeriod(month) && SettledInv(u, tiers, month) && NoFaults(steps) && m <= |tiers|
    ensures Unclaimed(Run(u, tiers, month, steps).store, c, tiers, m) <=
            Minus(Unclaimed(u.store, c, tiers, m), Finished(u, tiers, month, steps, c, m))
  {
    if steps != [] {
      var front, last := steps[..|steps| - 1], steps[|steps| - 1];
      var v := Run(u, tiers, month, front);
      FinishedClaim(u, tiers, month, front, c, m);
      SettledRun(u, tiers, month, front);
      if Finishes(v, tiers, last, c, m) {
        FinishClaims(v, tiers, month, last, c, m);
      } else {
        StepExtends(v, tiers, month, last);
        UnclaimedMonotone(v.store, Next(v, tiers, month, last).store, c, tiers, m);
      }
    }
  }

  /**
   In every interleaving of workers, budget edits and clock advances without Redis errors: of the first
   `m` tiers, those still unclaimed have all been claimed after as many more checks that cross them have
   finished within the period, whatever else goes on; and every claim has been reported to its worker.
   */
  lemma TiersFireInTurn(s: State, tiers: seq<int>, month: int -> int, before: seq<Step>, more: seq<Step>, c: Check,
                        m: nat)
    requires IsPeriod(month) && Init(s) && NoFaults(before) && NoFaults(more) && m <= |tiers|
    ensures var u := Run(s, tiers, month, before);
            var t := Run(u, tiers, month, more);
            && Unclaimed(t.store, c, tiers, m) <=
               Minus(Unclaimed(u.store, c, tiers, m), Finished(u, tiers, month, more, c, m))
            && AllReported(t)
  {
    InitSettled(s, tiers, month);
    SettledRun(s, tiers, month, before);
    var u := Run(s, tiers, month, before);
    FinishedClaim(u, tiers, month, more, c, m);
    SettledRun(u, tiers, month, more);
  }

  // --- The loop of `CheckPeriod` as a run -------------------------------------

  /** What one worker's loop does, tier by tier, as steps. */
  ghost function SweepSteps(s: Store, w: nat, c: Check, tiers: seq<int>, delays: seq<nat>, faults: seq<Fault>,
                            i: nat): seq<Step>
    requires i <= |tiers| == |delays| == |faults|
    decreases |tiers| - i
  {
    if i == |tiers| then []
    else
      var (granted, t) := TryTier(Advance(s, delays[i]), c, tiers[i], faults[i]);
      [Tick(delays[i]), Tier(w, faults[i])] +
      if granted && faults[i].NoFault? then [] else SweepSteps(t, w, c, tiers, delays, faults, i + 1)
  }

  lemma {:induction false} RunAppend(s: State, tiers: seq<int>, month: int -> int, a: seq<Step>, b: seq<Step>)
    ensures Run(s, tiers, month, a + b) == Run(Run(s, tiers, month, a), tiers, month, b)
    decreases |b|
  {
    if b == [] {
      assert a + b == a;
    } else {
      assert (a + b)[..|a + b| - 1] == a + b[..|b| - 1];
      RunAppend(s, tiers, month, a, b[..|b| - 1]);
    }
  }

  lemma RunTwo(s: State, tiers: seq<int>, month: int -> int, a: Step, b: Step)
    ensures Run(s, tiers, month, [a, b]) == Next(Next(s, tiers, month, a), tiers, month, b)
  {
    assert [a, b][..1] == [a] && [a][..0] == [];
    assert Run(s, tiers, month, [a]) == Next(s, tiers, month, a);
  }

  /**
   The tier loop that `CheckPeriod` is proved against is a run of one worker: it leaves the same store, and fires
   alike.
   */
  lemma {:induction false} SweepIsARun(s: State, w: nat, started: int, c: Check, tiers: seq<int>, month: int -> int,
                                       delays: seq<nat>, faults: seq<Fault>, i: nat)
    requires i <= |tiers| == |delays| == |faults|
    requires w in s.workers && s.workers[w] == Checking(c, started, i)
    ensures var t := Run(s, tiers, month, SweepSteps(s.store, w, c, tiers, delays, faults, i));
            var (fired, after) := Sweep(s.store, c, tiers, delays, faults, i);
            && t.store == after && w in t.workers
            && t.workers[w] == (if fired.Some? then Idle else Checking(c, started, |tiers|))
            && |t.fires| == |s.fires| + if fired.Some? then 1 else 0
    decreases |tiers| - i
  {
    if i < |tiers| {
      var two := [Tick(delays[i]), Tier(w, faults[i])];
      RunTwo(s, tiers, month, two[0], two[1]);
      var u := Run(s, tiers, month, two);
      var (granted, t) := TryTier(Advance(s.store, delays[i]), c, tiers[i], faults[i]);
      if granted && faults[i].NoFault? {
        assert two + [] == two;
      } else {
        SweepIsARun(u, w, started, c, tiers, month, delays, faults, i + 1);
        RunAppend(s, tiers, month, two, SweepSteps(t, w, c, tiers, delays, faults, i + 1));
      }
    }
  }
}
