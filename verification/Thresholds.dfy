/**
 Budget alerts: any number of workers check events concurrently, and each
 (engineer, period, percent) may be claimed once per UTC day or month although
 the claimed key carries no date.

 Amounts are micro-dollars. The registry, the spend counter and the outcome of
 every Redis call are given from outside, so that budgets may be edited and
 spend may be read stale between any two steps.
 */
module Thresholds {
  import opened Wrappers
  import opened Clock
  import opened Text
  import opened Claims

  datatype Config = Config(notifyAtPercent: seq<int>, notifyManagerAtPercent: seq<int>, slackConfigured: bool)

  /** One call of `checkPeriod`, with the values it has read. */
  datatype Check = Check(email: string, period: Period, spend: int, budget: int, expireAt: int)

  /** `pct < threshold`, without the division. */
  predicate Crossed(c: Check, threshold: int) {
    c.spend * 100 >= threshold * c.budget
  }

  function KeyOf(c: Check, threshold: int): RedisKey {
    ThresholdFired(c.email, c.period, threshold)
  }

  /**
   One tier of the loop: whether its claim is granted, and the store afterwards.
   The tier fires if the grant is also reported, that is, without a fault.
   */
  function TryTier(s: Store, c: Check, threshold: int, fault: Fault): (bool, Store) {
    if !Crossed(c, threshold) || fault.ErrorBefore? then (false, s) else Attempt(s, KeyOf(c, threshold), c.expireAt)
  }

  // --- The service ----------------------------------------------------------

  datatype Trigger = Trigger(email: string, period: Period, threshold: int, at: int,
                             spend: int, budget: int, slackTs: string, notifiedManager: bool)

  datatype Engineer = Engineer(email: string, slackUserId: string, managerSlackId: string)

  /** How Slack answers: with the timestamp of the engineer's message, if it goes through, and to the manager's. */
  datatype Slack = Slack(ts: Option<string>, managerFails: bool)

  /** The tier loop from index `i` on, each tier taking `delay[i]` and meeting `faults[i]`. */
  function Sweep(s: Store, c: Check, tiers: seq<int>, delays: seq<nat>, faults: seq<Fault>, i: nat)
    : (r: (Option<nat>, Store))
    requires i <= |tiers| == |delays| == |faults|
    ensures r.0.Some? ==> i <= r.0.value < |tiers|
    decreases |tiers| - i
  {
    if i == |tiers| then (None, s)
    else
      var (granted, t) := TryTier(Advance(s, delays[i]), c, tiers[i], faults[i]);
      if granted && faults[i].NoFault? then (Some(i), t) else Sweep(t, c, tiers, delays, faults, i + 1)
  }

  /** All that one call of `checkPeriod` reads, and what goes wrong during it. */
  datatype Reading = Reading(budget: int, counter: Option<int>, delays: seq<nat>, faults: seq<Fault>,
                             slack: Slack, auditFails: bool)

  /** The store and the audit rows after one call of `checkPeriod`. */
  ghost function Checked(cfg: Config, eng: Engineer, period: Period, r: Reading, expireAt: int, s: Store,
                         audit: seq<Trigger>)
    : (Store, seq<Trigger>)
    requires |r.delays| == |r.faults| == |cfg.notifyAtPercent|
  {
    if r.budget <= 0 || r.counter.None? || r.counter.value <= 0 then (s, audit)
    else
      var c := Check(eng.email, period, r.counter.value, r.budget, expireAt);
      var (fired, t) := Sweep(s, c, cfg.notifyAtPercent, r.delays, r.faults, 0);
      (t, if fired.None? || r.auditFails then audit
          else audit + [TriggerFor(cfg, eng, c, cfg.notifyAtPercent[fired.value], t.now, r.slack)])
  }

  // --- What an alert means, in numbers ------------------------------------------

  /** The claim is one of a tier that the spend has reached, made to last to the end of the period. */
  ghost predicate IsReached(g: Grant, c: Check, tiers: seq<int>) {
    exists k :: 0 <= k < |tiers| && g.key == ThresholdFired(c.email, c.period, tiers[k]) && g.deadline == c.expireAt
                && c.spend * 100 >= tiers[k] * c.budget
  }

  /** The audit row shows what was read, and a tier that this has reached. */
  ghost predicate ShowsReached(r: Trigger, c: Check, tiers: seq<int>) {
    && r.email == c.email && r.period == c.period && r.spend == c.spend && r.budget == c.budget
    && r.threshold in tiers && r.spend * 100 >= r.threshold * r.budget
  }

  /** A counter that cannot be read counts as nothing spent. */
  function SpendOf(counter: Option<int>): int {
    if counter.Some? then counter.value else 0
  }

  /** Only tiers that the spend has reached were claimed and written. */
  ghost predicate OnlyReached(s: Store, t: Store, before: seq<Trigger>, after: seq<Trigger>, c: Check, tiers: seq<int>)
  {
    && s.grants <= t.grants && before <= after
    && (forall n :: |s.grants| <= n < |t.grants| ==> IsReached(t.grants[n], c, tiers))
    && (forall n :: |before| <= n < |after| ==> ShowsReached(after[n], c, tiers))
  }

  /** First the tiers that the day's spend has reached, and then those that the month's has. */
  ghost predicate EventReached(s: Store, t: Store, before: seq<Trigger>, after: seq<Trigger>, day: Check, month: Check,
                               tiers: seq<int>) {
    exists u, between ::
      OnlyReached(s, u, before, between, day, tiers) && OnlyReached(u, t, between, after, month, tiers)
  }

  /** Every tier that the spend has reached was claimed for the period, unless its claim erred outright. */
  ghost predicate AllReached(t: Store, c: Check, tiers: seq<int>, faults: seq<Fault>)
    requires |tiers| == |faults|
  {
    forall k :: 0 <= k < |tiers| && c.spend * 100 >= tiers[k] * c.budget && !faults[k].ErrorBefore? ==>
      exists g :: g in t.grants && g.key == ThresholdFired(c.email, c.period, tiers[k]) && g.deadline == c.expireAt
  }

  /** The tier that fired was the last to be claimed. */
  ghost predicate FiredLast(s: Store, t: Store, c: Check, threshold: int) {
    && |s.grants| < |t.grants|
    && t.grants[|t.grants| - 1].key == ThresholdFired(c.email, c.period, threshold)
    && c.spend * 100 >= threshold * c.budget
  }

  lemma {:induction false} SweepReached(s: Store, c: Check, tiers: seq<int>, delays: seq<nat>, faults: seq<Fault>,
                                        i: nat)
    requires i <= |tiers| == |delays| == |faults|
    ensures var (fired, t) := Sweep(s, c, tiers, delays, faults, i);
            && s.grants <= t.grants
            && (forall n :: |s.grants| <= n < |t.grants| ==> IsReached(t.grants[n], c, tiers))
            && (fired.Some? ==> FiredLast(s, t, c, tiers[fired.value]))
    decreases |tiers| - i
  {
    if i < |tiers| {
      var (granted, u) := TryTier(Advance(s, delays[i]), c, tiers[i], faults[i]);
      if granted {
        assert IsReached(u.grants[|s.grants|], c, tiers);
      }
      if !(granted && faults[i].NoFault?) {
        SweepReached(u, c, tiers, delays, faults, i + 1);
        var t := Sweep(u, c, tiers, delays, faults, i + 1).1;
        assert forall n :: |s.grants| <= n < |u.grants| ==> t.grants[n] == u.grants[n];
      }
    }
  }

  /** What a check claims, fires and writes, by its sweep. */
  lemma CheckReached(cfg: Config, eng: Engineer, c: Check, slack: Slack, s: Store, audit: seq<Trigger>,
                     delays: seq<nat>, faults: seq<Fault>)
    requires |delays| == |faults| == |cfg.notifyAtPercent|
    ensures var tiers := cfg.notifyAtPercent;
            var (fired, t) := Sweep(s, c, tiers, delays, faults, 0);
            && OnlyReached(s, t, audit, audit, c, tiers)
            && (fired.Some? ==>
                  && FiredLast(s, t, c, tiers[fired.value])
                  && OnlyReached(s, t, audit, audit + [TriggerFor(cfg, eng, c, tiers[fired.value], t.now, slack)],
                                 c, tiers))
  {
    SweepReached(s, c, cfg.notifyAtPercent, delays, faults, 0);
  }

  class ThresholdService {
    const cfg: Config
    var store: Store
    var audit: seq<Trigger>

    constructor (cfg: Config, store: Store)
      ensures this.cfg == cfg && this.store == store && audit == []
    {
      this.cfg, this.store, this.audit := cfg, store, [];
    }

    /** Fires the first crossed tier whose claim succeeds, and no other. */
    method CheckPeriod(eng: Engineer, period: Period, budget: int, expireAt: int, counter: Option<int>,
                       delays: seq<nat>, faults: seq<Fault>, slack: Slack, auditFails: bool)
      returns (fired: Option<nat>)
      requires |delays| == |faults| == |cfg.notifyAtPercent|
      modifies this
      ensures budget <= 0 || counter.None? || counter.value <= 0 ==>
                fired.None? && store == old(store) && audit == old(audit)
      ensures budget > 0 && counter.Some? && counter.value > 0 ==>
                var c := Check(eng.email, period, counter.value, budget, expireAt);
                && (fired, store) == Sweep(old(store), c, cfg.notifyAtPercent, delays, faults, 0)
                && audit == if fired.None? || auditFails then old(audit)
                            else old(audit) +
                                 [TriggerFor(cfg, eng, c, cfg.notifyAtPercent[fired.value], store.now, slack)]
      ensures var tiers := cfg.notifyAtPercent;
              var c := Check(eng.email, period, SpendOf(counter), budget, expireAt);
              && OnlyReached(old(store), store, old(audit), audit, c, tiers)
              && (fired.Some? ==> FiredLast(old(store), store, c, tiers[fired.value]))
      ensures var tiers := cfg.notifyAtPercent;
              var c := Check(eng.email, period, SpendOf(counter), budget, expireAt);
              fired.None? && budget > 0 && c.spend > 0 && Sound(old(store), c, tiers) && store.now < expireAt ==>
                AllReached(store, c, tiers, faults)
    {
      if budget <= 0 || counter.None? || counter.value <= 0 {
        return None;
      }
      var c := Check(eng.email, period, counter.value, budget, expireAt);
      CheckReached(cfg, eng, c, slack, store, audit, delays, faults);
      if Silent(store, c, cfg.notifyAtPercent, delays, faults, 0) {
        SilentMeansClaimed(store, c, cfg.notifyAtPercent, delays, faults, 0);
      }
      for i := 0 to |cfg.notifyAtPercent|
        invariant audit == old(audit)
        invariant Sweep(old(store), c, cfg.notifyAtPercent, delays, faults, 0) ==
          Sweep(store, c, cfg.notifyAtPercent, delays, faults, i)
      {
        var threshold := cfg.notifyAtPercent[i];
        store := Advance(store, delays[i]);
        if c.spend * 100 < threshold * c.budget || faults[i].ErrorBefore? {
          continue;
        }
        var (ok, t) := Attempt(store, KeyOf(c, threshold), expireAt);
        store := t;
        if faults[i].ErrorAfter? || !ok {
          continue;
        }
        FireThreshold(eng, c, threshold, slack, auditFails);
        return Some(i);
      }
      return None;
    }

    /** Both periods of one event, whose ends come from one reading of the clock. */
    method HandleEvent(eng: Option<Engineer>, month: int -> int, daily: Reading, monthly: Reading)
      requires |daily.delays| == |daily.faults| == |monthly.delays| == |monthly.faults| == |cfg.notifyAtPercent|
      modifies this
      ensures eng.None? ==> store == old(store) && audit == old(audit)
      ensures eng.Some? ==>
                var now := old(store.now);
                var (s, a) := Checked(cfg, eng.value, Daily, daily, EndOf(NextDay, now), old(store), old(audit));
                (store, audit) == Checked(cfg, eng.value, Monthly, monthly, EndOf(month, now), s, a)
      ensures |audit| <= |old(audit)| + 2
      ensures eng.Some? ==>
                var now, email, tiers := old(store.now), eng.value.email, cfg.notifyAtPercent;
                EventReached(old(store), store, old(audit), audit,
                             Check(email, Daily, SpendOf(daily.counter), daily.budget, NextDay(now) - SEC),
                             Check(email, Monthly, SpendOf(monthly.counter), monthly.budget, month(now) - SEC), tiers)
    {
      if eng.None? {
        return;
      }
      var now := store.now;
      var _ := CheckPeriod(eng.value, Daily, daily.budget, EndOf(NextDay, now), daily.counter,
                           daily.delays, daily.faults, daily.slack, daily.auditFails);
      ghost var s, a := store, audit;
      var _ := CheckPeriod(eng.value, Monthly, monthly.budget, EndOf(month, now), monthly.counter,
                           monthly.delays, monthly.faults, monthly.slack, monthly.auditFails);
      assert OnlyReached(s, store, a, audit,
                         Check(eng.value.email, Monthly, SpendOf(monthly.counter), monthly.budget, month(now) - SEC),
                         cfg.notifyAtPercent);
    }

    method FireThreshold(eng: Engineer, c: Check, threshold: int, slack: Slack, auditFails: bool)
      modifies this`audit
      ensures audit == if auditFails then old(audit)
                       else old(audit) + [TriggerFor(cfg, eng, c, threshold, store.now, slack)]
      ensures !auditFails ==>
                var r := audit[|audit| - 1];
                && r.threshold == threshold && r.at == store.now
                && (r.notifiedManager <==>
                    && threshold in cfg.notifyManagerAtPercent
                    && (slack.managerFails ==> !cfg.slackConfigured || eng.managerSlackId == ""))
                && r.slackTs == (if cfg.slackConfigured && eng.slackUserId != "" && slack.ts.Some?
                                 then slack.ts.value else "")
    {
      var notifyManager := false;
      for i := 0 to |cfg.notifyManagerAtPercent|
        invariant !notifyManager && threshold !in cfg.notifyManagerAtPercent[..i]
      {
        if cfg.notifyManagerAtPercent[i] == threshold {
          notifyManager := true;
          break;
        }
      }
      var ts := "";
      if cfg.slackConfigured && eng.slackUserId != "" {
        if slack.ts.Some? {
          ts := slack.ts.value;
        }
      }
      if notifyManager && cfg.slackConfigured && eng.managerSlackId != "" {
        if slack.managerFails {
          notifyManager := false;
        }
      }
      if !auditFails {
        audit := audit + [Trigger(c.email, c.period, threshold, store.now, c.spend, c.budget, ts, notifyManager)];
      }
    }
  }

  /**
   The audit row: it carries the timestamp of a message to the engineer that went through, and the manager
   flag is cleared only by a message that was attempted and failed.
   */
  ghost function TriggerFor(cfg: Config, eng: Engineer, c: Check, threshold: int, at: int, slack: Slack): Trigger {
    var attempted := cfg.slackConfigured && eng.managerSlackId != "";
    var ts := if cfg.slackConfigured && eng.slackUserId != "" && slack.ts.Some? then slack.ts.value else "";
    Trigger(c.email, c.period, threshold, at, c.spend, c.budget, ts,
            threshold in cfg.notifyManagerAtPercent && !(attempted && slack.managerFails))
  }

  // --- Progress -------------------------------------------------------------

  /** The tier has been claimed for the period that `c` looks at. */
  ghost predicate Claimed(s: Store, c: Check, threshold: int) {
    Granted(s, KeyOf(c, threshold), c.expireAt)
  }

  /** How many of the first `m` tiers are still to be claimed. */
  ghost function Unclaimed(s: Store, c: Check, tiers: seq<int>, m: nat): nat
    requires m <= |tiers|
  {
    if m == 0 then 0 else Unclaimed(s, c, tiers, m - 1) + if Claimed(s, c, tiers[m - 1]) then 0 else 1
  }

  /** The store is sound, and grants of these tiers that are still alive were made for the period `c` looks at. */
  ghost predicate Sound(s: Store, c: Check, tiers: seq<int>) {
    Inv(s) && forall k :: 0 <= k < |tiers| ==> OnlyFor(s, KeyOf(c, tiers[k]), c.expireAt)
  }

  /** The same engineer, period and expiry, with the first `m` tiers crossed; spend and budget may differ. */
  ghost predicate Crosses(d: Check, c: Check, tiers: seq<int>, m: nat)
    requires m <= |tiers|
  {
    d.email == c.email && d.period == c.period && d.expireAt == c.expireAt &&
    forall k :: 0 <= k < m ==> d.spend * 100 >= tiers[k] * d.budget
  }

  lemma {:induction false} UnclaimedMonotone(s: Store, t: Store, c: Check, tiers: seq<int>, m: nat)
    requires m <= |tiers| && s.grants <= t.grants
    ensures Unclaimed(t, c, tiers, m) <= Unclaimed(s, c, tiers, m)
  {
    if m > 0 {
      UnclaimedMonotone(s, t, c, tiers, m - 1);
      if Claimed(s, c, tiers[m - 1]) {
        GrantedExtends(s, t, KeyOf(c, tiers[m - 1]), c.expireAt);
      }
    }
  }

  lemma {:induction false} UnclaimedDrops(s: Store, t: Store, c: Check, tiers: seq<int>, m: nat, k: nat)
    requires k < m <= |tiers| && s.grants <= t.grants
    requires Claimed(t, c, tiers[k]) && !Claimed(s, c, tiers[k])
    ensures Unclaimed(t, c, tiers, m) < Unclaimed(s, c, tiers, m)
  {
    if k == m - 1 {
      UnclaimedMonotone(s, t, c, tiers, m - 1);
    } else {
      UnclaimedDrops(s, t, c, tiers, m - 1, k);
      if Claimed(s, c, tiers[m - 1]) {
        GrantedExtends(s, t, KeyOf(c, tiers[m - 1]), c.expireAt);
      }
    }
  }

  lemma {:induction false} UnclaimedZero(s: Store, c: Check, tiers: seq<int>, m: nat)
    requires m <= |tiers|
    requires forall k :: 0 <= k < m ==> Claimed(s, c, tiers[k])
    ensures Unclaimed(s, c, tiers, m) == 0
  {
    if m > 0 {
      UnclaimedZero(s, c, tiers, m - 1);
    }
  }

  lemma AdvanceKeeps(s: Store, c: Check, tiers: seq<int>, dt: nat)
    requires Sound(s, c, tiers)
    ensures Sound(Advance(s, dt), c, tiers) && Extends(s, Advance(s, dt))
  {
    AdvanceInv(s, dt);
  }

  lemma TierKeeps(s: Store, c: Check, tiers: seq<int>, i: nat, fault: Fault)
    requires Sound(s, c, tiers) && i < |tiers|
    ensures var t := TryTier(s, c, tiers[i], fault).1;
            Sound(t, c, tiers) && Extends(s, t) && t.now == s.now
  {
    var key := KeyOf(c, tiers[i]);
    AttemptInv(s, key, c.expireAt);
    forall k | 0 <= k < |tiers|
      ensures OnlyFor(Attempt(s, key, c.expireAt).1, KeyOf(c, tiers[k]), c.expireAt)
    {
      AttemptKeepsOnly(s, key, c.expireAt, KeyOf(c, tiers[k]), c.expireAt);
    }
  }

  /** A crossed tier is claimed when first tried within the period, and not before. */
  lemma TryCrossedTier(s: Store, c: Check, tiers: seq<int>, k: nat)
    requires Sound(s, c, tiers) && k < |tiers|
    requires Crossed(c, tiers[k]) && s.now < c.expireAt
    ensures var (granted, t) := TryTier(s, c, tiers[k], NoFault);
            (granted <==> !Claimed(s, c, tiers[k])) && Claimed(t, c, tiers[k]) && (!granted ==> t == s)
  {
    AttemptGrants(s, KeyOf(c, tiers[k]), c.expireAt);
  }

  lemma {:induction false} SweepKeeps(s: Store, c: Check, tiers: seq<int>, delays: seq<nat>, faults: seq<Fault>, i: nat)
    requires i <= |tiers| == |delays| == |faults|
    requires Sound(s, c, tiers)
    ensures var t := Sweep(s, c, tiers, delays, faults, i).1;
            Sound(t, c, tiers) && Extends(s, t)
    decreases |tiers| - i
  {
    if i < |tiers| {
      var u := Advance(s, delays[i]);
      var (granted, v) := TryTier(u, c, tiers[i], faults[i]);
      AdvanceKeeps(s, c, tiers, delays[i]);
      TierKeeps(u, c, tiers, i, faults[i]);
      ExtendsTransitive(s, u, v);
      var t := Sweep(s, c, tiers, delays, faults, i).1;
      if granted && faults[i].NoFault? {
        assert t == v;
      } else {
        assert t == Sweep(v, c, tiers, delays, faults, i + 1).1;
        SweepKeeps(v, c, tiers, delays, faults, i + 1);
        ExtendsTransitive(s, v, t);
      }
    }
  }

  /**
   A check without faults that ends within the period fires the first tier not
   yet claimed in it, provided all tiers up to there are crossed.
   */
  lemma {:induction false} SweepFires(s: Store, c: Check, tiers: seq<int>, delays: seq<nat>, faults: seq<Fault>,
                                      i: nat, f: nat)
    requires i <= f < |tiers| == |delays| == |faults|
    requires forall k :: 0 <= k < |faults| ==> faults[k].NoFault?
    requires Sound(s, c, tiers)
    requires forall k :: i <= k <= f ==> c.spend * 100 >= tiers[k] * c.budget
    requires forall k :: i <= k < f ==> Claimed(s, c, tiers[k])
    requires !Claimed(s, c, tiers[f])
    requires Sweep(s, c, tiers, delays, faults, i).1.now < c.expireAt
    ensures Sweep(s, c, tiers, delays, faults, i).0 == Some(f)
    ensures Claimed(Sweep(s, c, tiers, delays, faults, i).1, c, tiers[f])
    decreases |tiers| - i
  {
    AdvanceKeeps(s, c, tiers, delays[i]);
    var u := Advance(s, delays[i]);
    var (granted, t) := TryTier(u, c, tiers[i], faults[i]);
    TierKeeps(u, c, tiers, i, faults[i]);
    if !granted {
      SweepKeeps(t, c, tiers, delays, faults, i + 1);
    }
    TryCrossedTier(u, c, tiers, i);
    if i < f {
      GrantedExtends(s, u, KeyOf(c, tiers[i]), c.expireAt);
      SweepFires(t, c, tiers, delays, faults, i + 1, f);
    }
  }

  /** A check ends within the period, finds a sound store and fires nothing. */
  ghost predicate Silent(s: Store, c: Check, tiers: seq<int>, delays: seq<nat>, faults: seq<Fault>, i: nat)
    requires i <= |tiers| == |delays| == |faults|
  {
    && Sweep(s, c, tiers, delays, faults, i).0.None? && Sound(s, c, tiers)
    && Sweep(s, c, tiers, delays, faults, i).1.now < c.expireAt
  }

  /** One tier of such a check: if the spend has reached it, it is claimed by now, unless its claim erred outright. */
  lemma SilentTier(s: Store, c: Check, tiers: seq<int>, delays: seq<nat>, faults: seq<Fault>, i: nat)
    requires i < |tiers| == |delays| == |faults| && Silent(s, c, tiers, delays, faults, i)
    ensures var u := TryTier(Advance(s, delays[i]), c, tiers[i], faults[i]).1;
            && Silent(u, c, tiers, delays, faults, i + 1)
            && Sweep(u, c, tiers, delays, faults, i + 1) == Sweep(s, c, tiers, delays, faults, i)
            && (c.spend * 100 >= tiers[i] * c.budget && !faults[i].ErrorBefore? ==> Claimed(u, c, tiers[i]))
  {
    var v := Advance(s, delays[i]);
    var u := TryTier(v, c, tiers[i], faults[i]).1;
    AdvanceKeeps(s, c, tiers, delays[i]);
    TierKeeps(v, c, tiers, i, faults[i]);
    SweepKeeps(u, c, tiers, delays, faults, i + 1);
    if Crossed(c, tiers[i]) && !faults[i].ErrorBefore? {
      TryCrossedTier(v, c, tiers, i);
    }
  }

  /** So such a check leaves every tier that the spend has reached claimed for the period, whatever other claims did. */
  lemma {:induction false} SilentMeansClaimed(s: Store, c: Check, tiers: seq<int>, delays: seq<nat>,
                                              faults: seq<Fault>, i: nat)
    requires i <= |tiers| == |delays| == |faults| && Silent(s, c, tiers, delays, faults, i)
    ensures var t := Sweep(s, c, tiers, delays, faults, i).1;
            forall k :: i <= k < |tiers| && c.spend * 100 >= tiers[k] * c.budget && !faults[k].ErrorBefore? ==>
              Claimed(t, c, tiers[k])
    decreases |tiers| - i
  {
    if i < |tiers| {
      SilentTier(s, c, tiers, delays, faults, i);
      var u := TryTier(Advance(s, delays[i]), c, tiers[i], faults[i]).1;
      SilentMeansClaimed(u, c, tiers, delays, faults, i + 1);
      SweepKeeps(u, c, tiers, delays, faults, i + 1);
      if c.spend * 100 >= tiers[i] * c.budget && !faults[i].ErrorBefore? {
        GrantedExtends(u, Sweep(u, c, tiers, delays, faults, i + 1).1, KeyOf(c, tiers[i]), c.expireAt);
      }
    }
  }

  /** The first of the first `m` tiers that is not claimed. */
  lemma {:induction false} FirstUnclaimed(s: Store, c: Check, tiers: seq<int>, m: nat) returns (f: nat)
    requires m <= |tiers| && Unclaimed(s, c, tiers, m) > 0
    ensures f < m && !Claimed(s, c, tiers[f]) && forall k :: 0 <= k < f ==> Claimed(s, c, tiers[k])
  {
    if Unclaimed(s, c, tiers, m - 1) > 0 {
      f := FirstUnclaimed(s, c, tiers, m - 1);
    } else {
      f := m - 1;
      NoneUnclaimed(s, c, tiers, m - 1);
    }
  }

  lemma {:induction false} NoneUnclaimed(s: Store, c: Check, tiers: seq<int>, m: nat)
    requires m <= |tiers| && Unclaimed(s, c, tiers, m) == 0
    ensures forall k :: 0 <= k < m ==> Claimed(s, c, tiers[k])
  {
    if m > 0 {
      NoneUnclaimed(s, c, tiers, m - 1);
    }
  }

  /** One event claims one tier, if any of the crossed ones is left. */
  lemma CheckProgress(s: Store, c: Check, d: Check, tiers: seq<int>, delays: seq<nat>, faults: seq<Fault>, m: nat)
    requires m <= |tiers| == |delays| == |faults|
    requires forall k :: 0 <= k < |faults| ==> faults[k].NoFault?
    requires Sound(s, c, tiers) && Crosses(d, c, tiers, m)
    requires Sweep(s, d, tiers, delays, faults, 0).1.now < c.expireAt
    ensures var t := Sweep(s, d, tiers, delays, faults, 0).1;
            && Sound(t, c, tiers) && Extends(s, t)
            && Unclaimed(t, c, tiers, m) <= Unclaimed(s, c, tiers, m)
            && (Unclaimed(s, c, tiers, m) > 0 ==> Unclaimed(t, c, tiers, m) < Unclaimed(s, c, tiers, m))
  {
    SweepsKeepOne(s, c, d, tiers, delays, faults);
    var t := Sweep(s, d, tiers, delays, faults, 0).1;
    UnclaimedMonotone(s, t, c, tiers, m);
    if Unclaimed(s, c, tiers, m) > 0 {
      SameChecks(s, c, d, tiers);
      SameChecks(t, c, d, tiers);
      var f := FirstUnclaimed(s, c, tiers, m);
      SweepFires(s, d, tiers, delays, faults, 0, f);
      UnclaimedDrops(s, t, c, tiers, m, f);
    }
  }

  lemma SweepsKeepOne(s: Store, c: Check, d: Check, tiers: seq<int>, delays: seq<nat>, faults: seq<Fault>)
    requires |tiers| == |delays| == |faults|
    requires Sound(s, c, tiers) && Crosses(d, c, tiers, 0)
    ensures var t := Sweep(s, d, tiers, delays, faults, 0).1;
            Sound(t, c, tiers) && Extends(s, t)
  {
    SameChecks(s, c, d, tiers);
    SweepKeeps(s, d, tiers, delays, faults, 0);
    SameChecks(Sweep(s, d, tiers, delays, faults, 0).1, c, d, tiers);
  }

  /** What is claimed does not depend on the spend and budget a check has read. */
  lemma SameChecks(s: Store, c: Check, d: Check, tiers: seq<int>)
    requires Crosses(d, c, tiers, 0)
    ensures forall k :: 0 <= k < |tiers| ==> KeyOf(c, tiers[k]) == KeyOf(d, tiers[k])
    ensures Sound(s, c, tiers) <==> Sound(s, d, tiers)
    ensures forall k :: 0 <= k < |tiers| ==> (Claimed(s, c, tiers[k]) <==> Claimed(s, d, tiers[k]))
  {
  }
}
