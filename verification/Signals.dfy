/** Detected signals: one row per engineer, signal type, severity and UTC day of the event. */
module Signals {
  import opened Wrappers
  import opened Clock
  import opened Text
  import opened Claims

  /** What is to be reported; `at` is the time of the event, not of its processing. */
  datatype Finding = Finding(email: string, signal: SignalType, severity: Severity, at: int)

  function FindingKey(f: Finding): RedisKey {
    SignalFired(f.email, f.signal, f.severity, DayOf(f.at))
  }

  /** The key lives for an hour past the last second of the event's day. */
  function FindingDeadline(f: Finding): int {
    EndOf(NextDay, f.at) + HOUR
  }

  /** The claimed keys and `signal_events`; `claimOf[i]` is the grant that row `i` followed. */
  datatype Detector = Detector(store: Store, rows: seq<Finding>, claimOf: seq<nat>)

  function FireStep(d: Detector, f: Finding, fault: Fault, writeFails: bool): Detector {
    if fault.ErrorBefore? then d
    else
      var (claimed, t) := Attempt(d.store, FindingKey(f), FindingDeadline(f));
      if !claimed || fault.ErrorAfter? || writeFails then d.(store := t)
      else Detector(t, d.rows + [f], d.claimOf + [|d.store.grants|])
  }

  class SignalDetector {
    var state: Detector

    constructor (now: int)
      ensures state == Detector(Store(map[], now, []), [], [])
    {
      state := Detector(Store(map[], now, []), [], []);
    }

    method Fire(f: Finding, fault: Fault, writeFails: bool)
      modifies this
      ensures state == FireStep(old(state), f, fault, writeFails)
    {
      if fault.ErrorBefore? {
        return;
      }
      var (claimed, t) := Attempt(state.store, FindingKey(f), FindingDeadline(f));
      state := state.(store := t);
      if fault.ErrorAfter? || !claimed {
        return;
      }
      if writeFails {
        return;
      }
      state := state.(rows := state.rows + [f], claimOf := state.claimOf + [|state.store.grants| - 1]);
    }
  }

  datatype Step = Wait(dt: nat) | Fire(f: Finding, fault: Fault, writeFails: bool)

  function Next(d: Detector, step: Step): Detector {
    match step
    case Wait(dt) => d.(store := Advance(d.store, dt))
    case Fire(f, fault, writeFails) => FireStep(d, f, fault, writeFails)
  }

  function Run(d: Detector, steps: seq<Step>): Detector {
    if steps == [] then d else Next(Run(d, steps[..|steps| - 1]), steps[|steps| - 1])
  }

  ghost predicate RowBacked(d: Detector, i: nat)
    requires i < |d.rows| == |d.claimOf|
  {
    && d.claimOf[i] < |d.store.grants|
    && var g := d.store.grants[d.claimOf[i]];
       g.key == FindingKey(d.rows[i]) && g.deadline == FindingDeadline(d.rows[i])
  }

  /** Each row follows a grant of its own, in the order of the grants. */
  ghost predicate RowsInv(d: Detector) {
    && Inv(d.store)
    && |d.rows| == |d.claimOf|
    && (forall i :: 0 <= i < |d.rows| ==> RowBacked(d, i))
    && (forall i, j :: 0 <= i < j < |d.rows| ==> d.claimOf[i] < d.claimOf[j])
  }

  /** Firing attempts one claim at most, and adds a row only behind a new grant. */
  lemma FireShape(d: Detector, f: Finding, fault: Fault, writeFails: bool)
    ensures var e := FireStep(d, f, fault, writeFails);
            && (e.store == d.store || e.store == Attempt(d.store, FindingKey(f), FindingDeadline(f)).1)
            && d.store.grants <= e.store.grants
            && ((e.rows == d.rows && e.claimOf == d.claimOf) || AddsRow(d, e, f))
  {
  }

  ghost predicate AddsRow(d: Detector, e: Detector, f: Finding) {
    && e.rows == d.rows + [f] && e.claimOf == d.claimOf + [|d.store.grants|]
    && |d.store.grants| < |e.store.grants|
    && var g := e.store.grants[|d.store.grants|]; g.key == FindingKey(f) && g.deadline == FindingDeadline(f)
  }

  lemma NextKeepsRows(d: Detector, step: Step)
    requires RowsInv(d)
    ensures RowsInv(Next(d, step))
  {
    match step
    case Wait(dt) =>
      AdvanceInv(d.store, dt);
      RowsStayBacked(d, Next(d, step));
    case Fire(f, fault, writeFails) =>
      FireKeepsRows(d, FireStep(d, f, fault, writeFails), f, fault, writeFails);
  }

  lemma FireKeepsRows(d: Detector, e: Detector, f: Finding, fault: Fault, writeFails: bool)
    requires RowsInv(d) && e == FireStep(d, f, fault, writeFails)
    ensures RowsInv(e)
  {
    FireShape(d, f, fault, writeFails);
    AttemptInv(d.store, FindingKey(f), FindingDeadline(f));
    if AddsRow(d, e, f) {
      RowAdded(d, e, f);
    } else {
      RowsStayBacked(d, e);
    }
  }

  lemma RowsStayBacked(d: Detector, e: Detector)
    requires RowsInv(d) && d.store.grants <= e.store.grants && e.rows == d.rows && e.claimOf == d.claimOf
    ensures forall i :: 0 <= i < |e.rows| ==> RowBacked(e, i)
  {
    forall i | 0 <= i < |e.rows|
      ensures RowBacked(e, i)
    {
      assert RowBacked(d, i);
    }
  }

  /** A new row follows the newest grant. */
  lemma RowAdded(d: Detector, e: Detector, f: Finding)
    requires RowsInv(d) && d.store.grants <= e.store.grants && AddsRow(d, e, f)
    ensures forall i :: 0 <= i < |e.rows| ==> RowBacked(e, i)
    ensures forall i, j :: 0 <= i < j < |e.rows| ==> e.claimOf[i] < e.claimOf[j]
  {
    forall i | 0 <= i < |d.rows|
      ensures RowBacked(e, i) && e.claimOf[i] < |d.store.grants|
    {
      assert RowBacked(d, i);
    }
  }

  lemma {:induction false} RunKeepsRows(d: Detector, steps: seq<Step>)
    requires Empty(d.store) && d.rows == [] && d.claimOf == []
    ensures RowsInv(Run(d, steps))
  {
    if steps == [] {
      EmptyInv(d.store);
    } else {
      RunKeepsRows(d, steps[..|steps| - 1]);
      NextKeepsRows(Run(d, steps[..|steps| - 1]), steps[|steps| - 1]);
    }
  }

  /**
   In every run, no two rows report the same engineer, signal type and severity
   for events of the same UTC day, however late, early or often the events come.
   */
  lemma OneRowPerDay(d: Detector, steps: seq<Step>, i: nat, j: nat)
    requires Empty(d.store) && d.rows == [] && d.claimOf == []
    requires i < j < |Run(d, steps).rows|
    ensures var r := Run(d, steps).rows;
            !(r[i].email == r[j].email && r[i].signal == r[j].signal && r[i].severity == r[j].severity &&
              DayOf(r[i].at) == DayOf(r[j].at))
  {
    RunKeepsRows(d, steps);
    var e := Run(d, steps);
    assert RowBacked(e, i) && RowBacked(e, j);
    assert GrantStored(e.store, e.store.grants[e.claimOf[j]]);
  }

  /**
   A finding is claimed exactly when its day ended less than an hour and a second ago, or is
   still to end, and no finding with its key was ever claimed before.
   */
  lemma ClaimedIff(d: Detector, steps: seq<Step>, f: Finding)
    requires Empty(d.store) && d.rows == [] && d.claimOf == []
    ensures var s := Run(d, steps).store;
            Attempt(s, FindingKey(f), FindingDeadline(f)).0 <==>
            s.now < (DayOf(f.at) + 1) * DAY + HOUR - SEC &&
            forall g :: g in s.grants ==> g.key != SignalFired(f.email, f.signal, f.severity, DayOf(f.at))
  {
    RunKeepsRows(d, steps);
    KeysFixDeadlines(d, steps);
    var s := Run(d, steps).store;
    AttemptIff(s, FindingKey(f), FindingDeadline(f));
  }

  lemma {:induction false} KeysFixDeadlines(d: Detector, steps: seq<Step>)
    requires Empty(d.store)
    ensures forall g, f :: g in Run(d, steps).store.grants && g.key == FindingKey(f) ==>
        g.deadline == FindingDeadline(f)
  {
    if steps != [] {
      KeysFixDeadlines(d, steps[..|steps| - 1]);
    }
  }

  ghost predicate Claimed(d: Detector, key: RedisKey) {
    exists g :: g in d.store.grants && g.key == key
  }

  ghost predicate Reported(d: Detector, key: RedisKey) {
    exists r :: r in d.rows && FindingKey(r) == key
  }

  /** A finding that was claimed but has no row, by an error after the claim or in the write, never gets one. */
  lemma {:induction false} LostForGood(d: Detector, steps: seq<Step>, more: seq<Step>, f: Finding)
    requires Empty(d.store) && d.rows == [] && d.claimOf == []
    requires Claimed(Run(d, steps), FindingKey(f)) && !Reported(Run(d, steps), FindingKey(f))
    ensures Claimed(Run(d, steps + more), FindingKey(f)) && !Reported(Run(d, steps + more), FindingKey(f))
    decreases |more|
  {
    if more == [] {
      assert steps + more == steps;
    } else {
      var front, last := more[..|more| - 1], more[|more| - 1];
      LostForGood(d, steps, front, f);
      assert (steps + more)[..|steps + more| - 1] == steps + front;
      var e := Run(d, steps + front);
      assert Run(d, steps + more) == Next(e, last);
      if last.Fire? {
        ClaimedIff(d, steps + front, last.f);
        FireShape(e, last.f, last.fault, last.writeFails);
      }
      var g :| g in e.store.grants && g.key == FindingKey(f);
      assert g in Next(e, last).store.grants;
    }
  }
}
