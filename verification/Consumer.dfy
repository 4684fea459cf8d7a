/**
 The Kafka consumer loop in front of the idempotent insert into `usage_events`,
 for one partition: fetch, handle, commit, with failed commits, crashes and
 restarts from the committed offset. A commit is a watermark: it covers every
 lower offset, handled or not.
 */
module Consumer {
  /** An event; an empty `eventId` is stored as NULL. */
  datatype Event = Event(eventId: string, payload: int)

  datatype Message = Undecodable | Decoded(event: Event)

  /** An error may be reported although the statement took effect. */
  datatype Outcome = Succeeds | Fails(applied: bool)

  datatype CrashPoint = NoCrash | AfterFetch | AfterHandler | AfterCommit

  /** What the environment does in one turn of the loop. */
  datatype Turn =
    | Produce(message: Message)
    | FetchFails
    | Deliver(handler: Outcome, commit: Outcome, crash: CrashPoint)

  /**
   The partition and the table, with the reader's position; `failed` and
   `handled` record which offsets met a handler error or reached the handler.
   */
  datatype State = State(log: seq<Message>, committed: nat, position: nat, rows: seq<Event>,
                         failed: set<nat>, handled: seq<nat>)

  predicate HasId(rows: seq<Event>, id: string) {
    exists i :: 0 <= i < |rows| && rows[i].eventId == id
  }

  /** INSERT ... ON CONFLICT (event_id) DO NOTHING. */
  function Insert(rows: seq<Event>, e: Event): seq<Event> {
    if e.eventId != "" && HasId(rows, e.eventId) then rows else rows + [e]
  }

  function Commit(s: State, result: Outcome): State {
    if result.Succeeds? || result.applied then s.(committed := s.position + 1) else s
  }

  function Restart(s: State): State {
    s.(position := s.committed)
  }

  function CommitAndGo(s: State, result: Outcome, crash: CrashPoint): State {
    var t := Commit(s, result);
    if crash.AfterCommit? then Restart(t) else t.(position := t.position + 1)
  }

  function Next(s: State, turn: Turn): State {
    match turn
    case Produce(m) => s.(log := s.log + [m])
    case FetchFails => s
    case Deliver(handler, commit, crash) =>
      if s.position >= |s.log| then s
      else if crash.AfterFetch? then Restart(s)
      else if s.log[s.position].Undecodable? then CommitAndGo(s, commit, crash)
      else
        var e := s.log[s.position].event;
        var h := s.(handled := s.handled + [s.position]);
        if handler.Fails? then
          var f := h.(rows := if handler.applied then Insert(s.rows, e) else s.rows, failed := s.failed + {s.position});
          if crash.AfterHandler? then Restart(f) else f.(position := f.position + 1)
        else
          var i := h.(rows := Insert(s.rows, e));
          if crash.AfterHandler? then Restart(i) else CommitAndGo(i, commit, crash)
  }

  function After(s: State, turns: seq<Turn>): State {
    if turns == [] then s else Next(After(s, turns[..|turns| - 1]), turns[|turns| - 1])
  }

  class Reader {
    var state: State

    constructor (log: seq<Message>, committed: nat, rows: seq<Event>)
      ensures state == State(log, committed, committed, rows, {}, [])
    {
      state := State(log, committed, committed, rows, {}, []);
    }

    method HandleEvent(e: Event, result: Outcome) returns (ok: bool)
      modifies this
      ensures ok == result.Succeeds?
      ensures state == old(state).(rows := if ok || result.applied then Insert(old(state).rows, e) else old(state).rows,
                                   handled := old(state).handled + [old(state).position],
                                   failed := if ok then old(state).failed
                                             else old(state).failed + {old(state).position})
    {
      state := state.(handled := state.handled + [state.position]);
      ok := result.Succeeds?;
      if ok || result.applied {
        if e.eventId == "" || !HasId(state.rows, e.eventId) {
          state := state.(rows := state.rows + [e]);
        }
      }
      if !ok {
        state := state.(failed := state.failed + {state.position});
      }
    }

    method CommitMessages(result: Outcome)
      modifies this
      ensures state == Commit(old(state), result)
    {
      if result.Succeeds? || result.applied {
        state := state.(committed := state.position + 1);
      }
    }

    /** The loop; a crash ends the process, and the turns after it belong to its successor. */
    method Run(turns: seq<Turn>)
      modifies this
      ensures state == After(old(state), turns)
    {
      for k := 0 to |turns|
        invariant state == After(old(state), turns[..k])
      {
        assert turns[..k + 1][..k] == turns[..k];
        match turns[k]
        case Produce(m) =>
          state := state.(log := state.log + [m]);
        case FetchFails =>
          continue;
        case Deliver(handler, commit, crash) =>
          if state.position >= |state.log| {
            continue;
          }
          if crash.AfterFetch? {
            state := Restart(state);
            continue;
          }
          var message := state.log[state.position];
          if message.Decoded? {
            var ok := HandleEvent(message.event, handler);
            if crash.AfterHandler? {
              state := Restart(state);
              continue;
            }
            if !ok {
              state := state.(position := state.position + 1);
              continue;
            }
          }
          CommitMessages(commit);
          state := if crash.AfterCommit? then Restart(state) else state.(position := state.position + 1);
      }
      assert turns[..|turns|] == turns;
    }
  }

  // --- Nothing is lost silently -----------------------------------------------

  ghost predicate Stored(rows: seq<Event>, e: Event) {
    if e.eventId == "" then e in rows else HasId(rows, e.eventId)
  }

  /** The offset needs no further work, or a handler error has been logged for it. */
  ghost predicate Accounted(s: State, offset: nat)
    requires offset < |s.log|
  {
    s.log[offset].Undecodable? || offset in s.failed || Stored(s.rows, s.log[offset].event)
  }

  ghost predicate Inv(s: State, start: nat) {
    && start <= s.committed <= s.position <= |s.log|
    && (forall o :: start <= o < s.position ==> Accounted(s, o))
  }

  lemma StoredByInsert(rows: seq<Event>, e: Event, d: Event)
    ensures Stored(Insert(rows, e), e)
    ensures Stored(rows, d) ==> Stored(Insert(rows, e), d)
  {
    var r := Insert(rows, e);
    assert forall i :: 0 <= i < |rows| ==> r[i] == rows[i];
    assert r != rows ==> r[|rows|] == e;
  }

  lemma NextKeepsInv(s: State, turn: Turn, start: nat)
    requires Inv(s, start)
    ensures Inv(Next(s, turn), start)
  {
    var t := Next(s, turn);
    forall o | start <= o < t.position
      ensures Accounted(t, o)
    {
      if turn.Deliver? && s.position < |s.log| && s.log[s.position].Decoded? {
        var e := s.log[s.position].event;
        StoredByInsert(s.rows, e, if s.log[o].Decoded? then s.log[o].event else e);
      }
      assert o < s.position ==> Accounted(s, o);
    }
  }

  /**
   In every run, each offset between the initial and the current committed mark
   is undecodable, had a handler error, or has its event in the table.
   */
  lemma {:induction false} CommittedIsAccounted(s: State, turns: seq<Turn>)
    requires s.committed == s.position <= |s.log|
    ensures Inv(After(s, turns), s.committed)
    ensures var t := After(s, turns); forall o :: s.committed <= o < t.committed ==> Accounted(t, o)
  {
    if turns != [] {
      CommittedIsAccounted(s, turns[..|turns| - 1]);
      NextKeepsInv(After(s, turns[..|turns| - 1]), turns[|turns| - 1], s.committed);
    }
  }

  ghost predicate UniqueIds(rows: seq<Event>) {
    forall i, j :: 0 <= i < j < |rows| && rows[i].eventId != "" ==> rows[i].eventId != rows[j].eventId
  }

  lemma InsertUnique(rows: seq<Event>, e: Event)
    requires UniqueIds(rows)
    ensures UniqueIds(Insert(rows, e)) && forall r :: r in Insert(rows, e) ==> r in rows || r == e
  {
  }

  /** One turn stores at most the event at the reader's position. */
  lemma TurnInserts(u: State, turn: Turn)
    ensures var t := Next(u, turn);
            && u.log <= t.log
            && (t.rows == u.rows ||
                (u.position < |u.log| && u.log[u.position].Decoded? &&
                  t.rows == Insert(u.rows, u.log[u.position].event)))
  {
  }

  lemma TurnStores(u: State, turn: Turn)
    requires UniqueIds(u.rows)
    ensures var t := Next(u, turn);
            && UniqueIds(t.rows) && (forall r :: r in t.rows ==> r in u.rows || Decoded(r) in t.log)
            && (forall m :: m in u.log ==> m in t.log)
  {
    TurnInserts(u, turn);
    var t := Next(u, turn);
    if t.rows != u.rows {
      InsertUnique(u.rows, u.log[u.position].event);
      assert t.log[u.position] == Decoded(u.log[u.position].event);
    }
  }

  /**
   However often it is delivered, a non-empty event id is stored at most once,
   and nothing is stored that the log does not hold.
   */
  lemma {:induction false} StoredAtMostOnce(s: State, turns: seq<Turn>)
    requires UniqueIds(s.rows)
    ensures var t := After(s, turns);
            UniqueIds(t.rows) && forall r :: r in t.rows ==> r in s.rows || Decoded(r) in t.log
  {
    if turns != [] {
      StoredAtMostOnce(s, turns[..|turns| - 1]);
      TurnStores(After(s, turns[..|turns| - 1]), turns[|turns| - 1]);
    }
  }

  // --- When a failed message comes back ------------------------------------------

  /** What has been handled since: nothing below the committed mark. */
  lemma {:induction false} NeverBelowCommitted(s: State, turns: seq<Turn>)
    requires s.committed <= s.position
    ensures var t := After(s, turns);
            && s.committed <= t.committed <= t.position && s.handled <= t.handled && s.log <= t.log
            && forall k :: |s.handled| <= k < |t.handled| ==> t.handled[k] >= s.committed
  {
    if turns != [] {
      NeverBelowCommitted(s, turns[..|turns| - 1]);
    }
  }

  /** Deliveries without errors, as many as it takes. */
  ghost function Clean(n: nat): seq<Turn> {
    seq(n, _ => Deliver(Succeeds, Succeeds, NoCrash))
  }

  lemma {:induction false} CleanAdvances(s: State, n: nat)
    requires s.position + n <= |s.log|
    ensures var t := After(s, Clean(n)); t.position == s.position + n && t.log == s.log && s.handled <= t.handled
    ensures n > 0 && s.log[s.position + n - 1].Decoded? ==>
        s.position + n - 1 in After(s, Clean(n)).handled[|s.handled|..]
  {
    if n > 0 {
      assert Clean(n)[..n - 1] == Clean(n - 1);
      CleanAdvances(s, n - 1);
      var u, t := After(s, Clean(n - 1)), After(s, Clean(n));
      if s.log[s.position + n - 1].Decoded? {
        assert t.handled[|s.handled|..][|u.handled| - |s.handled|] == s.position + n - 1;
      }
    }
  }

  lemma {:induction false} AfterAppend(s: State, a: seq<Turn>, b: seq<Turn>)
    ensures After(s, a + b) == After(After(s, a), b)
    decreases |b|
  {
    if b == [] {
      assert a + b == a;
    } else {
      assert (a + b)[..|a + b| - 1] == a + b[..|b| - 1];
      AfterAppend(s, a, b[..|b| - 1]);
    }
  }

  ghost predicate NoCrashes(turns: seq<Turn>) {
    forall i :: 0 <= i < |turns| && turns[i].Deliver? ==> turns[i].crash.NoCrash?
  }

  /**
   As long as nothing crashes, offsets are handled in strictly ascending order, and none again that was passed over.
   */
  lemma {:induction false} NeverAgainWithoutCrash(s: State, turns: seq<Turn>)
    requires NoCrashes(turns)
    ensures var t := After(s, turns);
            && s.position <= t.position && s.handled <= t.handled
            && (forall k :: |s.handled| <= k < |t.handled| ==> s.position <= t.handled[k] < t.position)
            && (forall k, l :: |s.handled| <= k < l < |t.handled| ==> t.handled[k] < t.handled[l])
  {
    if turns != [] {
      NeverAgainWithoutCrash(s, turns[..|turns| - 1]);
    }
  }

  /** Some continuation hands the offset to the handler again. */
  ghost predicate CanComeBack(s: State, offset: nat) {
    exists turns ::
      var t := After(s, turns); s.handled <= t.handled && offset in t.handled[|s.handled|..]
  }

  /** After a crash, error-free deliveries reach the offset again. */
  lemma CrashBringsBack(s: State, offset: nat)
    requires s.committed <= offset < s.position <= |s.log| && s.log[offset].Decoded?
    ensures CanComeBack(s, offset)
  {
    var n := offset + 1 - s.committed;
    var crash: seq<Turn> := [Produce(Undecodable), Deliver(Succeeds, Succeeds, AfterFetch)];
    var r := Restart(s.(log := s.log + [Undecodable]));
    CrashRestarts(s);
    AfterAppend(s, crash, Clean(n));
    CleanAdvances(r, n);
    ComesBackVia(s, offset, crash + Clean(n));
  }

  lemma ComesBackVia(s: State, offset: nat, turns: seq<Turn>)
    requires var t := After(s, turns); s.handled <= t.handled && offset in t.handled[|s.handled|..]
    ensures CanComeBack(s, offset)
  {
  }

  lemma CrashRestarts(s: State)
    requires s.position <= |s.log|
    ensures After(s, [Produce(Undecodable), Deliver(Succeeds, Succeeds, AfterFetch)]) ==
      Restart(s.(log := s.log + [Undecodable]))
  {
    var crash: seq<Turn> := [Produce(Undecodable), Deliver(Succeeds, Succeeds, AfterFetch)];
    assert crash[..1] == [Produce(Undecodable)] && crash[..1][..0] == [];
    assert After(s, crash[..1]) == Next(s, crash[0]);
  }

  /**
   A message that has been passed over is handled again in some continuation
   exactly as long as the committed mark has not moved past it. The loop's promise
   that a failed message "will be redelivered" therefore needs a crash
   (`NeverAgainWithoutCrash`), and ends with the next commit of a later one.
   */
  lemma ComesBackIff(s: State, offset: nat)
    requires s.committed <= s.position <= |s.log| && offset < s.position && s.log[offset].Decoded?
    ensures CanComeBack(s, offset) <==> s.committed <= offset
  {
    if s.committed <= offset {
      CrashBringsBack(s, offset);
    } else {
      forall turns | s.handled <= After(s, turns).handled
        ensures offset !in After(s, turns).handled[|s.handled|..]
      {
        NeverBelowCommitted(s, turns);
      }
    }
  }

  /** Some turn of the run handed the offset to the handler, which succeeded. */
  ghost predicate HandledWell(s: State, turns: seq<Turn>, offset: nat) {
    exists k :: 0 <= k < |turns| && turns[k].Deliver? && turns[k].handler.Succeeds?
                && After(s, turns[..k]).position == offset
  }

  /** The mark has not moved, or stands right behind a message that cannot be decoded or that was handled. */
  ghost predicate MarkBacked(s: State, turns: seq<Turn>, t: State) {
    || t.committed == s.committed
    || (0 < t.committed <= |t.log| &&
        (t.log[t.committed - 1].Undecodable? || HandledWell(s, turns, t.committed - 1)))
  }

  /** One turn moves the mark past the message at the reader's position, if at all, and only if nothing failed. */
  lemma TurnCommits(u: State, turn: Turn)
    requires u.committed <= u.position <= |u.log|
    ensures var t := Next(u, turn);
            && t.committed <= t.position <= |t.log| && u.log <= t.log
            && (t.committed == u.committed
                || (u.position < |u.log| && t.committed == u.position + 1 && turn.Deliver?
                    && (u.log[u.position].Undecodable? || turn.handler.Succeeds?)))
  {
  }

  lemma HandledWellLonger(s: State, front: seq<Turn>, turn: Turn, offset: nat)
    ensures HandledWell(s, front, offset) ==> HandledWell(s, front + [turn], offset)
    ensures turn.Deliver? && turn.handler.Succeeds? && After(s, front).position == offset ==>
              HandledWell(s, front + [turn], offset)
  {
    var turns := front + [turn];
    assert turns[..|front|] == front && turns[|front|] == turn;
    if k :| 0 <= k < |front| && front[k].Deliver? && front[k].handler.Succeeds?
            && After(s, front[..k]).position == offset {
      assert turns[k] == front[k] && turns[..k] == front[..k];
    }
  }

  lemma MarkStep(s: State, front: seq<Turn>, turn: Turn, u: State)
    requires u == After(s, front) && u.committed <= u.position <= |u.log| && MarkBacked(s, front, u)
    ensures MarkBacked(s, front + [turn], Next(u, turn))
  {
    var t := Next(u, turn);
    TurnCommits(u, turn);
    if t.committed > 0 {
      HandledWellLonger(s, front, turn, t.committed - 1);
    }
  }

  /**
   A handler error leaves its message uncommitted: over any run, the mark stays where it was, or comes to stand right
   behind a message that cannot be decoded or whose handler succeeded.
   */
  lemma {:induction false} OnlyHandledCommits(s: State, turns: seq<Turn>)
    requires s.committed == s.position <= |s.log|
    ensures var t := After(s, turns); t.committed <= t.position <= |t.log| && MarkBacked(s, turns, t)
  {
    if turns != [] {
      var front, last := turns[..|turns| - 1], turns[|turns| - 1];
      OnlyHandledCommits(s, front);
      TurnCommits(After(s, front), last);
      MarkStep(s, front, last, After(s, front));
      assert front + [last] == turns;
    }
  }

  /** As long as every handler has failed, no message is below the mark, and each that was passed can come back. */
  lemma FailuresComeBack(s: State, turns: seq<Turn>, offset: nat)
    requires s.committed == s.position <= |s.log|
    requires forall k :: 0 <= k < |turns| && turns[k].Deliver? ==> turns[k].handler.Fails?
    requires var t := After(s, turns); forall o :: s.committed <= o < |t.log| ==> t.log[o].Decoded?
    ensures After(s, turns).committed == s.committed
    ensures s.committed <= offset < After(s, turns).position ==> CanComeBack(After(s, turns), offset)
  {
    OnlyHandledCommits(s, turns);
    NeverBelowCommitted(s, turns);
    if s.committed <= offset < After(s, turns).position {
      ComesBackIff(After(s, turns), offset);
    }
  }

  lemma CleanTurn(u: State)
    requires u.position < |u.log|
    ensures var t := Next(u, Deliver(Succeeds, Succeeds, NoCrash));
            && t.committed == t.position == u.position + 1 && t.log == u.log
            && (u.log[u.position].Decoded? ==> Stored(t.rows, u.log[u.position].event))
            && forall e :: Stored(u.rows, e) ==> Stored(t.rows, e)
  {
    var t := Next(u, Deliver(Succeeds, Succeeds, NoCrash));
    forall e
      ensures Stored(u.rows, e) ==> Stored(t.rows, e)
      ensures u.log[u.position].Decoded? ==> Stored(t.rows, u.log[u.position].event)
    {
      if u.log[u.position].Decoded? {
        StoredByInsert(u.rows, u.log[u.position].event, e);
      }
    }
  }

  /** Deliveries without errors commit all that they pass, and store it. */
  lemma {:induction false} CleanCommits(s: State, n: nat)
    requires s.position + n <= |s.log| && n > 0
    ensures var t := After(s, Clean(n)); t.committed == t.position == s.position + n && t.log == s.log
    ensures forall o :: s.position <= o < s.position + n && s.log[o].Decoded? ==>
              Stored(After(s, Clean(n)).rows, s.log[o].event)
  {
    var u := After(s, Clean(n - 1));
    assert Clean(n)[..n - 1] == Clean(n - 1);
    if n > 1 {
      CleanCommits(s, n - 1);
    }
    CleanTurn(u);
  }

  /** A run in which a failed event is skipped for good: the next event's commit covers it. */
  lemma FailedEventSkipped(a: Event, b: Event)
    requires a.eventId != b.eventId && a.eventId != ""
    ensures var s := State([Decoded(a), Decoded(b)], 0, 0, [], {}, []);
            var t := After(s, [Deliver(Fails(false), Succeeds, NoCrash), Deliver(Succeeds, Succeeds, NoCrash)]);
            t.committed == 2 && t.rows == [b] && !Stored(t.rows, a) && !CanComeBack(t, 0)
  {
    var s := State([Decoded(a), Decoded(b)], 0, 0, [], {}, []);
    var turns := [Deliver(Fails(false), Succeeds, NoCrash), Deliver(Succeeds, Succeeds, NoCrash)];
    assert turns[..1][..0] == [] && turns[..1][0] == turns[0];
    assert After(s, turns[..1]) == Next(s, turns[0]);
    var t := After(s, turns);
    assert t.rows == [b];
    ComesBackIff(t, 0);
  }

  /** Without handler errors, nothing is skipped. */
  lemma {:induction false} CleanHandlersLoseNothing(s: State, turns: seq<Turn>)
    requires s.committed == s.position <= |s.log| && s.failed == {}
    requires forall i :: 0 <= i < |turns| && turns[i].Deliver? ==> turns[i].handler.Succeeds?
    ensures var t := After(s, turns);
            && s.committed <= t.committed <= |t.log| && t.failed == {}
            && forall o :: s.committed <= o < t.committed && t.log[o].Decoded? ==> Stored(t.rows, t.log[o].event)
  {
    NoFailures(s, turns);
    CommittedIsAccounted(s, turns);
    var t := After(s, turns);
    forall o | s.committed <= o < t.committed && t.log[o].Decoded?
      ensures Stored(t.rows, t.log[o].event)
    {
      assert Accounted(t, o);
    }
  }

  lemma {:induction false} NoFailures(s: State, turns: seq<Turn>)
    requires s.failed == {}
    requires forall i :: 0 <= i < |turns| && turns[i].Deliver? ==> turns[i].handler.Succeeds?
    ensures After(s, turns).failed == {}
  {
    if turns != [] {
      NoFailures(s, turns[..|turns| - 1]);
    }
  }
}
