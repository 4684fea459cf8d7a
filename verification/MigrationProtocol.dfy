/**
 Any number of replicas calling `Apply` against one database. The advisory lock may
 be lost while its holder works on, and a transaction may outlive its caller; the
 table's primary key makes a second insertion of a name wait, and then fail.
 */
module MigrationProtocol {
  import opened Migrations
  import opened Wrappers

  /** Where a call stands; from `Opened` on it works on the file at `k`. */
  datatype Pc = Idle | Wanting | Checking | Opened | Executed | Inserted | Returned(ok: bool)

  datatype Replica = Replica(files: seq<string>, pc: Pc, k: nat, applied: seq<string>)

  /**
   `executed` lists the files whose SQL committed since `initial`; `limbo` those in a transaction whose caller is
   gone.
   */
  datatype State = State(lock: Option<nat>, initial: set<string>, recorded: set<string>, executed: seq<string>,
                         limbo: set<string>, replicas: seq<Replica>)

  datatype Event =
    | Call(i: nat, files: seq<string>) | TakeLock(i: nat) | LoseLock(i: nat)
    | Check(i: nat) | Exec(i: nat) | Insert(i: nat)
    | Commit(i: nat) | LoseAnswer(i: nat) | Fail(i: nat) | Crash(i: nat) | Settle(file: string, committed: bool)

  function Init(recorded: set<string>, n: nat): State {
    State(None, recorded, recorded, [], {}, seq(n, _ => Replica([], Idle, 0, [])))
  }

  predicate OnFile(r: Replica) {
    (r.pc.Opened? || r.pc.Executed? || r.pc.Inserted?) && r.k < |r.files|
  }

  predicate Inserting(s: State, i: nat, f: string) {
    i < |s.replicas| && OnFile(s.replicas[i]) && s.replicas[i].pc.Inserted? && s.replicas[i].files[s.replicas[i].k] == f
  }

  /** Another transaction holds the name's key and has not ended. */
  predicate Blocked(s: State, i: nat, f: string) {
    f in s.limbo || exists j :: 0 <= j < |s.replicas| && j != i && Inserting(s, j, f)
  }

  ghost predicate Enabled(s: State, e: Event) {
    match e
    case Call(i, files) => i < |s.replicas| && (s.replicas[i].pc.Idle? || s.replicas[i].pc.Returned?) &&
      Ascending(files)
    case TakeLock(i) => i < |s.replicas| && s.replicas[i].pc.Wanting? && s.lock.None?
    case LoseLock(i) => s.lock == Some(i)
    case Check(i) => i < |s.replicas| && s.replicas[i].pc.Checking? && s.replicas[i].k <= |s.replicas[i].files|
    case Exec(i) => i < |s.replicas| && OnFile(s.replicas[i]) && s.replicas[i].pc.Opened?
    case Insert(i) => i < |s.replicas| && OnFile(s.replicas[i]) && s.replicas[i].pc.Executed? &&
                      !Blocked(s, i, s.replicas[i].files[s.replicas[i].k])
    case Commit(i) => i < |s.replicas| && OnFile(s.replicas[i]) && s.replicas[i].pc.Inserted?
    case LoseAnswer(i) => i < |s.replicas| && OnFile(s.replicas[i]) && s.replicas[i].pc.Inserted?
    case Fail(i) => i < |s.replicas| && !s.replicas[i].pc.Idle? && !s.replicas[i].pc.Returned?
    case Crash(i) => i < |s.replicas|
    case Settle(f, _) => f in s.limbo
  }

  function Unlocked(lock: Option<nat>, i: nat): Option<nat> {
    if lock == Some(i) then None else lock
  }

  function Put(s: State, i: nat, r: Replica): State
    requires i < |s.replicas|
  {
    s.(replicas := s.replicas[i := r])
  }

  function Return(s: State, i: nat, ok: bool): State
    requires i < |s.replicas|
  {
    Put(s, i, s.replicas[i].(pc := Returned(ok))).(lock := Unlocked(s.lock, i))
  }

  ghost function Apply(s: State, e: Event): State
    requires Enabled(s, e)
  {
    match e
    case Call(i, files) => Put(s, i, Replica(files, Wanting, 0, []))
    case TakeLock(i) => Put(s, i, s.replicas[i].(pc := Checking)).(lock := Some(i))
    case LoseLock(i) => s.(lock := None)
    case Check(i) =>
      var r := s.replicas[i];
      if r.k == |r.files| then Return(s, i, true)
      else if r.files[r.k] in s.recorded then Put(s, i, r.(k := r.k + 1))
      else Put(s, i, r.(pc := Opened))
    case Exec(i) => Put(s, i, s.replicas[i].(pc := Executed))
    case Insert(i) =>
      var r := s.replicas[i];
      if r.files[r.k] in s.recorded then Return(s, i, false) else Put(s, i, r.(pc := Inserted))
    case Commit(i) =>
      var r := s.replicas[i];
      var f := r.files[r.k];
      Put(s, i, r.(pc := Checking, k := r.k + 1, applied := r.applied + [f]))
        .(recorded := s.recorded + {f}, executed := s.executed + [f])
    case LoseAnswer(i) => Return(s, i, false).(limbo := s.limbo + {s.replicas[i].files[s.replicas[i].k]})
    case Fail(i) => Return(s, i, false)
    case Crash(i) =>
      var r := s.replicas[i];
      Put(s, i, r.(pc := Idle)).(lock := Unlocked(s.lock, i),
        limbo := if OnFile(r) && r.pc.Inserted? then s.limbo + {r.files[r.k]} else s.limbo)
    case Settle(f, committed) =>
      if committed then s.(limbo := s.limbo - {f}, recorded := s.recorded + {f}, executed := s.executed + [f])
      else s.(limbo := s.limbo - {f})
  }

  ghost function Step(s: State, e: Event): State {
    if Enabled(s, e) then Apply(s, e) else s
  }

  ghost function Play(s: State, script: seq<Event>): State {
    if script == [] then s else Step(Play(s, script[..|script| - 1]), script[|script| - 1])
  }

  // --- At most once, and recorded exactly when committed ------------------------------

  ghost predicate Once(s: State) {
    && s.recorded == s.initial + Names(s.executed)
    && (forall x, y :: 0 <= x < y < |s.executed| ==> s.executed[x] != s.executed[y])
    && forall x :: 0 <= x < |s.executed| ==> s.executed[x] !in s.initial
  }

  /** A name whose insertion has not ended is inserted by one transaction only, and not recorded. */
  ghost predicate KeysHeldOnce(s: State) {
    && (forall f :: f in s.limbo ==> f !in s.recorded)
    && (forall i, f :: Inserting(s, i, f) ==> f !in s.recorded && f !in s.limbo)
    && (forall i, j, f :: Inserting(s, i, f) && Inserting(s, j, f) ==> i == j)
  }

  lemma KeysStep(s: State, e: Event)
    requires KeysHeldOnce(s)
    ensures KeysHeldOnce(Step(s, e))
  {
    var t := Step(s, e);
    if Enabled(s, e) && e.Insert? && s.replicas[e.i].files[s.replicas[e.i].k] !in s.recorded {
      var g := s.replicas[e.i].files[s.replicas[e.i].k];
      assert forall i, f :: Inserting(t, i, f) ==> if i == e.i then f == g else Inserting(s, i, f);
    } else {
      assert forall i, f :: Inserting(t, i, f) ==> Inserting(s, i, f);
      if Enabled(s, e) && (e.Commit? || e.LoseAnswer? || e.Crash?) {
        assert forall f :: !Inserting(t, e.i, f);
        if OnFile(s.replicas[e.i]) && s.replicas[e.i].pc.Inserted? {
          assert Inserting(s, e.i, s.replicas[e.i].files[s.replicas[e.i].k]);
        }
      }
    }
  }

  lemma OnceStep(s: State, e: Event)
    requires Once(s) && KeysHeldOnce(s)
    ensures Once(Step(s, e))
  {
    if Enabled(s, e) {
      if e.Commit? {
        var f := s.replicas[e.i].files[s.replicas[e.i].k];
        assert Inserting(s, e.i, f);
        OnceMore(s, Step(s, e), f);
      } else if e.Settle? && e.committed {
        OnceMore(s, Step(s, e), e.file);
      }
    }
  }

  lemma OnceMore(s: State, t: State, f: string)
    requires Once(s) && f !in s.recorded
    requires t.initial == s.initial && t.recorded == s.recorded + {f} && t.executed == s.executed + [f]
    ensures Once(t)
  {
    NamesSnoc(s.executed, f);
    forall x | 0 <= x < |s.executed|
      ensures s.executed[x] != f
    {
      assert s.executed[x] in Names(s.executed);
    }
  }

  lemma {:induction false} OnceAlways(recorded: set<string>, n: nat, script: seq<Event>)
    ensures var s := Play(Init(recorded, n), script); Once(s) && KeysHeldOnce(s)
    decreases |script|
  {
    if script == [] {
      assert forall i, f :: !Inserting(Init(recorded, n), i, f);
    } else {
      var before := script[..|script| - 1];
      OnceAlways(recorded, n, before);
      KeysStep(Play(Init(recorded, n), before), script[|script| - 1]);
      OnceStep(Play(Init(recorded, n), before), script[|script| - 1]);
    }
  }

  lemma {:induction false} InitialKept(s: State, script: seq<Event>)
    ensures Play(s, script).initial == s.initial && |Play(s, script).replicas| == |s.replicas|
    decreases |script|
  {
    if script != [] {
      InitialKept(s, script[..|script| - 1]);
    }
  }

  /**
   Whatever locks are lost, processes die and answers go missing: every file's SQL commits
   at most once, never if it was recorded to begin with, and is recorded exactly if it
   was to begin with or has committed.
   */
  lemma AppliedAtMostOnce(recorded: set<string>, n: nat, script: seq<Event>)
    ensures var s := Play(Init(recorded, n), script);
            && (forall x, y :: 0 <= x < y < |s.executed| ==> s.executed[x] != s.executed[y])
            && (forall f :: f in s.executed ==> f !in recorded)
            && (forall f :: f in s.recorded <==> f in recorded || f in s.executed)
  {
    OnceAlways(recorded, n, script);
    InitialKept(Init(recorded, n), script);
  }

  // --- What one call does -------------------------------------------------------------

  /** A call has passed only recorded files, and applied its own ones in name order. */
  ghost predicate Faithful(s: State, r: Replica) {
    && Ascending(r.files) && r.k <= |r.files|
    && (r.pc.Opened? || r.pc.Executed? || r.pc.Inserted? ==> r.k < |r.files|)
    && (r.pc == Returned(true) ==> r.k == |r.files|)
    && (forall m :: 0 <= m < r.k ==> r.files[m] in s.recorded)
    && Ascending(r.applied)
    && (forall x :: 0 <= x < |r.applied| ==> r.applied[x] in s.executed && r.applied[x] in r.files[..r.k])
  }

  ghost predicate AllFaithful(s: State) {
    forall i :: 0 <= i < |s.replicas| ==> Faithful(s, s.replicas[i])
  }

  lemma CommitFaithful(s: State, i: nat)
    requires i < |s.replicas| && Faithful(s, s.replicas[i]) && Enabled(s, Commit(i))
    ensures Faithful(Apply(s, Commit(i)), Apply(s, Commit(i)).replicas[i])
  {
    var r, t := s.replicas[i], Apply(s, Commit(i));
    var q := t.replicas[i];
    assert q.files[..q.k] == r.files[..r.k] + [r.files[r.k]];
    forall x | 0 <= x < |r.applied|
      ensures Before(r.applied[x], r.files[r.k])
    {
      assert r.applied[x] in r.files[..r.k];
      var m :| 0 <= m < r.k && r.files[..r.k][m] == r.applied[x];
    }
  }

  lemma CheckFaithful(s: State, i: nat)
    requires i < |s.replicas| && Faithful(s, s.replicas[i]) && Enabled(s, Check(i))
    ensures Faithful(Apply(s, Check(i)), Apply(s, Check(i)).replicas[i])
  {
    var r, q := s.replicas[i], Apply(s, Check(i)).replicas[i];
    if q.k > r.k {
      assert q.files[..q.k] == r.files[..r.k] + [r.files[r.k]];
    }
  }

  /** Faith survives every change that is not the call's own progress. */
  lemma FaithfulKept(s: State, t: State, r: Replica, q: Replica)
    requires Faithful(s, r) && q.files == r.files && q.k == r.k && q.applied == r.applied
    requires q.pc.Opened? || q.pc.Executed? || q.pc.Inserted? ==> q.k < |q.files|
    requires q.pc == Returned(true) ==> q.k == |q.files|
    requires s.recorded <= t.recorded && s.executed <= t.executed
    ensures Faithful(t, q)
  {
  }

  lemma StepGrows(s: State, e: Event)
    ensures s.recorded <= Step(s, e).recorded && s.executed <= Step(s, e).executed
  {
  }

  lemma FaithfulStep(s: State, e: Event, i: nat)
    requires AllFaithful(s) && i < |s.replicas|
    ensures i < |Step(s, e).replicas| && Faithful(Step(s, e), Step(s, e).replicas[i])
  {
    assert Faithful(s, s.replicas[i]);
    StepGrows(s, e);
    if Enabled(s, e) && e == Commit(i) {
      CommitFaithful(s, i);
    } else if Enabled(s, e) && e == Check(i) {
      CheckFaithful(s, i);
    } else if !(Enabled(s, e) && e.Call? && e.i == i) {
      FaithfulKept(s, Step(s, e), s.replicas[i], Step(s, e).replicas[i]);
    }
  }

  lemma {:induction false} FaithfulAlways(recorded: set<string>, n: nat, script: seq<Event>)
    ensures AllFaithful(Play(Init(recorded, n), script))
    decreases |script|
  {
    if script != [] {
      var s := Play(Init(recorded, n), script[..|script| - 1]);
      FaithfulAlways(recorded, n, script[..|script| - 1]);
      var t := Step(s, script[|script| - 1]);
      forall i | 0 <= i < |t.replicas|
        ensures Faithful(t, t.replicas[i])
      {
        FaithfulStep(s, script[|script| - 1], i);
      }
    }
  }

  /**
   A call that returned no error leaves every file of its directory recorded; what it reports is committed, in name
   order.
   */
  lemma ErrorFreeApplyRecordsAll(recorded: set<string>, n: nat, script: seq<Event>, i: nat)
    requires i < n
    ensures var s := Play(Init(recorded, n), script);
            && i < |s.replicas|
            && (s.replicas[i].pc == Returned(true) ==> forall f :: f in s.replicas[i].files ==> f in s.recorded)
            && Ascending(s.replicas[i].applied)
            && (forall f :: f in s.replicas[i].applied ==> f in s.executed && f in s.replicas[i].files)
  {
    FaithfulAlways(recorded, n, script);
    InitialKept(Init(recorded, n), script);
    var s := Play(Init(recorded, n), script);
    assert Faithful(s, s.replicas[i]);
  }

  lemma {:induction false} RecordedStays(s: State, script: seq<Event>)
    ensures s.recorded <= Play(s, script).recorded && s.executed <= Play(s, script).executed
    decreases |script|
  {
    if script != [] {
      RecordedStays(s, script[..|script| - 1]);
    }
  }

  // --- One directory ------------------------------------------------------------------

  ghost predicate CallsUse(script: seq<Event>, files: seq<string>) {
    forall x :: 0 <= x < |script| && script[x].Call? ==> script[x].files == files
  }

  /** `f` is one of the files, and everything before it is recorded. */
  ghost predicate ReachedInOrder(s: State, files: seq<string>, f: string) {
    exists k :: 0 <= k < |files| && files[k] == f && forall m :: 0 <= m < k ==> files[m] in s.recorded
  }

  ghost predicate InNameOrder(s: State, files: seq<string>) {
    && (forall i :: 0 <= i < |s.replicas| ==> s.replicas[i].files == files || s.replicas[i].files == [])
    && (forall f :: f in s.limbo || f in s.executed ==> ReachedInOrder(s, files, f))
    && Ascending(s.executed)
  }

  lemma NextInOrder(s: State, files: seq<string>, f: string)
    requires InNameOrder(s, files) && Once(s) && Ascending(files)
    requires f !in s.recorded && ReachedInOrder(s, files, f)
    ensures Ascending(s.executed + [f])
  {
    var k :| 0 <= k < |files| && files[k] == f && forall m :: 0 <= m < k ==> files[m] in s.recorded;
    forall x | 0 <= x < |s.executed|
      ensures Before(s.executed[x], f)
    {
      var g := s.executed[x];
      assert ReachedInOrder(s, files, g);
      var l :| 0 <= l < |files| && files[l] == g && forall m :: 0 <= m < l ==> files[m] in s.recorded;
      assert g in Names(s.executed);
      assert l != k && !(k < l);
    }
  }

  /** A file that is checked for, or whose transaction is open, has everything before it recorded. */
  lemma OnFileInOrder(s: State, files: seq<string>, i: nat)
    requires InNameOrder(s, files) && AllFaithful(s) && i < |s.replicas| && OnFile(s.replicas[i])
    ensures ReachedInOrder(s, files, s.replicas[i].files[s.replicas[i].k])
  {
    var r := s.replicas[i];
    assert Faithful(s, r);
    assert files[r.k] == r.files[r.k];
  }

  lemma StillReached(s: State, t: State, files: seq<string>, f: string)
    requires ReachedInOrder(s, files, f) && s.recorded <= t.recorded
    ensures ReachedInOrder(t, files, f)
  {
    var k :| 0 <= k < |files| && files[k] == f && forall m :: 0 <= m < k ==> files[m] in s.recorded;
  }

  /** The one file that a step moves into a dangling transaction or into the database, if any. */
  ghost predicate Moves(s: State, t: State, f: string) {
    || (f in t.limbo && f !in s.limbo)
    || (f in t.executed && f !in s.executed)
  }

  lemma MovedInOrder(s: State, e: Event, files: seq<string>, f: string)
    requires InNameOrder(s, files) && AllFaithful(s) && Moves(s, Step(s, e), f)
    ensures ReachedInOrder(s, files, f)
  {
    if e.Settle? {
      assert f == e.file;
    } else {
      assert f == s.replicas[e.i].files[s.replicas[e.i].k];
      OnFileInOrder(s, files, e.i);
    }
  }

  lemma ExecutedInOrder(s: State, e: Event, files: seq<string>)
    requires InNameOrder(s, files) && AllFaithful(s) && Once(s) && KeysHeldOnce(s) && Ascending(files)
    ensures Ascending(Step(s, e).executed)
  {
    if Enabled(s, e) {
      if e.Commit? {
        assert Inserting(s, e.i, s.replicas[e.i].files[s.replicas[e.i].k]);
        OnFileInOrder(s, files, e.i);
        NextInOrder(s, files, s.replicas[e.i].files[s.replicas[e.i].k]);
      } else if e.Settle? && e.committed {
        NextInOrder(s, files, e.file);
      }
    }
  }

  lemma NameOrderStep(s: State, e: Event, files: seq<string>)
    requires InNameOrder(s, files) && AllFaithful(s) && Once(s) && KeysHeldOnce(s) && Ascending(files)
    requires e.Call? ==> e.files == files
    ensures InNameOrder(Step(s, e), files)
  {
    var t := Step(s, e);
    StepGrows(s, e);
    ExecutedInOrder(s, e, files);
    forall f | f in t.limbo || f in t.executed
      ensures ReachedInOrder(t, files, f)
    {
      if Moves(s, t, f) {
        MovedInOrder(s, e, files, f);
      }
      StillReached(s, t, files, f);
    }
  }

  lemma {:induction false} NameOrderAlways(recorded: set<string>, n: nat, script: seq<Event>, files: seq<string>)
    requires Ascending(files) && CallsUse(script, files)
    ensures InNameOrder(Play(Init(recorded, n), script), files)
    decreases |script|
  {
    if script != [] {
      var before := script[..|script| - 1];
      NameOrderAlways(recorded, n, before, files);
      OnceAlways(recorded, n, before);
      FaithfulAlways(recorded, n, before);
      NameOrderStep(Play(Init(recorded, n), before), script[|script| - 1], files);
    }
  }

  /**
   When all replicas have one directory, its files commit in name order over the whole run:
   at any moment, every file before a committed one is recorded.
   */
  lemma CommitsInNameOrder(recorded: set<string>, n: nat, script: seq<Event>, files: seq<string>)
    requires Ascending(files) && CallsUse(script, files)
    ensures var s := Play(Init(recorded, n), script);
            && Ascending(s.executed)
            && forall k, m :: 0 <= m < k < |files| && files[k] in s.executed ==> files[m] in s.recorded
  {
    NameOrderAlways(recorded, n, script, files);
    var s := Play(Init(recorded, n), script);
    forall k, m | 0 <= m < k < |files| && files[k] in s.executed
      ensures files[m] in s.recorded
    {
      assert ReachedInOrder(s, files, files[k]);
      var l :| 0 <= l < |files| && files[l] == files[k] && forall m :: 0 <= m < l ==> files[m] in s.recorded;
      if l != k {
        BeforeTotal(files[l], files[k]);
      }
    }
  }

  // --- What the lock adds -------------------------------------------------------------

  /** No lock is lost, nobody dies, and every commit is answered. */
  ghost predicate Calm(script: seq<Event>) {
    forall x :: 0 <= x < |script| ==> !script[x].LoseLock? && !script[x].LoseAnswer? && !script[x].Crash?
  }

  predicate Working(r: Replica) {
    r.pc.Checking? || r.pc.Opened? || r.pc.Executed? || r.pc.Inserted?
  }

  /** Only the lock's holder works, and the file it has opened is not recorded. */
  ghost predicate Serial(s: State) {
    && s.limbo == {}
    && (forall i :: 0 <= i < |s.replicas| && Working(s.replicas[i]) ==> s.lock == Some(i))
    && (forall i :: 0 <= i < |s.replicas| && OnFile(s.replicas[i]) ==>
        s.replicas[i].files[s.replicas[i].k] !in s.recorded)
  }

  lemma SerialStep(s: State, e: Event)
    requires Serial(s) && !e.LoseLock? && !e.LoseAnswer? && !e.Crash?
    ensures Serial(Step(s, e))
  {
    var t := Step(s, e);
    if Enabled(s, e) && !e.Settle? {
      assert forall j :: 0 <= j < |s.replicas| && j != e.i ==> t.replicas[j] == s.replicas[j];
      if e.Commit? {
        assert Working(s.replicas[e.i]);
        assert forall j :: 0 <= j < |s.replicas| && j != e.i ==> !Working(s.replicas[j]);
        assert forall j :: 0 <= j < |t.replicas| ==> !OnFile(t.replicas[j]);
      }
    }
  }

  lemma {:induction false} SerialAlways(recorded: set<string>, n: nat, script: seq<Event>)
    requires Calm(script)
    ensures Serial(Play(Init(recorded, n), script))
    decreases |script|
  {
    if script != [] {
      SerialAlways(recorded, n, script[..|script| - 1]);
      SerialStep(Play(Init(recorded, n), script[..|script| - 1]), script[|script| - 1]);
    }
  }

  /** In a calm run, one replica works at a time, and no insertion waits for another one or fails on the primary key. */
  lemma LockPreventsConflicts(recorded: set<string>, n: nat, script: seq<Event>, i: nat, j: nat)
    requires Calm(script) && i < n && j < n
    ensures var s := Play(Init(recorded, n), script);
            && |s.replicas| == n
            && (i != j ==> !(Working(s.replicas[i]) && Working(s.replicas[j])))
            && (s.replicas[i].pc.Executed? && OnFile(s.replicas[i]) ==>
                  var f := s.replicas[i].files[s.replicas[i].k];
                  f !in s.recorded && !Blocked(s, i, f))
  {
    SerialAlways(recorded, n, script);
    InitialKept(Init(recorded, n), script);
    var s := Play(Init(recorded, n), script);
    if s.replicas[i].pc.Executed? && OnFile(s.replicas[i]) {
      assert Working(s.replicas[i]);
      forall k | 0 <= k < |s.replicas| && k != i
        ensures !Inserting(s, k, s.replicas[i].files[s.replicas[i].k])
      {
        assert !Working(s.replicas[k]);
      }
    }
  }
}
