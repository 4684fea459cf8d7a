/** The pull request table across syncs and revert marks, and the efficiency snapshot computed from it. */
module PullRequests {
  import opened Wrappers
  import opened Reverts

  /** The columns that every sync overwrites. */
  datatype Data = Data(engineer: string, title: string, state: string, mergedAt: Option<int>, filesChanged: int,
                       files: seq<string>)

  datatype Row = Row(data: Data, reverted: bool, revertedAt: Option<int>)

  type Table = map<PullId, Row>

  /** INSERT ... ON CONFLICT DO UPDATE, which leaves `reverted` and `reverted_at` of an existing row alone. */
  function Upserted(t: Table, id: PullId, row: Row): Table {
    t[id := if id in t then t[id].(data := row.data) else row]
  }

  /** UPDATE ... WHERE reverted = FALSE. */
  function Marked(t: Table, id: PullId, at: int): Table {
    if id in t && !t[id].reverted then t[id := t[id].(reverted := true, revertedAt := Some(at))] else t
  }

  class PrStore {
    var rows: Table

    constructor ()
      ensures rows == map[]
    {
      rows := map[];
    }

    method UpsertGitHubPR(id: PullId, row: Row)
      modifies this
      ensures rows == Upserted(old(rows), id, row)
    {
      if id in rows {
        rows := rows[id := Row(row.data, rows[id].reverted, rows[id].revertedAt)];
      } else {
        rows := rows[id := row];
      }
    }

    method MarkPRReverted(id: PullId, at: int)
      modifies this
      ensures rows == Marked(old(rows), id, at)
    {
      if id in rows && !rows[id].reverted {
        rows := rows[id := Row(rows[id].data, true, Some(at))];
      }
    }
  }

  /** One statement of a collector run: a synced pull request, or a finding written back. */
  datatype Op = Upsert(id: PullId, row: Row) | Mark(id: PullId, at: int)

  function Next(t: Table, op: Op): Table {
    match op
    case Upsert(id, row) => Upserted(t, id, row)
    case Mark(id, at) => Marked(t, id, at)
  }

  function After(t: Table, ops: seq<Op>): Table {
    if ops == [] then t else Next(After(t, ops[..|ops| - 1]), ops[|ops| - 1])
  }

  /** Once reverted, a row stays reverted with the same time, whatever is synced or marked later. */
  lemma {:induction false} RevertedIsSticky(t: Table, ops: seq<Op>, id: PullId)
    requires id in t && t[id].reverted
    ensures id in After(t, ops) && After(t, ops)[id].reverted && After(t, ops)[id].revertedAt == t[id].revertedAt
  {
    if ops != [] {
      RevertedIsSticky(t, ops[..|ops| - 1], id);
    }
  }

  /** The columns of the latest sync of a pull request. */
  ghost function LatestData(ops: seq<Op>, id: PullId): Option<Data> {
    if ops == [] then None
    else
      var op := ops[|ops| - 1];
      if op.Upsert? && op.id == id then Some(op.row.data) else LatestData(ops[..|ops| - 1], id)
  }

  /** The first mark that came after the pull request was first synced. */
  ghost function FirstMark(ops: seq<Op>, id: PullId): Option<int> {
    if ops == [] then None
    else
      var front, op := ops[..|ops| - 1], ops[|ops| - 1];
      if FirstMark(front, id).Some? then FirstMark(front, id)
      else if op.Mark? && op.id == id && LatestData(front, id).Some? then Some(op.at) else None
  }

  /**
   After any collector runs and re-syncs that bring unreverted pull requests, a
   row holds the latest synced columns together with the first mark it received.
   */
  lemma {:induction false} RowAfter(ops: seq<Op>, id: PullId)
    requires forall i :: 0 <= i < |ops| && ops[i].Upsert? ==> !ops[i].row.reverted && ops[i].row.revertedAt.None?
    ensures var t := After(map[], ops);
            && (id in t <==> LatestData(ops, id).Some?)
            && (id in t ==> t[id] == Row(LatestData(ops, id).value, FirstMark(ops, id).Some?, FirstMark(ops, id)))
            && (id !in t ==> FirstMark(ops, id).None?)
  {
    if ops != [] {
      RowAfter(ops[..|ops| - 1], id);
    }
  }

  // --- Snapshots ------------------------------------------------------------

  datatype Snapshot = Snapshot(cost: real, effectiveMerged: int, revertRate: real, dollarsPerPR: real)

  ghost function RevertedCount(rows: seq<Row>): nat {
    if rows == [] then 0 else RevertedCount(rows[..|rows| - 1]) + if rows[|rows| - 1].reverted then 1 else 0
  }

  lemma {:induction false} RevertedPlaces(rows: seq<Row>, reverted: Row -> bool)
    requires forall r :: reverted(r) == r.reverted
    ensures RevertedCount(rows) == |Places(rows, reverted)|
  {
    if rows != [] {
      RevertedPlaces(rows[..|rows| - 1], reverted);
      PlacesSnoc(rows, reverted);
    }
  }

  lemma RevertedCountIs(rows: seq<Row>)
    ensures RevertedCount(rows) == |set i | 0 <= i < |rows| && rows[i].reverted|
  {
    var reverted := (r: Row) => r.reverted;
    RevertedPlaces(rows, reverted);
    assert Places(rows, reverted) == set i | 0 <= i < |rows| && rows[i].reverted;
  }

  /** The snapshot of one engineer and window, from the merged pull requests found for it. */
  method ComputeSnapshot(cost: real, rows: seq<Row>) returns (s: Snapshot)
    ensures s.cost == cost
    ensures 0 <= s.effectiveMerged <= |rows| && s.effectiveMerged == |rows| - RevertedCount(rows)
    ensures 0.0 <= s.revertRate <= 1.0 && s.revertRate * |rows| as real == RevertedCount(rows) as real
    ensures rows == [] ==> s.revertRate == 0.0
    ensures s.effectiveMerged > 0 ==> s.dollarsPerPR * s.effectiveMerged as real == cost
    ensures s.effectiveMerged == 0 ==> s.dollarsPerPR == 0.0
  {
    var merged, reverted := CountMerged(rows);
    var revertRate, dollarsPerPR := 0.0, 0.0;
    var effectiveMerged := merged - reverted;
    if merged > 0 {
      RatioInRange(reverted, merged);
      revertRate := reverted as real / merged as real;
    }
    if effectiveMerged > 0 {
      QuotientTimes(cost, effectiveMerged as real);
      dollarsPerPR := cost / effectiveMerged as real;
    }
    s := Snapshot(cost, effectiveMerged, revertRate, dollarsPerPR);
  }

  method CountMerged(rows: seq<Row>) returns (merged: nat, reverted: nat)
    ensures merged == |rows| && reverted == RevertedCount(rows) <= merged
  {
    merged, reverted := 0, 0;
    for i := 0 to |rows|
      invariant merged == i && reverted == RevertedCount(rows[..i]) <= merged
    {
      assert rows[..i + 1][..i] == rows[..i];
      merged := merged + 1;
      if rows[i].reverted {
        reverted := reverted + 1;
      }
    }
    assert rows[..|rows|] == rows;
  }

  lemma QuotientTimes(x: real, y: real)
    requires y > 0.0
    ensures x / y * y == x
  {
  }

  lemma RatioInRange(i: nat, n: nat)
    requires i <= n && n > 0
    ensures 0.0 <= i as real / n as real <= 1.0
    ensures i as real / n as real * n as real == i as real
  {
    QuotientTimes(i as real, n as real);
    QuotientAgainst(i as real, n as real, 0.0);
    QuotientAgainst(i as real, n as real, 1.0);
  }
}
