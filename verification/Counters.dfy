/**
 The spend and token counters kept in Redis: what they hold after any history of
 events, and when they agree with the sums that `RebuildCounters` takes from
 Postgres. Amounts are micro-dollars or tokens.
 */
module Counters {
  import opened Wrappers
  import opened Clock
  import opened Text

  /** A counter and the instant at which it expires, if any. */
  datatype Entry = Entry(value: int, expiry: Option<int>)

  type Keys = map<RedisKey, Entry>

  predicate Alive(e: Entry, now: int) {
    e.expiry.Some? ==> now < e.expiry.value
  }

  function Lookup(keys: Keys, key: RedisKey): Option<Entry> {
    if key in keys then Some(keys[key]) else None
  }

  /** What GET finds, a missing key counting as 0. */
  function Read(e: Option<Entry>, now: int): int {
    if e.Some? && Alive(e.value, now) then e.value.value else 0
  }

  /** INCRBY, which keeps the expiry, and EXPIREAT if the end is still ahead. */
  function Bump(e: Option<Entry>, amount: int, end: int, now: int): Entry {
    var base := if e.Some? && Alive(e.value, now) then e.value else Entry(0, None);
    Entry(base.value + amount, if end > now then Some(end) else base.expiry)
  }

  // --- One counter ----------------------------------------------------------

  /** An increment of the counter. */
  datatype Rec = Rec(at: int, amount: int)

  function After(h: seq<Rec>, next: int -> int): Option<Entry> {
    if h == [] then None
    else var r := h[|h| - 1]; Some(Bump(After(h[..|h| - 1], next), r.amount, EndOf(next, r.at), r.at))
  }

  ghost predicate History(h: seq<Rec>, now: int) {
    && (forall i :: 0 <= i < |h| ==> h[i].amount > 0 && h[i].at <= now)
    && (forall i, j :: 0 <= i < j < |h| ==> h[i].at <= h[j].at)
  }

  /** A record outside the final second of its period: it sets the expiry. */
  ghost predicate Ordinary(r: Rec, next: int -> int) {
    !InFinalSecond(next, r.at)
  }

  /** No record from the `i`-th on has made the key expire by `t`. */
  ghost predicate Counted(h: seq<Rec>, next: int -> int, i: nat, t: int) {
    forall j :: i <= j < |h| && Ordinary(h[j], next) ==> t < EndOf(next, h[j].at)
  }

  ghost function SumCounted(h: seq<Rec>, next: int -> int, t: int, n: nat): int
    requires n <= |h|
  {
    if n == 0 then 0 else SumCounted(h, next, t, n - 1) + if Counted(h, next, n - 1, t) then h[n - 1].amount else 0
  }

  /** An expiry is the end of the period of some ordinary record. */
  ghost predicate ExpiryBacked(h: seq<Rec>, next: int -> int, x: int) {
    exists j :: 0 <= j < |h| && Ordinary(h[j], next) && EndOf(next, h[j].at) == x
  }

  /** What is counted at the time of the next record, and how that record changes it. */
  lemma CountedSnoc(h: seq<Rec>, r: Rec, next: int -> int, i: nat, t: int)
    requires IsPeriod(next) && History(h + [r], t) && i < |h|
    ensures Counted(h + [r], next, i, t) <==> Counted(h, next, i, r.at) && (Ordinary(r, next) ==> t < EndOf(next, r.at))
  {
    var g := h + [r];
    assert g[|h|] == r;
    if Ordinary(r, next) && t >= EndOf(next, r.at) {
      assert !Counted(g, next, i, t);
    } else {
      forall j | i <= j < |h| && Ordinary(h[j], next)
        ensures t < EndOf(next, h[j].at) <==> r.at < EndOf(next, h[j].at)
      {
        assert g[j] == h[j] && g[j].at <= g[|h|].at;
        if r.at < EndOf(next, h[j].at) {
          SamePeriod(next, h[j].at, r.at);
        }
      }
      assert forall j :: i <= j < |h| ==> g[j] == h[j];
    }
  }

  lemma {:induction false} SumCountedSnoc(h: seq<Rec>, r: Rec, next: int -> int, t: int, n: nat)
    requires IsPeriod(next) && History(h + [r], t) && n <= |h|
    ensures SumCounted(h + [r], next, t, n) ==
            if Ordinary(r, next) && t >= EndOf(next, r.at) then 0 else SumCounted(h, next, r.at, n)
  {
    if n > 0 {
      var g := h + [r];
      SumCountedSnoc(h, r, next, t, n - 1);
      CountedSnoc(h, r, next, n - 1, t);
      assert g[n - 1] == h[n - 1];
      assert SumCounted(g, next, t, n) ==
             SumCounted(g, next, t, n - 1) + if Counted(g, next, n - 1, t) then h[n - 1].amount else 0;
    }
  }

  /** One increment, seen from its own time to any later `t`. */
  lemma ReadBump(e: Option<Entry>, r: Rec, next: int -> int, t: int)
    requires r.at <= t
    requires e.Some? && Alive(e.value, r.at) && e.value.expiry.Some? ==> Ordinary(r, next)
    ensures Read(Some(Bump(e, r.amount, EndOf(next, r.at), r.at)), t) ==
            if Ordinary(r, next) && t >= EndOf(next, r.at) then 0 else Read(e, r.at) + r.amount
  {
  }

  lemma CountedLast(h: seq<Rec>, next: int -> int, t: int)
    requires h != []
    ensures var r := h[|h| - 1]; Counted(h, next, |h| - 1, t) <==> (Ordinary(r, next) ==> t < EndOf(next, r.at))
  {
  }

  /** A key that is alive in the final second of a period has no expiry. */
  lemma ExpiryStillBacked(h: seq<Rec>, r: Rec, next: int -> int)
    requires IsPeriod(next) && History(h, r.at)
    requires After(h, next).Some? && After(h, next).value.expiry.Some? ==>
        ExpiryBacked(h, next, After(h, next).value.expiry.value)
    ensures var e := After(h, next); e.Some? && Alive(e.value, r.at) && e.value.expiry.Some? ==> Ordinary(r, next)
    ensures var e := Bump(After(h, next), r.amount, EndOf(next, r.at), r.at);
            e.expiry.Some? ==> ExpiryBacked(h + [r], next, e.expiry.value)
  {
    var e := After(h, next);
    var g := h + [r];
    if e.Some? && Alive(e.value, r.at) && e.value.expiry.Some? {
      var j :| 0 <= j < |h| && Ordinary(h[j], next) && EndOf(next, h[j].at) == e.value.expiry.value;
      SamePeriod(next, h[j].at, r.at);
      assert g[j] == h[j];
    }
    assert g[|h|] == r;
  }

  ghost predicate LawHolds(h: seq<Rec>, next: int -> int, t: int) {
    && Read(After(h, next), t) == SumCounted(h, next, t, |h|)
    && (After(h, next).Some? && After(h, next).value.expiry.Some? ==>
          ExpiryBacked(h, next, After(h, next).value.expiry.value))
  }

  lemma LawStep(h: seq<Rec>, r: Rec, next: int -> int, t: int)
    requires IsPeriod(next) && History(h + [r], t) && History(h, r.at) && LawHolds(h, next, r.at)
    ensures LawHolds(h + [r], next, t)
  {
    var g := h + [r];
    assert g[..|h|] == h && g[|h|] == r;
    ExpiryStillBacked(h, r, next);
    ReadBump(After(h, next), r, next, t);
    CountedLast(g, next, t);
    SumCountedSnoc(h, r, next, t, |h|);
    assert SumCounted(g, next, t, |g|) ==
           SumCounted(g, next, t, |h|) + if Counted(g, next, |h|, t) then r.amount else 0;
    assert After(g, next) == Some(Bump(After(h, next), r.amount, EndOf(next, r.at), r.at));
  }

  /**
   The exact law of a counter, for every history: it holds the sum of the
   records since the key last expired, and the key expires at 23:59:59 only if
   some record before that second has told it to.
   */
  lemma {:induction false} CounterLaw(h: seq<Rec>, next: int -> int, t: int)
    requires IsPeriod(next) && History(h, t)
    ensures Read(After(h, next), t) == SumCounted(h, next, t, |h|)
    ensures LawHolds(h, next, t)
  {
    if h != [] {
      var front, r := h[..|h| - 1], h[|h| - 1];
      CounterLaw(front, next, r.at);
      assert h == front + [r];
      LawStep(front, r, next, t);
    }
  }

  // --- Agreement with the calendar -------------------------------------------

  /** The sum of the first `n` records that fall into the period of `t`. */
  ghost function PeriodSum(h: seq<Rec>, next: int -> int, t: int, n: nat): int
    requires n <= |h|
  {
    if n == 0 then 0 else PeriodSum(h, next, t, n - 1) + if next(h[n - 1].at) == next(t) then h[n - 1].amount else 0
  }

  /** Every earlier period's record is followed, or is itself, an ordinary record of an earlier period. */
  ghost predicate Flushed(h: seq<Rec>, next: int -> int, t: int) {
    forall i :: 0 <= i < |h| && next(h[i].at) != next(t) ==>
      exists j :: i <= j < |h| && Ordinary(h[j], next) && next(h[j].at) != next(t)
  }

  lemma EarlierPeriod(next: int -> int, u: int, t: int)
    requires IsPeriod(next) && u <= t && next(u) != next(t)
    ensures next(u) <= t
  {
    if t < next(u) {
      SamePeriod(next, u, t);
    }
  }

  /** Some ordinary record falls into the period of `t`. */
  ghost predicate OrdinaryInPeriod(h: seq<Rec>, next: int -> int, t: int) {
    exists j :: 0 <= j < |h| && Ordinary(h[j], next) && next(h[j].at) == next(t)
  }

  /** No record of the current period has made the key expire: its final second has not come, or none sets an expiry. */
  ghost predicate NotYetOver(h: seq<Rec>, next: int -> int, t: int) {
    InFinalSecond(next, t) ==> !OrdinaryInPeriod(h, next, t)
  }

  /** Until the current period's own expiry, a record is still counted exactly if no earlier period's flushed it. */
  lemma CountedIff(h: seq<Rec>, next: int -> int, i: nat, t: int)
    requires IsPeriod(next) && History(h, t) && i < |h| && NotYetOver(h, next, t)
    ensures Counted(h, next, i, t) <==> !exists j :: i <= j < |h| && Ordinary(h[j], next) && next(h[j].at) != next(t)
    ensures next(h[i].at) == next(t) ==> Counted(h, next, i, t)
  {
    forall j | i <= j < |h| && Ordinary(h[j], next)
      ensures t < EndOf(next, h[j].at) <==> next(h[j].at) == next(t)
    {
      if next(h[j].at) != next(t) {
        EarlierPeriod(next, h[j].at, t);
      }
    }
    if next(h[i].at) == next(t) {
      forall j | i <= j < |h|
        ensures next(h[j].at) == next(t)
      {
        assert h[i].at <= h[j].at || i == j;
        SamePeriod(next, h[i].at, h[j].at);
      }
    }
  }

  /** A record of an earlier period that is still counted. */
  ghost predicate Stale(h: seq<Rec>, next: int -> int, i: nat, t: int)
    requires i < |h|
  {
    next(h[i].at) != next(t) && Counted(h, next, i, t)
  }

  ghost function StaleSum(h: seq<Rec>, next: int -> int, t: int, n: nat): int
    requires n <= |h|
  {
    if n == 0 then 0 else StaleSum(h, next, t, n - 1) + if Stale(h, next, n - 1, t) then h[n - 1].amount else 0
  }

  /** A counted record either belongs to the current period or is stale. */
  lemma CountedOrStale(h: seq<Rec>, next: int -> int, i: nat, t: int)
    requires IsPeriod(next) && History(h, t) && i < |h| && NotYetOver(h, next, t)
    ensures Counted(h, next, i, t) <==> next(h[i].at) == next(t) || Stale(h, next, i, t)
  {
    CountedIff(h, next, i, t);
  }

  /** Until the current period's own expiry, what is counted is its sum plus what is stale. */
  lemma {:induction false} CountedSplits(h: seq<Rec>, next: int -> int, t: int, n: nat)
    requires IsPeriod(next) && History(h, t) && n <= |h| && NotYetOver(h, next, t)
    ensures SumCounted(h, next, t, n) == PeriodSum(h, next, t, n) + StaleSum(h, next, t, n)
  {
    if n > 0 {
      CountedSplits(h, next, t, n - 1);
      CountedOrStale(h, next, n - 1, t);
      assert SumCounted(h, next, t, n) ==
             SumCounted(h, next, t, n - 1) + if Counted(h, next, n - 1, t) then h[n - 1].amount else 0;
      assert StaleSum(h, next, t, n) ==
             StaleSum(h, next, t, n - 1) + if Stale(h, next, n - 1, t) then h[n - 1].amount else 0;
    }
  }

  lemma {:induction false} StaleSumIff(h: seq<Rec>, next: int -> int, t: int, n: nat)
    requires n <= |h| && forall i :: 0 <= i < |h| ==> h[i].amount > 0
    ensures StaleSum(h, next, t, n) >= 0
    ensures StaleSum(h, next, t, n) == 0 <==> forall i :: 0 <= i < n ==> !Stale(h, next, i, t)
  {
    if n > 0 {
      StaleSumIff(h, next, t, n - 1);
    }
  }

  /** In the final second of a period, its ordinary records and all before the last of them are gone. */
  lemma {:induction false} FinalSecondForgets(h: seq<Rec>, next: int -> int, t: int, j: nat, n: nat)
    requires IsPeriod(next) && History(h, t) && InFinalSecond(next, t)
    requires j < |h| && Ordinary(h[j], next) && next(h[j].at) == next(t) && n <= |h|
    ensures SumCounted(h, next, t, n) + (if j < n then h[j].amount else 0) <= PeriodSum(h, next, t, n)
  {
    if n > 0 {
      FinalSecondForgets(h, next, t, j, n - 1);
      if n - 1 <= j {
        assert !Counted(h, next, n - 1, t);
      } else {
        assert h[j].at <= h[n - 1].at;
        SamePeriod(next, h[j].at, h[n - 1].at);
      }
    }
  }

  /**
   At every instant, a counter is the sum of its calendar period exactly when no record made in the final second of
   an earlier period is still waiting for an ordinary record to expire it, and when the period's own expiry, a second
   before it ends, has not taken anything. Before that second it is otherwise too high, and then too low.
   */
  lemma CalendarIff(h: seq<Rec>, next: int -> int, t: int)
    requires IsPeriod(next) && History(h, t)
    ensures Read(After(h, next), t) == PeriodSum(h, next, t, |h|) <==>
            Flushed(h, next, t) && (InFinalSecond(next, t) ==> !OrdinaryInPeriod(h, next, t))
    ensures !InFinalSecond(next, t) ==> Read(After(h, next), t) >= PeriodSum(h, next, t, |h|)
    ensures InFinalSecond(next, t) && OrdinaryInPeriod(h, next, t) ==>
              Read(After(h, next), t) < PeriodSum(h, next, t, |h|)
  {
    CounterLaw(h, next, t);
    if NotYetOver(h, next, t) {
      CountedSplits(h, next, t, |h|);
      StaleSumIff(h, next, t, |h|);
      forall i | 0 <= i < |h|
        ensures Stale(h, next, i, t) <==>
                && next(h[i].at) != next(t)
                && !exists j :: i <= j < |h| && Ordinary(h[j], next) && next(h[j].at) != next(t)
      {
        CountedIff(h, next, i, t);
      }
    } else {
      var j :| 0 <= j < |h| && Ordinary(h[j], next) && next(h[j].at) == next(t);
      FinalSecondForgets(h, next, t, j, |h|);
    }
  }

  /** A single record is counted for good, or until its period ends if that sets an expiry. */
  lemma OneRecord(next: int -> int, r: Rec, t: int)
    requires r.at <= t
    ensures Read(After([r], next), t) == if Ordinary(r, next) && t >= EndOf(next, r.at) then 0 else r.amount
    ensures PeriodSum([r], next, t, 1) == if next(r.at) == next(t) then r.amount else 0
  {
    assert [r][..0] == [];
    assert PeriodSum([r], next, t, 0) == 0;
  }

  /** The final second does break the daily counter: a cent spent at 23:59:59.5 is still there at noon. */
  lemma FinalSecondCarriesOver()
    ensures var h := [Rec(NextDay(0) - SEC / 2, 10_000)]; var t := NextDay(0) + 12 * HOUR;
            Read(After(h, NextDay), t) == 10_000 && PeriodSum(h, NextDay, t, 1) == 0
  {
    OneRecord(NextDay, Rec(NextDay(0) - SEC / 2, 10_000), NextDay(0) + 12 * HOUR);
  }

  /** And it breaks it every day: a cent spent at 0:00 is gone at 23:59:59.5. */
  lemma FinalSecondReadsZero()
    ensures var h := [Rec(0, 10_000)]; var t := NextDay(0) - SEC / 2;
            Read(After(h, NextDay), t) == 0 && PeriodSum(h, NextDay, t, 1) == 10_000
  {
    OneRecord(NextDay, Rec(0, 10_000), NextDay(0) - SEC / 2);
  }

  /** The `j`-th record has set an expiry, and this has passed by `t`. */
  ghost predicate Flushes(h: seq<Rec>, next: int -> int, j: nat, t: int)
    requires j < |h|
  {
    Ordinary(h[j], next) && EndOf(next, h[j].at) <= t
  }

  /** The `i`-th record or a later one has made the key expire. */
  ghost predicate FlushedSince(h: seq<Rec>, next: int -> int, i: nat, t: int) {
    exists k: nat :: i <= k < |h| && Flushes(h, next, k, t)
  }

  lemma CountedUnlessFlushed(h: seq<Rec>, next: int -> int, i: nat, t: int)
    ensures Counted(h, next, i, t) <==> !FlushedSince(h, next, i, t)
  {
    forall j: nat | i <= j < |h| && Ordinary(h[j], next)
      ensures t < EndOf(next, h[j].at) <==> !Flushes(h, next, j, t)
    {
    }
  }

  /** What the one counter counts, the other does as well. */
  lemma {:induction false} SumCountedAtMost(h: seq<Rec>, next: int -> int, other: int -> int, t: int, n: nat)
    requires n <= |h| && forall i :: 0 <= i < |h| ==> h[i].amount > 0
    requires forall i: nat :: i < |h| && Counted(h, next, i, t) ==> Counted(h, other, i, t)
    ensures SumCounted(h, next, t, n) <= SumCounted(h, other, t, n)
    ensures forall j: nat :: j < n && Counted(h, other, j, t) && !Counted(h, next, j, t) ==>
              SumCounted(h, next, t, n) < SumCounted(h, other, t, n)
  {
    if n > 0 {
      SumCountedAtMost(h, next, other, t, n - 1);
    }
  }

  /** Every record that has made the month's counter expire is followed by, or is itself, one that did so today's. */
  ghost predicate DayFlushesWithMonth(h: seq<Rec>, month: int -> int, t: int) {
    forall j: nat :: j < |h| && Flushes(h, month, j, t) ==> FlushedSince(h, NextDay, j, t)
  }

  /**
   Today's counter is at most the month's, for every history and at every instant, exactly when each record that has
   made the month's counter expire is followed by, or is itself, one that has made today's expire.
   */
  lemma TodayAtMostMonthIff(h: seq<Rec>, month: int -> int, t: int)
    requires IsMonth(month) && History(h, t)
    ensures Read(After(h, NextDay), t) <= Read(After(h, month), t) <==> DayFlushesWithMonth(h, month, t)
  {
    DaysArePeriods();
    CounterLaw(h, NextDay, t);
    CounterLaw(h, month, t);
    if DayFlushesWithMonth(h, month, t) {
      MonthCountsToday(h, month, t);
      SumCountedAtMost(h, NextDay, month, t, |h|);
    } else {
      var j: nat :| j < |h| && Flushes(h, month, j, t) && !FlushedSince(h, NextDay, j, t);
      TodayCountsMore(h, month, t, j);
      SumCountedAtMost(h, month, NextDay, t, |h|);
    }
  }

  lemma MonthCountsToday(h: seq<Rec>, month: int -> int, t: int)
    requires DayFlushesWithMonth(h, month, t)
    ensures forall i: nat :: i < |h| && Counted(h, NextDay, i, t) ==> Counted(h, month, i, t)
  {
    forall i: nat | i < |h|
      ensures Counted(h, NextDay, i, t) ==> Counted(h, month, i, t)
    {
      CountedUnlessFlushed(h, NextDay, i, t);
      CountedUnlessFlushed(h, month, i, t);
      if FlushedSince(h, month, i, t) {
        var j: nat :| i <= j < |h| && Flushes(h, month, j, t);
        var k: nat :| j <= k < |h| && Flushes(h, NextDay, k, t);
      }
    }
  }

  lemma TodayCountsMore(h: seq<Rec>, month: int -> int, t: int, j: nat)
    requires j < |h| && Flushes(h, month, j, t) && !FlushedSince(h, NextDay, j, t)
    ensures forall i: nat :: i < |h| && Counted(h, month, i, t) ==> Counted(h, NextDay, i, t)
    ensures Counted(h, NextDay, j, t) && !Counted(h, month, j, t)
  {
    forall i: nat | i < |h|
      ensures Counted(h, month, i, t) ==> i > j
      ensures i >= j ==> Counted(h, NextDay, i, t)
    {
      CountedUnlessFlushed(h, NextDay, i, t);
    }
  }

  lemma SameDaySameMonth(month: int -> int, t: int, u: int)
    requires IsMonth(month) && NextDay(t) == NextDay(u)
    ensures month(t) == month(u)
  {
    assert NextDay(t) <= month(t) && NextDay(u) <= month(u);
    if t <= u {
      SamePeriod(month, t, u);
    } else {
      SamePeriod(month, u, t);
    }
  }

  /** A cent spent in the final second of any day but the month's last is still today's when the month is over. */
  lemma TodayAboveMonth(month: int -> int, u: int)
    requires IsMonth(month) && NextDay(u) != month(u)
    ensures var h := [Rec(NextDay(u) - SEC / 2, 10_000)];
            Read(After(h, NextDay), month(u)) == 10_000 && Read(After(h, month), month(u)) == 0
  {
    var r := Rec(NextDay(u) - SEC / 2, 10_000);
    NotLastDay(month, u);
    OneRecord(NextDay, r, month(u));
    OneRecord(month, r, month(u));
  }

  lemma BeforeMidnight(u: int)
    ensures var v := NextDay(u) - SEC / 2; NextDay(v) == NextDay(u) && InFinalSecond(NextDay, v)
    ensures NextDay(NextDay(u)) == NextDay(u) + DAY
  {
    DayWithin(DayOf(u), DAY - SEC / 2);
    DayWithin(DayOf(u) + 1, 0);
  }

  lemma NotLastDay(month: int -> int, u: int)
    requires IsMonth(month) && NextDay(u) != month(u)
    ensures var v := NextDay(u) - SEC / 2;
            month(v) == month(u) && InFinalSecond(NextDay, v) && !InFinalSecond(month, v) && v <= month(u)
  {
    var v, w := NextDay(u) - SEC / 2, NextDay(u);
    BeforeMidnight(u);
    SameDaySameMonth(month, u, v);
    assert u < w < month(u);
    SamePeriod(month, u, w);
    assert NextDay(w) <= month(w);
  }

  /** Without records in final seconds, today's spend never exceeds this month's, at any instant. */
  lemma TodayAtMostMonth(h: seq<Rec>, month: int -> int, t: int)
    requires IsMonth(month) && History(h, t)
    requires forall i :: 0 <= i < |h| ==> Ordinary(h[i], NextDay)
    ensures Read(After(h, NextDay), t) <= Read(After(h, month), t)
  {
    forall j: nat | j < |h| && Flushes(h, month, j, t)
      ensures Flushes(h, NextDay, j, t)
    {
      assert NextDay(h[j].at) <= month(h[j].at);
    }
    TodayAtMostMonthIff(h, month, t);
  }

  // --- The store ------------------------------------------------------------

  /**
   An event; `cost` is absent when the source gives none, and `tokens` is the sum of the four token fields.
   The script runs for metric events: `scripted` says that it did and took effect. `stored` says that the event
   has a row of its own, which a repeated or not yet written one has not.
   */
  datatype Event = Event(email: string, receivedAt: int, occurredAt: int, scripted: bool, stored: bool,
                         cost: Option<int>, tokens: int)

  /** What the event adds to a sum over rows. */
  function RowAmount(e: Event, kind: CounterKind): int {
    if kind.TokensToday? then e.tokens else if e.cost.Some? then e.cost.value else 0
  }

  /** What the script adds to a counter; only positive amounts count. */
  function Amount(e: Event, kind: CounterKind): int {
    if RowAmount(e, kind) > 0 then RowAmount(e, kind) else 0
  }

  function NextFor(kind: CounterKind, month: int -> int): int -> int {
    if kind.CostMonth? then month else NextDay
  }

  function BumpKey(keys: Keys, email: string, kind: CounterKind, amount: int, month: int -> int, now: int): Keys {
    if amount > 0
    then keys[Counter(email, kind) := Bump(Lookup(keys, Counter(email, kind)), amount,
                                           EndOf(NextFor(kind, month), now), now)]
    else keys
  }

  /** The event has a row of the period of `now`. */
  predicate RowCounts(e: Event, email: string, next: int -> int, now: int) {
    e.stored && e.email == email && next(e.occurredAt) == next(now)
  }

  /** The sum of the rows of one engineer whose event occurred in the period of `now`, whatever their source. */
  function SumOccurred(rows: seq<Event>, email: string, kind: CounterKind, next: int -> int, now: int): int {
    if rows == [] then 0
    else
      var e := rows[|rows| - 1];
      SumOccurred(rows[..|rows| - 1], email, kind, next, now) +
      if RowCounts(e, email, next, now) then RowAmount(e, kind) else 0
  }

  /** What goes wrong while rebuilding: the two queries of an engineer, and the setting of a counter. */
  datatype Failures = Failures(today: set<string>, month: set<string>, sets: set<RedisKey>)

  /** SET with the time left as its ttl; without any left, Redis gets no expiry at all. */
  function Reseed(keys: Keys, email: string, kind: CounterKind, sum: int, month: int -> int, now: int,
                  fails: Failures): Keys {
    var key, end := Counter(email, kind), EndOf(NextFor(kind, month), now);
    if sum > 0 && key !in fails.sets then keys[key := Entry(sum, if end > now then Some(end) else None)] else keys
  }

  function Rebuilt(keys: Keys, email: string, rows: seq<Event>, month: int -> int, now: int, fails: Failures): Keys {
    if email in fails.today then keys
    else
      var k1 := Reseed(keys, email, CostToday, SumFor(rows, email, CostToday, month, now), month, now, fails);
      var k2 := Reseed(k1, email, TokensToday, SumFor(rows, email, TokensToday, month, now), month, now, fails);
      if email in fails.month then k2
      else Reseed(k2, email, CostMonth, SumFor(rows, email, CostMonth, month, now), month, now, fails)
  }

  function RebuiltAll(keys: Keys, emails: seq<string>, rows: seq<Event>, month: int -> int, now: int,
                      fails: Failures): Keys {
    if emails == [] then keys
    else
      Rebuilt(RebuiltAll(keys, emails[..|emails| - 1], rows, month, now, fails),
              emails[|emails| - 1], rows, month, now, fails)
  }

  /** The row sum that reseeds a counter. */
  function SumFor(rows: seq<Event>, email: string, kind: CounterKind, month: int -> int, now: int): int {
    SumOccurred(rows, email, kind, NextFor(kind, month), now)
  }

  function Written(keys: Keys, e: Event, month: int -> int): Keys {
    var now := e.receivedAt;
    var k1 := BumpKey(keys, e.email, CostToday, Amount(e, CostToday), month, now);
    var k2 := BumpKey(k1, e.email, CostMonth, Amount(e, CostMonth), month, now);
    BumpKey(k2, e.email, TokensToday, e.tokens, month, now)
  }

  /** `lastOtel` holds when each engineer was last seen. */
  class CounterStore {
    const month: int -> int
    var keys: Keys
    var lastOtel: map<string, int>

    constructor (month: int -> int)
      ensures this.month == month && keys == map[] && lastOtel == map[]
    {
      this.month, this.keys, this.lastOtel := month, map[], map[];
    }

    method Incr(key: RedisKey, amount: int, end: int, now: int)
      modifies this`keys
      ensures keys == old(keys)[key := Bump(Lookup(old(keys), key), amount, end, now)]
    {
      if key !in keys || !Alive(keys[key], now) {
        keys := keys[key := Entry(0, None)];
      }
      keys := keys[key := keys[key].(value := keys[key].value + amount)];
      if end > now {
        keys := keys[key := keys[key].(expiry := Some(end))];
      }
    }

    /** One call of the script, which takes effect as a whole or not at all. */
    method WriteEventRedis(e: Event, fault: Fault) returns (ok: bool)
      modifies this
      ensures ok <==> fault.NoFault?
      ensures keys == if fault.ErrorBefore? then old(keys) else Written(old(keys), e, month)
      ensures lastOtel == if fault.ErrorBefore? then old(lastOtel) else old(lastOtel)[e.email := e.receivedAt]
    {
      ok := fault.NoFault?;
      var now := e.receivedAt;
      var eod, eom := EndOf(NextDay, now), EndOf(month, now);
      var cost := 0;
      if e.cost.Some? && e.cost.value > 0 {
        cost := e.cost.value;
      }
      if !fault.ErrorBefore? {
        if cost > 0 {
          Incr(Counter(e.email, CostToday), cost, eod, now);
          Incr(Counter(e.email, CostMonth), cost, eom, now);
        }
        if e.tokens > 0 {
          Incr(Counter(e.email, TokensToday), e.tokens, eod, now);
        }
        lastOtel := lastOtel[e.email := now];
      }
    }

    method RebuildCounters(emails: seq<string>, rows: seq<Event>, now: int, fails: Failures)
      modifies this`keys
      ensures keys == RebuiltAll(old(keys), emails, rows, month, now, fails)
    {
      for i := 0 to |emails|
        invariant keys == RebuiltAll(old(keys), emails[..i], rows, month, now, fails)
      {
        var id := emails[i];
        assert emails[..i + 1][..i] == emails[..i];
        if id in fails.today {
          continue;
        }
        var costToday := SumOccurred(rows, id, CostToday, NextDay, now);
        var tokensToday := SumOccurred(rows, id, TokensToday, NextDay, now);
        keys := Reseed(keys, id, CostToday, costToday, month, now, fails);
        keys := Reseed(keys, id, TokensToday, tokensToday, month, now, fails);
        if id in fails.month {
          continue;
        }
        var costMonth := SumOccurred(rows, id, CostMonth, month, now);
        keys := Reseed(keys, id, CostMonth, costMonth, month, now, fails);
      }
      assert emails[..|emails|] == emails;
    }
  }

  // --- Agreement with Postgres ------------------------------------------------

  /** The counters after the script has run for the scripted events, in order. */
  ghost function Replay(events: seq<Event>, month: int -> int): Keys {
    if events == [] then map[]
    else
      var e := events[|events| - 1];
      var keys := Replay(events[..|events| - 1], month);
      if e.scripted then Written(keys, e, month) else keys
  }

  /** The event has incremented the counter. */
  predicate Increments(e: Event, email: string, kind: CounterKind) {
    e.scripted && e.email == email && Amount(e, kind) > 0
  }

  /** The increments that the events make to one counter. */
  ghost function HistoryOf(events: seq<Event>, email: string, kind: CounterKind): seq<Rec> {
    if events == [] then []
    else
      var e := events[|events| - 1];
      HistoryOf(events[..|events| - 1], email, kind) +
      if Increments(e, email, kind) then [Rec(e.receivedAt, Amount(e, kind))] else []
  }

  lemma WrittenProjects(keys: Keys, e: Event, month: int -> int, email: string, kind: CounterKind)
    ensures Lookup(Written(keys, e, month), Counter(email, kind)) ==
            if e.email == email && Amount(e, kind) > 0
            then Some(Bump(Lookup(keys, Counter(email, kind)), Amount(e, kind),
                           EndOf(NextFor(kind, month), e.receivedAt), e.receivedAt))
            else Lookup(keys, Counter(email, kind))
  {
  }

  /** The keys of one Redis keyspace do not disturb each other: each follows its own history. */
  lemma {:induction false} ReplayProjects(events: seq<Event>, month: int -> int, email: string, kind: CounterKind)
    ensures Lookup(Replay(events, month), Counter(email, kind)) ==
      After(HistoryOf(events, email, kind), NextFor(kind, month))
  {
    if events != [] {
      var front, e := events[..|events| - 1], events[|events| - 1];
      ReplayProjects(front, month, email, kind);
      WrittenProjects(Replay(front, month), e, month, email, kind);
      var h := HistoryOf(front, email, kind);
      if Increments(e, email, kind) {
        var r := Rec(e.receivedAt, Amount(e, kind));
        assert (h + [r])[..|h|] == h;
      } else {
        assert HistoryOf(events, email, kind) == h;
      }
    }
  }

  /** Events in order of receipt, none later than `now`. */
  ghost predicate Received(events: seq<Event>, now: int) {
    && (forall i :: 0 <= i < |events| ==> events[i].receivedAt <= now)
    && (forall i, j :: 0 <= i < j < |events| ==> events[i].receivedAt <= events[j].receivedAt)
  }

  lemma {:induction false} HistoryOfReceived(events: seq<Event>, email: string, kind: CounterKind, now: int)
    requires Received(events, now)
    ensures History(HistoryOf(events, email, kind), now)
    ensures forall r :: r in HistoryOf(events, email, kind) ==>
              exists i :: 0 <= i < |events| && Increments(events[i], email, kind) && events[i].receivedAt == r.at
  {
    if events != [] {
      var front, e := events[..|events| - 1], events[|events| - 1];
      HistoryOfReceived(front, email, kind, e.receivedAt);
      assert forall i :: 0 <= i < |front| ==> front[i] == events[i];
    }
  }

  /** The event has incremented the counter in the period of `now`. */
  predicate CounterCounts(e: Event, email: string, kind: CounterKind, next: int -> int, now: int) {
    Increments(e, email, kind) && next(e.receivedAt) == next(now)
  }

  function RowsOnlyOf(e: Event, email: string, kind: CounterKind, next: int -> int, now: int): int {
    if RowCounts(e, email, next, now) && !CounterCounts(e, email, kind, next, now) then RowAmount(e, kind) else 0
  }

  /**
   What the row sum holds and the counter has not received in the period: log events, failed scripts, refunds, late
   receipts.
   */
  ghost function RowsOnly(events: seq<Event>, email: string, kind: CounterKind, next: int -> int, now: int): int {
    if events == [] then 0
    else
      RowsOnly(events[..|events| - 1], email, kind, next, now) +
      RowsOnlyOf(events[|events| - 1], email, kind, next, now)
  }

  function CounterOnlyOf(e: Event, email: string, kind: CounterKind, next: int -> int, now: int): int {
    if CounterCounts(e, email, kind, next, now) && !RowCounts(e, email, next, now) then RowAmount(e, kind) else 0
  }

  /** What the counter has received in the period without a row of that period. */
  ghost function CounterOnly(events: seq<Event>, email: string, kind: CounterKind, next: int -> int, now: int): int {
    if events == [] then 0
    else
      CounterOnly(events[..|events| - 1], email, kind, next, now) +
      CounterOnlyOf(events[|events| - 1], email, kind, next, now)
  }

  /** What the counter has received in the period of `now`. */
  ghost function ReceivedSum(events: seq<Event>, email: string, kind: CounterKind, next: int -> int, now: int): int {
    var h := HistoryOf(events, email, kind);
    PeriodSum(h, next, now, |h|)
  }

  /**
   For any events at all, the row sum is what was received in the period, plus what only rows hold, less what only
   counters do.
   */
  lemma {:induction false} PostgresSum(events: seq<Event>, email: string, kind: CounterKind, next: int -> int, now: int)
    ensures SumOccurred(events, email, kind, next, now) ==
            ReceivedSum(events, email, kind, next, now)
            + RowsOnly(events, email, kind, next, now) - CounterOnly(events, email, kind, next, now)
  {
    if events != [] {
      PostgresSum(events[..|events| - 1], email, kind, next, now);
      ReceivedSumStep(events, email, kind, next, now);
    }
  }

  lemma ReceivedSumStep(events: seq<Event>, email: string, kind: CounterKind, next: int -> int, now: int)
    requires events != []
    ensures var front, e := events[..|events| - 1], events[|events| - 1];
            ReceivedSum(events, email, kind, next, now) == ReceivedSum(front, email, kind, next, now)
              + if CounterCounts(e, email, kind, next, now) then RowAmount(e, kind) else 0
  {
    var e, h := events[|events| - 1], HistoryOf(events[..|events| - 1], email, kind);
    if Increments(e, email, kind) {
      PeriodSumSnoc(h, Rec(e.receivedAt, Amount(e, kind)), next, now);
    } else {
      assert HistoryOf(events, email, kind) == h;
    }
  }

  lemma PeriodSumSnoc(h: seq<Rec>, r: Rec, next: int -> int, t: int)
    ensures PeriodSum(h + [r], next, t, |h| + 1) ==
            PeriodSum(h, next, t, |h|) + if next(r.at) == next(t) then r.amount else 0
  {
    PeriodSumPrefix(h, r, next, t, |h|);
  }

  lemma {:induction false} PeriodSumPrefix(h: seq<Rec>, r: Rec, next: int -> int, t: int, n: nat)
    requires n <= |h|
    ensures PeriodSum(h + [r], next, t, n) == PeriodSum(h, next, t, n)
  {
    if n > 0 {
      PeriodSumPrefix(h, r, next, t, n - 1);
    }
  }

  /** No failure keeps the counter from being set. */
  predicate Rebuilds(emails: seq<string>, fails: Failures, email: string, kind: CounterKind) {
    && email in emails && email !in fails.today && (kind.CostMonth? ==> email !in fails.month)
    && Counter(email, kind) !in fails.sets
  }

  /**
   Rebuilding touches the listed engineers' counters only, each on its own, and those alone whose queries and SETs
   succeed.
   */
  lemma {:induction false} RebuiltAllProjects(keys: Keys, emails: seq<string>, rows: seq<Event>, month: int -> int,
                                              now: int, fails: Failures, email: string, kind: CounterKind)
    ensures var key, sum := Counter(email, kind), SumFor(rows, email, kind, month, now);
            var end := EndOf(NextFor(kind, month), now);
            Lookup(RebuiltAll(keys, emails, rows, month, now, fails), key) ==
            if Rebuilds(emails, fails, email, kind) && sum > 0
            then Some(Entry(sum, if end > now then Some(end) else None))
            else Lookup(keys, key)
  {
    if emails != [] {
      var front, last := emails[..|emails| - 1], emails[|emails| - 1];
      assert emails == front + [last];
      RebuiltAllProjects(keys, front, rows, month, now, fails, email, kind);
      RebuiltProjects(RebuiltAll(keys, front, rows, month, now, fails), last, rows, month, now, fails, email, kind);
    }
  }

  lemma RebuiltProjects(keys: Keys, id: string, rows: seq<Event>, month: int -> int, now: int,
                        fails: Failures, email: string, kind: CounterKind)
    ensures var key, sum := Counter(email, kind), SumFor(rows, email, kind, month, now);
            var end := EndOf(NextFor(kind, month), now);
            Lookup(Rebuilt(keys, id, rows, month, now, fails), key) ==
            if Rebuilds([id], fails, email, kind) && sum > 0
            then Some(Entry(sum, if end > now then Some(end) else None))
            else Lookup(keys, key)
  {
  }

  /** Some record falls into the current period. */
  ghost predicate ReceivedAny(h: seq<Rec>, next: int -> int, t: int) {
    exists i :: 0 <= i < |h| && next(h[i].at) == next(t)
  }

  lemma {:induction false} PeriodSumPositive(h: seq<Rec>, next: int -> int, t: int, n: nat)
    requires n <= |h| && forall i :: 0 <= i < |h| ==> h[i].amount > 0
    ensures PeriodSum(h, next, t, n) >= 0
    ensures PeriodSum(h, next, t, n) > 0 <==> exists i :: 0 <= i < n && next(h[i].at) == next(t)
  {
    if n > 0 {
      PeriodSumPositive(h, next, t, n - 1);
    }
  }

  /** A record of the current period, read before its final second, has set the expiry to its end. */
  lemma ReceivedExpiry(h: seq<Rec>, next: int -> int, now: int)
    requires IsPeriod(next) && History(h, now) && !InFinalSecond(next, now) && ReceivedAny(h, next, now)
    ensures After(h, next).Some? && After(h, next).value.expiry == Some(EndOf(next, now))
  {
    var i :| 0 <= i < |h| && next(h[i].at) == next(now);
    var r := h[|h| - 1];
    assert h[i].at <= r.at;
    assert now < next(h[i].at) by {
      assert now < next(now);
    }
    SamePeriod(next, h[i].at, r.at);
    assert Ordinary(r, next);
  }

  /** A living counter expires with the current period if that has a record, and otherwise never. */
  lemma LivingExpiry(h: seq<Rec>, next: int -> int, now: int)
    requires IsPeriod(next) && History(h, now) && !InFinalSecond(next, now)
    requires After(h, next).Some? && Alive(After(h, next).value, now)
    ensures After(h, next).value.expiry == if ReceivedAny(h, next, now) then Some(EndOf(next, now)) else None
  {
    if ReceivedAny(h, next, now) {
      ReceivedExpiry(h, next, now);
    } else {
      CounterLaw(h, next, now);
      forall j | 0 <= j < |h| && Ordinary(h[j], next)
        ensures EndOf(next, h[j].at) <= now
      {
        EarlierPeriod(next, h[j].at, now);
      }
    }
  }

  /** A counter that is alive in the final second has no expiry. */
  lemma FinalSecondExpiry(h: seq<Rec>, next: int -> int, now: int)
    requires IsPeriod(next) && History(h, now) && InFinalSecond(next, now)
    requires After(h, next).Some? && Alive(After(h, next).value, now)
    ensures After(h, next).value.expiry == None
  {
    CounterLaw(h, next, now);
    forall j | 0 <= j < |h|
      ensures EndOf(next, h[j].at) <= now
    {
      if next(h[j].at) != next(now) {
        EarlierPeriod(next, h[j].at, now);
      }
    }
  }

  ghost function Before(events: seq<Event>, month: int -> int, email: string, kind: CounterKind): Option<Entry> {
    Lookup(Replay(events, month), Counter(email, kind))
  }

  ghost function Afterwards(events: seq<Event>, emails: seq<string>, fails: Failures, month: int -> int, now: int,
                            email: string, kind: CounterKind): Option<Entry> {
    Lookup(RebuiltAll(Replay(events, month), emails, events, month, now, fails), Counter(email, kind))
  }

  /** What the counter still holds from earlier periods. */
  ghost function Leftover(events: seq<Event>, email: string, kind: CounterKind, next: int -> int, now: int): int {
    var h := HistoryOf(events, email, kind);
    StaleSum(h, next, now, |h|)
  }

  /**
   What the rebuild finds in the rows: less than what was received by late receipts, more by rows that no counter has.
   */
  ghost function Found(events: seq<Event>, email: string, kind: CounterKind, next: int -> int, now: int): int {
    ReceivedSum(events, email, kind, next, now)
    + RowsOnly(events, email, kind, next, now) - CounterOnly(events, email, kind, next, now)
  }

  lemma RebuiltEntry(events: seq<Event>, emails: seq<string>, fails: Failures, month: int -> int, now: int,
                     email: string, kind: CounterKind)
    ensures var next := NextFor(kind, month); var found := Found(events, email, kind, next, now);
            && Before(events, month, email, kind) == After(HistoryOf(events, email, kind), next)
            && Afterwards(events, emails, fails, month, now, email, kind) ==
               if Rebuilds(emails, fails, email, kind) && found > 0
               then Some(Entry(found, if EndOf(next, now) > now then Some(EndOf(next, now)) else None))
               else Before(events, month, email, kind)
  {
    PostgresSum(events, email, kind, NextFor(kind, month), now);
    ReplayProjects(events, month, email, kind);
    RebuiltAllProjects(Replay(events, month), emails, events, month, now, fails, email, kind);
  }

  lemma NextForIsPeriod(kind: CounterKind, month: int -> int)
    requires IsMonth(month)
    ensures IsPeriod(NextFor(kind, month))
  {
    DaysArePeriods();
  }

  /** What the counter holds. */
  ghost function Held(events: seq<Event>, email: string, kind: CounterKind, next: int -> int, now: int): int {
    var h := HistoryOf(events, email, kind);
    SumCounted(h, next, now, |h|)
  }

  /**
   Rebuilding over persisted events: a positive row sum replaces what the counter holds, and any other row sum
   changes nothing. Before the final second, that is what was received in the period, and what is left over.
   */
  lemma RebuildSets(events: seq<Event>, emails: seq<string>, fails: Failures, month: int -> int, now: int,
                    email: string, kind: CounterKind)
    requires IsMonth(month) && Received(events, now)
    ensures var next := NextFor(kind, month);
            var found, held := Found(events, email, kind, next, now), Held(events, email, kind, next, now);
            && Read(Before(events, month, email, kind), now) == held
            && Read(Afterwards(events, emails, fails, month, now, email, kind), now) ==
               (if Rebuilds(emails, fails, email, kind) && found > 0 then found else held)
            && (!InFinalSecond(next, now) ==>
                  held == ReceivedSum(events, email, kind, next, now) + Leftover(events, email, kind, next, now))
  {
    var next, h := NextFor(kind, month), HistoryOf(events, email, kind);
    NextForIsPeriod(kind, month);
    HistoryOfReceived(events, email, kind, now);
    RebuiltEntry(events, emails, fails, month, now, email, kind);
    CounterLaw(h, next, now);
    if !InFinalSecond(next, now) {
      CountedSplits(h, next, now, |h|);
    }
  }

  /**
   Rebuilding leaves a counter as it is, at every later instant, exactly if it is not rebuilt, or if the rows add up
   to nothing, or if rows and counter balance: before the final second, something was received in the period, and the
   amounts that only rows hold are those that only the counter holds, by late receipts or left over from earlier
   periods. It then is the very same entry, whatever is recorded later.
   */
  lemma RebuildIff(events: seq<Event>, emails: seq<string>, fails: Failures, month: int -> int, now: int,
                   email: string, kind: CounterKind)
    requires IsMonth(month) && Received(events, now)
    ensures Unchanged(events, emails, fails, month, now, email, kind) <==>
            || !Rebuilds(emails, fails, email, kind)
            || Found(events, email, kind, NextFor(kind, month), now) <= 0
            || Balanced(events, email, kind, NextFor(kind, month), now)
    ensures Unchanged(events, emails, fails, month, now, email, kind) <==>
            Afterwards(events, emails, fails, month, now, email, kind) == Before(events, month, email, kind)
  {
    var next, h := NextFor(kind, month), HistoryOf(events, email, kind);
    NextForIsPeriod(kind, month);
    HistoryOfReceived(events, email, kind, now);
    RebuiltEntry(events, emails, fails, month, now, email, kind);
    RebuildSets(events, emails, fails, month, now, email, kind);
    var found := Found(events, email, kind, next, now);
    if Rebuilds(emails, fails, email, kind) && found > 0 {
      ResetIff(h, next, now, found);
    }
  }

  /** The counter reads the same from the rebuild on as it would without. */
  ghost predicate Unchanged(events: seq<Event>, emails: seq<string>, fails: Failures, month: int -> int, now: int,
                            email: string, kind: CounterKind) {
    forall t :: now <= t ==> Read(Afterwards(events, emails, fails, month, now, email, kind), t)
                             == Read(Before(events, month, email, kind), t)
  }

  lemma ReceivedNonNegative(events: seq<Event>, email: string, kind: CounterKind, next: int -> int, now: int)
    requires Received(events, now)
    ensures ReceivedSum(events, email, kind, next, now) >= 0
  {
    var h := HistoryOf(events, email, kind);
    HistoryOfReceived(events, email, kind, now);
    PeriodSumPositive(h, next, now, |h|);
  }

  ghost predicate Balanced(events: seq<Event>, email: string, kind: CounterKind, next: int -> int, now: int) {
    if InFinalSecond(next, now) then Found(events, email, kind, next, now) == Held(events, email, kind, next, now)
    else
      && ReceivedSum(events, email, kind, next, now) > 0
      && RowsOnly(events, email, kind, next, now)
         == CounterOnly(events, email, kind, next, now) + Leftover(events, email, kind, next, now)
  }

  /** A living counter expires as a reset one would, unless all it holds is left over from earlier periods. */
  lemma BalancedExpiry(h: seq<Rec>, next: int -> int, now: int)
    requires IsPeriod(next) && History(h, now) && After(h, next).Some? && Alive(After(h, next).value, now)
    ensures After(h, next).value.expiry == (if EndOf(next, now) > now then Some(EndOf(next, now)) else None) <==>
            InFinalSecond(next, now) || PeriodSum(h, next, now, |h|) > 0
  {
    PeriodSumPositive(h, next, now, |h|);
    if InFinalSecond(next, now) {
      FinalSecondExpiry(h, next, now);
    } else {
      LivingExpiry(h, next, now);
    }
  }

  /** A counter that reads like a reset one at every later instant is the very same entry. */
  lemma SameReads(e: Option<Entry>, sum: int, expiry: Option<int>, now: int)
    requires sum > 0 && (expiry.Some? ==> now < expiry.value)
    ensures (forall t :: now <= t ==> Read(Some(Entry(sum, expiry)), t) == Read(e, t)) <==>
            e == Some(Entry(sum, expiry))
  {
    var reset := Some(Entry(sum, expiry));
    if forall t :: now <= t ==> Read(reset, t) == Read(e, t) {
      assert Read(reset, now) == Read(e, now);
      if expiry.Some? {
        assert Read(reset, expiry.value) == Read(e, expiry.value);
      }
      if e.value.expiry.Some? {
        assert Read(reset, e.value.expiry.value) == Read(e, e.value.expiry.value);
      }
    }
  }

  /** A counter is as a reset one exactly if it holds the sum and, before the final second, received any of it. */
  lemma ResetIff(h: seq<Rec>, next: int -> int, now: int, sum: int)
    requires IsPeriod(next) && History(h, now) && sum > 0
    ensures var e := After(h, next);
            var reset := Some(Entry(sum, if EndOf(next, now) > now then Some(EndOf(next, now)) else None));
            && ((forall t :: now <= t ==> Read(reset, t) == Read(e, t)) <==> e == reset)
            && (e == reset <==> Read(e, now) == sum && (InFinalSecond(next, now) || PeriodSum(h, next, now, |h|) > 0))
  {
    var e := After(h, next);
    var expiry := if EndOf(next, now) > now then Some(EndOf(next, now)) else None;
    SameReads(e, sum, expiry, now);
    if Read(e, now) == sum {
      BalancedExpiry(h, next, now);
    }
  }

  // --- The keys, written out ----------------------------------------------------

  /** The sum of what each event adds. */
  ghost function SumOf(events: seq<Event>, adds: Event -> int): int {
    if events == [] then 0 else SumOf(events[..|events| - 1], adds) + adds(events[|events| - 1])
  }

  /** The day's keys follow their histories by days, and the month's by months. */
  lemma KeysFollow(events: seq<Event>, month: int -> int, email: string)
    ensures var keys := Replay(events, month);
            && Lookup(keys, Counter(email, CostToday)) == After(HistoryOf(events, email, CostToday), NextDay)
            && Lookup(keys, Counter(email, TokensToday)) == After(HistoryOf(events, email, TokensToday), NextDay)
            && Lookup(keys, Counter(email, CostMonth)) == After(HistoryOf(events, email, CostMonth), month)
  {
    ReplayProjects(events, month, email, CostToday);
    ReplayProjects(events, month, email, TokensToday);
    ReplayProjects(events, month, email, CostMonth);
  }

  lemma {:induction false} ReceivedIs(events: seq<Event>, email: string, kind: CounterKind, next: int -> int, now: int,
                                      adds: Event -> int)
    requires forall e :: adds(e) == if CounterCounts(e, email, kind, next, now) then Amount(e, kind) else 0
    ensures ReceivedSum(events, email, kind, next, now) == SumOf(events, adds)
  {
    if events != [] {
      ReceivedIs(events[..|events| - 1], email, kind, next, now, adds);
      ReceivedSumStep(events, email, kind, next, now);
    }
  }

  /** No event was received in the final second of a period. */
  ghost predicate NoneFinal(events: seq<Event>, next: int -> int) {
    forall i :: 0 <= i < |events| ==> events[i].receivedAt < next(events[i].receivedAt) - SEC
  }

  lemma OrdinaryRecords(events: seq<Event>, email: string, kind: CounterKind, next: int -> int, now: int)
    requires Received(events, now) && NoneFinal(events, next)
    ensures var h := HistoryOf(events, email, kind); forall i :: 0 <= i < |h| ==> Ordinary(h[i], next)
  {
    var h := HistoryOf(events, email, kind);
    HistoryOfReceived(events, email, kind, now);
    forall i | 0 <= i < |h|
      ensures Ordinary(h[i], next)
    {
      var j :| 0 <= j < |events| && events[j].receivedAt == h[i].at;
      assert events[j].receivedAt < next(events[j].receivedAt) - SEC;
    }
  }

  /** A counter with ordinary records only is what its period has received, and empty in the final second. */
  lemma OrdinaryReads(events: seq<Event>, email: string, kind: CounterKind, next: int -> int, now: int)
    requires IsPeriod(next) && Received(events, now) && NoneFinal(events, next)
    ensures Read(After(HistoryOf(events, email, kind), next), now) ==
            if now >= next(now) - SEC then 0 else ReceivedSum(events, email, kind, next, now)
  {
    var h := HistoryOf(events, email, kind);
    HistoryOfReceived(events, email, kind, now);
    OrdinaryRecords(events, email, kind, next, now);
    if !InFinalSecond(next, now) {
      CalendarIff(h, next, now);
    } else if h != [] {
      CounterLaw(h, next, now);
      var r := h[|h| - 1];
      if next(r.at) != next(now) {
        EarlierPeriod(next, r.at, now);
      }
      CountsNothing(h, next, now, |h|);
    }
  }

  /** A positive cost of the engineer that the script has received in the period of `now`. */
  ghost function CostIn(email: string, next: int -> int, now: int): Event -> int {
    (e: Event) =>
      if e.scripted && e.email == email && next(e.receivedAt) == next(now) && e.cost.Some? && e.cost.value > 0
      then e.cost.value else 0
  }

  /** A positive sum of tokens, likewise. */
  ghost function TokensIn(email: string, next: int -> int, now: int): Event -> int {
    (e: Event) =>
      if e.scripted && e.email == email && next(e.receivedAt) == next(now) && e.tokens > 0 then e.tokens else 0
  }

  /** The day's cost counter, after events of which none was received in a final second. */
  lemma CostTodayReads(events: seq<Event>, month: int -> int, email: string, now: int)
    requires Received(events, now) && NoneFinal(events, NextDay)
    ensures Read(Lookup(Replay(events, month), Counter(email, CostToday)), now) ==
            if now >= NextDay(now) - SEC then 0 else SumOf(events, CostIn(email, NextDay, now))
  {
    DaysArePeriods();
    KeysFollow(events, month, email);
    OrdinaryReads(events, email, CostToday, NextDay, now);
    ReceivedIs(events, email, CostToday, NextDay, now, CostIn(email, NextDay, now));
  }

  lemma TokensTodayReads(events: seq<Event>, month: int -> int, email: string, now: int)
    requires Received(events, now) && NoneFinal(events, NextDay)
    ensures Read(Lookup(Replay(events, month), Counter(email, TokensToday)), now) ==
            if now >= NextDay(now) - SEC then 0 else SumOf(events, TokensIn(email, NextDay, now))
  {
    DaysArePeriods();
    KeysFollow(events, month, email);
    OrdinaryReads(events, email, TokensToday, NextDay, now);
    ReceivedIs(events, email, TokensToday, NextDay, now, TokensIn(email, NextDay, now));
  }

  lemma CostMonthReads(events: seq<Event>, month: int -> int, email: string, now: int)
    requires IsPeriod(month) && Received(events, now) && NoneFinal(events, month)
    ensures Read(Lookup(Replay(events, month), Counter(email, CostMonth)), now) ==
            if now >= month(now) - SEC then 0 else SumOf(events, CostIn(email, month, now))
  {
    KeysFollow(events, month, email);
    OrdinaryReads(events, email, CostMonth, month, now);
    ReceivedIs(events, email, CostMonth, month, now, CostIn(email, month, now));
  }

  /**
   After any events received in order, none in a final second, the day's counters hold the positive costs and tokens
   received on the day of `now`, and the month's the positive costs received in its month; in the final second of the
   day or month, they are empty.
   */
  lemma KeysRead(events: seq<Event>, month: int -> int, email: string, now: int)
    requires IsMonth(month) && Received(events, now) && NoneFinal(events, NextDay)
    ensures Read(Lookup(Replay(events, month), Counter(email, CostToday)), now) ==
            if now >= NextDay(now) - SEC then 0 else SumOf(events, CostIn(email, NextDay, now))
    ensures Read(Lookup(Replay(events, month), Counter(email, TokensToday)), now) ==
            if now >= NextDay(now) - SEC then 0 else SumOf(events, TokensIn(email, NextDay, now))
    ensures Read(Lookup(Replay(events, month), Counter(email, CostMonth)), now) ==
            if now >= month(now) - SEC then 0 else SumOf(events, CostIn(email, month, now))
  {
    forall i | 0 <= i < |events|
      ensures events[i].receivedAt < month(events[i].receivedAt) - SEC
    {
      assert NextDay(events[i].receivedAt) <= month(events[i].receivedAt);
    }
    CostTodayReads(events, month, email, now);
    TokensTodayReads(events, month, email, now);
    CostMonthReads(events, month, email, now);
  }

  /** The cost of a row of the engineer whose event occurred in the period of `now`. */
  ghost function CostOccurred(email: string, next: int -> int, now: int): Event -> int {
    (e: Event) =>
      if e.stored && e.email == email && next(e.occurredAt) == next(now) && e.cost.Some? then e.cost.value else 0
  }

  ghost function TokensOccurred(email: string, next: int -> int, now: int): Event -> int {
    (e: Event) => if e.stored && e.email == email && next(e.occurredAt) == next(now) then e.tokens else 0
  }

  lemma {:induction false} OccurredIs(rows: seq<Event>, email: string, kind: CounterKind, next: int -> int, now: int,
                                      adds: Event -> int)
    requires forall e :: adds(e) == if RowCounts(e, email, next, now) then RowAmount(e, kind) else 0
    ensures SumOccurred(rows, email, kind, next, now) == SumOf(rows, adds)
  {
    if rows != [] {
      OccurredIs(rows[..|rows| - 1], email, kind, next, now, adds);
    }
  }

  /** What a SET with the time left to `end` leaves under a key. */
  ghost function SetTo(before: Option<Entry>, sum: int, end: int, now: int): Option<Entry> {
    if sum > 0 then Some(Entry(sum, if end > now then Some(end) else None)) else before
  }

  /**
   Rebuilding writes the rows' sums of the day under the day's keys, to last to 23:59:59, and those of the month under
   the month's, to last to its end; unless a query fails (that of the day stops all), or the SET.
   */
  lemma RebuiltKeys(keys: Keys, emails: seq<string>, rows: seq<Event>, month: int -> int, now: int, fails: Failures,
                    email: string)
    ensures var after := RebuiltAll(keys, emails, rows, month, now, fails);
            var cost, tokens, monthly :=
              Counter(email, CostToday), Counter(email, TokensToday), Counter(email, CostMonth);
            && Lookup(after, cost) ==
               (if email in emails && email !in fails.today && cost !in fails.sets
                then SetTo(Lookup(keys, cost), SumOf(rows, CostOccurred(email, NextDay, now)), NextDay(now) - SEC, now)
                else Lookup(keys, cost))
            && Lookup(after, tokens) ==
               (if email in emails && email !in fails.today && tokens !in fails.sets
                then SetTo(Lookup(keys, tokens), SumOf(rows, TokensOccurred(email, NextDay, now)),
                           NextDay(now) - SEC, now)
                else Lookup(keys, tokens))
            && Lookup(after, monthly) ==
               (if email in emails && email !in fails.today && email !in fails.month && monthly !in fails.sets
                then SetTo(Lookup(keys, monthly), SumOf(rows, CostOccurred(email, month, now)), month(now) - SEC, now)
                else Lookup(keys, monthly))
  {
    RebuiltAllProjects(keys, emails, rows, month, now, fails, email, CostToday);
    RebuiltAllProjects(keys, emails, rows, month, now, fails, email, TokensToday);
    RebuiltAllProjects(keys, emails, rows, month, now, fails, email, CostMonth);
    OccurredIs(rows, email, CostToday, NextDay, now, CostOccurred(email, NextDay, now));
    OccurredIs(rows, email, TokensToday, NextDay, now, TokensOccurred(email, NextDay, now));
    OccurredIs(rows, email, CostMonth, month, now, CostOccurred(email, month, now));
  }

  // --- Without late receipts ----------------------------------------------------

  /** The event is stored, and occurs on the day of its receipt, outside its final second, with no negative amount. */
  ghost predicate PromptEvent(e: Event) {
    && NextDay(e.occurredAt) == NextDay(e.receivedAt) && !InFinalSecond(NextDay, e.receivedAt)
    && e.stored && e.tokens >= 0 && (e.cost.Some? ==> e.cost.value >= 0)
  }

  ghost predicate Prompt(events: seq<Event>) {
    forall i :: 0 <= i < |events| ==> PromptEvent(events[i])
  }

  /** A row of the period whose event the script has not run for. */
  ghost predicate Relogs(e: Event, email: string, kind: CounterKind, next: int -> int, now: int) {
    !e.scripted && RowCounts(e, email, next, now) && RowAmount(e, kind) > 0
  }

  lemma PromptCounts(e: Event, email: string, kind: CounterKind, month: int -> int, now: int)
    requires IsMonth(month) && PromptEvent(e)
    ensures var next := NextFor(kind, month);
            && CounterOnlyOf(e, email, kind, next, now) == 0 <= RowsOnlyOf(e, email, kind, next, now)
            && (Relogs(e, email, kind, next, now) <==> RowsOnlyOf(e, email, kind, next, now) != 0)
  {
    SameDaySameMonth(month, e.occurredAt, e.receivedAt);
  }

  lemma {:induction false} RowsOnlyZeroIff(events: seq<Event>, email: string, kind: CounterKind, next: int -> int,
                                           now: int)
    requires forall i :: 0 <= i < |events| ==> RowsOnlyOf(events[i], email, kind, next, now) >= 0
    ensures RowsOnly(events, email, kind, next, now) >= 0
    ensures RowsOnly(events, email, kind, next, now) == 0 <==>
            forall i :: 0 <= i < |events| ==> RowsOnlyOf(events[i], email, kind, next, now) == 0
  {
    if events != [] {
      var front := events[..|events| - 1];
      assert forall i :: 0 <= i < |front| ==> front[i] == events[i];
      RowsOnlyZeroIff(front, email, kind, next, now);
    }
  }

  lemma {:induction false} CounterOnlyZero(events: seq<Event>, email: string, kind: CounterKind, next: int -> int,
                                           now: int)
    requires forall i :: 0 <= i < |events| ==> CounterOnlyOf(events[i], email, kind, next, now) == 0
    ensures CounterOnly(events, email, kind, next, now) == 0
  {
    if events != [] {
      CounterOnlyZero(events[..|events| - 1], email, kind, next, now);
    }
  }

  lemma PromptSums(events: seq<Event>, email: string, kind: CounterKind, month: int -> int, now: int)
    requires IsMonth(month) && Prompt(events)
    ensures var next := NextFor(kind, month);
            && CounterOnly(events, email, kind, next, now) == 0 <= RowsOnly(events, email, kind, next, now)
            && (RowsOnly(events, email, kind, next, now) == 0 <==>
                forall i :: 0 <= i < |events| ==> !Relogs(events[i], email, kind, next, now))
  {
    forall i | 0 <= i < |events|
      ensures var e, next := events[i], NextFor(kind, month);
              && CounterOnlyOf(e, email, kind, next, now) == 0 <= RowsOnlyOf(e, email, kind, next, now)
              && (Relogs(e, email, kind, next, now) <==> RowsOnlyOf(e, email, kind, next, now) != 0)
    {
      PromptCounts(events[i], email, kind, month, now);
    }
    RowsOnlyZeroIff(events, email, kind, NextFor(kind, month), now);
    CounterOnlyZero(events, email, kind, NextFor(kind, month), now);
  }

  lemma PromptLeavesNothing(events: seq<Event>, email: string, kind: CounterKind, month: int -> int, now: int)
    requires IsMonth(month) && Received(events, now) && Prompt(events) && !InFinalSecond(NextFor(kind, month), now)
    ensures Leftover(events, email, kind, NextFor(kind, month), now) == 0
  {
    var next, h := NextFor(kind, month), HistoryOf(events, email, kind);
    NextForIsPeriod(kind, month);
    HistoryOfReceived(events, email, kind, now);
    StaleSumIff(h, next, now, |h|);
    forall i | 0 <= i < |h|
      ensures !Stale(h, next, i, now)
    {
      PromptIsOrdinary(events, email, kind, month, now, h[i]);
      CountedIff(h, next, i, now);
    }
  }

  lemma PromptIsOrdinary(events: seq<Event>, email: string, kind: CounterKind, month: int -> int, now: int, r: Rec)
    requires IsMonth(month) && Received(events, now) && Prompt(events) && r in HistoryOf(events, email, kind)
    ensures Ordinary(r, NextFor(kind, month))
  {
    HistoryOfReceived(events, email, kind, now);
    var j :| 0 <= j < |events| && events[j].receivedAt == r.at;
    assert PromptEvent(events[j]) && NextDay(r.at) <= month(r.at);
  }

  /** In the final second, all that prompt events have put into a counter has expired. */
  lemma PromptHoldsNothing(events: seq<Event>, email: string, kind: CounterKind, month: int -> int, now: int)
    requires IsMonth(month) && Received(events, now) && Prompt(events) && InFinalSecond(NextFor(kind, month), now)
    ensures Held(events, email, kind, NextFor(kind, month), now) == 0
  {
    var next, h := NextFor(kind, month), HistoryOf(events, email, kind);
    NextForIsPeriod(kind, month);
    HistoryOfReceived(events, email, kind, now);
    if h != [] {
      var r := h[|h| - 1];
      PromptIsOrdinary(events, email, kind, month, now, r);
      if next(r.at) != next(now) {
        EarlierPeriod(next, r.at, now);
      }
      CountsNothing(h, next, now, |h|);
    }
  }

  lemma {:induction false} CountsNothing(h: seq<Rec>, next: int -> int, t: int, n: nat)
    requires h != [] && n <= |h| && Flushes(h, next, |h| - 1, t)
    ensures SumCounted(h, next, t, n) == 0
  {
    if n > 0 {
      CountsNothing(h, next, t, n - 1);
    }
  }

  /** A row of the period with an amount. */
  ghost predicate Adds(e: Event, email: string, kind: CounterKind, next: int -> int, now: int) {
    RowCounts(e, email, next, now) && RowAmount(e, kind) > 0
  }

  lemma {:induction false} PromptRowsPositive(events: seq<Event>, email: string, kind: CounterKind, next: int -> int,
                                              now: int)
    requires Prompt(events)
    ensures SumOccurred(events, email, kind, next, now) >= 0
    ensures SumOccurred(events, email, kind, next, now) > 0 <==>
            exists i :: 0 <= i < |events| && Adds(events[i], email, kind, next, now)
  {
    if events != [] {
      var front, e := events[..|events| - 1], events[|events| - 1];
      assert forall i :: 0 <= i < |front| ==> front[i] == events[i];
      assert PromptEvent(e);
      PromptRowsPositive(front, email, kind, next, now);
      if i :| 0 <= i < |front| && Adds(front[i], email, kind, next, now) {
        assert Adds(events[i], email, kind, next, now);
      }
    }
  }

  /**
   Then rebuilding leaves a counter as it is exactly if no unscripted event of the period reports an amount; and in
   the final second, when the counter has expired, only if no row of the period does.
   */
  lemma PromptRebuildIff(events: seq<Event>, emails: seq<string>, fails: Failures, month: int -> int, now: int,
                         email: string, kind: CounterKind)
    requires IsMonth(month) && Received(events, now)
    requires Prompt(events) && Rebuilds(emails, fails, email, kind)
    ensures var next := NextFor(kind, month);
            Unchanged(events, emails, fails, month, now, email, kind) <==>
            forall i :: 0 <= i < |events| ==>
              if InFinalSecond(next, now) then !Adds(events[i], email, kind, next, now)
              else !Relogs(events[i], email, kind, next, now)
  {
    var next := NextFor(kind, month);
    RebuildIff(events, emails, fails, month, now, email, kind);
    if InFinalSecond(next, now) {
      PromptHoldsNothing(events, email, kind, month, now);
      PromptRowsPositive(events, email, kind, next, now);
      PostgresSum(events, email, kind, next, now);
    } else {
      ReceivedNonNegative(events, email, kind, next, now);
      PromptSums(events, email, kind, month, now);
      PromptLeavesNothing(events, email, kind, month, now);
    }
  }

  /** Any amount of the day brings a counter back for good that is rebuilt in the day's final second. */
  lemma FinalSecondRebuild(month: int -> int, t: int)
    ensures var e := Event("a", 0, 0, true, true, Some(1), 0); var now := NextDay(0) - SEC / 2;
            && Read(Before([e], month, "a", CostToday), now) == 0
            && (t >= now ==>
                  Read(Afterwards([e], ["a"], Failures({}, {}, {}), month, now, "a", CostToday), t) == 1)
  {
    var e, now, none := Event("a", 0, 0, true, true, Some(1), 0), NextDay(0) - SEC / 2, Failures({}, {}, {});
    assert [e][..0] == [];
    assert HistoryOf([e], "a", CostToday) == [Rec(0, 1)];
    assert SumOccurred([e], "a", CostToday, NextDay, now) == 1;
    OneRecord(NextDay, Rec(0, 1), now);
    ReplayProjects([e], month, "a", CostToday);
    RebuiltAllProjects(Replay([e], month), ["a"], [e], month, now, none, "a", CostToday);
  }

  function LateAndPrompt(): seq<Event> {
    var t := NextDay(0);
    [Event("a", t, t - HOUR, true, true, Some(2), 0), Event("a", t, t, true, true, Some(1), 0)]
  }

  lemma LateHistory()
    ensures HistoryOf(LateAndPrompt(), "a", CostToday) == [Rec(NextDay(0), 2), Rec(NextDay(0), 1)]
  {
    var events := LateAndPrompt();
    assert events[..1] == [events[0]] && events[..1][..0] == [];
    assert HistoryOf(events[..1], "a", CostToday) == [Rec(NextDay(0), 2)];
  }

  lemma LateRows(month: int -> int)
    ensures SumFor(LateAndPrompt(), "a", CostToday, month, NextDay(0)) == 1
  {
    var events := LateAndPrompt();
    assert events[..1] == [events[0]] && events[..1][..0] == [];
    assert SumOccurred(events[..1], "a", CostToday, NextDay, NextDay(0)) == 0;
  }

  lemma TwoRecords(t: int, x: int, y: int)
    requires !InFinalSecond(NextDay, t)
    ensures Read(After([Rec(t, x), Rec(t, y)], NextDay), t) == x + y
  {
    var h := [Rec(t, x), Rec(t, y)];
    assert h[..1] == [Rec(t, x)] && h[..1][..0] == [];
    assert After(h[..1], NextDay) == Some(Entry(x, Some(EndOf(NextDay, t))));
  }

  /**
   A late receipt is lost: a cost of 1 today and one of 2 that occurred yesterday make 3 before the rebuild, and 1
   after.
   */
  lemma LateReceiptLost(month: int -> int)
    ensures var t := NextDay(0);
            && Read(Before(LateAndPrompt(), month, "a", CostToday), t) == 3
            && Read(Afterwards(LateAndPrompt(), ["a"], Failures({}, {}, {}), month, t, "a", CostToday), t) == 1
  {
    var t, none := NextDay(0), Failures({}, {}, {});
    LateHistory();
    LateRows(month);
    TwoRecords(t, 2, 1);
    ReplayProjects(LateAndPrompt(), month, "a", CostToday);
    RebuiltAllProjects(Replay(LateAndPrompt(), month), ["a"], LateAndPrompt(), month, t, none, "a", CostToday);
  }
}
