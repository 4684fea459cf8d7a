/** Instants are nanoseconds; periods are given by the instant at which the current one ends. */
module Clock {
  const SEC: int := 1_000_000_000
  const HOUR: int := 3_600_000_000_000
  const DAY: int := 86_400_000_000_000

  function DayOf(t: int): int {
    t / DAY
  }

  /** The first instant of the next UTC day. */
  function NextDay(t: int): int {
    (DayOf(t) + 1) * DAY
  }

  lemma DayWithin(day: int, x: int)
    requires 0 <= x < DAY
    ensures DayOf(day * DAY + x) == day
  {
  }

  /**
   `next` maps every instant to the end of its period. Calendar months are taken
   as any such function, since nothing depends on how long they are.
   */
  ghost predicate IsPeriod(next: int -> int) {
    forall t :: t < next(t) && forall u :: t <= u < next(t) ==> next(u) == next(t)
  }

  /** A period that no day straddles. */
  ghost predicate IsMonth(next: int -> int) {
    IsPeriod(next) && forall t :: NextDay(t) <= next(t)
  }

  /** 23:59:59 of the last day of the period: one second before it ends. */
  function EndOf(next: int -> int, t: int): int {
    next(t) - SEC
  }

  /** The last second of a period, in which its end has passed already. */
  predicate InFinalSecond(next: int -> int, t: int) {
    t >= EndOf(next, t)
  }

  lemma SamePeriod(next: int -> int, t: int, u: int)
    requires IsPeriod(next) && t <= u < next(t)
    ensures next(u) == next(t)
  {
  }

  /** Two deadlines still ahead, computed from earlier instants, end the same period. */
  lemma SameDeadline(next: int -> int, t: int, u: int, now: int)
    requires IsPeriod(next)
    requires t <= now < EndOf(next, t) && u <= now < EndOf(next, u)
    ensures EndOf(next, t) == EndOf(next, u)
  {
    SamePeriod(next, t, now);
    SamePeriod(next, u, now);
  }

  lemma DaysArePeriods()
    ensures IsPeriod(NextDay) && IsMonth(NextDay)
  {
    forall t
      ensures t < NextDay(t)
      ensures forall u :: t <= u < NextDay(t) ==> NextDay(u) == NextDay(t)
    {
    }
  }
}
