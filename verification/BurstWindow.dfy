/**
 The rolling spend window behind burst detection: a sorted set, trimmed at every
 bump and expired when idle, against the plain sum over the window. Scores are
 exact instants, costs are micro-dollars.
 */
module BurstWindow {
  import opened Wrappers
  import opened Text

  datatype Spend = Spend(at: int, cost: nat)

  function MemberOf(s: Spend): string {
    Member(s.at, s.cost)
  }

  lemma MemberOfInjective(p: Spend, q: Spend)
    ensures MemberOf(p) == MemberOf(q) ==> p == q
  {
    if MemberOf(p) == MemberOf(q) {
      MemberInjective(p.at, p.cost, q.at, q.cost);
    }
  }

  /** The total cost of a set of spends. */
  ghost function Total(s: set<Spend>): nat {
    if s == {} then 0 else var p :| p in s; p.cost + Total(s - {p})
  }

  lemma {:induction false} TotalWithout(s: set<Spend>, p: Spend)
    requires p in s
    ensures Total(s) == p.cost + Total(s - {p})
  {
    var q :| q in s && Total(s) == q.cost + Total(s - {q});
    if q != p {
      TotalWithout(s - {q}, p);
      TotalWithout(s - {p}, q);
      assert s - {q} - {p} == s - {p} - {q};
    }
  }

  lemma {:induction false} TotalSubset(a: set<Spend>, b: set<Spend>)
    requires a <= b
    ensures Total(a) <= Total(b)
    decreases |b|
  {
    if b - a == {} {
      assert a == b;
    } else {
      var p := NonEmpty(b - a);
      TotalWithout(b, p);
      TotalSubset(a, b - {p});
    }
  }

  // --- Summing printed members ------------------------------------------------

  /** The cost that follows the last colon of a member, or 0 if it does not parse. */
  function CostIn(m: string): nat {
    if m == [] then 0 else CostFrom(m, |m| - 1)
  }

  function CostFrom(m: string, i: nat): nat
    requires i < |m|
  {
    if m[i] == ':' then (match ParseMicros(m[i + 1..]) case Some(c) => c case None => 0)
    else if i == 0 then 0 else CostFrom(m, i - 1)
  }

  function SumCosts(members: seq<string>): nat {
    if members == [] then 0 else SumCosts(members[..|members| - 1]) + CostIn(members[|members| - 1])
  }

  method SumZMembers(members: seq<string>) returns (sum: nat)
    ensures sum == SumCosts(members)
  {
    sum := 0;
    for k := 0 to |members|
      invariant sum == SumCosts(members[..k])
    {
      assert members[..k + 1][..k] == members[..k];
      var cost := LastPart(members[k]);
      sum := sum + cost;
    }
    assert members[..|members|] == members;
  }

  /** The inner loop, from the end of one member back to its last colon. */
  method LastPart(m: string) returns (cost: nat)
    ensures cost == CostIn(m)
  {
    var i := |m|;
    while i > 0
      invariant 0 <= i <= |m|
      invariant m != [] ==> CostIn(m) == if i == 0 then 0 else CostFrom(m, i - 1)
    {
      i := i - 1;
      if m[i] == ':' {
        var f := ParseMicros(m[i + 1..]);
        return if f.Some? then f.value else 0;
      }
    }
    return 0;
  }

  lemma CostFromStep(m: string, i: nat)
    requires 0 < i < |m| && m[i] != ':'
    ensures CostFrom(m, i) == CostFrom(m, i - 1)
  {
  }

  lemma {:induction false} CostFromSkips(m: string, i: nat, k: nat)
    requires k <= i < |m| && forall j :: k < j <= i ==> m[j] != ':'
    ensures CostFrom(m, i) == CostFrom(m, k)
  {
    if k < i {
      CostFromStep(m, i);
      CostFromSkips(m, i - 1, k);
    }
  }

  lemma CostAfterColon(a: string, b: string)
    requires ':' !in b
    ensures CostIn(a + ":" + b) == match ParseMicros(b) case Some(c) => c case None => 0
  {
    var m, k := a + ":" + b, |a|;
    assert m[k] == ':' && m[k + 1..] == b;
    assert forall j :: k < j < |m| ==> m[j] == b[j - k - 1];
    CostFromSkips(m, |m| - 1, k);
  }

  /** Parsing a printed member gives its cost back. */
  lemma CostInMember(s: Spend)
    ensures CostIn(MemberOf(s)) == s.cost
  {
    PrintMicrosPlain(s.cost);
    CostAfterColon(Itoa(s.at), PrintMicros(s.cost));
    ParsePrintedMicros(s.cost);
  }

  /** The members of a listing, as printed in Redis. */
  function Printed(listed: seq<Spend>): seq<string> {
    seq(|listed|, i requires 0 <= i < |listed| => MemberOf(listed[i]))
  }

  /** Each spend of the set is listed once, in any order. */
  ghost predicate Lists(listed: seq<Spend>, s: set<Spend>) {
    && (forall i, j :: 0 <= i < j < |listed| ==> listed[i] != listed[j])
    && (forall p :: p in s <==> p in listed)
  }

  ghost function ListedCost(listed: seq<Spend>): nat {
    if listed == [] then 0 else ListedCost(listed[..|listed| - 1]) + listed[|listed| - 1].cost
  }

  lemma {:induction false} SumOfPrinted(listed: seq<Spend>)
    ensures SumCosts(Printed(listed)) == ListedCost(listed)
  {
    if listed != [] {
      SumOfPrinted(listed[..|listed| - 1]);
      CostInMember(listed[|listed| - 1]);
      assert Printed(listed)[..|listed| - 1] == Printed(listed[..|listed| - 1]);
    }
  }

  lemma {:induction false} CostOfListed(listed: seq<Spend>, s: set<Spend>)
    requires Lists(listed, s)
    ensures ListedCost(listed) == Total(s)
    decreases |listed|
  {
    if listed == [] {
      assert s == {};
    } else {
      var front, last := listed[..|listed| - 1], listed[|listed| - 1];
      assert listed == front + [last];
      CostOfListed(front, s - {last});
      TotalWithout(s, last);
    }
  }

  /** In whatever order the members are listed, their parsed costs add up to the total. */
  lemma SumOfListed(listed: seq<Spend>, s: set<Spend>)
    requires Lists(listed, s)
    ensures SumCosts(Printed(listed)) == Total(s)
  {
    SumOfPrinted(listed);
    CostOfListed(listed, s);
  }

  lemma ListsSnoc(listed: seq<Spend>, s: set<Spend>, p: Spend)
    requires Lists(listed, s) && p !in s
    ensures Lists(listed + [p], s + {p})
  {
  }

  lemma PrintedSnoc(listed: seq<Spend>, p: Spend)
    ensures Printed(listed + [p]) == Printed(listed) + [MemberOf(p)]
  {
  }

  // --- Bumping ----------------------------------------------------------------

  /** The spends that are kept, and the wall-clock instant at which the whole key expires. */
  datatype Window = Window(kept: set<Spend>, expireAt: int)

  function Alive(w: Window, wall: int): set<Spend> {
    if wall < w.expireAt then w.kept else {}
  }

  function Bumped(w: Window, s: Spend, wall: int, window: int): Window {
    Window((set p | p in Alive(w, wall) + {s} && p.at > s.at - window), wall + 2 * window)
  }

  /** The sorted set holds the printed members of these spends, each with its time as score. */
  ghost predicate Holds(zset: map<string, int>, spends: set<Spend>) {
    && (forall p :: p in spends ==> MemberOf(p) in zset && zset[MemberOf(p)] == p.at)
    && (forall m :: m in zset ==> exists p :: p in spends && MemberOf(p) == m)
  }

  /** Different spends print different members, so that adding one overwrites no other. */
  lemma HoldsAdded(zset: map<string, int>, spends: set<Spend>, s: Spend)
    requires Holds(zset, spends)
    ensures Holds(zset[MemberOf(s) := s.at], spends + {s})
  {
    var after := zset[MemberOf(s) := s.at];
    forall p | p in spends + {s}
      ensures MemberOf(p) in after && after[MemberOf(p)] == p.at
    {
      MemberOfInjective(p, s);
    }
    forall m | m in after
      ensures exists p :: p in spends + {s} && MemberOf(p) == m
    {
      if m in zset {
        var p :| p in spends && MemberOf(p) == m;
        assert p in spends + {s};
      }
    }
  }

  function ScoredAbove(zset: map<string, int>, max: int): map<string, int> {
    map m | m in zset && zset[m] > max :: zset[m]
  }

  ghost function Above(spends: set<Spend>, max: int): set<Spend> {
    set p | p in spends && p.at > max
  }

  lemma HoldsTrimmed(zset: map<string, int>, spends: set<Spend>, max: int)
    requires Holds(zset, spends)
    ensures Holds(ScoredAbove(zset, max), Above(spends, max))
  {
    forall m | m in ScoredAbove(zset, max)
      ensures exists p :: p in Above(spends, max) && MemberOf(p) == m
    {
      var p :| p in spends && MemberOf(p) == m;
      assert p in Above(spends, max);
    }
  }

  /** The one spend that prints a member of the set. */
  lemma SpendOfMember(zset: map<string, int>, spends: set<Spend>, m: string) returns (s: Spend)
    ensures Holds(zset, spends) && m in zset ==>
              && s in spends && MemberOf(s) == m && zset[m] == s.at
              && forall p :: p in spends && MemberOf(p) == m ==> p == s
  {
    s := Spend(0, 0);
    if Holds(zset, spends) && m in zset {
      s :| s in spends && MemberOf(s) == m;
      forall p | p in spends && MemberOf(p) == m
        ensures p == s
      {
        MemberOfInjective(p, s);
      }
    }
  }

  /** The spends in range whose members are not to be visited any more. */
  ghost function Visited(spends: set<Spend>, todo: set<string>, min: int): set<Spend> {
    set p | p in spends && MemberOf(p) !in todo && p.at >= min
  }

  lemma VisitedMember(zset: map<string, int>, spends: set<Spend>, todo: set<string>, m: string, min: int)
    returns (s: Spend)
    ensures Holds(zset, spends) && m in todo && m in zset ==>
              && MemberOf(s) == m && s !in Visited(spends, todo, min)
              && Visited(spends, todo - {m}, min) == Visited(spends, todo, min) + if zset[m] >= min then {s} else {}
  {
    s := SpendOfMember(zset, spends, m);
  }

  /** One engineer's sorted set, mapping members to scores, and the spends whose members it holds. */
  class BurstStore {
    var zset: map<string, int>
    var expireAt: int
    ghost var spends: set<Spend>

    ghost predicate Valid()
      reads this
    {
      Holds(zset, spends)
    }

    ghost function View(): Window
      reads this
    {
      Window(spends, expireAt)
    }

    constructor ()
      ensures Valid() && View() == Window({}, 0)
    {
      zset, expireAt, spends := map[], 0, {};
    }

    /** The key is gone once it has expired. */
    method Evict(wall: int)
      requires Valid()
      modifies this
      ensures Valid() && View() == Window(Alive(old(View()), wall), old(expireAt))
    {
      if wall >= expireAt {
        zset, spends := map[], {};
      }
    }

    /** ZRANGEBYSCORE from `min` on; the order of the result plays no part. */
    method ZRangeByScore(min: int) returns (members: seq<string>, ghost listed: seq<Spend>)
      requires Valid()
      ensures members == Printed(listed) && Lists(listed, set p | p in spends && p.at >= min)
    {
      members, listed := [], [];
      var todo := zset.Keys;
      while todo != {}
        invariant todo <= zset.Keys
        invariant members == Printed(listed) && Lists(listed, Visited(spends, todo, min))
        decreases |todo|
      {
        ghost var _ := NonEmpty(todo);
        var m :| m in todo;
        ghost var s := VisitedMember(zset, spends, todo, m, min);
        if zset[m] >= min {
          ListsSnoc(listed, Visited(spends, todo, min), s);
          PrintedSnoc(listed, s);
          members, listed := members + [m], listed + [s];
        }
        todo := todo - {m};
      }
      assert Visited(spends, todo, min) == set p | p in spends && p.at >= min;
    }

    method SumBurstWindow(at: int, window: int, wall: int) returns (sum: nat)
      requires Valid()
      modifies this
      ensures Valid() && View() == Window(Alive(old(View()), wall), old(expireAt))
      ensures sum == Total(set p | p in View().kept && p.at >= at - window)
    {
      Evict(wall);
      ghost var listed;
      var members;
      members, listed := ZRangeByScore(at - window);
      sum := SumZMembers(members);
      SumOfListed(listed, set p | p in spends && p.at >= at - window);
    }

    method BumpBurstWindow(cost: int, at: int, window: int, wall: int) returns (sum: nat)
      requires Valid()
      modifies this
      ensures Valid()
      ensures cost > 0 ==> View() == Bumped(old(View()), Spend(at, cost), wall, window) && sum == Total(View().kept)
      ensures cost <= 0 ==> View() == Window(Alive(old(View()), wall), old(expireAt))
      ensures cost <= 0 ==> sum == Total(set p | p in View().kept && p.at >= at - window)
    {
      if cost <= 0 {
        sum := SumBurstWindow(at, window, wall);
        return;
      }
      ZAddAndTrim(Spend(at, cost), window, wall);
      ghost var listed;
      var members;
      members, listed := ZRangeByScore(at - window);
      sum := SumZMembers(members);
      assert spends == set p | p in spends && p.at >= at - window;
      SumOfListed(listed, spends);
    }

    method ZAdd(s: Spend)
      requires Valid()
      modifies this
      ensures Valid() && View() == Window(old(spends) + {s}, old(expireAt))
    {
      HoldsAdded(zset, spends, s);
      zset, spends := zset[MemberOf(s) := s.at], spends + {s};
    }

    method ZRemRangeByScore(max: int)
      requires Valid()
      modifies this
      ensures Valid() && View() == Window(Above(old(spends), max), old(expireAt))
    {
      HoldsTrimmed(zset, spends, max);
      zset, spends := ScoredAbove(zset, max), Above(spends, max);
    }

    /** ZADD, ZREMRANGEBYSCORE up to the cutoff, and EXPIRE. */
    method ZAddAndTrim(s: Spend, window: int, wall: int)
      requires Valid()
      modifies this
      ensures Valid() && View() == Bumped(old(View()), s, wall, window)
    {
      Evict(wall);
      ZAdd(s);
      ZRemRangeByScore(s.at - window);
      expireAt := wall + 2 * window;
    }
  }

  // --- Against the plain window sum --------------------------------------------

  /** A paid event: what was spent, and the wall clock when it was handled. */
  datatype Call = Call(s: Spend, wall: int)

  ghost function After(calls: seq<Call>, window: int): Window {
    if calls == [] then Window({}, 0)
    else var c := calls[|calls| - 1]; Bumped(After(calls[..|calls| - 1], window), c.s, c.wall, window)
  }

  ghost function Spends(calls: seq<Call>): set<Spend> {
    set c | c in calls :: c.s
  }

  /** The key has expired when the `j`-th bump comes. */
  ghost predicate Expired(calls: seq<Call>, window: int, j: nat)
    requires 0 < j < |calls|
  {
    calls[j].wall >= calls[j - 1].wall + 2 * window
  }

  /** The key has not expired since the `i`-th bump. */
  ghost predicate AliveSince(calls: seq<Call>, window: int, i: nat) {
    forall j :: i < j < |calls| ==> !Expired(calls, window, j)
  }

  /** Neither the `i`-th bump nor a later one trims its spend. */
  ghost predicate Untrimmed(calls: seq<Call>, window: int, i: nat)
    requires i < |calls|
  {
    forall j :: i <= j < |calls| ==> calls[i].s.at > calls[j].s.at - window
  }

  /** Some bump has added the spend since the key last expired. */
  ghost predicate Fresh(calls: seq<Call>, window: int, p: Spend) {
    exists i :: 0 <= i < |calls| && calls[i].s == p && AliveSince(calls, window, i)
  }

  /** Some bump has added the spend, and it was neither trimmed since nor did the key expire. */
  ghost predicate Survives(calls: seq<Call>, window: int, p: Spend) {
    exists i :: 0 <= i < |calls| && calls[i].s == p && AliveSince(calls, window, i) && Untrimmed(calls, window, i)
  }

  lemma SpendAt(calls: seq<Call>, p: Spend) returns (i: nat)
    requires p in Spends(calls)
    ensures i < |calls| && calls[i].s == p
  {
    var d :| d in calls && d.s == p;
    i :| 0 <= i < |calls| && calls[i] == d;
  }

  lemma SpendOf(calls: seq<Call>, i: nat)
    requires i < |calls|
    ensures calls[i].s in Spends(calls)
  {
    assert calls[i] in calls;
  }

  /** One more bump, seen from the `i`-th. */
  lemma AliveSinceSnoc(front: seq<Call>, c: Call, window: int, i: nat)
    requires i < |front|
    ensures AliveSince(front + [c], window, i) <==>
            AliveSince(front, window, i) && c.wall < front[|front| - 1].wall + 2 * window
    ensures Untrimmed(front + [c], window, i) <==> Untrimmed(front, window, i) && front[i].s.at > c.s.at - window
  {
    var calls := front + [c];
    assert calls[|front|] == c && calls[|front| - 1] == front[|front| - 1];
    assert forall j :: 0 <= j < |front| ==> calls[j] == front[j];
    assert Expired(calls, window, |front|) <==> c.wall >= front[|front| - 1].wall + 2 * window;
    forall j | i < j < |front|
      ensures Expired(calls, window, j) == Expired(front, window, j)
    {
    }
  }

  lemma SurvivesSnoc(front: seq<Call>, c: Call, window: int, p: Spend)
    ensures Survives(front + [c], window, p) <==>
            || (p == c.s && window > 0)
            || (front != [] && Survives(front, window, p) && c.wall < front[|front| - 1].wall + 2 * window
                && p.at > c.s.at - window)
  {
    var calls := front + [c];
    assert calls[|front|] == c;
    if Survives(calls, window, p) {
      var i :| 0 <= i < |calls| && calls[i].s == p && AliveSince(calls, window, i) && Untrimmed(calls, window, i);
      if i < |front| {
        AliveSinceSnoc(front, c, window, i);
      }
    }
    if p == c.s && window > 0 {
      assert AliveSince(calls, window, |front|) && Untrimmed(calls, window, |front|);
    }
    if front != [] && Survives(front, window, p) && c.wall < front[|front| - 1].wall + 2 * window
       && p.at > c.s.at - window {
      var i :| 0 <= i < |front| && front[i].s == p && AliveSince(front, window, i) && Untrimmed(front, window, i);
      AliveSinceSnoc(front, c, window, i);
      assert calls[i] == front[i];
    }
  }

  /**
   The exact law of the window, for every history and whatever the clocks do: a spend is kept if and only if some
   bump has added it since the key last expired, and neither this bump nor a later one trimmed it.
   */
  lemma {:induction false} WindowLaw(calls: seq<Call>, window: int)
    ensures forall p :: p in After(calls, window).kept <==> Survives(calls, window, p)
  {
    if calls != [] {
      var front, c := calls[..|calls| - 1], calls[|calls| - 1];
      assert calls == front + [c];
      WindowLaw(front, window);
      forall p
        ensures p in After(calls, window).kept <==> Survives(calls, window, p)
      {
        SurvivesSnoc(front, c, window, p);
      }
    }
  }

  /** The spends of the window that ends at `at`. */
  ghost function InWindow(calls: seq<Call>, at: int, window: int): set<Spend> {
    set p | p in Spends(calls) && at - window < p.at <= at
  }

  /** All spends since the window that ends at `at` began, also later ones. */
  ghost function Since(calls: seq<Call>, at: int, window: int): set<Spend> {
    set p | p in Spends(calls) && p.at > at - window
  }

  /** Whatever the clocks do and in whatever order spends come, a bump leaves nothing from before its window. */
  lemma KeptAreRecent(calls: seq<Call>, window: int)
    ensures After(calls, window).kept <= Spends(calls)
    ensures calls != [] ==> After(calls, window).kept <= Since(calls, calls[|calls| - 1].s.at, window)
  {
    WindowLaw(calls, window);
    forall p | p in After(calls, window).kept
      ensures p in Since(calls, calls[|calls| - 1].s.at, window)
    {
      var i :| 0 <= i < |calls| && calls[i].s == p && AliveSince(calls, window, i) && Untrimmed(calls, window, i);
      SpendOf(calls, i);
    }
  }

  ghost predicate LatestIsLast(calls: seq<Call>) {
    calls != [] && forall i :: 0 <= i < |calls| ==> calls[i].s.at <= calls[|calls| - 1].s.at
  }

  /** No spend of the last bump's window was in the key when it last expired, or else it came again since. */
  ghost predicate NoneForgotten(calls: seq<Call>, window: int)
    requires calls != []
  {
    forall p :: p in InWindow(calls, calls[|calls| - 1].s.at, window) ==> Fresh(calls, window, p)
  }

  /**
   A bump that carries the latest event time so far leaves exactly the distinct spends of its window, in whatever
   order and however late or often the earlier ones arrived, if and only if none of these has expired since it was
   last added. What it returns is their total (`BumpBurstWindow`).
   */
  lemma BurstExactIff(calls: seq<Call>, window: int)
    requires LatestIsLast(calls)
    ensures After(calls, window).kept == InWindow(calls, calls[|calls| - 1].s.at, window) <==>
            NoneForgotten(calls, window)
  {
    var at := calls[|calls| - 1].s.at;
    WindowLaw(calls, window);
    KeptAreRecent(calls, window);
    forall p | p in InWindow(calls, at, window)
      ensures p in After(calls, window).kept <==> Fresh(calls, window, p)
    {
      if Fresh(calls, window, p) {
        var i :| 0 <= i < |calls| && calls[i].s == p && AliveSince(calls, window, i);
        assert Untrimmed(calls, window, i);
      }
    }
    forall p | p in After(calls, window).kept
      ensures p in InWindow(calls, at, window)
    {
      var i := SpendAt(calls, p);
    }
  }

  // --- When the clocks forget nothing -------------------------------------------

  /** Wall time does not run backwards, and no event time is more than `early` ahead of it. */
  ghost predicate EarlyBy(calls: seq<Call>, early: int) {
    && (forall i :: 0 <= i < |calls| ==> calls[i].s.at - calls[i].wall <= early)
    && (forall i, j :: 0 <= i < j < |calls| ==> calls[i].wall <= calls[j].wall)
  }

  /** If the key has expired, everything in it was older than any window that ends less than `late` before. */
  lemma IdleForgetsNothing(calls: seq<Call>, window: int, early: int, late: int, latest: int, i: nat, j: nat)
    requires EarlyBy(calls, early) && early + late <= window
    requires i < j < |calls| && Expired(calls, window, j) && calls[j].wall - late <= latest
    ensures calls[i].s.at <= latest - window
  {
    assert calls[i].wall <= calls[j - 1].wall;
  }

  /**
   Nothing is invented, and nothing is lost to trimming or expiry that is younger than the window seen from the
   latest event so far, if no event is too early and the latest one is not too late. How late others come is no
   matter.
   */
  lemma KeepsWindow(calls: seq<Call>, window: int, early: int, late: int, latest: int)
    requires EarlyBy(calls, early) && early + late <= window
    requires forall i :: 0 <= i < |calls| ==> calls[i].s.at <= latest && calls[i].wall - late <= latest
    ensures After(calls, window).kept <= Spends(calls)
    ensures forall p :: p in Spends(calls) && p.at > latest - window ==> p in After(calls, window).kept
  {
    KeptAreRecent(calls, window);
    WindowLaw(calls, window);
    forall p | p in Spends(calls) && p.at > latest - window
      ensures Survives(calls, window, p)
    {
      var i := SpendAt(calls, p);
      forall j | i < j < |calls|
        ensures !Expired(calls, window, j)
      {
        if Expired(calls, window, j) {
          IdleForgetsNothing(calls, window, early, late, latest, i, j);
        }
      }
      assert AliveSince(calls, window, i) && Untrimmed(calls, window, i);
    }
  }

  /** The last bump is at most so late, all are at most so early, and the last has the latest event time so far. */
  ghost predicate Skewed(calls: seq<Call>, early: int, late: int) {
    LatestIsLast(calls) && EarlyBy(calls, early) && calls[|calls| - 1].wall - calls[|calls| - 1].s.at <= late
  }

  /** If these bounds fit into one window, the last bump is exact, however late all the earlier ones were. */
  lemma BurstExact(calls: seq<Call>, window: int, early: int, late: int)
    requires Skewed(calls, early, late) && early + late <= window
    ensures After(calls, window).kept == InWindow(calls, calls[|calls| - 1].s.at, window)
    ensures NoneForgotten(calls, window)
  {
    var c := calls[|calls| - 1];
    KeepsWindow(calls, window, early, late, c.s.at);
    KeptAreRecent(calls, window);
    forall p | p in Spends(calls)
      ensures p.at <= c.s.at
    {
      var i := SpendAt(calls, p);
    }
    BurstExactIff(calls, window);
  }

  /** The bounds on the clocks are sharp: if they add up to more than a window, a spend that still counts can expire. */
  lemma SkewBoundSharp(window: int, early: int, late: int)
    requires window > 0
    ensures (forall calls: seq<Call> :: Skewed(calls, early, late) ==>
               After(calls, window).kept == InWindow(calls, calls[|calls| - 1].s.at, window))
            <==> early + late <= window
  {
    if early + late <= window {
      forall calls: seq<Call> | Skewed(calls, early, late)
        ensures After(calls, window).kept == InWindow(calls, calls[|calls| - 1].s.at, window)
      {
        BurstExact(calls, window, early, late);
      }
    } else {
      var at := if early + late <= 2 * window then early else 2 * window - late;
      var first, second := Call(Spend(at, 1), 0), Call(Spend(2 * window - late, 2), 2 * window);
      var calls := [first, second];
      assert calls[..1] == [first] && calls[..1][..0] == [];
      assert After(calls[..1], window).expireAt == 2 * window;
      assert first in calls;
      assert first.s in InWindow(calls, second.s.at, window);
      assert first.s !in After(calls, window).kept;
      assert Skewed(calls, early, late);
    }
  }
}
