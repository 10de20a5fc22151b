/** The ticks of a poll loop, and which of them issue a command. */
module Ticker {
  import opened Basics
  import opened Catalogue
  import opened Grid
  import opened Schedule

  // --- Instants ---------------------------------------------------------------------------------

  /** The instant of the i-th tick. The loop starts its ticker when the first poll has returned, so the
      second tick comes `first` after the first, which is at least `tick`; the others are `tick` apart. */
  function TickAt(first: Time, tick: Time, i: nat): Time {
    if i == 0 then 0 else Point(first, tick, i - 1)
  }

  lemma {:induction false} TicksApart(first: Time, tick: Time, i: nat, j: nat)
    requires 0 < tick <= first && 1 <= i <= j
    ensures TickAt(first, tick, j) == TickAt(first, tick, i) + tick * (j - i)
    ensures TickAt(first, tick, i) <= TickAt(first, tick, j) && first <= TickAt(first, tick, i)
  {
    PointsOrdered(first, tick, i - 1, j - 1);
    PointsOrdered(first, tick, 0, i - 1);
  }

  lemma {:induction false} TicksForward(first: Time, tick: Time, i: nat, j: nat)
    requires 0 < tick <= first && i <= j
    ensures 0 <= TickAt(first, tick, i) <= TickAt(first, tick, j)
  {
    if i > 0 {
      TicksApart(first, tick, i, j);
    } else if j > 0 {
      TicksApart(first, tick, 1, j);
    }
  }

  ghost predicate LoopTicks(wakes: seq<Wake>, first: Time, tick: Time) {
    forall i :: 0 <= i < |wakes| ==> wakes[i].now == wakes[0].now + TickAt(first, tick, i)
  }

  /** The first `n` ticks of a loop that starts at instant 0. */
  function LoopRun(first: Time, tick: Time, n: nat): seq<Wake> {
    seq(n, i requires 0 <= i < n => Wake(TickAt(first, tick, i), false))
  }

  lemma {:induction false} LoopRunIsLoop(first: Time, tick: Time, n: nat)
    requires 0 < tick <= first
    ensures LoopTicks(LoopRun(first, tick, n), first, tick)
    ensures Forward(LoopRun(first, tick, n)) && Scheduled(LoopRun(first, tick, n))
  {
    var wakes := LoopRun(first, tick, n);
    forall i, j | 0 <= i <= j < n
      ensures wakes[i].now <= wakes[j].now
    {
      TicksForward(first, tick, i, j);
    }
  }

  // --- Periods ----------------------------------------------------------------------------------

  function TickPeriod(first: Time, tick: Time, interval: Time, i: nat): int
    requires interval > 0
  {
    Period(0, interval, TickAt(first, tick, i))
  }

  lemma {:induction false} PeriodShifts(origin: Time, interval: Time, t: Time)
    requires interval > 0
    ensures Period(origin, interval, origin + t) == Period(0, interval, t)
  {
    var p := Period(0, interval, t);
    PeriodIs(origin, interval, origin + t, p);
  }

  lemma {:induction false} PeriodOfTick(wakes: seq<Wake>, first: Time, tick: Time, interval: Time, i: nat)
    requires LoopTicks(wakes, first, tick) && interval > 0 && i < |wakes|
    ensures PeriodAt(wakes, interval, i) == TickPeriod(first, tick, interval, i)
  {
    PeriodShifts(wakes[0].now, interval, TickAt(first, tick, i));
  }

  /** A tick that issues a command of this interval. */
  predicate Crosses(first: Time, tick: Time, interval: Time, i: nat)
    requires interval > 0
  {
    i == 0 || TickPeriod(first, tick, interval, i - 1) < TickPeriod(first, tick, interval, i)
  }

  lemma {:induction false} LoopIssues(specs: seq<CmdSpec>, wakes: seq<Wake>, c: CmdSpec, first: Time, tick: Time,
                                      i: nat)
    requires Runs(specs, wakes, c) && Scheduled(wakes) && LoopTicks(wakes, first, tick) && i < |wakes|
    ensures c in IssuedAt(specs, wakes, i) <==> Crosses(first, tick, c.interval, i)
  {
    IssuedExactlyOnGridPoints(specs, wakes, c, i);
    PeriodOfTick(wakes, first, tick, c.interval, i);
    if i > 0 {
      PeriodOfTick(wakes, first, tick, c.interval, i - 1);
    }
  }

  /** The next tick after the `k`-th that crosses a grid point, and where it lies. */
  lemma {:induction false} NextCross(first: Time, tick: Time, interval: Time, k: nat) returns (l: nat)
    requires 0 < tick <= first && tick <= interval && k >= 1
    ensures var p := TickPeriod(first, tick, interval, k);
            && k < l && Crosses(first, tick, interval, l) && TickPeriod(first, tick, interval, l) == p + 1
            && (forall j: nat :: k <= j < l ==> TickPeriod(first, tick, interval, j) == p)
            && TickAt(first, tick, l) - tick < Point(0, interval, p + 1) <= TickAt(first, tick, l)
            && TickAt(first, tick, l) == TickAt(first, tick, k) + tick * (l - k)
  {
    var p, at := TickPeriod(first, tick, interval, k), TickAt(first, tick, k);
    var n := Ceil(Point(0, interval, p + 1) - at, tick);
    if n <= 0 {
      PointsOrdered(0, tick, n, 0);
    }
    l := k + n;
    TicksApart(first, tick, k, l);
    TicksApart(first, tick, l - 1, l);
    PointsOrdered(0, interval, p + 1, p + 2);
    PeriodIs(0, interval, TickAt(first, tick, l), p + 1);
    forall j: nat | k <= j < l
      ensures TickPeriod(first, tick, interval, j) == p
    {
      TicksApart(first, tick, k, j);
      TicksApart(first, tick, j, l - 1);
      PeriodIs(0, interval, TickAt(first, tick, j), p);
    }
  }

  // --- The documented rule ----------------------------------------------------------------------

  /** Two calls of a run that issue a command, and none in between that does. */
  ghost predicate Successive(specs: seq<CmdSpec>, wakes: seq<Wake>, c: CmdSpec, k: nat, l: nat) {
    && k < l < |wakes| && c in IssuedAt(specs, wakes, k) && c in IssuedAt(specs, wakes, l)
    && forall j: nat :: k < j < l ==> c !in IssuedAt(specs, wakes, j)
  }

  /** Successive issues of a command in some run of a poll loop. */
  ghost predicate LoopSuccessive(specs: seq<CmdSpec>, wakes: seq<Wake>, c: CmdSpec, first: Time, tick: Time,
                                 k: nat, l: nat)
  {
    Runs(specs, wakes, c) && Scheduled(wakes) && LoopTicks(wakes, first, tick) && Successive(specs, wakes, c, k, l)
  }

  ghost predicate CrossesNext(first: Time, tick: Time, interval: Time, k: nat, l: nat)
    requires interval > 0
  {
    && k < l && Crosses(first, tick, interval, k) && Crosses(first, tick, interval, l)
    && forall j: nat :: k < j < l ==> !Crosses(first, tick, interval, j)
  }

  lemma {:induction false} SuccessiveCrosses(specs: seq<CmdSpec>, wakes: seq<Wake>, c: CmdSpec, first: Time, tick: Time,
                                             k: nat, l: nat)
    requires Runs(specs, wakes, c) && Scheduled(wakes) && LoopTicks(wakes, first, tick) && k < l < |wakes|
    ensures Successive(specs, wakes, c, k, l) <==> CrossesNext(first, tick, c.interval, k, l)
  {
    forall j: nat | j <= l
      ensures c in IssuedAt(specs, wakes, j) <==> Crosses(first, tick, c.interval, j)
    {
      LoopIssues(specs, wakes, c, first, tick, j);
    }
  }

  lemma {:induction false} SamePeriodUntilCross(first: Time, tick: Time, interval: Time, k: nat, j: nat)
    requires 0 < tick <= first && interval > 0 && k <= j
    requires forall i: nat :: k < i <= j ==> !Crosses(first, tick, interval, i)
    ensures TickPeriod(first, tick, interval, j) == TickPeriod(first, tick, interval, k)
    decreases j
  {
    if k < j {
      SamePeriodUntilCross(first, tick, interval, k, j - 1);
      assert !Crosses(first, tick, interval, j);
      TicksForward(first, tick, j - 1, j);
      PeriodMonotone(0, interval, TickAt(first, tick, j - 1), TickAt(first, tick, j));
    }
  }

  /** How far a tick lies behind the grid point of its period. */
  function Behind(first: Time, tick: Time, interval: Time, k: nat): Time
    requires interval > 0
  {
    TickAt(first, tick, k) - Point(0, interval, TickPeriod(first, tick, interval, k))
  }

  lemma {:induction false} CrossIsClose(first: Time, tick: Time, interval: Time, k: nat)
    requires 0 < tick <= first && interval > 0 && k >= 2 && Crosses(first, tick, interval, k)
    ensures 0 <= Behind(first, tick, interval, k) < tick
  {
    var p, before := TickPeriod(first, tick, interval, k), TickPeriod(first, tick, interval, k - 1);
    TicksApart(first, tick, k - 1, k);
    PointsOrdered(0, interval, before + 1, p);
  }

  /** The second tick is no further behind its grid point than later ones are: it comes before the first
      point, or less than a tick behind one. */
  predicate InPhase(first: Time, tick: Time, interval: Time)
    requires interval > 0
  {
    first < interval || Behind(first, tick, interval, 1) < tick
  }

  /** A loop whose first poll takes less than a tick is in phase. */
  lemma {:induction false} ShortFirstPollInPhase(first: Time, tick: Time, interval: Time)
    requires 0 < tick <= first < 2 * tick && tick <= interval
    ensures InPhase(first, tick, interval)
  {
    if first >= interval {
      PeriodIs(0, interval, first, 1);
    }
  }

  lemma {:induction false} NextIsUnique(first: Time, tick: Time, interval: Time, k: nat, l: nat, next: nat)
    requires interval > 0 && CrossesNext(first, tick, interval, k, l)
    requires k < next && Crosses(first, tick, interval, next)
    requires forall j: nat :: k <= j < next ==>
               TickPeriod(first, tick, interval, j) == TickPeriod(first, tick, interval, k)
    ensures l == next
  {
    NextIsNext(first, tick, interval, k, next);
  }

  lemma {:induction false} CrossAfter(first: Time, tick: Time, interval: Time, k: nat, l: nat)
    requires 0 < tick <= first && tick <= interval && k >= 1 && CrossesNext(first, tick, interval, k, l)
    ensures var p := TickPeriod(first, tick, interval, k);
            && TickAt(first, tick, l) - tick < Point(0, interval, p + 1) <= TickAt(first, tick, l)
            && TickAt(first, tick, l) == TickAt(first, tick, k) + tick * (l - k)
  {
    var next := NextCross(first, tick, interval, k);
    NextIsUnique(first, tick, interval, k, l, next);
  }

  lemma {:induction false} GapOfCrosses(first: Time, tick: Time, interval: Time, k: nat, l: nat)
    requires 0 < tick <= first && tick <= interval && k >= 1 && CrossesNext(first, tick, interval, k, l)
    requires 0 <= Behind(first, tick, interval, k) < tick
    ensures TickAt(first, tick, l) == TickAt(first, tick, k) + tick * (l - k)
    ensures interval - tick < TickAt(first, tick, l) - TickAt(first, tick, k) < interval + tick
    ensures TickAt(first, tick, l) - tick < TickAt(first, tick, k) + interval
  {
    var p := TickPeriod(first, tick, interval, k);
    assert Point(0, interval, p + 1) == Point(0, interval, p) + interval by {
      PointsOrdered(0, interval, p, p + 1);
    }
    CrossAfter(first, tick, interval, k, l);
  }

  /** In a loop whose first poll takes less than a tick, every gap after the first poll is the interval
      rounded down or up to whole ticks. */
  lemma {:induction false} GapIsRoundedInterval(specs: seq<CmdSpec>, wakes: seq<Wake>, c: CmdSpec, first: Time,
                                                tick: Time, k: nat, l: nat)
    requires LoopSuccessive(specs, wakes, c, first, tick, k, l) && 0 < tick <= first && tick <= c.interval
    requires k >= 2 || (k == 1 && InPhase(first, tick, c.interval))
    ensures wakes[l].now - wakes[k].now == tick * (l - k)
    ensures l - k == c.interval / tick || l - k == Ceil(c.interval, tick)
  {
    SuccessiveCrosses(specs, wakes, c, first, tick, k, l);
    IssuedTickIsClose(first, tick, c.interval, k);
    GapOfCrosses(first, tick, c.interval, k, l);
    FloorOrCeil(c.interval, tick, l - k);
  }

  lemma {:induction false} IssuedTickIsClose(first: Time, tick: Time, interval: Time, k: nat)
    requires 0 < tick <= first && interval > 0 && Crosses(first, tick, interval, k)
    requires k >= 2 || (k == 1 && InPhase(first, tick, interval))
    ensures 0 <= Behind(first, tick, interval, k) < tick
  {
    if k >= 2 {
      CrossIsClose(first, tick, interval, k);
    } else if first < interval {
      PeriodIs(0, interval, first, 0);
      PeriodIs(0, interval, 0, 0);
    }
  }

  /** Every issue comes with the first tick that is no less than an interval past the issue before. */
  ghost predicate IssuedAsDocumented(c: CmdSpec, first: Time, tick: Time) {
    forall specs: seq<CmdSpec>, wakes: seq<Wake>, k: nat, l: nat ::
      LoopSuccessive(specs, wakes, c, first, tick, k, l) ==>
        wakes[l - 1].now < wakes[k].now + c.interval <= wakes[l].now
  }

  /** No issue comes sooner than an interval after the one before. */
  ghost predicate NeverSooner(c: CmdSpec, first: Time, tick: Time) {
    forall specs: seq<CmdSpec>, wakes: seq<Wake>, k: nat, l: nat ::
      LoopSuccessive(specs, wakes, c, first, tick, k, l) ==>
        wakes[k].now + c.interval <= wakes[l].now
  }

  lemma {:induction false} FirstGapIsRight(first: Time, tick: Time, interval: Time, l: nat)
    requires 0 < tick <= first && tick <= interval && CrossesNext(first, tick, interval, 0, l)
    ensures TickAt(first, tick, l - 1) < interval <= TickAt(first, tick, l)
  {
    SamePeriodUntilCross(first, tick, interval, 0, l - 1);
    PeriodIs(0, interval, 0, 0);
    var p := TickPeriod(first, tick, interval, l);
    PointsOrdered(0, interval, 1, p);
  }

  lemma {:induction false} LaterGapIsRight(first: Time, tick: Time, interval: Time, q: int, k: nat, l: nat)
    requires 0 < tick <= first && tick <= interval && interval == tick * q && k >= 1
    requires CrossesNext(first, tick, interval, k, l) && 0 <= Behind(first, tick, interval, k) < tick
    ensures TickAt(first, tick, l - 1) < TickAt(first, tick, k) + interval <= TickAt(first, tick, l)
  {
    GapOfCrosses(first, tick, interval, k, l);
    TicksApart(first, tick, l - 1, l);
    if l - k < q {
      PointsOrdered(0, tick, l - k, q - 1);
      PointsOrdered(0, tick, q - 1, q);
    } else {
      PointsOrdered(0, tick, q, l - k);
    }
  }

  lemma {:induction false} GapIsRight(first: Time, tick: Time, interval: Time, q: int, k: nat, l: nat)
    requires 0 < tick <= first && tick <= interval && interval == tick * q && InPhase(first, tick, interval)
    requires CrossesNext(first, tick, interval, k, l)
    ensures TickAt(first, tick, l - 1) < TickAt(first, tick, k) + interval <= TickAt(first, tick, l)
  {
    if k == 0 {
      FirstGapIsRight(first, tick, interval, l);
    } else {
      IssuedTickIsClose(first, tick, interval, k);
      LaterGapIsRight(first, tick, interval, q, k, l);
    }
  }

  lemma {:induction false} MultiplesInPhaseAreRight(c: CmdSpec, first: Time, tick: Time, q: int)
    requires 0 < tick <= first && tick <= c.interval && c.interval == tick * q && InPhase(first, tick, c.interval)
    ensures IssuedAsDocumented(c, first, tick) && NeverSooner(c, first, tick)
  {
    forall specs: seq<CmdSpec>, wakes: seq<Wake>, k: nat, l: nat | LoopSuccessive(specs, wakes, c, first, tick, k, l)
      ensures wakes[l - 1].now < wakes[k].now + c.interval <= wakes[l].now
    {
      SuccessiveCrosses(specs, wakes, c, first, tick, k, l);
      GapIsRight(first, tick, c.interval, q, k, l);
    }
  }

  /** With an interval that is no multiple of the tick some gap is too short: each one that is not leaves
      the tick further behind its grid point, and it is never a whole tick behind. */
  lemma {:induction false} FindShortGap(first: Time, tick: Time, interval: Time, k: nat) returns (j: nat, l: nat)
    requires 0 < tick <= first && tick <= interval && interval % tick != 0
    requires k >= 2 && Crosses(first, tick, interval, k)
    ensures CrossesNext(first, tick, interval, j, l) && TickAt(first, tick, l) < TickAt(first, tick, j) + interval
    decreases tick - Behind(first, tick, interval, k)
  {
    CrossIsClose(first, tick, interval, k);
    j := k;
    l := NextCross(first, tick, interval, k);
    NextIsNext(first, tick, interval, k, l);
    if TickAt(first, tick, l) >= TickAt(first, tick, k) + interval {
      NotAMultiple(interval, tick, l - k);
      CrossIsClose(first, tick, interval, l);
      FallsBehind(first, tick, interval, k, l);
      j, l := FindShortGap(first, tick, interval, l);
    }
  }

  lemma {:induction false} NextIsNext(first: Time, tick: Time, interval: Time, k: nat, l: nat)
    requires interval > 0 && k < l && Crosses(first, tick, interval, k) && Crosses(first, tick, interval, l)
    requires forall j: nat :: k <= j < l ==>
               TickPeriod(first, tick, interval, j) == TickPeriod(first, tick, interval, k)
    ensures CrossesNext(first, tick, interval, k, l)
  {
  }

  lemma {:induction false} NotAMultiple(a: int, b: int, n: int)
    requires b > 0 && a % b != 0
    ensures b * n != a
  {
    if b * n == a {
      PeriodIs(0, b, a, n);
    }
  }

  lemma {:induction false} FallsBehind(first: Time, tick: Time, interval: Time, k: nat, l: nat)
    requires interval > 0
    requires TickPeriod(first, tick, interval, l) == TickPeriod(first, tick, interval, k) + 1
    ensures Behind(first, tick, interval, l)
            == Behind(first, tick, interval, k) + TickAt(first, tick, l) - TickAt(first, tick, k) - interval
  {
    PointsOrdered(0, interval, TickPeriod(first, tick, interval, k), TickPeriod(first, tick, interval, l));
  }

  /** Out of phase, the gap after the second tick is too short. */
  lemma {:induction false} ShortGapAfterSlowStart(first: Time, tick: Time, interval: Time) returns (l: nat)
    requires 0 < tick <= first && tick <= interval && !InPhase(first, tick, interval)
    ensures CrossesNext(first, tick, interval, 1, l) && TickAt(first, tick, l) < TickAt(first, tick, 1) + interval
  {
    l := NextCross(first, tick, interval, 1);
    PeriodIs(0, interval, 0, 0);
    PointIsPast(0, interval, 1, first);
    NextIsNext(first, tick, interval, 1, l);
    PointsOrdered(0, interval, TickPeriod(first, tick, interval, 1), TickPeriod(first, tick, interval, 1) + 1);
  }

  lemma {:induction false} ShortGapBreaksRule(c: CmdSpec, first: Time, tick: Time, k: nat, l: nat)
    requires 0 < tick <= first && tick <= c.interval && CrossesNext(first, tick, c.interval, k, l)
    requires TickAt(first, tick, l) < TickAt(first, tick, k) + c.interval
    ensures !NeverSooner(c, first, tick) && !IssuedAsDocumented(c, first, tick)
  {
    var wakes := LoopRun(first, tick, l + 1);
    LoopRunIsLoop(first, tick, l + 1);
    assert Runs([c], wakes, c);
    SuccessiveCrosses([c], wakes, c, first, tick, k, l);
    assert LoopSuccessive([c], wakes, c, first, tick, k, l);
  }

  /** The documented rule, and the weaker one that a group is never polled sooner than its interval, hold in
      every run of a poll loop exactly for intervals that are a multiple of the tick, provided the first
      poll does not put the second tick out of phase. */
  lemma {:induction false} IssuedAsDocumentedIff(c: CmdSpec, first: Time, tick: Time)
    requires 0 < tick <= first && tick <= c.interval
    ensures IssuedAsDocumented(c, first, tick) <==> c.interval % tick == 0 && InPhase(first, tick, c.interval)
    ensures NeverSooner(c, first, tick) <==> c.interval % tick == 0 && InPhase(first, tick, c.interval)
  {
    if !InPhase(first, tick, c.interval) {
      var l := ShortGapAfterSlowStart(first, tick, c.interval);
      ShortGapBreaksRule(c, first, tick, 1, l);
    } else if c.interval % tick != 0 {
      var start := NextCross(first, tick, c.interval, 1);
      var k, l := FindShortGap(first, tick, c.interval, start);
      ShortGapBreaksRule(c, first, tick, k, l);
    } else {
      MultiplesInPhaseAreRight(c, first, tick, c.interval / tick);
    }
  }

  /** The documentation's own example, a 45 s group on a 30 s poll, is issued at ticks 0, 2, 3, 5, 6, ...:
      gaps of 60 s and 30 s alternate, which is 45 s on average and not 60 s each. */
  lemma {:induction false} FortyFiveSecondModule(specs: seq<CmdSpec>, wakes: seq<Wake>, c: CmdSpec, k: nat)
    requires Runs(specs, wakes, c) && Scheduled(wakes) && k < |wakes|
    requires c.interval == 45 * SECOND && LoopTicks(wakes, 30 * SECOND, 30 * SECOND)
    ensures c in IssuedAt(specs, wakes, k) <==> k % 3 != 1
  {
    LoopIssues(specs, wakes, c, 30 * SECOND, 30 * SECOND, k);
    PeriodOfFortyFive(k);
    if k > 0 {
      PeriodOfFortyFive(k - 1);
    }
  }

  lemma {:induction false} PeriodOfFortyFive(k: nat)
    ensures TickPeriod(30 * SECOND, 30 * SECOND, 45 * SECOND, k) == 2 * (k / 3) + (if k % 3 == 2 then 1 else 0)
  {
    var q, r := k / 3, k % 3;
    assert k == 3 * q + r;
    PeriodIs(0, 45 * SECOND, TickAt(30 * SECOND, 30 * SECOND, k), 2 * q + (if r == 2 then 1 else 0));
  }

  /** A 60 s group on a 30 s poll whose first poll takes 75 s is issued at 0 s, 105 s and 135 s: the last
      two 30 s apart, although 60 s is a multiple of 30 s. */
  lemma {:induction false} SlowFirstPollShortensAGap()
    ensures var first, tick, interval := 105 * SECOND, 30 * SECOND, 60 * SECOND;
            && CrossesNext(first, tick, interval, 1, 2) && !InPhase(first, tick, interval)
            && TickAt(first, tick, 2) - TickAt(first, tick, 1) == 30 * SECOND
  {
    var first, tick, interval := 105 * SECOND, 30 * SECOND, 60 * SECOND;
    PeriodIs(0, interval, 0, 0);
    PeriodIs(0, interval, TickAt(first, tick, 1), 1);
    PeriodIs(0, interval, TickAt(first, tick, 2), 2);
  }
}
