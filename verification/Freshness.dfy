/** How old a command's data can get between the scheduler and the renderer. */
module Freshness {
  import opened Basics
  import opened Catalogue
  import opened Grid
  import opened Schedule
  import opened Ticker
  import Eapi
  import opened Poll
  import opened History
  import opened Engine
  import opened Render

  // --- Sightings --------------------------------------------------------------------------------

  /** A command's data, seen by a scrape. `wakes` are the ticks whose poll has committed, `k` the one the
      command last succeeded at. */
  datatype Sighting =
    Sighting(specs: seq<CmdSpec>, wakes: seq<Wake>, polls: seq<PollRecord>, k: nat, now: Time, sw: Switch)

  /** How many issues of the command have failed since its last success. */
  function Missed(specs: seq<CmdSpec>, wakes: seq<Wake>, c: CmdSpec, k: nat): nat
    requires k < |wakes|
  {
    Count(IssueFlags(specs, wakes, c), k + 1, |wakes|)
  }

  /** A scrape of the state that a history of scheduled ticks has left, with at most `m` issues of the
      command since its last success. */
  ghost predicate Seen(x: Sighting, c: CmdSpec, m: nat) {
    && Runs(x.specs, x.wakes, c) && Scheduled(x.wakes) && FollowsSchedule(x.specs, x.wakes, x.polls)
    && LastLanded(x.polls, c.name) == Some(x.k) && Missed(x.specs, x.wakes, c, x.k) <= m
    && x.wakes[|x.wakes| - 1].now <= x.now
    && x.sw.specs == x.specs && x.sw.state == AfterPolls(x.polls)
  }

  /** The latest instant of the tick after the last of `wakes`. */
  function NextBy(wakes: seq<Wake>, first: Time, gap: Time): Time
    requires wakes != []
  {
    wakes[|wakes| - 1].now + (if |wakes| == 1 then first else gap)
  }

  /** The scrape comes before the next tick's poll has committed. A poll takes time: it commits up to `late`
      after its tick, under the tick's own instant. */
  ghost predicate BeforeNextCommit(x: Sighting, first: Time, gap: Time, late: Time) {
    x.wakes != [] && x.now <= NextBy(x.wakes, first, gap) + late
  }

  /** Whether data is fresh depends on the tick of its last success alone. */
  lemma {:induction false} FreshByTick(specs: seq<CmdSpec>, polls: seq<PollRecord>, c: CmdSpec, k: nat, now: Time,
                                       stalenessLimit: Time, sw: Switch)
    requires Distinct(specs) && c in specs && Plausible(polls) && LastLanded(polls, c.name) == Some(k)
    requires sw.specs == specs && sw.state == AfterPolls(polls)
    ensures Fresh(stalenessLimit, sw, c.name, now) <==> now - polls[k].now <= Max(stalenessLimit, 3 * c.interval)
  {
    CacheIsLastSuccess(polls, c.name);
    IntervalsOf(specs);
  }

  /** What a sighting says, in terms of its ticks. */
  lemma {:induction false} SeenMeans(x: Sighting, c: CmdSpec, m: nat, stalenessLimit: Time)
    requires Seen(x, c, m)
    ensures x.k < |x.wakes| && Forward(x.wakes) && c in IssuedAt(x.specs, x.wakes, x.k)
    ensures Changes(x.wakes, c.interval, x.k, |x.wakes| - 1) <= m
    ensures Fresh(stalenessLimit, x.sw, c.name, x.now)
            <==> x.now - x.wakes[x.k].now <= Max(stalenessLimit, 3 * c.interval)
  {
    FreshByTick(x.specs, x.polls, c, x.k, x.now, stalenessLimit, x.sw);
    MissedIsChanges(x.specs, x.wakes, c, x.k);
    LandedIsIssued(x.specs, x.wakes, x.polls, c, x.k);
  }

  lemma {:induction false} LandedIsIssued(specs: seq<CmdSpec>, wakes: seq<Wake>, polls: seq<PollRecord>, c: CmdSpec,
                                          k: nat)
    requires Distinct(specs) && c in specs && FollowsSchedule(specs, wakes, polls)
    requires LastLanded(polls, c.name) == Some(k)
    ensures c in IssuedAt(specs, wakes, k)
  {
    IssuedProperties(After(specs, wakes[..k]), specs, wakes[k]);
  }

  // --- Counting grid points ---------------------------------------------------------------------

  /** The ticks after the `k`-th up to the `j`-th that cross a grid point. */
  function Changes(wakes: seq<Wake>, interval: Time, k: nat, j: nat): nat
    requires interval > 0 && j < |wakes|
    decreases j
  {
    if j <= k then 0
    else
      Changes(wakes, interval, k, j - 1)
      + (if PeriodAt(wakes, interval, j - 1) < PeriodAt(wakes, interval, j) then 1 else 0)
  }

  lemma {:induction false} CountIsChanges(flags: seq<bool>, wakes: seq<Wake>, interval: Time, k: nat, j: nat)
    requires FlagsFollowGrid(flags, wakes, interval) && k <= j < |wakes|
    ensures Count(flags, k + 1, j + 1) == Changes(wakes, interval, k, j)
    decreases j
  {
    if k < j {
      CountIsChanges(flags, wakes, interval, k, j - 1);
    }
  }

  lemma {:induction false} MissedIsChanges(specs: seq<CmdSpec>, wakes: seq<Wake>, c: CmdSpec, k: nat)
    requires Runs(specs, wakes, c) && Scheduled(wakes) && k < |wakes|
    ensures Missed(specs, wakes, c, k) == Changes(wakes, c.interval, k, |wakes| - 1)
  {
    IssueFlagsFollowGrid(specs, wakes, c);
    CountIsChanges(IssueFlags(specs, wakes, c), wakes, c.interval, k, |wakes| - 1);
  }

  /** The grid points that one tick crosses: at most `most` at the second tick, `step` at later ones. */
  ghost predicate StepsWithin(wakes: seq<Wake>, interval: Time, most: int, step: int)
    requires interval > 0
  {
    forall i: nat :: 0 < i < |wakes| ==> StepAt(wakes, interval, i) <= (if i == 1 then most else step)
  }

  function StepAt(wakes: seq<Wake>, interval: Time, i: nat): int
    requires interval > 0 && 0 < i < |wakes|
  {
    PeriodAt(wakes, interval, i) - PeriodAt(wakes, interval, i - 1)
  }

  /** The most grid points that `m` crossing ticks can pass, the first of them being the second tick. */
  function Rise(most: int, step: int, m: nat): int {
    if m == 0 then 0 else Max(most, step) + step * (m - 1)
  }

  lemma {:induction false} RiseSteps(most: int, step: int, m: nat)
    requires step >= 0
    ensures Rise(most, step, m) + step <= Rise(most, step, m + 1)
    ensures most <= Rise(most, step, m + 1)
    ensures step * m <= Rise(most, step, m)
  {
    if m > 0 {
      assert step * m == step * (m - 1) + step;
      assert step * (m - 1) >= 0;
    }
    assert step * m >= 0;
  }

  lemma {:induction false} RiseMonotone(most: int, step: int, m: nat, n: nat)
    requires step >= 0 && m <= n
    ensures 0 <= Rise(most, step, m) <= Rise(most, step, n)
    decreases n - m
  {
    if m < n {
      RiseSteps(most, step, n - 1);
      RiseMonotone(most, step, m, n - 1);
    } else {
      assert m > 0 ==> step * (m - 1) >= 0;
    }
  }

  lemma {:induction false} RiseOnce(most: int, step: int, before: nat, passed: int, more: int, second: bool)
    requires step >= 0 && passed <= Rise(most, step, before) && 0 <= more <= (if second then most else step)
    requires second ==> before == 0 && passed == 0
    ensures passed + more <= Rise(most, step, before + (if more > 0 then 1 else 0))
  {
    RiseSteps(most, step, before);
  }

  lemma {:induction false} PeriodsRise(wakes: seq<Wake>, interval: Time, most: int, step: int, k: nat, j: nat)
    requires interval > 0 && step >= 0 && StepsWithin(wakes, interval, most, step) && k <= j < |wakes| && Forward(wakes)
    ensures PeriodAt(wakes, interval, j) - PeriodAt(wakes, interval, k)
            <= Rise(most, step, Changes(wakes, interval, k, j))
    decreases j
  {
    if k < j {
      PeriodsRise(wakes, interval, most, step, k, j - 1);
      PeriodMonotone(wakes[0].now, interval, wakes[j - 1].now, wakes[j].now);
      var more := StepAt(wakes, interval, j);
      assert more <= (if j == 1 then most else step);
      RiseOnce(most, step, Changes(wakes, interval, k, j - 1),
               PeriodAt(wakes, interval, j - 1) - PeriodAt(wakes, interval, k), more, j == 1);
    }
  }

  lemma {:induction false} StepOnce(step: int, before: nat, more: int)
    requires 0 <= more <= step
    ensures step * before + more <= step * (before + (if more > 0 then 1 else 0))
  {
    assert step * (before + 1) == step * before + step;
  }

  /** After the first tick, every crossing passes at most `step` points. */
  lemma {:induction false} LaterPeriodsRise(wakes: seq<Wake>, interval: Time, most: int, step: int, k: nat, j: nat)
    requires interval > 0 && step >= 0 && StepsWithin(wakes, interval, most, step) && 1 <= k <= j < |wakes|
    requires Forward(wakes)
    ensures PeriodAt(wakes, interval, j) - PeriodAt(wakes, interval, k) <= step * Changes(wakes, interval, k, j)
    decreases j
  {
    if k < j {
      LaterPeriodsRise(wakes, interval, most, step, k, j - 1);
      PeriodMonotone(wakes[0].now, interval, wakes[j - 1].now, wakes[j].now);
      var more := StepAt(wakes, interval, j);
      assert more <= (if j == 1 then most else step);
      StepOnce(step, Changes(wakes, interval, k, j - 1), more);
    }
  }

  lemma {:induction false} ChangesWithinPeriods(wakes: seq<Wake>, interval: Time, k: nat, j: nat)
    requires interval > 0 && k <= j < |wakes| && Forward(wakes)
    ensures Changes(wakes, interval, k, j) <= PeriodAt(wakes, interval, j) - PeriodAt(wakes, interval, k)
    decreases j
  {
    if k < j {
      ChangesWithinPeriods(wakes, interval, k, j - 1);
      PeriodMonotone(wakes[0].now, interval, wakes[j - 1].now, wakes[j].now);
    }
  }

  // --- Ticks that drift -------------------------------------------------------------------------

  /** The second tick comes at most `first` after the first, each later one at most `gap` after the one
      before. */
  ghost predicate Drifting(wakes: seq<Wake>, first: Time, gap: Time) {
    forall i: nat :: 0 < i < |wakes| ==> GapBefore(wakes, i) <= (if i == 1 then first else gap)
  }

  /** The grid points a gap can pass. */
  function Span(interval: Time, gap: Time): int
    requires interval > 0
  {
    Ceil(gap, interval)
  }

  lemma {:induction false} StepOfGap(origin: Time, interval: Time, t: Time, u: Time, gap: Time)
    requires interval > 0 && t <= u <= t + gap
    ensures Period(origin, interval, u) <= Period(origin, interval, t) + Span(interval, gap)
  {
    var p, q, e := Period(origin, interval, t), Period(origin, interval, u), Span(interval, gap);
    if q > p + e {
      PointsOrdered(origin, interval, p + 1 + e, q);
      PointsOrdered(origin, interval, p + 1, p + 1 + e);
    }
  }

  lemma {:induction false} DriftSteps(wakes: seq<Wake>, interval: Time, first: Time, gap: Time)
    requires interval > 0 && Forward(wakes) && Drifting(wakes, first, gap)
    ensures StepsWithin(wakes, interval, Period(0, interval, first), Span(interval, gap))
  {
    forall i: nat | 0 < i < |wakes|
      ensures StepAt(wakes, interval, i) <= (if i == 1 then Period(0, interval, first) else Span(interval, gap))
    {
      assert GapBefore(wakes, i) <= (if i == 1 then first else gap);
      assert wakes[i - 1].now <= wakes[i].now;
      if i == 1 {
        PeriodShifts(wakes[0].now, interval, wakes[1].now - wakes[0].now);
        PeriodShifts(wakes[0].now, interval, 0);
        PeriodIs(0, interval, 0, 0);
        PeriodMonotone(0, interval, wakes[1].now - wakes[0].now, first);
      } else {
        StepOfGap(wakes[0].now, interval, wakes[i - 1].now, wakes[i].now, gap);
      }
    }
  }

  /** The age that data can reach after `m` misses while ticks drift: just short of the grid point after
      the last one passed, and one more gap. */
  function DriftAge(interval: Time, first: Time, gap: Time, m: nat): Time
    requires interval > 0
  {
    Max(first, Point(0, interval, Rise(Period(0, interval, first), Span(interval, gap), m) + 1) - 1 + gap)
  }

  lemma {:induction false} LastTickBefore(origin: Time, interval: Time, success: Time, last: Time, rise: int)
    requires interval > 0 && rise >= 0 && Period(origin, interval, last) - Period(origin, interval, success) <= rise
    ensures last - success < Point(0, interval, rise + 1)
  {
    var p, q := Period(origin, interval, success), Period(origin, interval, last);
    PointsOrdered(origin, interval, q + 1, p + rise + 1);
    PointsOrdered(origin, interval, p, p + rise + 1);
    assert interval * (p + rise + 1 - p) == interval * (rise + 1);
  }

  lemma {:induction false} AgeOfDrifting(wakes: seq<Wake>, interval: Time, first: Time, gap: Time, k: nat, m: nat)
    requires interval > 0 && 0 <= gap && k < |wakes| && Forward(wakes) && Drifting(wakes, first, gap)
    requires Changes(wakes, interval, k, |wakes| - 1) <= m
    ensures NextBy(wakes, first, gap) - wakes[k].now <= DriftAge(interval, first, gap, m)
  {
    var last := |wakes| - 1;
    if last > 0 {
      var most, step := Period(0, interval, first), Span(interval, gap);
      SpanIsNat(interval, gap);
      DriftSteps(wakes, interval, first, gap);
      PeriodsRise(wakes, interval, most, step, k, last);
      RiseMonotone(most, step, Changes(wakes, interval, k, last), m);
      LastTickBefore(wakes[0].now, interval, wakes[k].now, wakes[last].now, Rise(most, step, m));
    }
  }

  lemma {:induction false} SpanIsNat(interval: Time, gap: Time)
    requires interval > 0 && gap >= 0
    ensures Span(interval, gap) >= 0 && (gap > 0 ==> Span(interval, gap) > 0)
  {
    var e := Span(interval, gap);
    if e < 0 {
      PointsOrdered(0, interval, e, -1);
      PointsOrdered(0, interval, -1, 0);
    }
  }

  ghost predicate SightedDrifting(x: Sighting, c: CmdSpec, first: Time, gap: Time, late: Time, m: nat) {
    Seen(x, c, m) && Drifting(x.wakes, first, gap) && BeforeNextCommit(x, first, gap, late)
  }

  /** Up to `m` misses in a row never take the command's data out of a scrape, however ticks drift. */
  ghost predicate ToleratesDrifting(c: CmdSpec, first: Time, gap: Time, late: Time, stalenessLimit: Time, m: nat) {
    forall x: Sighting :: SightedDrifting(x, c, first, gap, late, m) ==> Fresh(stalenessLimit, x.sw, c.name, x.now)
  }

  /** No sighting is older than the poll in flight makes it. */
  lemma {:induction false} AgeUnderDrift(x: Sighting, c: CmdSpec, first: Time, gap: Time, late: Time, m: nat)
    requires SightedDrifting(x, c, first, gap, late, m) && 0 <= gap
    ensures x.now - x.wakes[x.k].now <= DriftAge(c.interval, first, gap, m) + late
  {
    assert x.k < |x.wakes| && Forward(x.wakes) && Changes(x.wakes, c.interval, x.k, |x.wakes| - 1) <= m by {
      SeenMeans(x, c, m, 0);
    }
    AgeOfDrifting(x.wakes, c.interval, first, gap, x.k, m);
  }

  // --- Histories that fail ----------------------------------------------------------------------

  function Outcomes(issued: seq<CmdSpec>, ok: bool): map<Command, Result<Value, Failure>> {
    map name | name in Names(issued) :: if ok then Ok(Value({}, [])) else Err(EmptyResult)
  }

  /** Everything succeeds at the `k`-th tick and fails at all others. */
  function SucceedingAt(specs: seq<CmdSpec>, wakes: seq<Wake>, k: nat): seq<PollRecord> {
    seq(|wakes|, j requires 0 <= j < |wakes| =>
      PollRecord(IssuedAt(specs, wakes, j), Answered(None, Outcomes(IssuedAt(specs, wakes, j), j == k)),
                 wakes[j].now, Readings(wakes[j].now, wakes[j].now)))
  }

  lemma {:induction false} LandsAt(specs: seq<CmdSpec>, wakes: seq<Wake>, c: CmdSpec, k: nat)
    requires k < |wakes| && c in IssuedAt(specs, wakes, k)
    ensures var p := SucceedingAt(specs, wakes, k)[k]; Fits(p.answers, p.issued) && FateOf(p, c.name).Landed?
  {
    var p, issued := SucceedingAt(specs, wakes, k)[k], IssuedAt(specs, wakes, k);
    var i :| 0 <= i < |issued| && issued[i] == c;
    assert c.name in Names(issued);
    assert c.name in Good(p.answers);
  }

  lemma {:induction false} FailsElsewhere(specs: seq<CmdSpec>, wakes: seq<Wake>, c: CmdSpec, k: nat, j: nat)
    requires k < |wakes| && j < |wakes| && j != k
    ensures var p := SucceedingAt(specs, wakes, k)[j]; Fits(p.answers, p.issued) && !FateOf(p, c.name).Landed?
  {
    assert Good(SucceedingAt(specs, wakes, k)[j].answers) == {};
  }

  lemma {:induction false} SucceedingFollows(specs: seq<CmdSpec>, wakes: seq<Wake>, k: nat)
    ensures FollowsSchedule(specs, wakes, SucceedingAt(specs, wakes, k))
  {
    var polls := SucceedingAt(specs, wakes, k);
    forall j | 0 <= j < |polls|
      ensures Fits(polls[j].answers, polls[j].issued)
      ensures polls[j].issued == IssuedAt(specs, wakes, j) && polls[j].now == wakes[j].now
    {
    }
  }

  lemma {:induction false} LandedOnlyAt(specs: seq<CmdSpec>, wakes: seq<Wake>, c: CmdSpec, k: nat)
    requires k < |wakes| && c in IssuedAt(specs, wakes, k)
    ensures var polls := SucceedingAt(specs, wakes, k);
            FollowsSchedule(specs, wakes, polls) && LastLanded(polls, c.name) == Some(k)
  {
    var polls := SucceedingAt(specs, wakes, k);
    SucceedingFollows(specs, wakes, k);
    LandsAt(specs, wakes, c, k);
    forall j | k < j < |polls|
      ensures !FateOf(polls[j], c.name).Landed?
    {
      FailsElsewhere(specs, wakes, c, k, j);
    }
    LastLandedIs(polls, c.name, k);
  }

  lemma {:induction false} LastLandedIs(polls: seq<PollRecord>, name: Command, k: nat)
    requires Plausible(polls) && k < |polls| && FateOf(polls[k], name).Landed?
    requires forall j :: k < j < |polls| ==> !FateOf(polls[j], name).Landed?
    ensures LastLanded(polls, name) == Some(k)
  {
  }

  function Failing(specs: seq<CmdSpec>, wakes: seq<Wake>, k: nat, now: Time): Sighting {
    var polls := SucceedingAt(specs, wakes, k);
    Sighting(specs, wakes, polls, k, now, Switch("", specs, AfterPolls(polls), Eapi.Counters(map[], map[], 0, 0)))
  }

  /** A history with few enough crossings is a sighting, fresh as its age says. */
  lemma {:induction false} FailingIsSeen(specs: seq<CmdSpec>, wakes: seq<Wake>, c: CmdSpec, k: nat, now: Time, m: nat,
                                         stalenessLimit: Time)
    requires Runs(specs, wakes, c) && Scheduled(wakes) && k < |wakes| && c in IssuedAt(specs, wakes, k)
    requires Changes(wakes, c.interval, k, |wakes| - 1) <= m && wakes[|wakes| - 1].now <= now
    ensures var x := Failing(specs, wakes, k, now);
            && Seen(x, c, m)
            && (Fresh(stalenessLimit, x.sw, c.name, now) <==> now - wakes[k].now <= Max(stalenessLimit, 3 * c.interval))
  {
    var x := Failing(specs, wakes, k, now);
    LandedOnlyAt(specs, wakes, c, k);
    MissedIsChanges(specs, wakes, c, k);
    FreshByTick(specs, x.polls, c, k, now, stalenessLimit, x.sw);
  }

  // --- Exactly what is tolerated under drift ----------------------------------------------------

  /** A drifting run whose first tick succeeds, with at most `m` crossings since and its last tick at `at`. */
  ghost predicate Reaches(wakes: seq<Wake>, interval: Time, first: Time, gap: Time, m: nat, at: Time)
    requires interval > 0
  {
    && wakes != [] && wakes[0].now == 0 && Forward(wakes) && Scheduled(wakes) && Drifting(wakes, first, gap)
    && Changes(wakes, interval, 0, |wakes| - 1) <= m && wakes[|wakes| - 1].now == at
  }

  lemma {:induction false} ChangesOfPrefix(wakes: seq<Wake>, w: Wake, interval: Time, j: nat)
    requires interval > 0 && j < |wakes|
    ensures Changes(wakes + [w], interval, 0, j) == Changes(wakes, interval, 0, j)
    decreases j
  {
    if j > 0 {
      ChangesOfPrefix(wakes, w, interval, j - 1);
    }
  }

  /** Bounds that ticks can have. (With an interval of one nanosecond the first gap is all there is to it
      before the first grid point, so it must not be the shorter.) */
  predicate Bounds(interval: Time, first: Time, gap: Time) {
    0 < interval && 0 < gap && 0 < first && (interval == 1 ==> gap <= first)
  }

  lemma {:induction false} OneMoreTick(wakes: seq<Wake>, interval: Time, first: Time, gap: Time, m: nat, at: Time,
                                       next: Time)
    returns (longer: seq<Wake>)
    requires interval > 0 && Reaches(wakes, interval, first, gap, m, at)
    requires at <= next <= at + (if |wakes| == 1 then first else gap)
    ensures |longer| == |wakes| + 1
    ensures Reaches(longer, interval, first, gap,
                    if Period(0, interval, at) < Period(0, interval, next) then m + 1 else m, next)
  {
    var w := Wake(next, false);
    longer := wakes + [w];
    ChangesOfPrefix(wakes, w, interval, |wakes| - 1);
    forall i: nat | 0 < i < |longer|
      ensures GapBefore(longer, i) <= (if i == 1 then first else gap)
    {
      assert i < |wakes| ==> GapBefore(wakes, i) <= (if i == 1 then first else gap);
    }
  }

  /** Ticks that cross nothing bring a run up to any later instant of its period. */
  lemma {:induction false} CatchUp(wakes: seq<Wake>, interval: Time, first: Time, gap: Time, m: nat, at: Time,
                                   target: Time)
    returns (longer: seq<Wake>)
    requires interval > 0 && 0 < gap && 0 < first && Reaches(wakes, interval, first, gap, m, at)
    requires at <= target && Period(0, interval, at) == Period(0, interval, target)
    ensures Reaches(longer, interval, first, gap, m, target)
    decreases target - at
  {
    longer := wakes;
    if at < target {
      var step := if first < gap then first else gap;
      var next := if target - at <= step then target else at + step;
      PeriodMonotone(0, interval, at, next);
      PeriodMonotone(0, interval, next, target);
      longer := OneMoreTick(wakes, interval, first, gap, m, at, next);
      longer := CatchUp(longer, interval, first, gap, m, next, target);
    }
  }

  /** One more crossing from just before a grid point. */
  lemma {:induction false} OneMoreCrossing(wakes: seq<Wake>, interval: Time, first: Time, gap: Time, m: nat, p: int)
    returns (longer: seq<Wake>)
    requires Bounds(interval, first, gap)
    requires Reaches(wakes, interval, first, gap, m, Point(0, interval, p + 1) - 1)
    ensures Reaches(longer, interval, first, gap, m + 1, Point(0, interval, p + Span(interval, gap) + 1) - 1)
  {
    var at, e := Point(0, interval, p + 1) - 1, Span(interval, gap);
    var next, target := at + gap, Point(0, interval, p + e + 1) - 1;
    CrossingArithmetic(interval, gap, p);
    longer := OneMoreTick(wakes, interval, first, gap, m, at, next);
    longer := CatchUp(longer, interval, first, gap, m + 1, next, target);
  }

  lemma {:induction false} CrossingArithmetic(interval: Time, gap: Time, p: int)
    requires interval > 0 && gap > 0
    ensures var at, e := Point(0, interval, p + 1) - 1, Span(interval, gap);
            var target := Point(0, interval, p + e + 1) - 1;
            && Period(0, interval, at) == p && p < p + e
            && at + gap <= target && Period(0, interval, at + gap) == Period(0, interval, target) == p + e
  {
    var e := Span(interval, gap);
    SpanIsNat(interval, gap);
    PointsOrdered(0, interval, p, p + 1);
    PointsOrdered(0, interval, p + 1, p + e + 1);
    PointsOrdered(0, interval, p + e, p + e + 1);
    PointsOrdered(0, interval, p + 1, p + e);
    PeriodIs(0, interval, Point(0, interval, p + 1) - 1, p);
    assert interval * (p + e + 1 - (p + 1)) == interval * e && interval * (p + e - (p + 1)) == interval * e - interval;
    PeriodIs(0, interval, Point(0, interval, p + 1) - 1 + gap, p + e);
    PeriodIs(0, interval, Point(0, interval, p + e + 1) - 1, p + e);
  }

  /** A run that stays in its first period, to its end. */
  lemma {:induction false} NoCrossing(interval: Time, first: Time, gap: Time) returns (wakes: seq<Wake>)
    requires Bounds(interval, first, gap)
    ensures Reaches(wakes, interval, first, gap, 0, Point(0, interval, 1) - 1)
  {
    PeriodIs(0, interval, 0, 0);
    PeriodIs(0, interval, interval - 1, 0);
    wakes := CatchUp([Wake(0, false)], interval, first, gap, 0, 0, interval - 1);
  }

  /** A run whose second tick crosses as many points as `first` allows. */
  lemma {:induction false} FirstCrossing(interval: Time, first: Time, gap: Time) returns (wakes: seq<Wake>)
    requires interval > 0 && 0 < gap && 0 < first && Period(0, interval, first) > 0
    ensures Reaches(wakes, interval, first, gap, 1, Point(0, interval, Period(0, interval, first) + 1) - 1)
  {
    var p := Period(0, interval, first);
    var at, target := Point(0, interval, p), Point(0, interval, p + 1) - 1;
    PeriodIs(0, interval, 0, 0);
    PointsOrdered(0, interval, 0, p);
    PointsOrdered(0, interval, p, p + 1);
    PeriodIs(0, interval, at, p);
    PeriodIs(0, interval, target, p);
    wakes := OneMoreTick([Wake(0, false)], interval, first, gap, 0, 0, at);
    wakes := CatchUp(wakes, interval, first, gap, 1, at, target);
  }

  /** Every rise is reached. */
  lemma {:induction false} RiseIsReached(interval: Time, first: Time, gap: Time, m: nat) returns (wakes: seq<Wake>)
    requires Bounds(interval, first, gap)
    ensures Reaches(wakes, interval, first, gap, m,
                    Point(0, interval, Rise(Period(0, interval, first), Span(interval, gap), m) + 1) - 1)
  {
    var most, step := Period(0, interval, first), Span(interval, gap);
    SpanIsNat(interval, gap);
    if m == 0 {
      wakes := NoCrossing(interval, first, gap);
    } else if m == 1 && most > step {
      wakes := FirstCrossing(interval, first, gap);
    } else {
      wakes := RiseIsReached(interval, first, gap, m - 1);
      wakes := OneMoreCrossing(wakes, interval, first, gap, m - 1, Rise(most, step, m - 1));
      RiseByOne(most, step, m);
    }
  }

  lemma {:induction false} RiseByOne(most: int, step: int, m: nat)
    requires m > 1 || (m == 1 && most <= step)
    ensures Rise(most, step, m) == Rise(most, step, m - 1) + step
  {
    if m > 1 {
      assert step * (m - 1) == step * (m - 2) + step;
    }
  }

  /** A run that comes up to an instant makes data that old just before the next commit. */
  lemma {:induction false} ReachedGoesStale(wakes: seq<Wake>, c: CmdSpec, first: Time, gap: Time, late: Time, m: nat,
                                            at: Time, now: Time, stalenessLimit: Time)
    requires c.interval > 0 && Reaches(wakes, c.interval, first, gap, m, at)
    requires at <= now <= NextBy(wakes, first, gap) + late && now > Max(stalenessLimit, 3 * c.interval)
    ensures !ToleratesDrifting(c, first, gap, late, stalenessLimit, m)
  {
    var x := Failing([c], wakes, 0, now);
    assert Runs([c], wakes, c);
    IssuedExactlyOnGridPoints([c], wakes, c, 0);
    FailingIsSeen([c], wakes, c, 0, now, m, stalenessLimit);
    assert SightedDrifting(x, c, first, gap, late, m);
  }

  /** However ticks drift within their bounds, `m` misses in a row are tolerated in every history and at
      every instant exactly when the age they allow, and the time a poll takes, fit the longer of the
      configured limit and three intervals. */
  lemma {:induction false} ToleratesDriftingIff(c: CmdSpec, first: Time, gap: Time, late: Time, stalenessLimit: Time,
                                                m: nat)
    requires Bounds(c.interval, first, gap) && late >= 0
    ensures ToleratesDrifting(c, first, gap, late, stalenessLimit, m)
            <==> DriftAge(c.interval, first, gap, m) + late <= Max(stalenessLimit, 3 * c.interval)
  {
    var age, limit := DriftAge(c.interval, first, gap, m) + late, Max(stalenessLimit, 3 * c.interval);
    if age <= limit {
      forall x: Sighting | SightedDrifting(x, c, first, gap, late, m)
        ensures Fresh(stalenessLimit, x.sw, c.name, x.now)
      {
        AgeUnderDrift(x, c, first, gap, late, m);
        SeenMeans(x, c, m, stalenessLimit);
      }
    } else {
      DriftAgeIsReached(c, first, gap, late, stalenessLimit, m);
    }
  }

  lemma {:induction false} DriftAgeIsReached(c: CmdSpec, first: Time, gap: Time, late: Time, stalenessLimit: Time,
                                             m: nat)
    requires Bounds(c.interval, first, gap) && late >= 0
    requires DriftAge(c.interval, first, gap, m) + late > Max(stalenessLimit, 3 * c.interval)
    ensures !ToleratesDrifting(c, first, gap, late, stalenessLimit, m)
  {
    var at := Point(0, c.interval, Rise(Period(0, c.interval, first), Span(c.interval, gap), m) + 1) - 1;
    if first >= at + gap {
      var wakes := [Wake(0, false)];
      ReachedGoesStale(wakes, c, first, gap, late, m, 0, first + late, stalenessLimit);
    } else {
      var wakes := RiseIsReached(c.interval, first, gap, m);
      ReachedGoesStale(wakes, c, first, gap, late, m, at, at + gap + late, stalenessLimit);
    }
  }

  lemma {:induction false} OneMissAge(interval: Time, first: Time, gap: Time, late: Time)
    requires 0 < gap && 0 <= late && 0 < first <= gap + late && gap + late <= interval
    ensures DriftAge(interval, first, gap, 1) + late < 3 * interval
  {
    assert Span(interval, gap) == 1 by {
      CeilIs(gap, interval, 1);
    }
    assert Period(0, interval, first) <= 1 by {
      PeriodMonotone(0, interval, first, interval);
      PeriodIs(0, interval, interval, 1);
    }
  }

  /** One missed poll is tolerated however ticks drift when a gap and the time a poll takes fit into one
      interval, as they do for groups polled well below the tick rate. */
  lemma {:induction false} OneMissStaysFresh(c: CmdSpec, first: Time, gap: Time, late: Time, stalenessLimit: Time)
    requires 0 < gap && 0 <= late && 0 < first <= gap + late && gap + late <= c.interval
    ensures ToleratesDrifting(c, first, gap, late, stalenessLimit, 1)
  {
    assert DriftAge(c.interval, first, gap, 1) + late <= Max(stalenessLimit, 3 * c.interval) by {
      OneMissAge(c.interval, first, gap, late);
    }
    ToleratesDriftingIff(c, first, gap, late, stalenessLimit, 1);
  }

  // --- Ticks on the grid ------------------------------------------------------------------------

  /** Every grid point of the command before `end` is the instant of some tick. */
  ghost predicate TicksOnGrid(wakes: seq<Wake>, interval: Time, end: Time)
    requires wakes != []
  {
    forall j :: 0 <= j && Point(wakes[0].now, interval, j) < end ==>
      exists i :: 0 <= i < |wakes| && wakes[i].now == Point(wakes[0].now, interval, j)
  }

  lemma {:induction false} TickAtPoint(wakes: seq<Wake>, interval: Time, end: Time, j: int) returns (i: nat)
    requires wakes != [] && TicksOnGrid(wakes, interval, end)
    requires 0 <= j && Point(wakes[0].now, interval, j) < end
    ensures i < |wakes| && wakes[i].now == Point(wakes[0].now, interval, j)
  {
    i :| 0 <= i < |wakes| && wakes[i].now == Point(wakes[0].now, interval, j);
  }

  lemma {:induction false} PeriodOfPoint(origin: Time, interval: Time, j: int)
    requires interval > 0
    ensures Period(origin, interval, Point(origin, interval, j)) == j
  {
    PointsOrdered(origin, interval, j, j + 1);
    PeriodIs(origin, interval, Point(origin, interval, j), j);
  }

  lemma {:induction false} PeriodsStartAtZero(wakes: seq<Wake>, interval: Time, k: nat)
    requires interval > 0 && k < |wakes| && Forward(wakes)
    ensures PeriodAt(wakes, interval, k) >= 0
  {
    PeriodIs(wakes[0].now, interval, wakes[0].now, 0);
    PeriodMonotone(wakes[0].now, interval, wakes[0].now, wakes[k].now);
  }

  lemma {:induction false} EarlierPeriodEarlierTick(wakes: seq<Wake>, interval: Time, i: nat, j: nat)
    requires interval > 0 && i < |wakes| && j < |wakes| && Forward(wakes)
    requires PeriodAt(wakes, interval, i) < PeriodAt(wakes, interval, j)
    ensures i < j
  {
    if j <= i {
      PeriodMonotone(wakes[0].now, interval, wakes[j].now, wakes[i].now);
    }
  }

  lemma {:induction false} ChangesGrow(wakes: seq<Wake>, interval: Time, k: nat, i: nat, j: nat)
    requires interval > 0 && k <= i < j < |wakes| && Forward(wakes)
    ensures Changes(wakes, interval, k, j)
            >= Changes(wakes, interval, k, i)
               + (if PeriodAt(wakes, interval, i) < PeriodAt(wakes, interval, j) then 1 else 0)
    decreases j
  {
    PeriodMonotone(wakes[0].now, interval, wakes[j - 1].now, wakes[j].now);
    if i < j - 1 {
      ChangesGrow(wakes, interval, k, i, j - 1);
    }
  }

  /** A tick on each of the next `n` grid points makes `n` crossings. */
  lemma {:induction false} PointsAreCrossed(wakes: seq<Wake>, interval: Time, end: Time, k: nat, n: nat)
    returns (i: nat)
    requires interval > 0 && k < |wakes| && Forward(wakes) && TicksOnGrid(wakes, interval, end)
    requires n > 0 ==> Point(wakes[0].now, interval, PeriodAt(wakes, interval, k) + n) < end
    ensures k <= i < |wakes| && PeriodAt(wakes, interval, i) == PeriodAt(wakes, interval, k) + n
    ensures Changes(wakes, interval, k, i) >= n
  {
    if n == 0 {
      i := k;
    } else {
      var p := PeriodAt(wakes, interval, k);
      PointsOrdered(wakes[0].now, interval, p + n - 1, p + n);
      var before := PointsAreCrossed(wakes, interval, end, k, n - 1);
      PeriodsStartAtZero(wakes, interval, k);
      i := TickAtPoint(wakes, interval, end, p + n);
      PeriodOfPoint(wakes[0].now, interval, p + n);
      EarlierPeriodEarlierTick(wakes, interval, before, i);
      ChangesGrow(wakes, interval, k, before, i);
    }
  }

  lemma {:induction false} ChangesMonotone(wakes: seq<Wake>, interval: Time, k: nat, i: nat, j: nat)
    requires interval > 0 && i <= j < |wakes|
    ensures Changes(wakes, interval, k, i) <= Changes(wakes, interval, k, j)
    decreases j
  {
    if i < j {
      ChangesMonotone(wakes, interval, k, i, j - 1);
    }
  }

  /** With few crossings, the point after as many has not come. */
  lemma {:induction false} NextPointAhead(wakes: seq<Wake>, interval: Time, end: Time, k: nat, m: nat)
    requires interval > 0 && k < |wakes| && Forward(wakes) && TicksOnGrid(wakes, interval, end)
    requires Changes(wakes, interval, k, |wakes| - 1) <= m
    ensures end <= Point(wakes[0].now, interval, PeriodAt(wakes, interval, k) + m + 1)
  {
    if Point(wakes[0].now, interval, PeriodAt(wakes, interval, k) + m + 1) < end {
      var i := PointsAreCrossed(wakes, interval, end, k, m + 1);
      ChangesMonotone(wakes, interval, k, i, |wakes| - 1);
    }
  }

  /** A tick that crosses a grid point comes no later than any tick on that point. */
  lemma {:induction false} FirstOnPoint(specs: seq<CmdSpec>, wakes: seq<Wake>, c: CmdSpec, k: nat, i: nat)
    requires Runs(specs, wakes, c) && Scheduled(wakes) && k < |wakes| && i < |wakes|
    requires c in IssuedAt(specs, wakes, k)
    requires wakes[i].now == Point(wakes[0].now, c.interval, PeriodAt(wakes, c.interval, k))
    ensures wakes[k].now == wakes[i].now
  {
    IssuedExactlyOnGridPoints(specs, wakes, c, k);
    PeriodOfPoint(wakes[0].now, c.interval, PeriodAt(wakes, c.interval, k));
    if i < k {
      PeriodMonotone(wakes[0].now, c.interval, wakes[i].now, wakes[k - 1].now);
    }
  }

  lemma {:induction false} SuccessNearPoint(specs: seq<CmdSpec>, wakes: seq<Wake>, c: CmdSpec, k: nat, end: Time)
    requires Runs(specs, wakes, c) && Scheduled(wakes) && k < |wakes|
    requires c in IssuedAt(specs, wakes, k) && TicksOnGrid(wakes, c.interval, end)
    ensures wakes[k].now >= end || wakes[k].now == Point(wakes[0].now, c.interval, PeriodAt(wakes, c.interval, k))
  {
    var p := PeriodAt(wakes, c.interval, k);
    if Point(wakes[0].now, c.interval, p) < end {
      PeriodsStartAtZero(wakes, c.interval, k);
      var i := TickAtPoint(wakes, c.interval, end, p);
      FirstOnPoint(specs, wakes, c, k, i);
    }
  }

  lemma {:induction false} AgeOfTicksOnGrid(wakes: seq<Wake>, interval: Time, k: nat, m: nat, end: Time)
    requires interval > 0 && k < |wakes| && Forward(wakes) && TicksOnGrid(wakes, interval, end)
    requires wakes[k].now >= end || wakes[k].now == Point(wakes[0].now, interval, PeriodAt(wakes, interval, k))
    requires Changes(wakes, interval, k, |wakes| - 1) <= m
    ensures end - wakes[k].now <= interval * (m + 1)
  {
    var p := PeriodAt(wakes, interval, k);
    assert interval * (m + 1) >= 0;
    NextPointAhead(wakes, interval, end, k, m);
    PointsOrdered(wakes[0].now, interval, p, p + m + 1);
    assert interval * (p + m + 1 - p) == interval * (m + 1);
  }

  /** When every grid point has a tick whose poll commits at most `late` after it, whatever ticks come in
      between, data is no older after `m` misses than `m + 1` intervals and the poll in flight. */
  lemma {:induction false} AgeBoundOnGrid(x: Sighting, c: CmdSpec, late: Time, m: nat)
    requires Seen(x, c, m) && late >= 0 && TicksOnGrid(x.wakes, c.interval, x.now - late)
    ensures x.now - x.wakes[x.k].now <= c.interval * (m + 1) + late
  {
    var end := x.now - late;
    SeenMeans(x, c, m, 0);
    assert end - x.wakes[x.k].now <= c.interval * (m + 1) by {
      SuccessNearPoint(x.specs, x.wakes, c, x.k, end);
      AgeOfTicksOnGrid(x.wakes, c.interval, x.k, m, end);
    }
  }

  /** So polls that commit at once leave two misses on the grid fresh, and each further miss takes one more
      interval of limit. */
  lemma {:induction false} MissesOnGridStayFresh(x: Sighting, c: CmdSpec, late: Time, m: nat, stalenessLimit: Time)
    requires Seen(x, c, m) && late >= 0 && TicksOnGrid(x.wakes, c.interval, x.now - late)
    requires c.interval * (m + 1) + late <= Max(stalenessLimit, 3 * c.interval)
    ensures Fresh(stalenessLimit, x.sw, c.name, x.now)
  {
    AgeBoundOnGrid(x, c, late, m);
    SeenMeans(x, c, m, stalenessLimit);
  }

  // --- The ticks of a poll loop -----------------------------------------------------------------

  ghost predicate SightedInLoop(x: Sighting, c: CmdSpec, first: Time, tick: Time, late: Time, m: nat) {
    Seen(x, c, m) && LoopTicks(x.wakes, first, tick) && BeforeNextCommit(x, first, tick, late)
  }

  /** Up to `m` misses in a row never take the command's data out of a scrape, in any run of a poll loop. */
  ghost predicate Tolerates(c: CmdSpec, first: Time, tick: Time, late: Time, stalenessLimit: Time, m: nat) {
    forall x: Sighting :: SightedInLoop(x, c, first, tick, late, m) ==> Fresh(stalenessLimit, x.sw, c.name, x.now)
  }

  /** The age data can reach after a success at a later tick: `m + 1` intervals, rounded up to whole ticks. */
  function GreatestAge(interval: Time, tick: Time, m: nat): Time
    requires tick > 0
  {
    tick * Ceil(interval * (m + 1), tick)
  }

  /** The age it can reach after a success at the first tick: the first tick at or after the grid point
      that follows the last one passed. */
  function FirstAge(interval: Time, first: Time, tick: Time, m: nat): Time
    requires tick > 0 && interval > 0
  {
    TickAt(first, tick, 1 + TicksBefore(interval, first, tick, m))
  }

  /** The ticks from the second on before that point. */
  function TicksBefore(interval: Time, first: Time, tick: Time, m: nat): nat
    requires tick > 0 && interval > 0
  {
    Max(0, Ceil(Point(0, interval, Rise(Period(0, interval, first), 1, m) + 1) - first, tick))
  }

  lemma {:induction false} LoopForward(wakes: seq<Wake>, first: Time, tick: Time, interval: Time)
    requires interval > 0 && 0 < tick <= first && tick <= interval && LoopTicks(wakes, first, tick) && Forward(wakes)
    ensures StepsWithin(wakes, interval, Period(0, interval, first), 1)
  {
    forall i: nat | 0 < i < |wakes|
      ensures StepAt(wakes, interval, i) <= (if i == 1 then Period(0, interval, first) else 1)
    {
      assert wakes[i - 1].now <= wakes[i].now;
      if i == 1 {
        PeriodOfTick(wakes, first, tick, interval, 1);
        PeriodIs(wakes[0].now, interval, wakes[0].now, 0);
      } else {
        TicksApart(first, tick, i - 1, i);
        PeriodAdvancesByOne(wakes[0].now, interval, wakes[i - 1].now, wakes[i].now);
      }
    }
  }

  lemma {:induction false} TicksWithin(tick: Time, n: int, reach: Time, end: Time)
    requires tick > 0 && tick * n < end && end <= reach
    ensures n < Ceil(reach, tick)
  {
    var q := Ceil(reach, tick);
    if q <= n {
      PointsOrdered(0, tick, q, n);
    }
  }

  lemma {:induction false} AgeAfterLaterSuccess(wakes: seq<Wake>, interval: Time, first: Time, tick: Time, k: nat,
                                                m: nat)
    requires 0 < tick <= first && tick <= interval && 1 <= k < |wakes|
    requires Forward(wakes) && LoopTicks(wakes, first, tick) && Changes(wakes, interval, k, |wakes| - 1) <= m
    ensures NextBy(wakes, first, tick) - wakes[k].now <= GreatestAge(interval, tick, m)
  {
    var last := |wakes| - 1;
    LoopForward(wakes, first, tick, interval);
    LaterPeriodsRise(wakes, interval, Period(0, interval, first), 1, k, last);
    LastTickBefore(wakes[0].now, interval, wakes[k].now, wakes[last].now, m);
    TicksApart(first, tick, k, last);
    TicksWithin(tick, last - k, interval * (m + 1), interval * (m + 1));
    var n := Ceil(interval * (m + 1), tick);
    PointsOrdered(0, tick, last - k, last - k + 1);
    PointsOrdered(0, tick, last - k + 1, n);
  }

  lemma {:induction false} AgeAfterFirstSuccess(wakes: seq<Wake>, interval: Time, first: Time, tick: Time, m: nat)
    requires 0 < tick <= first && tick <= interval && wakes != []
    requires Forward(wakes) && LoopTicks(wakes, first, tick) && Changes(wakes, interval, 0, |wakes| - 1) <= m
    ensures NextBy(wakes, first, tick) - wakes[0].now <= FirstAge(interval, first, tick, m)
  {
    var last, n := |wakes| - 1, TicksBefore(interval, first, tick, m);
    if last == 0 {
      TicksApart(first, tick, 1, 1 + n);
    } else {
      var most := Period(0, interval, first);
      LoopForward(wakes, first, tick, interval);
      PeriodsRise(wakes, interval, most, 1, 0, last);
      RiseMonotone(most, 1, Changes(wakes, interval, 0, last), m);
      LastTickBefore(wakes[0].now, interval, wakes[0].now, wakes[last].now, Rise(most, 1, m));
      var point := Point(0, interval, Rise(most, 1, m) + 1);
      TicksApart(first, tick, 1, last);
      TicksWithin(tick, last - 1, point - first, point - first);
      TicksApart(first, tick, last, last + 1);
      TicksApart(first, tick, last + 1, n + 1);
    }
  }

  lemma {:induction false} AgeOfLoop(wakes: seq<Wake>, interval: Time, first: Time, tick: Time, k: nat, m: nat)
    requires 0 < tick <= first && tick <= interval && k < |wakes|
    requires Forward(wakes) && LoopTicks(wakes, first, tick) && Changes(wakes, interval, k, |wakes| - 1) <= m
    ensures NextBy(wakes, first, tick) - wakes[k].now
            <= Max(GreatestAge(interval, tick, m), FirstAge(interval, first, tick, m))
  {
    if k == 0 {
      AgeAfterFirstSuccess(wakes, interval, first, tick, m);
    } else {
      AgeAfterLaterSuccess(wakes, interval, first, tick, k, m);
    }
  }

  lemma {:induction false} AgeInLoop(x: Sighting, c: CmdSpec, first: Time, tick: Time, late: Time, m: nat)
    requires SightedInLoop(x, c, first, tick, late, m) && 0 < tick <= first && tick <= c.interval
    ensures x.now - x.wakes[x.k].now
            <= Max(GreatestAge(c.interval, tick, m), FirstAge(c.interval, first, tick, m)) + late
  {
    assert x.k < |x.wakes| && Forward(x.wakes) && Changes(x.wakes, c.interval, x.k, |x.wakes| - 1) <= m by {
      SeenMeans(x, c, m, 0);
    }
    AgeOfLoop(x.wakes, c.interval, first, tick, x.k, m);
  }

  // --- Loops that reach those ages --------------------------------------------------------------

  /** A run of the loop, seen between its last tick and the commit of the next. */
  ghost predicate LoopUpTo(wakes: seq<Wake>, c: CmdSpec, first: Time, tick: Time, late: Time, k: nat, success: Time,
                           now: Time)
  {
    && k < |wakes| && Runs([c], wakes, c) && Scheduled(wakes) && LoopTicks(wakes, first, tick)
    && c in IssuedAt([c], wakes, k) && wakes[k].now == success
    && wakes[|wakes| - 1].now <= now <= NextBy(wakes, first, tick) + late
  }

  lemma {:induction false} LoopIsRun(c: CmdSpec, first: Time, tick: Time, k: nat, n: nat, late: Time, now: Time)
    requires 0 < tick <= first && c.interval > 0 && k < n && Crosses(first, tick, c.interval, k)
    requires TickAt(first, tick, n - 1) <= now <= TickAt(first, tick, n) + late
    ensures LoopUpTo(LoopRun(first, tick, n), c, first, tick, late, k, TickAt(first, tick, k), now)
  {
    var wakes := LoopRun(first, tick, n);
    LoopRunIsLoop(first, tick, n);
    LoopIssues([c], wakes, c, first, tick, k);
    if n > 1 {
      TicksApart(first, tick, n - 1, n);
    }
  }

  /** With few enough crossings after its success it goes stale as its age says. */
  lemma {:induction false} LoopGoesStale(wakes: seq<Wake>, c: CmdSpec, first: Time, tick: Time, late: Time, k: nat,
                                         success: Time, now: Time, stalenessLimit: Time, m: nat)
    requires LoopUpTo(wakes, c, first, tick, late, k, success, now)
    requires Changes(wakes, c.interval, k, |wakes| - 1) <= m
    requires now - success > Max(stalenessLimit, 3 * c.interval)
    ensures var x := Failing([c], wakes, k, now);
            SightedInLoop(x, c, first, tick, late, m) && !Fresh(stalenessLimit, x.sw, c.name, now)
  {
    FailingIsSeen([c], wakes, c, k, now, m, stalenessLimit);
  }

  lemma {:induction false} StaleBreaks(wakes: seq<Wake>, c: CmdSpec, first: Time, tick: Time, late: Time, k: nat,
                                       success: Time, now: Time, stalenessLimit: Time, m: nat)
    requires LoopUpTo(wakes, c, first, tick, late, k, success, now)
    requires Changes(wakes, c.interval, k, |wakes| - 1) <= m
    requires now - success > Max(stalenessLimit, 3 * c.interval)
    ensures !Tolerates(c, first, tick, late, stalenessLimit, m)
  {
    LoopGoesStale(wakes, c, first, tick, late, k, success, now, stalenessLimit, m);
    assert SightedInLoop(Failing([c], wakes, k, now), c, first, tick, late, m);
  }

  lemma {:induction false} ChangesOfLoop(first: Time, tick: Time, interval: Time, n: nat, k: nat, rise: int)
    requires 0 < tick <= first && interval > 0 && k < n
    requires TickAt(first, tick, n - 1) < Point(0, interval, TickPeriod(first, tick, interval, k) + rise + 1)
    ensures Changes(LoopRun(first, tick, n), interval, k, n - 1) <= rise
  {
    var wakes := LoopRun(first, tick, n);
    LoopRunIsLoop(first, tick, n);
    ChangesWithinPeriods(wakes, interval, k, n - 1);
    PeriodOfTick(wakes, first, tick, interval, k);
    PeriodOfTick(wakes, first, tick, interval, n - 1);
    PeriodBelow(interval, TickAt(first, tick, n - 1), TickPeriod(first, tick, interval, k) + rise);
  }

  lemma {:induction false} PeriodBelow(interval: Time, t: Time, p: int)
    requires interval > 0 && t < Point(0, interval, p + 1)
    ensures Period(0, interval, t) <= p
  {
    var q := Period(0, interval, t);
    if q > p {
      PointsOrdered(0, interval, p + 1, q);
    }
  }

  lemma {:induction false} ChangesFromSecond(wakes: seq<Wake>, interval: Time, j: nat)
    requires interval > 0 && 1 <= j < |wakes|
    ensures Changes(wakes, interval, 0, j) <= 1 + Changes(wakes, interval, 1, j)
    decreases j
  {
    if j > 1 {
      ChangesFromSecond(wakes, interval, j - 1);
    }
  }

  lemma {:induction false} ChangesAfterCrossing(first: Time, tick: Time, interval: Time, n: nat, most: int, rise: int)
    requires 0 < tick <= first && interval > 0 && n > 0 && most == Period(0, interval, first)
    requires TickAt(first, tick, n) < Point(0, interval, rise + 1)
    ensures Changes(LoopRun(first, tick, n + 1), interval, 0, n) <= 1 + rise - most
  {
    ChangesFromSecond(LoopRun(first, tick, n + 1), interval, n);
    ChangesOfLoop(first, tick, interval, n + 1, 1, rise - most);
  }

  /** The crossings after the first tick, up to the last one before the point that is passed. */
  lemma {:induction false} ChangesBeforePoint(first: Time, tick: Time, interval: Time, m: nat)
    requires 0 < tick <= first && tick <= interval
    ensures var n := TicksBefore(interval, first, tick, m);
            Changes(LoopRun(first, tick, n + 1), interval, 0, n) <= m
  {
    var n, most := TicksBefore(interval, first, tick, m), Period(0, interval, first);
    var rise := Rise(most, 1, m);
    if n > 0 {
      assert TickAt(first, tick, n) < Point(0, interval, rise + 1) && (m == 0 ==> most == 0) by {
        LastBeforePoint(first, tick, interval, m);
      }
      PeriodIs(0, interval, 0, 0);
      PeriodMonotone(0, interval, 0, first);
      if most == 0 {
        ChangesOfLoop(first, tick, interval, n + 1, 0, rise);
      } else {
        ChangesAfterCrossing(first, tick, interval, n, most, rise);
      }
    }
  }

  lemma {:induction false} LastBeforePoint(first: Time, tick: Time, interval: Time, m: nat)
    requires 0 < tick <= first && tick <= interval && TicksBefore(interval, first, tick, m) > 0
    ensures TickAt(first, tick, TicksBefore(interval, first, tick, m))
            < Point(0, interval, Rise(Period(0, interval, first), 1, m) + 1)
    ensures m == 0 ==> Period(0, interval, first) == 0
  {
    var n, most := TicksBefore(interval, first, tick, m), Period(0, interval, first);
    PointsOrdered(first, tick, n - 1, n);
    if m == 0 {
      PeriodBelow(interval, first, 0);
      PeriodIs(0, interval, 0, 0);
      PeriodMonotone(0, interval, 0, first);
    }
  }

  lemma {:induction false} FirstAgeIsReached(c: CmdSpec, first: Time, tick: Time, late: Time, stalenessLimit: Time,
                                             m: nat)
    requires 0 < tick <= first && tick <= c.interval && late >= 0
    requires FirstAge(c.interval, first, tick, m) + late > Max(stalenessLimit, 3 * c.interval)
    ensures !Tolerates(c, first, tick, late, stalenessLimit, m)
  {
    var n := TicksBefore(c.interval, first, tick, m);
    ChangesBeforePoint(first, tick, c.interval, m);
    TicksForward(first, tick, n, n + 1);
    var now := FirstAge(c.interval, first, tick, m) + late;
    LoopIsRun(c, first, tick, 0, n + 1, late, now);
    StaleBreaks(LoopRun(first, tick, n + 1), c, first, tick, late, 0, 0, now, stalenessLimit, m);
  }

  /** A tick from which `m + 1` intervals take as many ticks as they ever do: each one from which they take
      fewer leaves a later one closer to its grid point. */
  lemma {:induction false} FindPhase(first: Time, tick: Time, interval: Time, span: Time, m: nat, n: int, k: nat)
    returns (j: nat)
    requires 0 < tick <= first && tick <= interval && k >= 2 && n > 0
    requires span == interval * (m + 1) && tick * (n - 1) < span
    ensures j >= 2 && Behind(first, tick, interval, j) + tick * (n - 1) < span
    decreases Behind(first, tick, interval, k)
  {
    j := k;
    if Behind(first, tick, interval, k) + tick * (n - 1) >= span {
      CloserToPoint(first, tick, interval, span, m, n, k);
      j := FindPhase(first, tick, interval, span, m, n, k + n - 1);
    }
  }

  lemma {:induction false} CloserToPoint(first: Time, tick: Time, interval: Time, span: Time, m: nat, n: int, k: nat)
    requires 0 < tick <= first && tick <= interval && k >= 2 && n > 0
    requires span == interval * (m + 1) && tick * (n - 1) < span
    requires Behind(first, tick, interval, k) + tick * (n - 1) >= span
    ensures 0 <= Behind(first, tick, interval, k + n - 1) < Behind(first, tick, interval, k)
  {
    var p, q := TickPeriod(first, tick, interval, k), TickPeriod(first, tick, interval, k) + m + 1;
    TicksApart(first, tick, k, k + n - 1);
    PointsOrdered(0, interval, p, q);
    PointsOrdered(0, interval, p, p + 1);
    PointsOrdered(0, interval, q, q + 1);
    PeriodIs(0, interval, TickAt(first, tick, k + n - 1), q);
  }

  lemma {:induction false} CloseTickCrosses(first: Time, tick: Time, interval: Time, k: nat)
    requires 0 < tick <= first && tick <= interval && k >= 2 && Behind(first, tick, interval, k) < tick
    ensures Crosses(first, tick, interval, k)
  {
    TicksApart(first, tick, k - 1, k);
    PeriodBelow(interval, TickAt(first, tick, k - 1), TickPeriod(first, tick, interval, k) - 1);
  }

  lemma {:induction false} GreatestAgeIsReached(c: CmdSpec, first: Time, tick: Time, late: Time, stalenessLimit: Time,
                                                m: nat)
    requires 0 < tick <= first && tick <= c.interval && late >= 0
    requires GreatestAge(c.interval, tick, m) + late > Max(stalenessLimit, 3 * c.interval)
    ensures !Tolerates(c, first, tick, late, stalenessLimit, m)
  {
    var span := c.interval * (m + 1);
    var n := Ceil(span, tick);
    SpanTicks(c.interval, tick, m, n);
    var k := FindPhase(first, tick, c.interval, span, m, n, 2);
    CloseTickCrosses(first, tick, c.interval, k);
    TicksApart(first, tick, k, k + n - 1);
    TicksApart(first, tick, k, k + n);
    var p := TickPeriod(first, tick, c.interval, k);
    PointsOrdered(0, c.interval, p, p + m + 1);
    ChangesOfLoop(first, tick, c.interval, k + n, k, m);
    var now := TickAt(first, tick, k + n) + late;
    LoopIsRun(c, first, tick, k, k + n, late, now);
    StaleBreaks(LoopRun(first, tick, k + n), c, first, tick, late, k, TickAt(first, tick, k), now, stalenessLimit, m);
  }

  lemma {:induction false} SpanTicks(interval: Time, tick: Time, m: nat, n: int)
    requires 0 < tick <= interval && n == Ceil(interval * (m + 1), tick)
    ensures n > 0 && tick * (n - 1) < interval * (m + 1) <= tick * (n - 1) + tick == tick * n
  {
    PointsOrdered(0, interval, 1, m + 1);
    if n <= 0 {
      PointsOrdered(0, tick, n, 0);
    }
    assert tick * (n - 1) == tick * n - tick;
  }

  /** In a poll loop whose ticks are no further apart than the interval, `m` misses in a row are tolerated
      in every run and at every instant exactly when the age they allow, and the time a poll takes, fit the
      longer of the configured limit and three intervals. */
  lemma {:induction false} ToleratesIff(c: CmdSpec, first: Time, tick: Time, late: Time, stalenessLimit: Time, m: nat)
    requires 0 < tick <= first && tick <= c.interval && late >= 0
    ensures Tolerates(c, first, tick, late, stalenessLimit, m)
            <==> Max(GreatestAge(c.interval, tick, m), FirstAge(c.interval, first, tick, m)) + late
                 <= Max(stalenessLimit, 3 * c.interval)
  {
    var limit := Max(stalenessLimit, 3 * c.interval);
    if GreatestAge(c.interval, tick, m) + late > limit {
      GreatestAgeIsReached(c, first, tick, late, stalenessLimit, m);
    } else if FirstAge(c.interval, first, tick, m) + late > limit {
      FirstAgeIsReached(c, first, tick, late, stalenessLimit, m);
    } else {
      forall x: Sighting | SightedInLoop(x, c, first, tick, late, m)
        ensures Fresh(stalenessLimit, x.sw, c.name, x.now)
      {
        AgeInLoop(x, c, first, tick, late, m);
        SeenMeans(x, c, m, stalenessLimit);
      }
    }
  }

  // --- Two missed polls under the default limit -------------------------------------------------

  lemma {:induction false} RoundedUpIsExact(a: int, b: int, n: int)
    requires b > 0 && b * n - b < a <= b * n
    ensures b * n <= a <==> a % b == 0
  {
    var p := Period(0, b, a);
    assert a == b * p + a % b;
    if a % b == 0 {
      RoundedUpOnce(a, b, n, p);
    }
    if b * n == a {
      PeriodIs(0, b, a, n);
    }
  }

  /** With a first poll that takes no time, the first success is like any other. */
  lemma {:induction false} FirstAgeOfExactLoop(interval: Time, tick: Time, m: nat)
    requires 0 < tick <= interval
    ensures FirstAge(interval, tick, tick, m) == GreatestAge(interval, tick, m)
  {
    var n := Ceil(interval * (m + 1), tick);
    SpanTicks(interval, tick, m, n);
    assert Rise(Period(0, interval, tick), 1, m) == m by {
      PeriodMonotone(0, interval, tick, interval);
      PeriodIs(0, interval, interval, 1);
    }
    CeilIs(interval * (m + 1) - tick, tick, n - 1);
    assert Point(tick, tick, n - 1) == tick * n;
  }

  lemma {:induction false} ThreeIntervalsFit(interval: Time, tick: Time, late: Time)
    requires 0 < tick <= interval && late >= 0
    ensures GreatestAge(interval, tick, 2) + late <= Max(3 * tick, 3 * interval)
            <==> late == 0 && (3 * interval) % tick == 0
  {
    RoundedUpIsExact(3 * interval, tick, Ceil(3 * interval, tick));
  }

  lemma {:induction false} TwoMissAges(interval: Time, first: Time, tick: Time, late: Time)
    requires 0 < tick <= first <= tick + late && tick <= interval
    ensures Max(GreatestAge(interval, tick, 2), FirstAge(interval, first, tick, 2)) + late
            <= Max(3 * tick, 3 * interval)
            <==> late == 0 && (3 * interval) % tick == 0
  {
    ThreeIntervalsFit(interval, tick, late);
    if late == 0 {
      FirstAgeOfExactLoop(interval, tick, 2);
    }
  }

  /** Under the default limit of three ticks, in a loop whose first poll takes no longer than any other, two
      missed polls are tolerated exactly when polls take no time and three intervals are a whole number of
      ticks. */
  lemma {:induction false} TwoMissesToleratedIff(c: CmdSpec, first: Time, tick: Time, late: Time)
    requires 0 < tick <= first <= tick + late && tick <= c.interval
    ensures Tolerates(c, first, tick, late, 3 * tick, 2) <==> late == 0 && (3 * c.interval) % tick == 0
  {
    ToleratesIff(c, first, tick, late, 3 * tick, 2);
    TwoMissAges(c.interval, first, tick, late);
  }

  /** A 45 s group on a 30 s tick, with the default limit of 90 s and polls that take no time: two misses in
      a row, at 60 s and 90 s, and at 149 s its data is gone although the next poll is not due before 150 s. */
  lemma {:induction false} TwoMissesOffGridGoStale(c: CmdSpec)
    requires c.interval == 45 * SECOND
    ensures var x := Failing([c], LoopRun(30 * SECOND, 30 * SECOND, 5), 0, 149 * SECOND);
            SightedInLoop(x, c, 30 * SECOND, 30 * SECOND, 0, 2) && !Fresh(90 * SECOND, x.sw, c.name, 149 * SECOND)
  {
    PeriodIs(0, c.interval, 0, 0);
    ChangesOfLoop(30 * SECOND, 30 * SECOND, c.interval, 5, 0, 2);
    LoopIsRun(c, 30 * SECOND, 30 * SECOND, 0, 5, 0, 149 * SECOND);
    LoopGoesStale(LoopRun(30 * SECOND, 30 * SECOND, 5), c, 30 * SECOND, 30 * SECOND, 0, 0, 0, 149 * SECOND,
                  90 * SECOND, 2);
  }

  /** A 30 s group on a 30 s tick: two misses in a row, at 30 s and 60 s, and at 91 s its data is gone while
      the poll of the tick at 90 s waits for the switch. */
  lemma {:induction false} TwoMissesGoStaleInFlight(c: CmdSpec)
    requires c.interval == 30 * SECOND
    ensures var x := Failing([c], LoopRun(30 * SECOND, 30 * SECOND, 3), 0, 91 * SECOND);
            SightedInLoop(x, c, 30 * SECOND, 30 * SECOND, SECOND, 2) && !Fresh(90 * SECOND, x.sw, c.name, 91 * SECOND)
  {
    PeriodIs(0, c.interval, 0, 0);
    ChangesOfLoop(30 * SECOND, 30 * SECOND, c.interval, 3, 0, 2);
    LoopIsRun(c, 30 * SECOND, 30 * SECOND, 0, 3, SECOND, 91 * SECOND);
    LoopGoesStale(LoopRun(30 * SECOND, 30 * SECOND, 3), c, 30 * SECOND, 30 * SECOND, SECOND, 0, 0, 91 * SECOND,
                  90 * SECOND, 2);
  }

  /** The same group after a first poll of 2 s: misses at 32 s and 62 s, and at 91 s its data is gone before
      the next tick. */
  lemma {:induction false} TwoMissesAfterSlowStartGoStale(c: CmdSpec)
    requires c.interval == 30 * SECOND
    ensures var x := Failing([c], LoopRun(32 * SECOND, 30 * SECOND, 3), 0, 91 * SECOND);
            SightedInLoop(x, c, 32 * SECOND, 30 * SECOND, 0, 2) && !Fresh(90 * SECOND, x.sw, c.name, 91 * SECOND)
  {
    PeriodIs(0, c.interval, 0, 0);
    ChangesOfLoop(32 * SECOND, 30 * SECOND, c.interval, 3, 0, 2);
    LoopIsRun(c, 32 * SECOND, 30 * SECOND, 0, 3, 0, 91 * SECOND);
    LoopGoesStale(LoopRun(32 * SECOND, 30 * SECOND, 3), c, 32 * SECOND, 30 * SECOND, 0, 0, 0, 91 * SECOND,
                  90 * SECOND, 2);
  }
}
