/** The liveness and readiness probes, and what the pollers must do for them to hold. */
module Health {
  import opened Basics
  import opened Catalogue
  import opened Grid
  import opened Schedule
  import opened Secret
  import opened Eapi
  import opened Poll
  import opened History
  import Engine
  import Offset

  const PROGRESS_MULTIPLE := 10

  // --- The probes -------------------------------------------------------------------------------

  predicate Cycling(attempt: Option<Time>, started: Time, interval: Time, now: Time) {
    match attempt
    case None => now - started < PROGRESS_MULTIPLE * interval
    case Some(last) => now - last <= PROGRESS_MULTIPLE * interval
  }

  class Checker {
    const interval: Time
    const started: Time

    constructor (interval: Time, started: Time)
      ensures this.interval == interval && this.started == started
    {
      this.interval, this.started := interval, started;
    }

    method Live(store: seq<SwitchState>, now: Time) returns (live: bool)
      ensures live <==> forall i :: 0 <= i < |store| ==> Cycling(store[i].lastAttempt, started, interval, now)
    {
      var window := PROGRESS_MULTIPLE * interval;
      var young := now - started < window;
      for i := 0 to |store|
        invariant forall k :: 0 <= k < i ==> Cycling(store[k].lastAttempt, started, interval, now)
      {
        var last := store[i].lastAttempt;
        if last.None? {
          if young {
            continue;
          }
          assert !Cycling(store[i].lastAttempt, started, interval, now);
          return false;
        }
        if now - last.value > window {
          assert !Cycling(store[i].lastAttempt, started, interval, now);
          return false;
        }
      }
      return true;
    }

    method Ready(store: seq<SwitchState>) returns (ready: bool)
      ensures ready <==> forall i :: 0 <= i < |store| ==> store[i].lastAttempt.Some?
    {
      for i := 0 to |store|
        invariant forall k :: 0 <= k < i ==> store[k].lastAttempt.Some?
      {
        var attempted := store[i].lastAttempt.Some?;
        if !attempted {
          return false;
        }
      }
      return true;
    }
  }

  // --- Pollers ----------------------------------------------------------------------------------

  /** One switch's poll loop up to some instant: the ticks whose poll has completed. */
  datatype Poller = Poller(specs: seq<CmdSpec>, wakes: seq<Wake>, polls: seq<PollRecord>) {
    function Attempt(): Option<Time> {
      AfterPolls(polls).lastAttempt
    }
  }

  /** A poll loop of scheduled ticks over a command list that polls `show version` every interval. */
  ghost predicate Looping(p: Poller, interval: Time) {
    && Engine.FollowsSchedule(p.specs, p.wakes, p.polls)
    && Forward(p.wakes) && Scheduled(p.wakes)
    && Distinct(p.specs) && interval > 0
    && exists c :: c in p.specs && c.name == ShowVersion && c.interval == interval
  }

  /** Polls take time, and each completes within nine intervals of the tick before. */
  ghost predicate Prompt(p: Poller, begin: Time, interval: Time, now: Time) {
    && |p.wakes| == |p.polls|
    && (forall k :: 0 <= k < |p.polls| ==> p.wakes[k].now <= p.polls[k].clock.attempted)
    && (p.wakes != [] ==> p.wakes[0].now == begin)
    && now <= (if p.wakes == [] then begin else p.wakes[|p.wakes| - 1].now) + 9 * interval
  }

  ghost predicate NeverRefused(p: Poller) {
    forall k :: 0 <= k < |p.polls| ==> p.polls[k].answers.Answered?
  }

  predicate Skips(specs: seq<CmdSpec>, wakes: seq<Wake>, c: CmdSpec, k: nat)
    requires k < |wakes|
  {
    c !in IssuedAt(specs, wakes, k)
  }

  lemma {:induction false} SkippedTickStaysInPeriod(specs: seq<CmdSpec>, wakes: seq<Wake>, c: CmdSpec, n: nat)
    requires Runs(specs, wakes, c) && Scheduled(wakes) && 0 < n < |wakes| && Skips(specs, wakes, c, n)
    ensures Period(wakes[0].now, c.interval, wakes[n].now) == Period(wakes[0].now, c.interval, wakes[n - 1].now)
  {
    IssuedExactlyOnGridPoints(specs, wakes, c, n);
    PeriodMonotone(wakes[0].now, c.interval, wakes[n - 1].now, wakes[n].now);
  }

  /** Ticks that skip a command leave the clock in the period of the last one that issued it. */
  lemma {:induction false} QuietTicksStayInPeriod(specs: seq<CmdSpec>, wakes: seq<Wake>, c: CmdSpec, k: nat, n: nat)
    requires Runs(specs, wakes, c) && Scheduled(wakes) && k <= n < |wakes|
    requires forall j: nat :: k < j <= n ==> Skips(specs, wakes, c, j)
    ensures Period(wakes[0].now, c.interval, wakes[n].now) == Period(wakes[0].now, c.interval, wakes[k].now)
    decreases n
  {
    if k < n {
      QuietTicksStayInPeriod(specs, wakes, c, k, n - 1);
      SkippedTickStaysInPeriod(specs, wakes, c, n);
    }
  }

  /** The first tick of a loop issues something. */
  lemma {:induction false} FirstTickPolls(p: Poller, interval: Time, c: CmdSpec)
    requires Looping(p, interval) && c in p.specs && c.interval == interval && p.polls != []
    ensures p.polls[0].issued != []
    ensures Last(p.polls, IsPoll).Some?
  {
    IssuedExactlyOnGridPoints(p.specs, p.wakes, c, 0);
    assert IsPoll(p.polls[0]);
  }

  lemma {:induction false} AnsweredIsPoll(p: Poller)
    requires NeverRefused(p)
    ensures Last(p.polls, IsAnswered) == Last(p.polls, IsPoll)
  {
    var polled, answered := Last(p.polls, IsPoll), Last(p.polls, IsAnswered);
    if polled.Some? {
      assert IsAnswered(p.polls[polled.value]);
    }
    if answered.Some? {
      assert IsPoll(p.polls[answered.value]);
    }
  }

  lemma {:induction false} SamePeriodIsClose(origin: Time, interval: Time, t: Time, u: Time)
    requires interval > 0 && Period(origin, interval, t) == Period(origin, interval, u)
    ensures u < t + interval
  {
    var period := Period(origin, interval, t);
    PointsOrdered(origin, interval, period, period + 1);
  }

  lemma {:induction false} TicksAfterLastPollSkip(p: Poller, c: CmdSpec, k: nat)
    requires Engine.FollowsSchedule(p.specs, p.wakes, p.polls) && Last(p.polls, IsPoll) == Some(k)
    ensures forall j: nat :: k < j < |p.wakes| ==> Skips(p.specs, p.wakes, c, j)
  {
    forall j: nat | k < j < |p.wakes|
      ensures Skips(p.specs, p.wakes, c, j)
    {
      assert !IsPoll(p.polls[j]);
    }
  }

  lemma {:induction false} LastIssueIsRecent(specs: seq<CmdSpec>, wakes: seq<Wake>, c: CmdSpec, k: nat)
    requires Runs(specs, wakes, c) && Scheduled(wakes) && k < |wakes|
    requires forall j: nat :: k < j < |wakes| ==> Skips(specs, wakes, c, j)
    ensures wakes[|wakes| - 1].now < wakes[k].now + c.interval
  {
    QuietTicksStayInPeriod(specs, wakes, c, k, |wakes| - 1);
    SamePeriodIsClose(wakes[0].now, c.interval, wakes[k].now, wakes[|wakes| - 1].now);
  }

  /** The last tick is less than an interval after the last one that issued something. */
  lemma {:induction false} LastPollIsRecent(p: Poller, interval: Time)
    requires Looping(p, interval) && p.polls != []
    ensures Last(p.polls, IsPoll).Some?
    ensures p.wakes[|p.wakes| - 1].now < p.wakes[Last(p.polls, IsPoll).value].now + interval
  {
    var c :| c in p.specs && c.name == ShowVersion && c.interval == interval;
    FirstTickPolls(p, interval, c);
    var k := Last(p.polls, IsPoll).value;
    TicksAfterLastPollSkip(p, c, k);
    LastIssueIsRecent(p.specs, p.wakes, c, k);
  }

  /** A poller that ticks is never seen as stuck, however its ticks drift within nine intervals. */
  lemma {:induction false} TickingPollerIsCycling(p: Poller, begin: Time, started: Time, interval: Time, now: Time)
    requires Looping(p, interval) && Prompt(p, begin, interval, now) && NeverRefused(p)
    requires begin < started + interval
    ensures Cycling(p.Attempt(), started, interval, now)
  {
    ClocksByHistory(p.polls);
    AnsweredIsPoll(p);
    if p.polls != [] {
      LastPollIsRecent(p, interval);
    }
  }

  /** Every run of the engine over scheduled ticks is such a loop, with the attempt time it leaves. */
  lemma {:induction false} EngineIsLooping(w: World, parser: Parser, c: ClientState, specs: seq<CmdSpec>,
                                           calls: seq<Engine.Call>, interval: Time)
    requires specs != [] && Distinct(specs) && specs[0].name == ShowVersion && specs[0].interval == interval > 0
    requires Forward(Engine.Wakes(calls)) && Scheduled(Engine.Wakes(calls))
    ensures var p := Poller(specs, Engine.Wakes(calls), Engine.RecordsOf(w, parser, c, specs, calls));
            Looping(p, interval) && p.Attempt() == Engine.EngineOn(w, parser, c, specs, calls).1.lastAttempt
  {
    Engine.EngineIsHistory(w, parser, c, specs, calls);
    assert specs[0] in specs;
  }

  /** While every poller is launched before the checker starts and waits its offset, completes each poll
      within nine intervals of the tick before, and never meets a transport or HTTP failure, `Live` holds at
      every instant: `pollers` is what each loop has completed by `now`. */
  lemma {:induction false} FleetStaysLive(pollers: seq<Poller>, launched: seq<Time>, draws: seq<int>, started: Time,
                                          interval: Time, now: Time)
    requires interval > 0 && |draws| == |pollers| == |launched|
    requires forall i :: 0 <= i < |pollers| ==>
      && Looping(pollers[i], interval) && NeverRefused(pollers[i]) && launched[i] <= started
      && Prompt(pollers[i], launched[i] + Offset.Start(i, |pollers|, interval, draws), interval, now)
    ensures forall i :: 0 <= i < |pollers| ==> Cycling(pollers[i].Attempt(), started, interval, now)
  {
    forall i | 0 <= i < |pollers|
      ensures Cycling(pollers[i].Attempt(), started, interval, now)
    {
      var begin := launched[i] + Offset.Start(i, |pollers|, interval, draws);
      Offset.StartInRange(i, |pollers|, interval, draws);
      TickingPollerIsCycling(pollers[i], begin, started, interval, now);
    }
  }

  // --- Refused polls ----------------------------------------------------------------------------

  /** The switch refused the whole poll, or there was nothing to ask. */
  predicate Unanswered(p: PollRecord) {
    p.answers.Refused? || p.issued == []
  }

  ghost predicate AllUnanswered(polls: seq<PollRecord>) {
    forall k :: 0 <= k < |polls| ==> Unanswered(polls[k])
  }

  /** The attempt clock moves only with polls the switch answers, so a switch that refuses every poll
      fails liveness from ten intervals on although its poller never stopped, and is never ready. */
  lemma {:induction false} RefusedPollsEndLiveness(polls: seq<PollRecord>, started: Time, interval: Time, now: Time)
    requires Plausible(polls)
    requires AllUnanswered(polls)
    ensures var attempt := AfterPolls(polls).lastAttempt;
            && attempt == None
            && (Cycling(attempt, started, interval, now) <==> now - started < PROGRESS_MULTIPLE * interval)
  {
    ClocksByHistory(polls);
    assert forall k :: 0 <= k < |polls| ==> !IsAnswered(polls[k]);
  }

  /** Exactly when a switch keeps the liveness probe up: it has answered a poll in the last ten
      intervals, or never answered one and the process is young. */
  lemma {:induction false} CyclingByHistory(polls: seq<PollRecord>, started: Time, interval: Time, now: Time)
    requires Plausible(polls)
    requires forall i, j :: 0 <= i <= j < |polls| ==> polls[i].clock.attempted <= polls[j].clock.attempted
    ensures Cycling(AfterPolls(polls).lastAttempt, started, interval, now)
            <==> (exists k :: 0 <= k < |polls| && IsAnswered(polls[k])
                              && now - polls[k].clock.attempted <= PROGRESS_MULTIPLE * interval)
                 || (now - started < PROGRESS_MULTIPLE * interval
                     && forall k :: 0 <= k < |polls| ==> !IsAnswered(polls[k]))
  {
    ClocksByHistory(polls);
    var answered := Last(polls, IsAnswered);
    if answered.Some? {
      assert IsAnswered(polls[answered.value]);
    }
  }

  /** With credentials the switch rejects, no poll ever counts as an attempt. */
  lemma {:induction false} RejectedCredentialsLeaveNoAttempt(w: World, parser: Parser, c: ClientState,
                                                             specs: seq<CmdSpec>, calls: seq<Engine.Call>)
    requires specs != [] && Engine.AlwaysUnauthorized(w)
    ensures Engine.EngineOn(w, parser, c, specs, calls).1.lastAttempt == None
  {
    Engine.EngineIsHistory(w, parser, c, specs, calls);
    var polls := Engine.RecordsOf(w, parser, c, specs, calls);
    RecordsAreRefused(w, parser, c, specs, calls);
    RefusedPollsEndLiveness(polls, 0, 0, 0);
  }

  lemma {:induction false} LastRecordIsRefused(w: World, parser: Parser, c: ClientState, specs: seq<CmdSpec>,
                                               calls: seq<Engine.Call>)
    requires Engine.AlwaysUnauthorized(w) && calls != []
    ensures var before := Engine.RecordsOf(w, parser, c, specs, calls[..|calls| - 1]);
            var polls := Engine.RecordsOf(w, parser, c, specs, calls);
            polls[..|calls| - 1] == before && Unanswered(polls[|calls| - 1])
  {
    var issued := Engine.LastIssued(w, parser, c, specs, calls);
    UnauthorizedIsRefused(w, parser, Engine.EngineOn(w, parser, c, specs, calls[..|calls| - 1]).0, issued);
  }

  lemma {:induction false} RecordsAreRefused(w: World, parser: Parser, c: ClientState, specs: seq<CmdSpec>,
                                             calls: seq<Engine.Call>)
    requires Engine.AlwaysUnauthorized(w)
    ensures AllUnanswered(Engine.RecordsOf(w, parser, c, specs, calls))
  {
    if calls != [] {
      var n := |calls| - 1;
      var before := Engine.RecordsOf(w, parser, c, specs, calls[..n]);
      var polls := Engine.RecordsOf(w, parser, c, specs, calls);
      RecordsAreRefused(w, parser, c, specs, calls[..n]);
      LastRecordIsRefused(w, parser, c, specs, calls);
      ExtendUnanswered(polls, n);
    }
  }

  lemma {:induction false} ExtendUnanswered(polls: seq<PollRecord>, n: nat)
    requires |polls| == n + 1 && AllUnanswered(polls[..n]) && Unanswered(polls[n])
    ensures AllUnanswered(polls)
  {
    forall k | 0 <= k < |polls|
      ensures Unanswered(polls[k])
    {
      assert k < n ==> polls[..n][k] == polls[k];
    }
  }

  lemma {:induction false} UnauthorizedIsRefused(w: World, parser: Parser, c: ClientState, issued: seq<CmdSpec>)
    requires Engine.AlwaysUnauthorized(w)
    ensures GatherOn(w, parser, c, issued).1.Refused?
  {
    Engine.UnauthorizedDoesNotFallBack(w, c, issued);
    assert BatchOn(w, c, issued).1.Err?;
  }

  // --- Readiness --------------------------------------------------------------------------------

  /** Once every switch has been attempted, no later polls take readiness back. */
  lemma {:induction false} ReadyStays(before: seq<seq<PollRecord>>, after: seq<seq<PollRecord>>)
    requires |before| == |after|
    requires forall i :: 0 <= i < |before| ==> Plausible(after[i]) && before[i] <= after[i]
    requires forall i :: 0 <= i < |before| ==> AfterPolls(before[i]).lastAttempt.Some?
    ensures forall i :: 0 <= i < |after| ==> AfterPolls(after[i]).lastAttempt.Some?
  {
    forall i | 0 <= i < |after|
      ensures AfterPolls(after[i]).lastAttempt.Some?
    {
      AttemptStays(before[i], after[i]);
    }
  }

  lemma {:induction false} AttemptStays(before: seq<PollRecord>, after: seq<PollRecord>)
    requires Plausible(after) && before <= after && AfterPolls(before).lastAttempt.Some?
    ensures AfterPolls(after).lastAttempt.Some?
  {
    assert Plausible(before);
    ClocksByHistory(before);
    ClocksByHistory(after);
    var k := Last(before, IsAnswered).value;
    assert IsAnswered(before[k]) && after[k] == before[k];
  }
}
