/** Whole runs of the poll engine: scheduler, client and switch record together. */
module Engine {
  import opened Basics
  import opened Catalogue
  import opened Grid
  import opened Schedule
  import opened Secret
  import opened Eapi
  import opened Poll
  import opened History

  /** One call into the collector, and the clock readings at its end. */
  datatype Call = Call(wake: Wake, clock: Readings)

  function Wakes(calls: seq<Call>): seq<Wake> {
    seq(|calls|, i requires 0 <= i < |calls| => calls[i].wake)
  }

  function CallOn(w: World, parser: Parser, c: ClientState, s: SwitchState, specs: seq<CmdSpec>, call: Call)
    : (ClientState, SwitchState)
  {
    var (c', s', _) :=
      if call.wake.forced then CollectOn(w, parser, c, s, specs, call.wake.now, call.clock)
      else CollectDueOn(w, parser, c, s, specs, call.wake.now, call.clock);
    (c', s')
  }

  function EngineOn(w: World, parser: Parser, c: ClientState, specs: seq<CmdSpec>, calls: seq<Call>)
    : (ClientState, SwitchState)
  {
    if calls == [] then (c, INITIAL)
    else
      var (c1, s1) := EngineOn(w, parser, c, specs, calls[..|calls| - 1]);
      CallOn(w, parser, c1, s1, specs, calls[|calls| - 1])
  }

  /** What the last call of a run issues. */
  function LastIssued(w: World, parser: Parser, c: ClientState, specs: seq<CmdSpec>, calls: seq<Call>): seq<CmdSpec>
    requires calls != []
  {
    var s := EngineOn(w, parser, c, specs, calls[..|calls| - 1]).1;
    Issued(s.nextDue, specs, calls[|calls| - 1].wake)
  }

  /** The history a run of the engine produces: one record per call. */
  function RecordsOf(w: World, parser: Parser, c: ClientState, specs: seq<CmdSpec>, calls: seq<Call>)
    : (polls: seq<PollRecord>)
    ensures |polls| == |calls|
  {
    if calls == [] then []
    else
      var n := |calls| - 1;
      var c1 := EngineOn(w, parser, c, specs, calls[..n]).0;
      var issued := LastIssued(w, parser, c, specs, calls);
      var answers := if issued == [] then Answered(None, map[]) else GatherOn(w, parser, c1, issued).1;
      RecordsOf(w, parser, c, specs, calls[..n])
      + [PollRecord(issued, answers, calls[n].wake.now, calls[n].clock)]
  }

  /** A history whose polls issue what the scheduler issues at their instants. */
  ghost predicate FollowsSchedule(specs: seq<CmdSpec>, wakes: seq<Wake>, polls: seq<PollRecord>) {
    && |polls| == |wakes| && Plausible(polls)
    && forall k {:trigger polls[k]} :: 0 <= k < |polls| ==>
         polls[k].issued == IssuedAt(specs, wakes, k) && polls[k].now == wakes[k].now
  }

  lemma {:induction false} StepKeepsDeadlines(s: SwitchState, p: PollRecord)
    ensures StepOn(s, p).nextDue == MarkDue(s.nextDue, p.issued, p.now)
  {
  }

  lemma {:induction false} DeadlinesOfHistory(specs: seq<CmdSpec>, wakes: seq<Wake>, polls: seq<PollRecord>)
    requires FollowsSchedule(specs, wakes, polls)
    ensures AfterPolls(polls).nextDue == After(specs, wakes)
  {
    if polls != [] {
      var n := |polls| - 1;
      PrefixFollows(specs, wakes, polls, n);
      DeadlinesOfHistory(specs, wakes[..n], polls[..n]);
      StepKeepsDeadlines(AfterPolls(polls[..n]), polls[n]);
    }
  }

  lemma {:induction false} IssuedAtPrefix(specs: seq<CmdSpec>, wakes: seq<Wake>, n: nat, k: nat)
    requires k < n <= |wakes|
    ensures IssuedAt(specs, wakes[..n], k) == IssuedAt(specs, wakes, k)
  {
    assert wakes[..n][..k] == wakes[..k];
  }

  lemma {:induction false} PrefixFollows(specs: seq<CmdSpec>, wakes: seq<Wake>, polls: seq<PollRecord>, n: nat)
    requires FollowsSchedule(specs, wakes, polls) && n <= |polls|
    ensures FollowsSchedule(specs, wakes[..n], polls[..n])
  {
    forall k | 0 <= k < n
      ensures polls[..n][k].issued == IssuedAt(specs, wakes[..n], k)
    {
      IssuedAtPrefix(specs, wakes, n, k);
    }
  }

  lemma {:induction false} CallIsStep(w: World, parser: Parser, c: ClientState, s: SwitchState, specs: seq<CmdSpec>,
                                      call: Call)
    requires specs != []
    ensures var issued := Issued(s.nextDue, specs, call.wake);
            var answers := if issued == [] then Answered(None, map[]) else GatherOn(w, parser, c, issued).1;
            && CallOn(w, parser, c, s, specs, call).1
               == StepOn(s, PollRecord(issued, answers, call.wake.now, call.clock))
            && CallOn(w, parser, c, s, specs, call).0
               == (if issued == [] then c else GatherOn(w, parser, c, issued).0)
            && Fits(answers, issued)
  {
  }

  /** Every run of the engine, against any switch and any secret file, is one of the histories the
      history theorems range over, issued by the schedule the scheduler theorems describe. */
  lemma {:induction false} EngineIsHistory(w: World, parser: Parser, c: ClientState, specs: seq<CmdSpec>,
                                           calls: seq<Call>)
    requires specs != []
    ensures var polls := RecordsOf(w, parser, c, specs, calls);
            && EngineOn(w, parser, c, specs, calls).1 == AfterPolls(polls)
            && FollowsSchedule(specs, Wakes(calls), polls)
  {
    if calls != [] {
      var n := |calls| - 1;
      EngineIsHistory(w, parser, c, specs, calls[..n]);
      var (c1, s1) := EngineOn(w, parser, c, specs, calls[..n]);
      var before := RecordsOf(w, parser, c, specs, calls[..n]);
      var polls := RecordsOf(w, parser, c, specs, calls);
      CallIsStep(w, parser, c1, s1, specs, calls[n]);
      assert polls[..n] == before;
      assert Wakes(calls)[..n] == Wakes(calls[..n]);
      DeadlinesOfHistory(specs, Wakes(calls[..n]), before);
      ExtendFollows(specs, Wakes(calls), polls, n);
    }
  }

  lemma {:induction false} ExtendFollows(specs: seq<CmdSpec>, wakes: seq<Wake>, polls: seq<PollRecord>, n: nat)
    requires |polls| == |wakes| == n + 1
    requires FollowsSchedule(specs, wakes[..n], polls[..n])
    requires polls[n].issued == Issued(After(specs, wakes[..n]), specs, wakes[n]) && polls[n].now == wakes[n].now
    requires Fits(polls[n].answers, polls[n].issued)
    ensures FollowsSchedule(specs, wakes, polls)
  {
    forall k | 0 <= k < n
      ensures IssuedAt(specs, wakes[..n], k) == IssuedAt(specs, wakes, k)
    {
      IssuedAtPrefix(specs, wakes, n, k);
    }
    forall k | 0 <= k <= n
      ensures Fits(polls[k].answers, polls[k].issued)
      ensures polls[k].issued == IssuedAt(specs, wakes, k) && polls[k].now == wakes[k].now
    {
      if k < n {
        assert polls[..n][k] == polls[k] && wakes[..n][k] == wakes[k];
      }
    }
  }

  // --- Requests ---------------------------------------------------------------------------------

  predicate FallsBack(w: World, c: ClientState, issued: seq<CmdSpec>) {
    var batch := BatchOn(w, c, issued).1;
    batch.Err? && WorthRetrying(batch.error)
  }

  function Singles(issued: seq<CmdSpec>): seq<seq<string>> {
    seq(|issued|, i requires 0 <= i < |issued| => [issued[i].cli])
  }

  /** The calls of `Run` one poll makes, in order. */
  function CallsOf(w: World, c: ClientState, issued: seq<CmdSpec>): seq<seq<string>> {
    [Clis(issued)] + (if FallsBack(w, c, issued) then Singles(issued) else [])
  }

  lemma {:induction false} RunAllConcat(w: World, c: ClientState, a: seq<seq<string>>, b: seq<seq<string>>)
    ensures RunAll(w, c, a + b) == RunAll(w, RunAll(w, c, a), b)
  {
    if b == [] {
      assert a + b == a;
    } else {
      var n := |b| - 1;
      RunAllConcat(w, c, a, b[..n]);
      assert (a + b)[..|a + b| - 1] == a + b[..n];
    }
  }

  lemma {:induction false} OneByOneIsRunAll(w: World, c: ClientState, issued: seq<CmdSpec>)
    ensures OneByOneOn(w, c, issued).0 == RunAll(w, c, Singles(issued))
  {
    if issued != [] {
      var n := |issued| - 1;
      OneByOneIsRunAll(w, c, issued[..n]);
      assert Singles(issued)[..n] == Singles(issued[..n]);
    }
  }

  lemma {:induction false} RunAllOfOne(w: World, c: ClientState, cmds: seq<string>)
    ensures RunAll(w, c, [cmds]) == RunOn(w, c, cmds).0
  {
    assert [cmds][..0] == [];
  }

  /** A poll is one call of `Run`, or one and then one per command; never more. */
  lemma {:induction false} GatherIsRunAll(w: World, parser: Parser, c: ClientState, issued: seq<CmdSpec>)
    ensures GatherOn(w, parser, c, issued).0 == RunAll(w, c, CallsOf(w, c, issued))
    ensures |CallsOf(w, c, issued)| == 1 || |CallsOf(w, c, issued)| == 1 + |issued|
  {
    RunAllOfOne(w, c, Clis(issued));
    OneByOneIsRunAll(w, BatchOn(w, c, issued).0, issued);
    RunAllConcat(w, c, [Clis(issued)], if FallsBack(w, c, issued) then Singles(issued) else []);
  }

  /** The attempts of a poll are labelled by their size alone: each fallback is a retry, and the batch is
      labelled a batch exactly when it does not hold a single command. */
  lemma {:induction false} LoneBatchCountsAsRetry(w: World, c: ClientState, issued: seq<CmdSpec>)
    ensures AttemptFor(CallsOf(w, c, issued)[0]) == AttemptBatch <==> |issued| != 1
    ensures forall i :: 0 < i < |CallsOf(w, c, issued)| ==> AttemptFor(CallsOf(w, c, issued)[i]) == AttemptRetry
  {
    assert forall i :: 0 < i < |CallsOf(w, c, issued)| ==> CallsOf(w, c, issued)[i] == Singles(issued)[i - 1];
  }

  /** The calls of `Run` a whole run of the engine makes. */
  function EngineCalls(w: World, parser: Parser, c: ClientState, specs: seq<CmdSpec>,
                       calls: seq<Call>): seq<seq<string>> {
    if calls == [] then []
    else
      var before := calls[..|calls| - 1];
      var issued := LastIssued(w, parser, c, specs, calls);
      EngineCalls(w, parser, c, specs, before)
      + (if issued == [] then [] else CallsOf(w, EngineOn(w, parser, c, specs, before).0, issued))
  }

  lemma {:induction false} EngineIsRunAll(w: World, parser: Parser, c: ClientState, specs: seq<CmdSpec>,
                                          calls: seq<Call>)
    requires specs != []
    ensures EngineOn(w, parser, c, specs, calls).0 == RunAll(w, c, EngineCalls(w, parser, c, specs, calls))
  {
    if calls != [] {
      var n := |calls| - 1;
      EngineIsRunAll(w, parser, c, specs, calls[..n]);
      var (c1, s1) := EngineOn(w, parser, c, specs, calls[..n]);
      CallIsStep(w, parser, c1, s1, specs, calls[n]);
      var issued := LastIssued(w, parser, c, specs, calls);
      if issued == [] {
        assert EngineCalls(w, parser, c, specs, calls[..n]) + [] == EngineCalls(w, parser, c, specs, calls[..n]);
      } else {
        GatherIsRunAll(w, parser, c1, issued);
        RunAllConcat(w, c, EngineCalls(w, parser, c, specs, calls[..n]), CallsOf(w, c1, issued));
      }
    }
  }

  /** Over any run of the engine: counted requests are calls of `Run` plus observed rotations, they are
      the requests sent exactly when the URL parses (or no poll was due), and reloads are the calls whose
      first attempt met a 401. */
  lemma {:induction false} EngineConservation(w: World, parser: Parser, c: ClientState, specs: seq<CmdSpec>,
                                              calls: seq<Call>)
    requires specs != []
    ensures var c' := EngineOn(w, parser, c, specs, calls).0;
            var runs := EngineCalls(w, parser, c, specs, calls);
            && TotalRequests(c'.stats.requests) + Counted(c.stats.reloads, Rotated)
               == TotalRequests(c.stats.requests) + |runs| + Counted(c'.stats.reloads, Rotated)
            && TotalReloads(c'.stats.reloads) == TotalReloads(c.stats.reloads) + Rejections(w, c, runs)
            && (TotalRequests(c'.stats.requests) - TotalRequests(c.stats.requests) == c'.sent - c.sent
                <==> w.badUrl.None? || runs == [])
  {
    EngineIsRunAll(w, parser, c, specs, calls);
    Conservation(w, c, EngineCalls(w, parser, c, specs, calls));
    CountedIsSentIffBuildable(w, c, EngineCalls(w, parser, c, specs, calls));
  }

  function Polls(w: World, parser: Parser, c: ClientState, specs: seq<CmdSpec>, calls: seq<Call>): nat {
    if calls == [] then 0
    else
      Polls(w, parser, c, specs, calls[..|calls| - 1])
      + (if LastIssued(w, parser, c, specs, calls) == [] then 0 else 1)
  }

  /** Every request is answered with a 401. */
  ghost predicate AlwaysUnauthorized(w: World) {
    w.badUrl.None? && forall n, pw, cmds :: w.wire(n, pw, cmds) == Status(401)
  }

  lemma {:induction false} UnauthorizedDoesNotFallBack(w: World, c: ClientState, issued: seq<CmdSpec>)
    requires AlwaysUnauthorized(w)
    ensures !FallsBack(w, c, issued) && |CallsOf(w, c, issued)| == 1
  {
  }

  lemma {:induction false} OneRunPerPoll(w: World, parser: Parser, c: ClientState, specs: seq<CmdSpec>,
                                         calls: seq<Call>)
    requires AlwaysUnauthorized(w)
    ensures |EngineCalls(w, parser, c, specs, calls)| == Polls(w, parser, c, specs, calls)
  {
    if calls != [] {
      var before := calls[..|calls| - 1];
      OneRunPerPoll(w, parser, c, specs, before);
      UnauthorizedDoesNotFallBack(w, EngineOn(w, parser, c, specs, before).0, LastIssued(w, parser, c, specs, calls));
    }
  }

  /** A switch that rejects our credentials sees one request per poll plus one per secret change
      observed, whatever the number of commands: the failed logins are never multiplied. */
  lemma {:induction false} RejectedCredentialsAreNotAmplified(w: World, parser: Parser, c: ClientState,
                                                              specs: seq<CmdSpec>, calls: seq<Call>)
    requires specs != [] && AlwaysUnauthorized(w)
    ensures var c' := EngineOn(w, parser, c, specs, calls).0;
            c'.sent - c.sent
            == TotalRequests(c'.stats.requests) - TotalRequests(c.stats.requests)
            == Polls(w, parser, c, specs, calls)
               + Counted(c'.stats.reloads, Rotated) - Counted(c.stats.reloads, Rotated)
  {
    EngineConservation(w, parser, c, specs, calls);
    OneRunPerPoll(w, parser, c, specs, calls);
  }

  // --- A failure that is forgotten --------------------------------------------------------------

  const VERSION := CmdSpec(ShowVersion, "show version", None, 30 * SECOND)
  const PHY := CmdSpec(ShowPhy, "show interfaces phy detail", Some(Phy), 15 * MINUTE)

  /** The switch answers one batch, with nothing for the second command, and is then unreachable. */
  function OneAnswer(n: nat, pw: string, cmds: seq<string>): Reply {
    if n == 0 then Results(["{}", ""], 2) else Transport("connection refused")
  }

  lemma {:induction false} FirstCallIssuesAll(specs: seq<CmdSpec>, now: Time)
    ensures Due(map[], specs, now) == specs
  {
    SelectAll(specs, c => IsDue(map[], c, now));
  }

  lemma {:induction false} PhyAnswerIsEmpty(w: World, parser: Parser, c: ClientState)
    requires w.badUrl.None? && w.wire == OneAnswer && c.attempts == 0
    requires parser(ShowVersion, "{}").Ok?
    ensures var (c', a) := GatherOn(w, parser, c, [VERSION, PHY]);
            && c'.attempts == 1 && a.Answered? && Fits(a, [VERSION, PHY])
            && ShowPhy in a.results && a.results[ShowPhy] == Err(EmptyResult)
            && ShowVersion in a.results && a.results[ShowVersion].Ok?
  {
    var raws := Succeeding(["{}", ""]);
    assert raws[0] == Ok("{}") && raws[1] == Ok("");
    ParseAllOf(parser, [VERSION, PHY], raws, 0);
    ParseAllOf(parser, [VERSION, PHY], raws, 1);
  }

  /** The first call of a run on a new client issues both commands, and one of them fails. */
  lemma {:induction false} FirstPollFailsPhy(w: World, parser: Parser, c: ClientState, clock: Readings)
    requires w.badUrl.None? && w.wire == OneAnswer && c.attempts == 0
    requires parser(ShowVersion, "{}").Ok?
    ensures var (c', s) := EngineOn(w, parser, c, [VERSION, PHY], [Call(Wake(0, false), clock)]);
            c'.attempts == 1 && ErrorFor(s, ShowPhy) == Some(EmptyResult)
  {
    var specs, call := [VERSION, PHY], Call(Wake(0, false), clock);
    assert [call][..0] == [];
    FirstCallIssuesAll(specs, 0);
    CallIsStep(w, parser, c, INITIAL, specs, call);
    PhyAnswerIsEmpty(w, parser, c);
    var p := PollRecord(specs, GatherOn(w, parser, c, specs).1, 0, clock);
    assert ShowVersion in Good(p.answers);
    StepOfCommand(INITIAL, p, ShowPhy);
  }

  lemma {:induction false} DueOfTwo(next: Deadlines, c: CmdSpec, d: CmdSpec, now: Time)
    requires IsDue(next, c, now) && !IsDue(next, d, now)
    ensures Due(next, [c, d], now) == [c]
  {
    var due := (x: CmdSpec) => IsDue(next, x, now);
    SelectAll([c], due);
    SelectNone([d], due);
    SelectConcat([c], [d], due);
    assert [c] + [d] == [c, d];
  }

  /** Thirty seconds later only `show version` is due. */
  lemma {:induction false} OnlyVersionIsDue(next: Deadlines)
    requires next == After([VERSION, PHY], [Wake(0, false)])
    ensures Due(next, [VERSION, PHY], 30 * SECOND) == [VERSION]
  {
    var specs, wakes := [VERSION, PHY], [Wake(0, false)];
    DueOnGrid(specs, wakes, VERSION, 30 * SECOND);
    DueOnGrid(specs, wakes, PHY, 30 * SECOND);
    PeriodIs(0, 30 * SECOND, 0, 0);
    PeriodIs(0, 30 * SECOND, 30 * SECOND, 1);
    PeriodIs(0, 15 * MINUTE, 0, 0);
    PeriodIs(0, 15 * MINUTE, 30 * SECOND, 0);
    DueOfTwo(next, VERSION, PHY, 30 * SECOND);
  }

  /** A poll of `show version` alone that is refused leaves no failure of the other command on record. */
  lemma {:induction false} RefusedPollForgets(w: World, parser: Parser, c: ClientState, s: SwitchState, now: Time,
                                              clock: Readings)
    requires w.badUrl.None? && w.wire == OneAnswer && c.attempts == 1
    ensures var answers := GatherOn(w, parser, c, [VERSION]).1;
            ErrorFor(StepOn(s, PollRecord([VERSION], answers, now, clock)), ShowPhy) == None
  {
    var p := PollRecord([VERSION], GatherOn(w, parser, c, [VERSION]).1, now, clock);
    assert p.answers.Refused?;
    StepOfCommand(s, p, ShowPhy);
  }

  lemma {:induction false} DeadlinesOfOneCall(w: World, parser: Parser, c: ClientState, clock: Readings)
    ensures var s := EngineOn(w, parser, c, [VERSION, PHY], [Call(Wake(0, false), clock)]).1;
            s.nextDue == After([VERSION, PHY], [Wake(0, false)])
  {
    var specs, calls := [VERSION, PHY], [Call(Wake(0, false), clock)];
    EngineIsHistory(w, parser, c, specs, calls);
    DeadlinesOfHistory(specs, Wakes(calls), RecordsOf(w, parser, c, specs, calls));
    assert Wakes(calls) == [Wake(0, false)];
  }

  lemma {:induction false} LastCallOf(w: World, parser: Parser, c: ClientState, specs: seq<CmdSpec>,
                                      before: seq<Call>, last: Call)
    ensures var (c1, s1) := EngineOn(w, parser, c, specs, before);
            EngineOn(w, parser, c, specs, before + [last]) == CallOn(w, parser, c1, s1, specs, last)
    ensures LastIssued(w, parser, c, specs, before + [last])
            == Issued(EngineOn(w, parser, c, specs, before).1.nextDue, specs, last.wake)
  {
    assert (before + [last])[..|before|] == before;
  }

  /** A run of two ticks in which a failed command's failure is forgotten without the command having
      been tried again: the second poll, without it, fails as a whole. That poll's single request is
      counted as a retry although it is a batch. */
  lemma {:induction false} FailureForgottenInARun(w: World, parser: Parser, c: ClientState, first: Readings,
                                                  second: Readings)
    requires w.badUrl.None? && w.wire == OneAnswer && c.attempts == 0
    requires parser(ShowVersion, "{}").Ok?
    ensures var specs := [VERSION, PHY];
            var one, two := [Call(Wake(0, false), first)], Call(Wake(30 * SECOND, false), second);
            && ErrorFor(EngineOn(w, parser, c, specs, one).1, ShowPhy) == Some(EmptyResult)
            && ErrorFor(EngineOn(w, parser, c, specs, one + [two]).1, ShowPhy) == None
            && LastIssued(w, parser, c, specs, one + [two]) == [VERSION]
            && AttemptFor(Clis(LastIssued(w, parser, c, specs, one + [two]))) == AttemptRetry
  {
    var specs := [VERSION, PHY];
    var one, two := [Call(Wake(0, false), first)], Call(Wake(30 * SECOND, false), second);
    FirstPollFailsPhy(w, parser, c, first);
    DeadlinesOfOneCall(w, parser, c, first);
    var (c1, s1) := EngineOn(w, parser, c, specs, one);
    OnlyVersionIsDue(s1.nextDue);
    LastCallOf(w, parser, c, specs, one, two);
    CallIsStep(w, parser, c1, s1, specs, two);
    RefusedPollForgets(w, parser, c1, s1, 30 * SECOND, second);
  }
}
