/** What the switch record means in terms of the polls that led to it. */
module History {
  import opened Basics
  import opened Catalogue
  import opened Repeat
  import opened Poll

  /** One poll: the commands issued, what came back, and the two clock readings it used. A tick on
      which nothing was due is a poll of no commands, which leaves everything as it was. */
  datatype PollRecord = PollRecord(issued: seq<CmdSpec>, answers: Answers, now: Time, clock: Readings)

  function StepOn(s: SwitchState, p: PollRecord): SwitchState {
    if p.issued == [] then s
    else SettleOn(Marked(s, p.issued, p.now), p.issued, p.answers, p.now, p.clock).0
  }

  /** The record of a switch after a history of polls with arbitrary outcomes. */
  function AfterPolls(polls: seq<PollRecord>): SwitchState {
    if polls == [] then INITIAL
    else StepOn(AfterPolls(polls[..|polls| - 1]), polls[|polls| - 1])
  }

  ghost predicate Plausible(polls: seq<PollRecord>) {
    forall k :: 0 <= k < |polls| ==> Fits(polls[k].answers, polls[k].issued)
  }

  /** How a command fared in one poll. */
  datatype Fate = Absent | Landed(value: Value) | Broken(failure: Failure)

  predicate Wholesale(p: PollRecord) {
    p.issued != [] && Good(p.answers) == {}
  }

  function FateOf(p: PollRecord, name: Command): Fate
    requires Fits(p.answers, p.issued)
  {
    if name !in Names(p.issued) then Absent
    else if Wholesale(p) then Broken(Reason(p.answers))
    else FateIn(p.answers.results, name)
  }

  function ErrorFor(s: SwitchState, name: Command): Option<Failure> {
    if s.commandErrors.None? then None else Lookup(s.commandErrors.value, name)
  }

  lemma {:induction false} SetErrorOfCommand(s: SwitchState, issued: seq<CmdSpec>, f: Failure, clock: Time,
                                             name: Command)
    ensures var s' := SetErrorOn(s, issued, f, clock).0;
            && s'.values == s.values && s'.commandLastSuccess == s.commandLastSuccess
            && ErrorFor(s', name) == if name in Names(issued) then Some(f) else None
  {
  }

  lemma {:induction false} OverlayLookup<K, V>(base: map<K, V>, over: map<K, V>, k: K)
    ensures Lookup(base + over, k) == if k in over then Some(over[k]) else Lookup(base, k)
  {
  }

  lemma {:induction false} CommitFields(s: SwitchState, issued: seq<CmdSpec>,
                                        results: map<Command, Result<Value, Failure>>, now: Time, clock: Time)
    ensures var s' := CommitOn(s, issued, results, now, clock).0;
            && s'.values == s.values + ValuesOf(results)
            && s'.commandLastSuccess == s.commandLastSuccess + StampsOf(results, now)
            && s'.commandErrors == Some(ErrorsOf(results) + Kept(s, issued))
  {
  }

  /** A result, put into the record: what the record then says of the command. */
  ghost predicate Recorded(s: SwitchState, s': SwitchState, name: Command, fate: Fate, now: Time, wholesale: bool) {
    match fate
    case Landed(v) =>
      && Lookup(s'.values, name) == Some(v)
      && Lookup(s'.commandLastSuccess, name) == Some(now)
      && ErrorFor(s', name) == None
    case Broken(f) =>
      && Lookup(s'.values, name) == Lookup(s.values, name)
      && Lookup(s'.commandLastSuccess, name) == Lookup(s.commandLastSuccess, name)
      && ErrorFor(s', name) == Some(f)
    case Absent =>
      && Lookup(s'.values, name) == Lookup(s.values, name)
      && Lookup(s'.commandLastSuccess, name) == Lookup(s.commandLastSuccess, name)
      && ErrorFor(s', name) == if wholesale then None else ErrorFor(s, name)
  }

  function FateIn(results: map<Command, Result<Value, Failure>>, name: Command): Fate {
    if name !in results then Absent
    else
      match results[name]
      case Ok(v) => Landed(v)
      case Err(f) => Broken(f)
  }

  lemma {:induction false} CommitOfCommand(s: SwitchState, issued: seq<CmdSpec>,
                                           results: map<Command, Result<Value, Failure>>, now: Time, clock: Time,
                                           name: Command)
    requires results.Keys == Names(issued)
    ensures Recorded(s, CommitOn(s, issued, results, now, clock).0, name, FateIn(results, name), now, false)
  {
    CommitFields(s, issued, results, now, clock);
    OverlayLookup(s.values, ValuesOf(results), name);
    OverlayLookup(s.commandLastSuccess, StampsOf(results, now), name);
    OverlayLookup(ErrorsOf(results), Kept(s, issued), name);
    KeptLookup(s, issued, name);
  }

  lemma {:induction false} KeptLookup(s: SwitchState, issued: seq<CmdSpec>, name: Command)
    ensures Lookup(Kept(s, issued), name) == if name in Names(issued) then None else ErrorFor(s, name)
  {
  }

  /** A wholesale failure leaves values and success times alone and replaces every error. */
  lemma {:induction false} WholesaleOfCommand(s: SwitchState, p: PollRecord, name: Command)
    requires Wholesale(p)
    ensures var fate := if name in Names(p.issued) then Broken(Reason(p.answers)) else Absent;
            Recorded(s, StepOn(s, p), name, fate, p.now, true)
  {
    var m := Marked(s, p.issued, p.now);
    var attempted := if p.answers.Refused? then m else m.(lastAttempt := Some(p.clock.attempted));
    SetErrorOfCommand(attempted, p.issued, Reason(p.answers), p.clock.logged, name);
  }

  /** One poll, seen from one command: only its own result touches its value and its success time,
      and only its own result or a wholesale failure touches its error. */
  lemma {:induction false} StepOfCommand(s: SwitchState, p: PollRecord, name: Command)
    requires Fits(p.answers, p.issued)
    ensures Recorded(s, StepOn(s, p), name, FateOf(p, name), p.now, Wholesale(p))
  {
    if Wholesale(p) {
      WholesaleOfCommand(s, p, name);
    } else if p.issued != [] {
      var attempted := Marked(s, p.issued, p.now).(lastAttempt := Some(p.clock.attempted));
      CommitOfCommand(attempted, p.issued, p.answers.results, p.now, p.clock.logged, name);
    }
  }

  /** The last poll in which a command's output landed. */
  function LastLanded(polls: seq<PollRecord>, name: Command): (k: Option<nat>)
    requires Plausible(polls)
    ensures k.Some? ==> k.value < |polls| && FateOf(polls[k.value], name).Landed?
    ensures forall j :: (if k.Some? then k.value + 1 else 0) <= j < |polls| ==> !FateOf(polls[j], name).Landed?
  {
    if polls == [] then None
    else
      var n := |polls| - 1;
      if FateOf(polls[n], name).Landed? then Some(n) else LastLanded(polls[..n], name)
  }

  /** After every history, a command's cached value and success time are those of its last successful
      poll, untouched by its failures and by every poll of other commands. */
  lemma {:induction false} CacheIsLastSuccess(polls: seq<PollRecord>, name: Command)
    requires Plausible(polls)
    ensures var s, k := AfterPolls(polls), LastLanded(polls, name);
            && Lookup(s.values, name) == (if k.None? then None else Some(FateOf(polls[k.value], name).value))
            && Lookup(s.commandLastSuccess, name) == (if k.None? then None else Some(polls[k.value].now))
  {
    if polls != [] {
      var n := |polls| - 1;
      CacheIsLastSuccess(polls[..n], name);
      StepOfCommand(AfterPolls(polls[..n]), polls[n], name);
    }
  }

  /** Poll `k` failed a command, and nothing since has issued it again or failed as a whole. */
  ghost predicate StandingFailure(polls: seq<PollRecord>, name: Command, k: nat)
    requires Plausible(polls)
  {
    && k < |polls| && FateOf(polls[k], name).Broken?
    && forall j :: k < j < |polls| ==> FateOf(polls[j], name) == Absent && !Wholesale(polls[j])
  }

  /** How the standing failures of a history change with one more poll. */
  lemma {:induction false} StandingFailureStep(polls: seq<PollRecord>, name: Command, n: nat)
    requires Plausible(polls) && |polls| == n + 1
    ensures StandingFailure(polls, name, n) <==> FateOf(polls[n], name).Broken?
    ensures forall k: nat :: k < n ==>
      (StandingFailure(polls, name, k)
       <==> StandingFailure(polls[..n], name, k) && FateOf(polls[n], name) == Absent && !Wholesale(polls[n]))
  {
  }

  lemma {:induction false} ErrorAfterStep(s: SwitchState, p: PollRecord, name: Command)
    requires Fits(p.answers, p.issued)
    ensures ErrorFor(StepOn(s, p), name)
            == match FateOf(p, name)
               case Landed(_) => None
               case Broken(f) => Some(f)
               case Absent => if Wholesale(p) then None else ErrorFor(s, name)
  {
    StepOfCommand(s, p, name);
  }

  lemma {:induction false} ErrorsFromStandingFailures(polls: seq<PollRecord>, name: Command)
    requires Plausible(polls)
    ensures var e := ErrorFor(AfterPolls(polls), name);
            && (e.Some? ==> exists k: nat :: StandingFailure(polls, name, k)
                                             && e == Some(FateOf(polls[k], name).failure))
            && (e.None? ==> forall k: nat :: !StandingFailure(polls, name, k))
  {
    if polls != [] {
      var n := |polls| - 1;
      var before := polls[..n];
      ErrorsFromStandingFailures(before, name);
      ErrorAfterStep(AfterPolls(before), polls[n], name);
      StandingFailureStep(polls, name, n);
      if ErrorFor(AfterPolls(polls), name).Some? && FateOf(polls[n], name) == Absent {
        var k: nat :| StandingFailure(before, name, k)
                      && ErrorFor(AfterPolls(before), name) == Some(FateOf(before[k], name).failure);
        assert StandingFailure(polls, name, k);
      }
    }
  }

  /** A command is reported failed exactly when the last poll that issued it failed it and no poll
      without it has failed wholesale since: such a poll forgets failures it did not observe. */
  lemma {:induction false} CommandErrorsAreStandingFailures(polls: seq<PollRecord>, name: Command)
    requires Plausible(polls)
    ensures ErrorFor(AfterPolls(polls), name).Some? <==> exists k: nat :: StandingFailure(polls, name, k)
    ensures forall k: nat :: StandingFailure(polls, name, k) ==>
      ErrorFor(AfterPolls(polls), name) == Some(FateOf(polls[k], name).failure)
  {
    ErrorsFromStandingFailures(polls, name);
    forall k: nat | StandingFailure(polls, name, k)
      ensures ErrorFor(AfterPolls(polls), name) == Some(FateOf(polls[k], name).failure)
    {
      var i: nat :| StandingFailure(polls, name, i)
               && ErrorFor(AfterPolls(polls), name) == Some(FateOf(polls[i], name).failure);
      assert i == k;
    }
  }

  /** A command failed, then a poll without it failed as a whole: the failure is no longer recorded,
      although the command has not been tried again. */
  lemma {:induction false} WholesaleFailureForgets(s: SwitchState, first: PollRecord, second: PollRecord, name: Command)
    requires Fits(first.answers, first.issued) && Fits(second.answers, second.issued)
    requires FateOf(first, name).Broken? && FateOf(second, name) == Absent && Wholesale(second)
    ensures ErrorFor(StepOn(s, first), name).Some?
    ensures ErrorFor(StepOn(StepOn(s, first), second), name) == None
  {
    StepOfCommand(s, first, name);
    StepOfCommand(StepOn(s, first), second, name);
  }

  // --- The record as a whole --------------------------------------------------------------------

  /** Something landed in a poll exactly when some command's fate says so. */
  lemma {:induction false} LandedSomewhere(p: PollRecord)
    requires Fits(p.answers, p.issued)
    ensures p.issued != [] && !Wholesale(p) <==> exists name :: FateOf(p, name).Landed?
  {
    if p.issued != [] && !Wholesale(p) {
      var name :| name in Good(p.answers);
      assert FateOf(p, name).Landed?;
    }
  }

  lemma {:induction false} StepOfRecord(s: SwitchState, p: PollRecord)
    requires Fits(p.answers, p.issued) && p.issued != []
    ensures var s' := StepOn(s, p);
            && s'.commandErrors.Some?
            && s'.lastAttempt == (if p.answers.Refused? then s.lastAttempt else Some(p.clock.attempted))
            && s'.lastSuccess == (if Wholesale(p) then s.lastSuccess else Some(p.now))
            && s'.scrapeErr == (if Wholesale(p) then Some(Reason(p.answers)) else None)
  {
  }

  /** The last poll that satisfies a condition. */
  function Last(polls: seq<PollRecord>, cond: PollRecord -> bool): (k: Option<nat>)
    ensures k.Some? ==> k.value < |polls| && cond(polls[k.value])
    ensures forall j :: (if k.Some? then k.value + 1 else 0) <= j < |polls| ==> !cond(polls[j])
  {
    if polls == [] then None
    else
      var n := |polls| - 1;
      if cond(polls[n]) then Some(n) else Last(polls[..n], cond)
  }

  predicate IsPoll(p: PollRecord) { p.issued != [] }
  predicate IsAnswered(p: PollRecord) { p.issued != [] && p.answers.Answered? }
  predicate HasLanded(p: PollRecord) { p.issued != [] && !Wholesale(p) }

  /** The three clocks and the scrape error, by history. In particular the attempt clock stands still
      while the switch refuses whole polls, although a poll did complete each time. */
  lemma {:induction false} ClocksByHistory(polls: seq<PollRecord>)
    requires Plausible(polls)
    ensures var s := AfterPolls(polls);
            var polled, answered, landed := Last(polls, IsPoll), Last(polls, IsAnswered), Last(polls, HasLanded);
            && s.lastAttempt == (if answered.None? then None else Some(polls[answered.value].clock.attempted))
            && s.lastSuccess == (if landed.None? then None else Some(polls[landed.value].now))
            && (s.commandErrors.None? <==> polled.None?)
            && s.scrapeErr == (if polled.None? || HasLanded(polls[polled.value]) then None
                               else Some(Reason(polls[polled.value].answers)))
  {
    if polls != [] {
      var n := |polls| - 1;
      ClocksByHistory(polls[..n]);
      if polls[n].issued != [] {
        StepOfRecord(AfterPolls(polls[..n]), polls[n]);
      }
    }
  }

  /** `arista_scrape_success` is 1 exactly when the last poll brought something back. */
  lemma {:induction false} ScrapeSuccessMeansLastPollLanded(polls: seq<PollRecord>)
    requires Plausible(polls)
    ensures var s := AfterPolls(polls);
            s.lastSuccess.Some? && s.scrapeErr.None?
            <==> Last(polls, IsPoll).Some? && HasLanded(polls[Last(polls, IsPoll).value])
  {
    ClocksByHistory(polls);
    var polled, landed := Last(polls, IsPoll), Last(polls, HasLanded);
    assert forall p :: HasLanded(p) ==> IsPoll(p);
    assert landed.Some? ==> IsPoll(polls[landed.value]);
    assert polled.Some? ==> IsPoll(polls[polled.value]);
  }

  ghost predicate ForwardPolls(polls: seq<PollRecord>) {
    forall i, j :: 0 <= i <= j < |polls| ==> polls[i].now <= polls[j].now
  }

  /** `lastSuccess` is the latest of the per-command success times: reached by one and passed by none. */
  ghost predicate IsLatest(s: SwitchState) {
    match s.lastSuccess
    case None => s.commandLastSuccess == map[]
    case Some(t) =>
      && (exists name :: name in s.commandLastSuccess && s.commandLastSuccess[name] == t)
      && (forall name :: name in s.commandLastSuccess ==> s.commandLastSuccess[name] <= t)
  }

  lemma {:induction false} LastSuccessIsLatest(polls: seq<PollRecord>)
    requires Plausible(polls) && ForwardPolls(polls)
    ensures IsLatest(AfterPolls(polls))
  {
    var s := AfterPolls(polls);
    ClocksByHistory(polls);
    var landed := Last(polls, HasLanded);
    forall name | name in s.commandLastSuccess
      ensures landed.Some? && s.commandLastSuccess[name] <= polls[landed.value].now
    {
      CacheIsLastSuccess(polls, name);
      var k := LastLanded(polls, name).value;
      LandedSomewhere(polls[k]);
      assert HasLanded(polls[k]);
    }
    if landed.Some? {
      LandedSomewhere(polls[landed.value]);
      var name :| FateOf(polls[landed.value], name).Landed?;
      CacheIsLastSuccess(polls, name);
      LatestLanded(polls, name, landed.value);
    }
  }

  lemma {:induction false} LatestLanded(polls: seq<PollRecord>, name: Command, k: nat)
    requires Plausible(polls) && k < |polls| && FateOf(polls[k], name).Landed?
    requires forall j :: k < j < |polls| ==> !HasLanded(polls[j])
    ensures LastLanded(polls, name) == Some(k)
  {
    forall j | k < j < |polls|
      ensures !FateOf(polls[j], name).Landed?
    {
      LandedSomewhere(polls[j]);
    }
  }

  // --- The log ----------------------------------------------------------------------------------

  /** What one poll means to the log: a clean poll is a success, anything else one failure message. */
  function EventOf(p: PollRecord): Event
    requires p.issued != []
  {
    if Wholesale(p) then Event.Failure(Describe(Reason(p.answers)), p.clock.logged)
    else if ErrorsOf(p.answers.results) == map[] then Event.Success(p.clock.logged)
    else Event.Failure(FailureSummary(p.issued, ErrorsOf(p.answers.results)), p.clock.logged)
  }

  function EventsOf(polls: seq<PollRecord>): seq<Event> {
    if polls == [] then []
    else
      var n := |polls| - 1;
      if polls[n].issued == [] then EventsOf(polls[..n]) else EventsOf(polls[..n]) + [EventOf(polls[n])]
  }

  /** The line a poll logs. */
  function LineOf(s: SwitchState, p: PollRecord): Line
    requires p.issued != []
  {
    SettleOn(Marked(s, p.issued, p.now), p.issued, p.answers, p.now, p.clock).1
  }

  lemma {:induction false} PollReacts(s: SwitchState, p: PollRecord)
    requires p.issued != []
    ensures (StepOn(s, p).tracker, LineOf(s, p)) == React(s.tracker, EventOf(p))
    ensures EventOf(p).Failure? ==> EventOf(p).msg != ""
  {
  }

  /** The tracker of the record has seen one event per poll, and never an empty message. */
  lemma {:induction false} TrackerByHistory(polls: seq<PollRecord>)
    ensures AfterPolls(polls).tracker == Track(EventsOf(polls))
    ensures NoEmptyMessage(EventsOf(polls))
  {
    if polls != [] {
      var n := |polls| - 1;
      TrackerByHistory(polls[..n]);
      if polls[n].issued != [] {
        PollReacts(AfterPolls(polls[..n]), polls[n]);
        OneMoreEvent(EventsOf(polls[..n]), EventOf(polls[n]));
      }
    }
  }

  lemma {:induction false} WholesaleIsRemembered(s: SwitchState, p: PollRecord)
    requires Wholesale(p)
    ensures StepOn(s, p).tracker.last == Describe(Reason(p.answers))
  {
  }

  /** A wholesale failure after another is announced as new exactly when its reason is another one. */
  lemma {:induction false} NewReasonIsAnnounced(s: SwitchState, before: PollRecord, p: PollRecord)
    requires Wholesale(before) && Wholesale(p)
    ensures LineOf(StepOn(s, before), p).First? <==> Reason(p.answers) != Reason(before.answers)
  {
    WholesaleIsRemembered(s, before);
    PollReacts(StepOn(s, before), p);
    if Describe(Reason(p.answers)) == Describe(Reason(before.answers)) {
      DescribeIsInjective(Reason(p.answers), Reason(before.answers));
    }
  }

  /** What every poll of every history logs: a failure when it is new, every tenth time it repeats,
      and a recovery with the length of the failure it ends. */
  lemma {:induction false} PollLogsExpected(polls: seq<PollRecord>)
    requires polls != [] && polls[|polls| - 1].issued != []
    ensures LineOf(AfterPolls(polls[..|polls| - 1]), polls[|polls| - 1]) == Expected(EventsOf(polls))
  {
    var n := |polls| - 1;
    var events := EventsOf(polls[..n]);
    TrackerByHistory(polls);
    TrackerByHistory(polls[..n]);
    PollReacts(AfterPolls(polls[..n]), polls[n]);
    assert EventsOf(polls)[..|events|] == events;
    LinesAreExpected(EventsOf(polls));
  }
}
