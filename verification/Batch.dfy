/** The batch with its fallback delivers what one request per command would. */
module Batch {
  import opened Basics
  import opened Catalogue
  import opened Eapi
  import opened Poll
  import opened History

  /** A switch that answers every command on its own merits. */
  type Oracle = string -> Result<Raw, string>

  predicate Accepts(o: Oracle, cmds: seq<string>) {
    forall i :: 0 <= i < |cmds| ==> o(cmds[i]).Ok?
  }

  function Outputs(o: Oracle, cmds: seq<string>): seq<Raw>
    requires Accepts(o, cmds)
  {
    seq(|cmds|, i requires 0 <= i < |cmds| => o(cmds[i]).value)
  }

  ghost predicate Truthful(o: Oracle, cmds: seq<string>, reply: Reply) {
    match reply
    case Results(raws, _) => Accepts(o, cmds) && raws == Outputs(o, cmds)
    case RpcError(text, _) => !Accepts(o, cmds) && (|cmds| == 1 ==> o(cmds[0]) == Err(text))
    case _ => false
  }

  /** The switch rejects a batch, with any message, exactly when it rejects some command of it. */
  ghost predicate Conforms(w: World, o: Oracle) {
    w.badUrl.None? && forall n, pw, cmds :: Truthful(o, cmds, w.wire(n, pw, cmds))
  }

  function Answer(o: Oracle, cli: string): Result<Raw, Failure> {
    match o(cli)
    case Ok(raw) => Ok(raw)
    case Err(text) => Err(Request(Rejected(text)))
  }

  /** The outcome of a command polled by itself. */
  function Alone(o: Oracle, parser: Parser, c: CmdSpec): Result<Value, Failure> {
    ParseOne(parser, c.name, Answer(o, c.cli))
  }

  lemma {:induction false} RunOnConforming(w: World, o: Oracle, c: ClientState, cmds: seq<string>)
    requires Conforms(w, o)
    ensures var (c', r) := RunOn(w, c, cmds);
            && c'.sent == c.sent + 1 && c'.password == c.password
            && (if Accepts(o, cmds) then r == Ok(Outputs(o, cmds))
                else r.Err? && r.error.Rejected? && (|cmds| == 1 ==> o(cmds[0]) == Err(r.error.text)))
  {
    assert Truthful(o, cmds, w.wire(c.attempts, c.password, cmds));
  }

  lemma {:induction false} OneOnConforming(w: World, o: Oracle, c: ClientState, cli: string)
    requires Conforms(w, o)
    ensures OneOn(w, c, cli).0.sent == c.sent + 1 && OneOn(w, c, cli).1 == Answer(o, cli)
  {
    RunOnConforming(w, o, c, [cli]);
    assert Accepts(o, [cli]) <==> o([cli][0]).Ok?;
  }

  lemma {:induction false} OneByOneConforming(w: World, o: Oracle, c: ClientState, specs: seq<CmdSpec>)
    requires Conforms(w, o)
    ensures OneByOneOn(w, c, specs).0.sent == c.sent + |specs|
    ensures forall i :: 0 <= i < |specs| ==> OneByOneOn(w, c, specs).1[i] == Answer(o, specs[i].cli)
  {
    if specs != [] {
      var n := |specs| - 1;
      OneByOneConforming(w, o, c, specs[..n]);
      OneOnConforming(w, o, OneByOneOn(w, c, specs[..n]).0, specs[n].cli);
    }
  }

  /** For a conforming switch, one poll of any commands learns of each command what polling it alone
      would have told, with a single request when nothing is rejected and 1 + n otherwise. */
  lemma {:induction false} GatherIsAlone(w: World, o: Oracle, parser: Parser, c: ClientState, specs: seq<CmdSpec>)
    requires Conforms(w, o) && Distinct(specs)
    ensures var (c', a) := GatherOn(w, parser, c, specs);
            && c'.sent == c.sent + (if Accepts(o, Clis(specs)) then 1 else 1 + |specs|)
            && a.Answered? && Fits(a, specs)
            && forall i :: 0 <= i < |specs| ==>
                 specs[i].name in a.results && a.results[specs[i].name] == Alone(o, parser, specs[i])
  {
    RunOnConforming(w, o, c, Clis(specs));
    var c1 := BatchOn(w, c, specs).0;
    OneByOneConforming(w, o, c1, specs);
    var raws := if Accepts(o, Clis(specs)) then Succeeding(Outputs(o, Clis(specs))) else OneByOneOn(w, c1, specs).1;
    forall i | 0 <= i < |specs|
      ensures specs[i].name in Names(specs)
      ensures ParseAll(parser, specs, raws)[specs[i].name] == Alone(o, parser, specs[i])
    {
      assert Clis(specs)[i] == specs[i].cli;
      assert raws[i] == Answer(o, specs[i].cli);
      ParseAllOf(parser, specs, raws, i);
    }
  }

  predicate Usable(o: Oracle, parser: Parser, specs: seq<CmdSpec>) {
    exists i :: 0 <= i < |specs| && Alone(o, parser, specs[i]).Ok?
  }

  /** What the record says of a command after a poll, from the command's own answer. */
  ghost predicate ByItself(s: SwitchState, s': SwitchState, c: CmdSpec, alone: Result<Value, Failure>, now: Time) {
    match alone
    case Ok(v) =>
      && Lookup(s'.values, c.name) == Some(v)
      && Lookup(s'.commandLastSuccess, c.name) == Some(now)
      && ErrorFor(s', c.name) == None
    case Err(_) =>
      && Lookup(s'.values, c.name) == Lookup(s.values, c.name)
      && Lookup(s'.commandLastSuccess, c.name) == Lookup(s.commandLastSuccess, c.name)
      && ErrorFor(s', c.name).Some?
  }

  /** Batch with fallback against one request per command: same values, same success times, same
      failed commands; nothing is lost because another command was rejected. */
  lemma {:induction false} BatchRefinesSeparateRequests(w: World, o: Oracle, parser: Parser, c: ClientState,
                                                        s: SwitchState, specs: seq<CmdSpec>, now: Time,
                                                        clock: Readings)
    requires Conforms(w, o) && Distinct(specs) && specs != []
    ensures var (c', s', _) := CollectOn(w, parser, c, s, specs, now, clock);
            && c'.sent == c.sent + (if Accepts(o, Clis(specs)) then 1 else 1 + |specs|)
            && (forall i :: 0 <= i < |specs| ==> ByItself(s, s', specs[i], Alone(o, parser, specs[i]), now))
            && s'.lastAttempt == Some(clock.attempted)
            && s'.lastSuccess == (if Usable(o, parser, specs) then Some(now) else s.lastSuccess)
            && (s'.scrapeErr.None? <==> Usable(o, parser, specs))
            && (forall n :: n !in Names(specs) ==>
                  && Lookup(s'.values, n) == Lookup(s.values, n)
                  && Lookup(s'.commandLastSuccess, n) == Lookup(s.commandLastSuccess, n)
                  && ErrorFor(s', n) == if Usable(o, parser, specs) then ErrorFor(s, n) else None)
  {
    var a := GatherOn(w, parser, c, specs).1;
    GatherIsAlone(w, o, parser, c, specs);
    var p := PollRecord(specs, a, now, clock);
    var s' := CollectOn(w, parser, c, s, specs, now, clock).1;
    assert s' == StepOn(s, p);
    UsableIsGood(o, parser, specs, a);
    StepOfRecord(s, p);
    forall i | 0 <= i < |specs|
      ensures ByItself(s, s', specs[i], Alone(o, parser, specs[i]), now)
    {
      assert specs[i].name in Names(specs);
      StepOfCommand(s, p, specs[i].name);
      FateOfAlone(o, parser, specs, p, i);
    }
    forall n | n !in Names(specs)
      ensures && Lookup(s'.values, n) == Lookup(s.values, n)
              && Lookup(s'.commandLastSuccess, n) == Lookup(s.commandLastSuccess, n)
              && ErrorFor(s', n) == if Usable(o, parser, specs) then ErrorFor(s, n) else None
    {
      StepOfCommand(s, p, n);
    }
  }

  /** The answers of a poll in which each command got its own answer. */
  ghost predicate EachAlone(o: Oracle, parser: Parser, specs: seq<CmdSpec>, a: Answers) {
    && a.Answered? && Fits(a, specs)
    && forall i :: 0 <= i < |specs| ==>
         specs[i].name in a.results && a.results[specs[i].name] == Alone(o, parser, specs[i])
  }

  lemma {:induction false} UsableIsGood(o: Oracle, parser: Parser, specs: seq<CmdSpec>, a: Answers)
    requires EachAlone(o, parser, specs, a)
    ensures Usable(o, parser, specs) <==> Good(a) != {}
  {
    if Usable(o, parser, specs) {
      var i :| 0 <= i < |specs| && Alone(o, parser, specs[i]).Ok?;
      assert specs[i].name in Good(a);
    }
    if n :| n in Good(a) {
      var i :| 0 <= i < |specs| && specs[i].name == n;
      assert Alone(o, parser, specs[i]).Ok?;
    }
  }

  lemma {:induction false} FateOfAlone(o: Oracle, parser: Parser, specs: seq<CmdSpec>, p: PollRecord, i: nat)
    requires p.issued == specs && EachAlone(o, parser, specs, p.answers) && i < |specs|
    ensures match Alone(o, parser, specs[i])
            case Ok(v) => FateOf(p, specs[i].name) == Landed(v)
            case Err(_) => FateOf(p, specs[i].name).Broken?
  {
    assert specs[i].name in Names(specs);
    if Alone(o, parser, specs[i]).Ok? {
      assert specs[i].name in Good(p.answers);
    }
  }

  // --- Against polling the commands one after the other -----------------------------------------

  function SeparatelyOn(w: World, parser: Parser, c: ClientState, s: SwitchState, specs: seq<CmdSpec>,
                        now: Time, clock: Readings): (ClientState, SwitchState)
  {
    if specs == [] then (c, s)
    else
      var n := |specs| - 1;
      var (c1, s1) := SeparatelyOn(w, parser, c, s, specs[..n], now, clock);
      var (c2, s2, _) := CollectOn(w, parser, c1, s1, [specs[n]], now, clock);
      (c2, s2)
  }

  /** The cached data of a command after its own answer, if it got one, else as before. */
  ghost predicate DataFrom(s: SwitchState, s': SwitchState, name: Command, answer: Option<Result<Value, Failure>>,
                           now: Time)
  {
    if answer.Some? && answer.value.Ok? then
      && Lookup(s'.values, name) == Some(answer.value.value)
      && Lookup(s'.commandLastSuccess, name) == Some(now)
    else
      && Lookup(s'.values, name) == Lookup(s.values, name)
      && Lookup(s'.commandLastSuccess, name) == Lookup(s.commandLastSuccess, name)
  }

  function AnswerTo(o: Oracle, parser: Parser, specs: seq<CmdSpec>, name: Command): Option<Result<Value, Failure>> {
    if specs == [] then None
    else
      var n := |specs| - 1;
      if specs[n].name == name then Some(Alone(o, parser, specs[n])) else AnswerTo(o, parser, specs[..n], name)
  }

  lemma {:induction false} AnswerToOf(o: Oracle, parser: Parser, specs: seq<CmdSpec>, name: Command)
    requires Distinct(specs)
    ensures name !in Names(specs) ==> AnswerTo(o, parser, specs, name) == None
    ensures forall i :: 0 <= i < |specs| && specs[i].name == name ==>
      AnswerTo(o, parser, specs, name) == Some(Alone(o, parser, specs[i]))
  {
    if specs != [] {
      var n := |specs| - 1;
      AnswerToOf(o, parser, specs[..n], name);
      assert specs == specs[..n] + [specs[n]];
    }
  }

  lemma {:induction false} TogetherFrom(w: World, o: Oracle, parser: Parser, c: ClientState, s: SwitchState,
                     specs: seq<CmdSpec>, now: Time, clock: Readings, name: Command)
    requires Conforms(w, o) && Distinct(specs) && specs != []
    ensures DataFrom(s, CollectOn(w, parser, c, s, specs, now, clock).1, name, AnswerTo(o, parser, specs, name), now)
  {
    BatchRefinesSeparateRequests(w, o, parser, c, s, specs, now, clock);
    AnswerToOf(o, parser, specs, name);
    if name in Names(specs) {
      var i :| 0 <= i < |specs| && specs[i].name == name;
      assert ByItself(s, CollectOn(w, parser, c, s, specs, now, clock).1, specs[i], Alone(o, parser, specs[i]), now);
    }
  }

  lemma {:induction false} DataFromSteps(s: SwitchState, s1: SwitchState, s2: SwitchState, name: Command,
                      first: Option<Result<Value, Failure>>, second: Option<Result<Value, Failure>>, now: Time)
    requires DataFrom(s, s1, name, first, now) && DataFrom(s1, s2, name, second, now)
    requires second.Some? ==> first.None?
    ensures DataFrom(s, s2, name, if second.Some? then second else first, now)
  {
  }

  lemma {:induction false} AnswerToLast(o: Oracle, parser: Parser, specs: seq<CmdSpec>, name: Command)
    requires specs != [] && Distinct(specs)
    ensures var n := |specs| - 1;
            var last, before := AnswerTo(o, parser, [specs[n]], name), AnswerTo(o, parser, specs[..n], name);
            && AnswerTo(o, parser, specs, name) == (if last.Some? then last else before)
            && (last.Some? ==> before.None?)
  {
    var n := |specs| - 1;
    AnswerToOf(o, parser, specs[..n], name);
    assert [specs[n]][..0] == [];
    assert specs[n].name !in Names(specs[..n]);
  }

  lemma {:induction false} SeparatelyFrom(w: World, o: Oracle, parser: Parser, c: ClientState, s: SwitchState,
                                          specs: seq<CmdSpec>, now: Time, clock: Readings, name: Command)
    requires Conforms(w, o) && Distinct(specs)
    ensures DataFrom(s, SeparatelyOn(w, parser, c, s, specs, now, clock).1, name, AnswerTo(o, parser, specs, name), now)
  {
    if specs != [] {
      var n := |specs| - 1;
      SeparatelyFrom(w, o, parser, c, s, specs[..n], now, clock, name);
      var (c1, s1) := SeparatelyOn(w, parser, c, s, specs[..n], now, clock);
      var s2 := CollectOn(w, parser, c1, s1, [specs[n]], now, clock).1;
      TogetherFrom(w, o, parser, c1, s1, [specs[n]], now, clock, name);
      AnswerToLast(o, parser, specs, name);
      DataFromSteps(s, s1, s2, name, AnswerTo(o, parser, specs[..n], name), AnswerTo(o, parser, [specs[n]], name), now);
    }
  }

  /** The last command of a list that fails when polled alone. */
  function LastBroken(o: Oracle, parser: Parser, specs: seq<CmdSpec>): (k: Option<nat>)
    ensures k.Some? ==> k.value < |specs| && Alone(o, parser, specs[k.value]).Err?
    ensures forall i :: (if k.Some? then k.value + 1 else 0) <= i < |specs| ==> Alone(o, parser, specs[i]).Ok?
  {
    if specs == [] then None
    else
      var n := |specs| - 1;
      if Alone(o, parser, specs[n]).Err? then Some(n) else LastBroken(o, parser, specs[..n])
  }

  /** Whether a command is on record as failed after its list has been polled one by one: only the last
      failure is, for each single poll that fails forgets the ones before it. */
  predicate FailedApart(o: Oracle, parser: Parser, s: SwitchState, specs: seq<CmdSpec>, name: Command) {
    match LastBroken(o, parser, specs)
    case Some(i) => name == specs[i].name
    case None => name !in Names(specs) && ErrorFor(s, name).Some?
  }

  lemma {:induction false} PolledAlone(w: World, o: Oracle, parser: Parser, c: ClientState, s: SwitchState,
                                       one: CmdSpec, now: Time, clock: Readings, name: Command)
    requires Conforms(w, o)
    ensures var s' := CollectOn(w, parser, c, s, [one], now, clock).1;
            var ok := Alone(o, parser, one).Ok?;
            && s'.lastSuccess == (if ok then Some(now) else s.lastSuccess) && (s'.scrapeErr.None? <==> ok)
            && (ErrorFor(s', name).Some? <==> if name == one.name then !ok else ok && ErrorFor(s, name).Some?)
  {
    BatchRefinesSeparateRequests(w, o, parser, c, s, [one], now, clock);
    assert Usable(o, parser, [one]) <==> Alone(o, parser, one).Ok? by {
      assert [one][0] == one;
    }
    assert ByItself(s, CollectOn(w, parser, c, s, [one], now, clock).1, [one][0], Alone(o, parser, one), now);
    assert name in Names([one]) <==> name == [one][0].name;
  }

  lemma {:induction false} FailedApartStep(o: Oracle, parser: Parser, s: SwitchState, specs: seq<CmdSpec>,
                                           name: Command)
    requires specs != [] && Distinct(specs)
    ensures var last := specs[|specs| - 1];
            var ok := Alone(o, parser, last).Ok?;
            FailedApart(o, parser, s, specs, name)
            <==> if name == last.name then !ok else ok && FailedApart(o, parser, s, specs[..|specs| - 1], name)
  {
    var n := |specs| - 1;
    assert specs == specs[..n] + [specs[n]];
    assert name in Names(specs) <==> name in Names(specs[..n]) || name == specs[n].name;
  }

  lemma {:induction false} SeparatelyRecord(w: World, o: Oracle, parser: Parser, c: ClientState, s: SwitchState,
                                            specs: seq<CmdSpec>, now: Time, clock: Readings, name: Command)
    requires Conforms(w, o) && Distinct(specs)
    ensures var s' := SeparatelyOn(w, parser, c, s, specs, now, clock).1;
            && s'.lastSuccess == (if Usable(o, parser, specs) then Some(now) else s.lastSuccess)
            && (specs != [] ==> (s'.scrapeErr.None? <==> Alone(o, parser, specs[|specs| - 1]).Ok?))
            && (ErrorFor(s', name).Some? <==> FailedApart(o, parser, s, specs, name))
  {
    if specs != [] {
      var n := |specs| - 1;
      SeparatelyRecord(w, o, parser, c, s, specs[..n], now, clock, name);
      var (c1, s1) := SeparatelyOn(w, parser, c, s, specs[..n], now, clock);
      PolledAlone(w, o, parser, c1, s1, specs[n], now, clock, name);
      FailedApartStep(o, parser, s, specs, name);
      UsableSplit(o, parser, specs);
    }
  }

  lemma {:induction false} UsableSplit(o: Oracle, parser: Parser, specs: seq<CmdSpec>)
    requires specs != []
    ensures var n := |specs| - 1;
            Usable(o, parser, specs) <==> Usable(o, parser, specs[..n]) || Alone(o, parser, specs[n]).Ok?
  {
    var n := |specs| - 1;
    assert forall i :: 0 <= i < n ==> specs[..n][i] == specs[i];
  }

  /** A poll against its commands polled one after the other: the same values, success times and success of
      the switch. They differ in the failures: the poll records every failed command and calls the scrape
      failed when none succeeded; the sequence records the last failed command alone, and calls the scrape
      failed when the last one did. What the sequence has on record the poll has too. */
  lemma {:induction false} BatchEqualsSequence(w: World, o: Oracle, parser: Parser, c: ClientState, s: SwitchState,
                                               specs: seq<CmdSpec>, now: Time, clock: Readings, name: Command)
    requires Conforms(w, o) && Distinct(specs) && specs != []
    ensures var together := CollectOn(w, parser, c, s, specs, now, clock).1;
            var apart := SeparatelyOn(w, parser, c, s, specs, now, clock).1;
            && Lookup(together.values, name) == Lookup(apart.values, name)
            && Lookup(together.commandLastSuccess, name) == Lookup(apart.commandLastSuccess, name)
            && together.lastSuccess == apart.lastSuccess
            && (together.scrapeErr.None? <==> Usable(o, parser, specs))
            && (apart.scrapeErr.None? <==> Alone(o, parser, specs[|specs| - 1]).Ok?)
            && (ErrorFor(apart, name).Some? <==> FailedApart(o, parser, s, specs, name))
            && (ErrorFor(apart, name).Some? ==> ErrorFor(together, name).Some?)
  {
    TogetherFrom(w, o, parser, c, s, specs, now, clock, name);
    SeparatelyFrom(w, o, parser, c, s, specs, now, clock, name);
    SeparatelyRecord(w, o, parser, c, s, specs, now, clock, name);
    TogetherKeepsFailures(w, o, parser, c, s, specs, now, clock, name);
  }

  lemma {:induction false} TogetherKeepsFailures(w: World, o: Oracle, parser: Parser, c: ClientState, s: SwitchState,
                                                 specs: seq<CmdSpec>, now: Time, clock: Readings, name: Command)
    requires Conforms(w, o) && Distinct(specs) && specs != []
    ensures var together := CollectOn(w, parser, c, s, specs, now, clock).1;
            && together.lastSuccess == (if Usable(o, parser, specs) then Some(now) else s.lastSuccess)
            && (together.scrapeErr.None? <==> Usable(o, parser, specs))
            && (FailedApart(o, parser, s, specs, name) ==> ErrorFor(together, name).Some?)
  {
    BatchRefinesSeparateRequests(w, o, parser, c, s, specs, now, clock);
    var together := CollectOn(w, parser, c, s, specs, now, clock).1;
    var broken := LastBroken(o, parser, specs);
    if broken.Some? {
      assert ByItself(s, together, specs[broken.value], Alone(o, parser, specs[broken.value]), now);
    } else {
      assert Alone(o, parser, specs[0]).Ok?;
    }
  }
}
