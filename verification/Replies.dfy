/** What one poll makes of the replies it gets, from those replies alone. */
module Replies {
  import opened Basics
  import opened Catalogue
  import opened Secret
  import opened Eapi
  import opened Poll
  import opened Engine

  /** The calls of `Run` between two moments: the requests counted, less the second ones after a rotation. */
  function CallsMade(c: ClientState, c': ClientState): int {
    TotalRequests(c'.stats.requests) - TotalRequests(c.stats.requests)
    - (Counted(c'.stats.reloads, Rotated) - Counted(c.stats.reloads, Rotated))
  }

  lemma {:induction false} CallsMadeIsCalls(w: World, c: ClientState, calls: seq<seq<string>>)
    ensures CallsMade(c, RunAll(w, c, calls)) == |calls|
  {
    Conservation(w, c, calls);
  }

  /** The client after the batch, and after the batch and the first `n` single requests. */
  function AfterBatch(w: World, c: ClientState, issued: seq<CmdSpec>, n: nat): ClientState
    requires n <= |issued|
  {
    RunAll(w, c, [Clis(issued)] + Singles(issued[..n]))
  }

  lemma {:induction false} BatchByReply(w: World, c: ClientState, issued: seq<CmdSpec>)
    requires w.badUrl.None?
    ensures var (c', r) := BatchOn(w, c, issued);
            && c' == RunAll(w, c, [Clis(issued)])
            && match Deciding(w, c, Clis(issued))
               case Results(raws, _) =>
                 r == if |raws| == |issued| then Ok(raws) else Err(ResultCount(|issued|, |raws|))
               case RpcError(text, _) => r == Err(Request(Rejected(text)))
               case Status(code) => r == Err(Request(if code == 401 then Unauthorized else BadStatus(code)))
               case Transport(text) => r == Err(Request(Failed(text)))
               case Undecodable(text, _) => r == Err(Request(Failed(text)))
  {
    RunReturns(w, c, Clis(issued));
    RunAllOfOne(w, c, Clis(issued));
  }

  lemma {:induction false} FallbackClient(w: World, c: ClientState, issued: seq<CmdSpec>)
    ensures OneByOneOn(w, BatchOn(w, c, issued).0, issued).0 == AfterBatch(w, c, issued, |issued|)
  {
    RunAllOfOne(w, c, Clis(issued));
    OneByOneIsRunAll(w, BatchOn(w, c, issued).0, issued);
    RunAllConcat(w, c, [Clis(issued)], Singles(issued));
    assert issued[..|issued|] == issued;
  }

  /** An answered request that brought no result per command. */
  predicate Partial(reply: Reply, issued: seq<CmdSpec>) {
    reply.RpcError? || (reply.Results? && |reply.raws| != |issued|)
  }

  /** Nothing was learnt of any command. */
  predicate Unanswered(reply: Reply) {
    reply.Transport? || reply.Undecodable? || reply.Status?
  }

  /** The client and the answers after a poll are as the settling reply of its batch says. */
  ghost predicate ByReply(w: World, c: ClientState, c': ClientState, issued: seq<CmdSpec>, a: Answers) {
    var reply := Deciding(w, c, Clis(issued));
    && (a.Refused? <==> Unanswered(reply))
    && CallsMade(c, c') == (if Partial(reply, issued) then 1 + |issued| else 1)
  }

  lemma {:induction false} GatherByReply(w: World, parser: Parser, c: ClientState, issued: seq<CmdSpec>)
    requires w.badUrl.None?
    ensures var (c', a) := GatherOn(w, parser, c, issued);
            var reply := Deciding(w, c, Clis(issued));
            && (a.Refused? <==> Unanswered(reply))
            && c' == (if Partial(reply, issued) then AfterBatch(w, c, issued, |issued|)
                      else RunAll(w, c, [Clis(issued)]))
            && CallsMade(c, c') == (if Partial(reply, issued) then 1 + |issued| else 1)
  {
    BatchByReply(w, c, issued);
    FallbackClient(w, c, issued);
    CallsMadeIsCalls(w, c, [Clis(issued)] + Singles(issued[..|issued|]));
    CallsMadeIsCalls(w, c, [Clis(issued)]);
  }

  /** One poll, from the reply that settles its batch: an eAPI error or a result list of the wrong length
      costs one more call per command; a transport error, an undecodable body or any HTTP status is the end
      of the poll, which is then refused and leaves the attempt time alone. */
  lemma {:induction false} PollByReply(w: World, parser: Parser, c: ClientState, s: SwitchState, issued: seq<CmdSpec>,
                                       now: Time, clock: Readings)
    requires w.badUrl.None?
    ensures var (c', s', _) := CollectOn(w, parser, c, s, issued, now, clock);
            var reply := Deciding(w, c, Clis(issued));
            && CallsMade(c, c') == (if Partial(reply, issued) then 1 + |issued| else 1)
            && (GatherOn(w, parser, c, issued).1.Refused? <==> Unanswered(reply))
            && s'.lastAttempt == (if Unanswered(reply) then s.lastAttempt else Some(clock.attempted))
  {
    GatherByReply(w, parser, c, issued);
  }

  /** A poll of a switch whose URL does not parse is refused, with nothing sent. */
  lemma {:induction false} UnbuildablePollIsRefused(w: World, parser: Parser, c: ClientState, s: SwitchState,
                                                    issued: seq<CmdSpec>, now: Time, clock: Readings)
    requires w.badUrl.Some?
    ensures var (c', s', _) := CollectOn(w, parser, c, s, issued, now, clock);
            && c'.sent == c.sent && CallsMade(c, c') == 1
            && GatherOn(w, parser, c, issued).1.Refused? && s'.lastAttempt == s.lastAttempt
  {
    RunAllOfOne(w, c, Clis(issued));
    CallsMadeIsCalls(w, c, [Clis(issued)]);
    UnbuildableIsCountedAsSuccess(w, c, Clis(issued));
  }

  // --- What each command gets -------------------------------------------------------------------

  /** The outcome of a command whose output is `text`. */
  ghost predicate Decoded(parser: Parser, name: Command, text: Raw, r: Result<Value, Failure>) {
    match r
    case Ok(v) => text != "" && parser(name, text) == Ok(v)
    case Err(EmptyResult) => text == ""
    case Err(Unparsable(t)) => text != "" && parser(name, text) == Err(t)
    case Err(_) => false
  }

  /** The outcome of a command asked by itself and answered with `reply`. */
  ghost predicate Delivered(parser: Parser, name: Command, reply: Reply, r: Result<Value, Failure>) {
    match reply
    case Results(raws, _) =>
      if |raws| == 1 then Decoded(parser, name, raws[0], r) else r == Err(NotOneResult(|raws|))
    case RpcError(text, _) => r == Err(Request(Rejected(text)))
    case Status(code) => r == Err(Request(if code == 401 then Unauthorized else BadStatus(code)))
    case Transport(text) => r == Err(Request(Failed(text)))
    case Undecodable(text, _) => r == Err(Request(Failed(text)))
  }

  lemma {:induction false} ParsedIsDecoded(parser: Parser, name: Command, text: Raw)
    ensures Decoded(parser, name, text, ParseOne(parser, name, Ok(text)))
  {
  }

  lemma {:induction false} OneByReply(w: World, parser: Parser, c: ClientState, one: CmdSpec)
    requires w.badUrl.None?
    ensures Delivered(parser, one.name, Deciding(w, c, [one.cli]), ParseOne(parser, one.name, OneOn(w, c, one.cli).1))
  {
    RunReturns(w, c, [one.cli]);
  }

  lemma {:induction false} OneByOneStep(w: World, c: ClientState, issued: seq<CmdSpec>, i: nat)
    requires i < |issued|
    ensures OneByOneOn(w, c, issued).1[i] == OneOn(w, RunAll(w, c, Singles(issued[..i])), issued[i].cli).1
  {
    var n := |issued| - 1;
    if i < n {
      OneByOneStep(w, c, issued[..n], i);
      assert issued[..n][..i] == issued[..i];
    } else {
      OneByOneIsRunAll(w, c, issued[..n]);
    }
  }

  /** A batch with a result per command gives each its own, in the order asked. */
  lemma {:induction false} BatchDelivers(w: World, parser: Parser, c: ClientState, issued: seq<CmdSpec>, i: nat)
    requires w.badUrl.None? && Distinct(issued) && i < |issued|
    requires var reply := Deciding(w, c, Clis(issued)); reply.Results? && |reply.raws| == |issued|
    ensures var a := GatherOn(w, parser, c, issued).1;
            && a.Answered? && issued[i].name in a.results
            && Decoded(parser, issued[i].name, Deciding(w, c, Clis(issued)).raws[i], a.results[issued[i].name])
  {
    var raws := Deciding(w, c, Clis(issued)).raws;
    BatchByReply(w, c, issued);
    ParseAllOf(parser, issued, Succeeding(raws), i);
    ParsedIsDecoded(parser, issued[i].name, raws[i]);
  }

  lemma {:induction false} PartialFallsBack(w: World, parser: Parser, c: ClientState, issued: seq<CmdSpec>)
    requires w.badUrl.None? && Partial(Deciding(w, c, Clis(issued)), issued)
    ensures var raws := OneByOneOn(w, BatchOn(w, c, issued).0, issued).1;
            var a := GatherOn(w, parser, c, issued).1;
            a.Answered? && a.results == ParseAll(parser, issued, raws)
  {
    BatchByReply(w, c, issued);
  }

  lemma {:induction false} SingleClient(w: World, c: ClientState, issued: seq<CmdSpec>, i: nat)
    requires i <= |issued|
    ensures RunAll(w, BatchOn(w, c, issued).0, Singles(issued[..i])) == AfterBatch(w, c, issued, i)
  {
    RunAllOfOne(w, c, Clis(issued));
    RunAllConcat(w, c, [Clis(issued)], Singles(issued[..i]));
  }

  /** After a fallback each command has what the reply to its own request gives it, whatever became of the
      others. */
  lemma {:induction false} FallbackDelivers(w: World, parser: Parser, c: ClientState, issued: seq<CmdSpec>, i: nat)
    requires w.badUrl.None? && Distinct(issued) && i < |issued|
    requires Partial(Deciding(w, c, Clis(issued)), issued)
    ensures var a := GatherOn(w, parser, c, issued).1;
            && a.Answered? && issued[i].name in a.results
            && Delivered(parser, issued[i].name, Deciding(w, AfterBatch(w, c, issued, i), [issued[i].cli]),
                         a.results[issued[i].name])
  {
    var c1 := BatchOn(w, c, issued).0;
    PartialFallsBack(w, parser, c, issued);
    SingleClient(w, c, issued, i);
    OneByOneStep(w, c1, issued, i);
    ParseAllOf(parser, issued, OneByOneOn(w, c1, issued).1, i);
    OneByReply(w, parser, AfterBatch(w, c, issued, i), issued[i]);
  }

  // --- What goes on record when nothing landed --------------------------------------------------

  /** The reason recorded for a poll from which no command got anything: what its batch met, or, if the
      batch brought a result for every command, that none was usable. */
  lemma {:induction false} ReasonByReply(w: World, parser: Parser, c: ClientState, s: SwitchState, issued: seq<CmdSpec>,
                                         now: Time, clock: Readings)
    requires w.badUrl.None?
    ensures var s' := CollectOn(w, parser, c, s, issued, now, clock).1;
            var a := GatherOn(w, parser, c, issued).1;
            var landed := a.Answered? && exists name :: name in a.results && a.results[name].Ok?;
            if landed then s'.scrapeErr == None
            else
              && s'.scrapeErr.Some?
              && (forall name :: name in Names(issued) ==>
                    s'.commandErrors.Some? && Lookup(s'.commandErrors.value, name) == s'.scrapeErr)
              && match Deciding(w, c, Clis(issued))
                 case Results(raws, _) =>
                   s'.scrapeErr.value
                   == if |raws| == |issued| then NothingUsable else ResultCount(|issued|, |raws|)
                 case RpcError(text, _) => s'.scrapeErr.value == Request(Rejected(text))
                 case Status(code) =>
                   s'.scrapeErr.value == Request(if code == 401 then Unauthorized else BadStatus(code))
                 case Transport(text) => s'.scrapeErr.value == Request(Failed(text))
                 case Undecodable(text, _) => s'.scrapeErr.value == Request(Failed(text))
  {
    var a := GatherOn(w, parser, c, issued).1;
    BatchByReply(w, c, issued);
    if a.Answered? {
      assert forall name :: name in Good(a) <==> name in a.results && a.results[name].Ok?;
    }
  }
}
