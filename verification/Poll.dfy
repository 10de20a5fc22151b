/** One poll of a switch: batch first, per-command fallback, staged parse, atomic commit. */
module Poll {
  import opened Basics
  import opened Catalogue
  import opened Schedule
  import opened Repeat
  import opened Eapi
  import opened Text

  /** One sample a command's decoded output renders to; `iface` is "" where no interface is named. */
  datatype Item = Item(iface: string, text: string)

  /** A decoded output: the interfaces it has an entry for, and what it renders to. */
  datatype Value = Value(ifaces: set<string>, items: seq<Item>)

  /** Decoding is an arbitrary partial function of the raw output, one per command. */
  type Parser = (Command, Raw) -> Result<Value, string>

  datatype Failure =
    | Request(err: RunError)
    | ResultCount(expected: nat, got: nat)
    | NotOneResult(got: nat)
    | EmptyResult
    | Unparsable(text: string)
    | NothingUsable

  function Describe(f: Failure): (s: string)
    ensures s != ""
  {
    match f
    case Request(Rejected(text)) => "eAPI error " + text
    case Request(Unauthorized) => "unauthorized"
    case Request(BadStatus(code)) => "unexpected HTTP status: " + Decimal(code)
    case Request(Failed(text)) => "request failed: " + text
    case ResultCount(expected, got) =>
      "result count mismatch: expected " + Decimal(expected) + ", got " + Decimal(got)
    case NotOneResult(got) => "expected 1 result, got " + Decimal(got)
    case EmptyResult => "empty result"
    case Unparsable(text) => "parse: " + text
    case NothingUsable => "no command returned usable output"
  }

  lemma {:induction false} DescribeStarts(f: Failure)
    ensures var s := Describe(f);
            && |s| >= 3
            && match f
               case Request(Rejected(_)) => s[1] == 'A'
               case Request(Unauthorized) => s[1] == 'n' && s[2] == 'a'
               case Request(BadStatus(_)) => s[1] == 'n' && s[2] == 'e'
               case Request(Failed(_)) => s[1] == 'e' && s[2] == 'q'
               case ResultCount(_, _) => s[1] == 'e' && s[2] == 's'
               case NotOneResult(_) => s[1] == 'x'
               case EmptyResult => s[1] == 'm'
               case Unparsable(_) => s[1] == 'a'
               case NothingUsable => s[1] == 'o'
  {
  }

  lemma {:induction false} CountsDescribed(f: Failure, g: Failure)
    requires f.ResultCount? && g.ResultCount? && Describe(f) == Describe(g)
    ensures f == g
  {
    var prefix, middle := "result count mismatch: expected ", ", got ";
    var a, b := middle + Decimal(f.got), middle + Decimal(g.got);
    assert Describe(f) == prefix + (Decimal(f.expected) + a);
    assert Describe(g) == prefix + (Decimal(g.expected) + b);
    SamePrefix(prefix, Decimal(f.expected) + a, Decimal(g.expected) + b);
    assert a[0] == ',' && b[0] == ',';
    NumeralThen(f.expected, a, g.expected, b);
    SamePrefix(middle, Decimal(f.got), Decimal(g.got));
    DecimalIsInjective(f.got, g.got);
  }

  /** Different failures have different messages, so that none is taken for a repetition of another. */
  lemma {:induction false} DescribeIsInjective(f: Failure, g: Failure)
    requires Describe(f) == Describe(g)
    ensures f == g
  {
    DescribeStarts(f);
    DescribeStarts(g);
    match f
    case Request(Rejected(text)) => SamePrefix("eAPI error ", text, g.err.text);
    case Request(Unauthorized) =>
    case Request(BadStatus(code)) =>
      SamePrefix("unexpected HTTP status: ", Decimal(code), Decimal(g.err.code));
      DecimalIsInjective(code, g.err.code);
    case Request(Failed(text)) => SamePrefix("request failed: ", text, g.err.text);
    case ResultCount(_, _) => CountsDescribed(f, g);
    case NotOneResult(got) =>
      SamePrefix("expected 1 result, got ", Decimal(got), Decimal(g.got));
      DecimalIsInjective(got, g.got);
    case EmptyResult =>
    case Unparsable(text) => SamePrefix("parse: ", text, g.text);
    case NothingUsable =>
  }

  /** What one poll brought back: nothing at all, or an outcome per command. */
  datatype Answers =
    | Refused(err: Failure)
    | Answered(batchErr: Option<Failure>, results: map<Command, Result<Value, Failure>>)

  /** The clock read twice at the end of a poll: for the attempt time, then for the log. */
  datatype Readings = Readings(attempted: Time, logged: Time)

  datatype SwitchState = SwitchState(
    nextDue: Deadlines,
    lastSuccess: Option<Time>,
    lastAttempt: Option<Time>,
    scrapeErr: Option<Failure>,
    commandErrors: Option<map<Command, Failure>>,
    commandLastSuccess: map<Command, Time>,
    values: map<Command, Value>,
    tracker: Tracker)

  const INITIAL := SwitchState(map[], None, None, None, None, map[], map[], FRESH)

  // --- Talking to the switch --------------------------------------------------------------------

  predicate WorthRetrying(f: Failure) {
    f.ResultCount? || (f.Request? && f.err.Rejected?)
  }

  function BatchOn(w: World, c: ClientState, specs: seq<CmdSpec>): (ClientState, Result<seq<Raw>, Failure>) {
    var (c', r) := RunOn(w, c, Clis(specs));
    (c',
     match r
     case Err(e) => Err(Request(e))
     case Ok(raws) => if |raws| == |specs| then Ok(raws) else Err(ResultCount(|specs|, |raws|)))
  }

  function OneOn(w: World, c: ClientState, cli: string): (ClientState, Result<Raw, Failure>) {
    var (c', r) := RunOn(w, c, [cli]);
    (c',
     match r
     case Err(e) => Err(Request(e))
     case Ok(raws) => if |raws| == 1 then Ok(raws[0]) else Err(NotOneResult(|raws|)))
  }

  function OneByOneOn(w: World, c: ClientState, specs: seq<CmdSpec>): (r: (ClientState, seq<Result<Raw, Failure>>))
    ensures |r.1| == |specs|
  {
    if specs == [] then (c, [])
    else
      var n := |specs| - 1;
      var (c1, earlier) := OneByOneOn(w, c, specs[..n]);
      var (c2, last) := OneOn(w, c1, specs[n].cli);
      (c2, earlier + [last])
  }

  function ParseOne(parser: Parser, name: Command, raw: Result<Raw, Failure>): Result<Value, Failure> {
    match raw
    case Err(f) => Err(f)
    case Ok(text) =>
      if text == "" then Err(EmptyResult)
      else
        match parser(name, text)
        case Err(t) => Err(Unparsable(t))
        case Ok(v) => Ok(v)
  }

  function ParseAll(parser: Parser, specs: seq<CmdSpec>, raws: seq<Result<Raw, Failure>>)
    : (m: map<Command, Result<Value, Failure>>)
    requires |raws| == |specs|
    ensures m.Keys == Names(specs)
  {
    if specs == [] then map[]
    else
      var n := |specs| - 1;
      assert Names(specs) == Names(specs[..n]) + {specs[n].name} by {
        assert specs == specs[..n] + [specs[n]];
      }
      ParseAll(parser, specs[..n], raws[..n])[specs[n].name := ParseOne(parser, specs[n].name, raws[n])]
  }

  lemma {:induction false} ParseAllOf(parser: Parser, specs: seq<CmdSpec>, raws: seq<Result<Raw, Failure>>, i: nat)
    requires |raws| == |specs| && Distinct(specs) && i < |specs|
    ensures specs[i].name in Names(specs)
    ensures ParseAll(parser, specs, raws)[specs[i].name] == ParseOne(parser, specs[i].name, raws[i])
  {
    var n := |specs| - 1;
    if i < n {
      ParseAllOf(parser, specs[..n], raws[..n], i);
    }
  }

  function Succeeding(raws: seq<Raw>): seq<Result<Raw, Failure>> {
    seq(|raws|, i requires 0 <= i < |raws| => Ok(raws[i]))
  }

  function GatherOn(w: World, parser: Parser, c: ClientState, specs: seq<CmdSpec>): (ClientState, Answers) {
    var (c1, batch) := BatchOn(w, c, specs);
    match batch
    case Ok(raws) => (c1, Answered(None, ParseAll(parser, specs, Succeeding(raws))))
    case Err(f) =>
      if !WorthRetrying(f) then (c1, Refused(f))
      else
        var (c2, raws) := OneByOneOn(w, c1, specs);
        (c2, Answered(Some(f), ParseAll(parser, specs, raws)))
  }

  // --- Recording the outcome --------------------------------------------------------------------

  /** Answers name exactly the commands that were issued. */
  ghost predicate Fits(a: Answers, issued: seq<CmdSpec>) {
    a.Answered? ==> a.results.Keys == Names(issued)
  }

  function Good(a: Answers): set<Command> {
    if a.Refused? then {} else set n | n in a.results && a.results[n].Ok?
  }

  function Reason(a: Answers): Failure {
    match a
    case Refused(f) => f
    case Answered(Some(f), _) => f
    case Answered(None, _) => NothingUsable
  }

  function FailureParts(issued: seq<CmdSpec>, errors: map<Command, Failure>): seq<string> {
    if issued == [] then []
    else
      var n := |issued| - 1;
      var c := issued[n];
      FailureParts(issued[..n], errors)
      + (if c.name in errors then [Label(c.name) + " (" + Describe(errors[c.name]) + ")"] else [])
  }

  function FailureSummary(issued: seq<CmdSpec>, errors: map<Command, Failure>): (s: string)
    ensures s != ""
  {
    var parts := FailureParts(issued, errors);
    Decimal(|parts|) + " of " + Decimal(|issued|) + " commands failed: " + Join(parts, "; ")
  }

  /** The issued commands that failed, in issue order. */
  function FailedOf(issued: seq<CmdSpec>, errors: map<Command, Failure>): seq<CmdSpec> {
    Select(issued, (c: CmdSpec) => c.name in errors)
  }

  function FailurePart(name: Command, f: Failure): string {
    Label(name) + " (" + Describe(f) + ")"
  }

  /** The failed commands alone are named, each with its own failure, in issue order. */
  lemma {:induction false} PartsNameTheFailed(issued: seq<CmdSpec>, errors: map<Command, Failure>)
    ensures var parts, failed := FailureParts(issued, errors), FailedOf(issued, errors);
            && |parts| == |failed|
            && forall i :: 0 <= i < |failed| ==>
                 failed[i].name in errors && parts[i] == FailurePart(failed[i].name, errors[failed[i].name])
  {
    if issued != [] {
      var n := |issued| - 1;
      PartsNameTheFailed(issued[..n], errors);
      SelectConcat(issued[..n], [issued[n]], (c: CmdSpec) => c.name in errors);
      assert issued == issued[..n] + [issued[n]];
    }
  }

  lemma {:induction false} PartTells(a: Command, f: Failure, b: Command, g: Failure)
    requires FailurePart(a, f) == FailurePart(b, g)
    ensures a == b && f == g
  {
    LabelHasNoBracket(a);
    LabelHasNoBracket(b);
    Bracketed(Label(a), Describe(f), Label(b), Describe(g));
    LabelIsInjective(a, b);
    DescribeIsInjective(f, g);
  }

  function SummaryMiddle(issued: seq<CmdSpec>): (s: string)
    ensures s != "" && s[0] == ' '
  {
    " of " + Decimal(|issued|) + " commands failed: "
  }

  lemma {:induction false} SummaryIs(issued: seq<CmdSpec>, errors: map<Command, Failure>)
    ensures var parts := FailureParts(issued, errors);
            FailureSummary(issued, errors) == Decimal(|parts|) + SummaryMiddle(issued) + Join(parts, "; ")
  {
    var parts, n := FailureParts(issued, errors), Decimal(|issued|);
    Regroup(Decimal(|parts|), " of ", n, " commands failed: ");
  }

  lemma {:induction false} Regroup(a: string, b: string, c: string, d: string)
    ensures a + b + c + d == a + (b + c + d)
  {
  }

  /** Equal summaries of the same commands tell of equally many failures, and of the same command and
      the same failure where there is one. */
  lemma {:induction false} SummaryTells(issued: seq<CmdSpec>, e1: map<Command, Failure>, e2: map<Command, Failure>)
    requires FailureSummary(issued, e1) == FailureSummary(issued, e2)
    ensures var failed1, failed2 := FailedOf(issued, e1), FailedOf(issued, e2);
            && |failed1| == |failed2|
            && (|failed1| == 1 ==>
                  var a, b := failed1[0].name, failed2[0].name;
                  a == b && a in e1 && a in e2 && e1[a] == e2[a])
  {
    PartsNameTheFailed(issued, e1);
    PartsNameTheFailed(issued, e2);
    var parts1, parts2 := FailureParts(issued, e1), FailureParts(issued, e2);
    SummaryIs(issued, e1);
    SummaryIs(issued, e2);
    CountThen(|parts1|, |parts2|, SummaryMiddle(issued), Join(parts1, "; "), Join(parts2, "; "));
    if |parts1| == 1 {
      var a, b := FailedOf(issued, e1)[0].name, FailedOf(issued, e2)[0].name;
      PartTells(a, e1[a], b, e2[b]);
    }
  }

  function ErrorsOf(results: map<Command, Result<Value, Failure>>): map<Command, Failure> {
    map n | n in results && results[n].Err? :: results[n].error
  }

  function ValuesOf(results: map<Command, Result<Value, Failure>>): map<Command, Value> {
    map n | n in results && results[n].Ok? :: results[n].value
  }

  function StampsOf(results: map<Command, Result<Value, Failure>>, now: Time): map<Command, Time> {
    map n | n in results && results[n].Ok? :: now
  }

  /** A poll from which no command got anything. */
  function SetErrorOn(s: SwitchState, issued: seq<CmdSpec>, f: Failure, clock: Time): (SwitchState, Line) {
    var (t, line) := Observing(s.tracker, Describe(f), clock);
    (s.(scrapeErr := Some(f), commandErrors := Some(map n | n in Names(issued) :: f), tracker := t), line)
  }

  /** The recorded failures of commands that were not issued. */
  function Kept(s: SwitchState, issued: seq<CmdSpec>): map<Command, Failure> {
    if s.commandErrors.None? then map[] else s.commandErrors.value - Names(issued)
  }

  /** A poll in which something landed. */
  function CommitOn(s: SwitchState, issued: seq<CmdSpec>, results: map<Command, Result<Value, Failure>>,
                    now: Time, clock: Time): (SwitchState, Line)
  {
    var errors := ErrorsOf(results);
    var (t, line) :=
      if errors == map[] then Recovering(s.tracker, clock)
      else Observing(s.tracker, FailureSummary(issued, errors), clock);
    (s.(commandErrors := Some(errors + Kept(s, issued)),
        scrapeErr := None,
        lastSuccess := Some(now),
        commandLastSuccess := s.commandLastSuccess + StampsOf(results, now),
        values := s.values + ValuesOf(results),
        tracker := t),
     line)
  }

  function SettleOn(s: SwitchState, issued: seq<CmdSpec>, a: Answers, now: Time, clock: Readings)
    : (SwitchState, Line)
  {
    match a
    case Refused(f) => SetErrorOn(s, issued, f, clock.logged)
    case Answered(_, results) =>
      var s1 := s.(lastAttempt := Some(clock.attempted));
      if Good(a) == {} then SetErrorOn(s1, issued, Reason(a), clock.logged)
      else CommitOn(s1, issued, results, now, clock.logged)
  }

  function Marked(s: SwitchState, issued: seq<CmdSpec>, now: Time): SwitchState {
    s.(nextDue := MarkDue(s.nextDue, issued, now))
  }

  function CollectOn(w: World, parser: Parser, c: ClientState, s: SwitchState, issued: seq<CmdSpec>,
                     now: Time, clock: Readings): (ClientState, SwitchState, Line)
  {
    var (c', a) := GatherOn(w, parser, c, issued);
    var (s', line) := SettleOn(Marked(s, issued, now), issued, a, now, clock);
    (c', s', line)
  }

  function CollectDueOn(w: World, parser: Parser, c: ClientState, s: SwitchState, specs: seq<CmdSpec>,
                        now: Time, clock: Readings): (ClientState, SwitchState, Line)
  {
    var issued := Due(s.nextDue, specs, now);
    if issued == [] then (c, s, Quiet) else CollectOn(w, parser, c, s, issued, now, clock)
  }
}
