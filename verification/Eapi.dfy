/** The eAPI client: one request per call, one retry after a rotation, and the request counters. */
module Eapi {
  import opened Basics
  import opened Secret

  type Raw = string

  /** What an HTTP request that was sent can come to. */
  datatype Reply =
    | Transport(text: string)
    | Status(code: nat)
    | Undecodable(text: string, bytes: nat)
    | RpcError(text: string, bytes: nat)
    | Results(raws: seq<Raw>, bytes: nat)

  /** `Rejected` is the original's CommandError: the switch answered and refused the request. */
  datatype RunError =
    | Rejected(text: string)
    | Unauthorized
    | BadStatus(code: nat)
    | Failed(text: string)

  datatype Outcome = OutcomeSuccess | OutcomeEapiError | OutcomeHttpError | OutcomeTransportError

  datatype AttemptKind = AttemptBatch | AttemptRetry

  datatype RequestKey = RequestKey(outcome: Outcome, attempt: AttemptKind)

  type Requests = map<RequestKey, nat>
  type Reloads = map<Reload, nat>

  function Bump<K>(m: map<K, nat>, k: K): map<K, nat> {
    m[k := Counted(m, k) + 1]
  }

  function Counted<K>(m: map<K, nat>, k: K): nat {
    if k in m then m[k] else 0
  }

  function AttemptFor(cmds: seq<string>): AttemptKind {
    if |cmds| == 1 then AttemptRetry else AttemptBatch
  }

  /** One attempt at a request: `None` for a reply when the request could not be built. */
  datatype Attempted = Attempted(cmds: seq<string>, reply: Option<Reply>, took: Time)

  function OutcomeOf(r: Option<Reply>): Outcome {
    match r
    case None => OutcomeSuccess
    case Some(Transport(_)) => OutcomeTransportError
    case Some(Status(_)) => OutcomeHttpError
    case Some(Undecodable(_, _)) => OutcomeTransportError
    case Some(RpcError(_, _)) => OutcomeEapiError
    case Some(Results(_, _)) => OutcomeSuccess
  }

  function BytesOf(r: Option<Reply>): nat {
    match r
    case Some(Undecodable(_, n)) => n
    case Some(RpcError(_, n)) => n
    case Some(Results(_, n)) => n
    case _ => 0
  }

  function KeyOf(a: Attempted): RequestKey {
    RequestKey(OutcomeOf(a.reply), AttemptFor(a.cmds))
  }

  function ResultOf(r: Reply): Result<seq<Raw>, RunError> {
    match r
    case Transport(text) => Err(Failed(text))
    case Status(code) => if code == 401 then Err(Unauthorized) else Err(BadStatus(code))
    case Undecodable(text, _) => Err(Failed(text))
    case RpcError(text, _) => Err(Rejected(text))
    case Results(raws, _) => Ok(raws)
  }

  /** Everything outside the process, all of it arbitrary: why no request to this switch can be built,
      if its URL does not parse; the reply to the n-th attempt, which may depend on the password and the
      commands sent; how long that attempt took; and what the n-th read of the secret file returns. */
  datatype World = World(badUrl: Option<string>, wire: (nat, string, seq<string>) -> Reply, took: nat -> Time,
                         fileBacked: bool, file: nat -> FileRead)

  datatype Counters = Counters(requests: Requests, reloads: Reloads, bytes: nat, duration: Time)

  /** `attempts` counts the requests begun, `sent` those handed to the HTTP client. */
  datatype ClientState = ClientState(attempts: nat, sent: nat, readCount: nat, password: string, stats: Counters)

  /** What the next attempt comes to. */
  function NextAttempt(w: World, c: ClientState, cmds: seq<string>): Attempted {
    Attempted(cmds, if w.badUrl.Some? then None else Some(w.wire(c.attempts, c.password, cmds)), w.took(c.attempts))
  }

  function Recorded(s: Counters, a: Attempted): Counters {
    s.(requests := Bump(s.requests, KeyOf(a)), bytes := s.bytes + BytesOf(a.reply), duration := s.duration + a.took)
  }

  function AttemptOn(w: World, c: ClientState, cmds: seq<string>): (ClientState, Result<seq<Raw>, RunError>) {
    var a := NextAttempt(w, c, cmds);
    (c.(attempts := c.attempts + 1,
        sent := c.sent + (if a.reply.Some? then 1 else 0),
        stats := Recorded(c.stats, a)),
     if a.reply.Some? then ResultOf(a.reply.value) else Err(Failed(w.badUrl.value)))
  }

  function ReloadCredential(w: World, c: ClientState): (ClientState, Reload) {
    var (pw, outcome) := Reloading(c.password, if w.fileBacked then Some(w.file(c.readCount)) else None);
    (c.(password := pw, readCount := c.readCount + (if w.fileBacked then 1 else 0),
        stats := c.stats.(reloads := Bump(c.stats.reloads, outcome))),
     outcome)
  }

  function RunOn(w: World, c: ClientState, cmds: seq<string>): (ClientState, Result<seq<Raw>, RunError>) {
    var (c1, r) := AttemptOn(w, c, cmds);
    if r != Err(Unauthorized) then (c1, r)
    else
      var (c2, outcome) := ReloadCredential(w, c1);
      if outcome == Rotated then AttemptOn(w, c2, cmds) else (c2, r)
  }

  // --- The objects ------------------------------------------------------------------------------

  class Stats {
    var requests: Requests
    var reloads: Reloads
    var respBytes: nat
    var duration: Time

    ghost function View(): Counters
      reads this
    {
      Counters(requests, reloads, respBytes, duration)
    }

    constructor ()
      ensures View() == Counters(map[], map[], 0, 0)
    {
      requests, reloads, respBytes, duration := map[], map[], 0, 0;
    }

    method Record(key: RequestKey, bytes: nat, took: Time)
      modifies this
      ensures requests == Bump(old(requests), key)
      ensures respBytes == old(respBytes) + bytes && duration == old(duration) + took && reloads == old(reloads)
    {
      requests := requests[key := (if key in requests then requests[key] else 0) + 1];
      if bytes > 0 {
        respBytes := respBytes + bytes;
      }
      duration := duration + took;
    }

    method RecordReload(r: Reload)
      modifies this
      ensures reloads == Bump(old(reloads), r)
      ensures requests == old(requests) && respBytes == old(respBytes) && duration == old(duration)
    {
      reloads := reloads[r := (if r in reloads then reloads[r] else 0) + 1];
    }
  }

  class Client {
    const badUrl: Option<string>
    const wire: (nat, string, seq<string>) -> Reply
    const took: nat -> Time
    const cred: Credential
    const stats: Stats
    var attempts: nat
    var sent: nat

    constructor (badUrl: Option<string>, wire: (nat, string, seq<string>) -> Reply, took: nat -> Time, cred: Credential,
                 stats: Stats)
      ensures this.badUrl == badUrl && this.wire == wire && this.took == took
      ensures this.cred == cred && this.stats == stats && attempts == 0 && sent == 0
    {
      this.badUrl, this.wire, this.took := badUrl, wire, took;
      this.cred, this.stats := cred, stats;
      this.attempts, this.sent := 0, 0;
    }

    ghost function Outside(): World {
      World(badUrl, wire, took, cred.fileBacked, cred.file)
    }

    ghost function View(): ClientState
      reads this, cred, stats
    {
      ClientState(attempts, sent, cred.readCount, cred.password, stats.View())
    }

    method Attempt(cmds: seq<string>) returns (r: Result<seq<Raw>, RunError>)
      modifies this, stats
      ensures (View(), r) == AttemptOn(Outside(), old(View()), cmds)
    {
      var outcome := OutcomeSuccess;
      var bytes := 0;
      var n := attempts;
      attempts := attempts + 1;
      if badUrl.Some? {
        stats.Record(RequestKey(outcome, AttemptFor(cmds)), bytes, took(n));
        return Err(Failed(badUrl.value));
      }
      var reply := wire(n, cred.password, cmds);
      sent := sent + 1;
      match reply {
        case Transport(text) =>
          outcome := OutcomeTransportError;
          r := Err(Failed(text));
        case Status(code) =>
          outcome := OutcomeHttpError;
          r := if code == 401 then Err(Unauthorized) else Err(BadStatus(code));
        case Undecodable(text, size) =>
          bytes := size;
          outcome := OutcomeTransportError;
          r := Err(Failed(text));
        case RpcError(text, size) =>
          bytes := size;
          outcome := OutcomeEapiError;
          r := Err(Rejected(text));
        case Results(raws, size) =>
          bytes := size;
          r := Ok(raws);
      }
      stats.Record(RequestKey(outcome, AttemptFor(cmds)), bytes, took(n));
    }

    method Run(cmds: seq<string>) returns (r: Result<seq<Raw>, RunError>)
      modifies this, cred, stats
      ensures (View(), r) == RunOn(Outside(), old(View()), cmds)
      ensures forall pw, raws, bytes :: Admits(Outside(), cmds, pw, raws, bytes) ==>
        var known := old(cred.password) == pw || (cred.fileBacked && Holds(cred.file(old(cred.readCount)), pw));
        r == if known then Ok(raws) else Err(Unauthorized)
    {
      ghost var before := View();
      r := Attempt(cmds);
      if r == Err(Unauthorized) {
        r := RetryAfterRotation(cmds, r);
      }
      forall pw, raws, bytes | Admits(Outside(), cmds, pw, raws, bytes)
        ensures var known := before.password == pw || (cred.fileBacked && Holds(cred.file(before.readCount), pw));
                r == if known then Ok(raws) else Err(Unauthorized)
      {
        RunGetsIn(Outside(), before, cmds, pw, raws, bytes);
      }
    }

    method RetryAfterRotation(cmds: seq<string>, rejection: Result<seq<Raw>, RunError>)
      returns (r: Result<seq<Raw>, RunError>)
      modifies this, cred, stats
      ensures var (c, outcome) := ReloadCredential(Outside(), old(View()));
              (View(), r) == if outcome == Rotated then AttemptOn(Outside(), c, cmds) else (c, rejection)
    {
      var outcome := cred.Reload();
      match outcome {
        case ReloadFailed =>
          stats.RecordReload(ReloadFailed);
          return rejection;
        case Unchanged =>
          stats.RecordReload(Unchanged);
          return rejection;
        case Rotated =>
          stats.RecordReload(Rotated);
          r := Attempt(cmds);
      }
    }
  }

  // --- What a call returns ----------------------------------------------------------------------

  /** The reply that settles a call: the second one when the first was a 401 and the secret file held
      another password, else the first. */
  ghost function Deciding(w: World, c: ClientState, cmds: seq<string>): Reply {
    var first := w.wire(c.attempts, c.password, cmds);
    if first == Status(401) && w.fileBacked && exists pw :: Holds(w.file(c.readCount), pw) && pw != c.password then
      var pw :| Holds(w.file(c.readCount), pw) && pw != c.password;
      w.wire(c.attempts + 1, pw, cmds)
    else first
  }

  lemma {:induction false} RunByReply(w: World, c: ClientState, cmds: seq<string>)
    requires w.badUrl.None?
    ensures RunOn(w, c, cmds).1 == ResultOf(Deciding(w, c, cmds))
  {
    var file := w.file(c.readCount);
    UsableMeans(file);
    if pw :| Holds(file, pw) && pw != c.password {
      ReloadTakesTheFile(c.password, Some(file), pw);
    }
  }

  /** What `Run` returns, from the settling reply alone. */
  lemma {:induction false} RunReturns(w: World, c: ClientState, cmds: seq<string>)
    requires w.badUrl.None?
    ensures var r := RunOn(w, c, cmds).1;
            match Deciding(w, c, cmds)
            case Results(raws, _) => r == Ok(raws)
            case RpcError(text, _) => r == Err(Rejected(text))
            case Status(code) => r == Err(if code == 401 then Unauthorized else BadStatus(code))
            case Transport(text) => r == Err(Failed(text))
            case Undecodable(text, _) => r == Err(Failed(text))
  {
    RunByReply(w, c, cmds);
  }

  /** The switch answers `cmds` for whoever sends the password `pw`, and sends anybody else away. */
  ghost predicate Admits(w: World, cmds: seq<string>, pw: string, raws: seq<Raw>, bytes: nat) {
    && w.badUrl.None?
    && forall n, sent :: w.wire(n, sent, cmds) == if sent == pw then Results(raws, bytes) else Status(401)
  }

  /** A call gets in exactly when the right password is in memory or in the file at that moment, and then
      has it in memory. */
  lemma {:induction false} RunGetsIn(w: World, c: ClientState, cmds: seq<string>, pw: string, raws: seq<Raw>,
                                     bytes: nat)
    requires Admits(w, cmds, pw, raws, bytes)
    ensures var (c', r) := RunOn(w, c, cmds);
            var known := c.password == pw || (w.fileBacked && Holds(w.file(c.readCount), pw));
            && r == (if known then Ok(raws) else Err(Unauthorized))
            && (c'.password == pw <==> known)
  {
    var file := w.file(c.readCount);
    RunByReply(w, c, cmds);
    UsableMeans(file);
    ReloadTakesTheFile(c.password, Some(file), pw);
  }

  /** What one attempt adds to the counters, from what it returns and the reply it got: results count as
      a success, an answered refusal as an eAPI error, a status as an HTTP error, anything else that was
      sent as a transport error. */
  lemma {:induction false} AttemptCountsItsResult(w: World, c: ClientState, cmds: seq<string>, key: RequestKey)
    ensures var (c', r) := AttemptOn(w, c, cmds);
            var outcome := if r.Ok? || w.badUrl.Some? then OutcomeSuccess
                           else match r.error
                             case Rejected(_) => OutcomeEapiError
                             case Unauthorized => OutcomeHttpError
                             case BadStatus(_) => OutcomeHttpError
                             case Failed(_) => OutcomeTransportError;
            var counted := key == RequestKey(outcome, if |cmds| == 1 then AttemptRetry else AttemptBatch);
            && Counted(c'.stats.requests, key) == Counted(c.stats.requests, key) + (if counted then 1 else 0)
            && c'.stats.duration == c.stats.duration + w.took(c.attempts) && c'.stats.reloads == c.stats.reloads
            && c'.attempts == c.attempts + 1 && c'.sent == c.sent + (if w.badUrl.None? then 1 else 0)
  {
  }

  /** The bytes of a reply are counted once its body has been read, whether or not it then decodes. */
  lemma {:induction false} AttemptCountsItsBytes(w: World, c: ClientState, cmds: seq<string>)
    requires w.badUrl.None?
    ensures var c', reply := AttemptOn(w, c, cmds).0, w.wire(c.attempts, c.password, cmds);
            c'.stats.bytes == c.stats.bytes + (if reply.Transport? || reply.Status? then 0 else reply.bytes)
  {
  }

  // --- Conservation -----------------------------------------------------------------------------

  function Both(m: Requests, o: Outcome): nat {
    Counted(m, RequestKey(o, AttemptBatch)) + Counted(m, RequestKey(o, AttemptRetry))
  }

  /** All requests counted, over every outcome and kind. */
  function TotalRequests(m: Requests): nat {
    Both(m, OutcomeSuccess) + Both(m, OutcomeEapiError) + Both(m, OutcomeHttpError) + Both(m, OutcomeTransportError)
  }

  function TotalReloads(m: Reloads): nat {
    Counted(m, Rotated) + Counted(m, Unchanged) + Counted(m, ReloadFailed)
  }

  lemma {:induction false} BumpBoth(m: Requests, k: RequestKey, o: Outcome)
    ensures Both(Bump(m, k), o) == Both(m, o) + (if k.outcome == o then 1 else 0)
  {
    match k.attempt
    case AttemptBatch => assert k == RequestKey(k.outcome, AttemptBatch);
    case AttemptRetry => assert k == RequestKey(k.outcome, AttemptRetry);
  }

  lemma {:induction false} BumpAddsOne(m: Requests, k: RequestKey)
    ensures TotalRequests(Bump(m, k)) == TotalRequests(m) + 1
  {
    BumpBoth(m, k, OutcomeSuccess);
    BumpBoth(m, k, OutcomeEapiError);
    BumpBoth(m, k, OutcomeHttpError);
    BumpBoth(m, k, OutcomeTransportError);
  }

  predicate FirstRejected(w: World, c: ClientState, cmds: seq<string>) {
    AttemptOn(w, c, cmds).1 == Err(Unauthorized)
  }

  /** The attempts one call of `Run` makes. */
  function AttemptsOfRun(w: World, c: ClientState, cmds: seq<string>): seq<Attempted> {
    var c1 := AttemptOn(w, c, cmds).0;
    var (c2, outcome) := ReloadCredential(w, c1);
    [NextAttempt(w, c, cmds)]
    + (if FirstRejected(w, c, cmds) && outcome == Rotated then [NextAttempt(w, c2, cmds)] else [])
  }

  /** One call of `Run`: one attempt, a second one only after an observed rotation, and one reload
      exactly when the first attempt met a 401. */
  lemma {:induction false} RunAccounting(w: World, c: ClientState, cmds: seq<string>)
    ensures var c' := RunOn(w, c, cmds).0;
            && c'.attempts - c.attempts == |AttemptsOfRun(w, c, cmds)|
            && |AttemptsOfRun(w, c, cmds)| == 1 + Counted(c'.stats.reloads, Rotated) - Counted(c.stats.reloads, Rotated)
            && TotalReloads(c'.stats.reloads)
               == TotalReloads(c.stats.reloads) + (if FirstRejected(w, c, cmds) then 1 else 0)
            && 0 <= Counted(c'.stats.reloads, Rotated) - Counted(c.stats.reloads, Rotated) <= 1
            && (c'.password != c.password
                <==> Counted(c'.stats.reloads, Rotated) == Counted(c.stats.reloads, Rotated) + 1)
  {
    ReloadReportsChange(c.password, if w.fileBacked then Some(w.file(c.readCount)) else None);
  }

  /** The counters after some attempts, from what those attempts came to. */
  function RecordedAll(s: Counters, log: seq<Attempted>): Counters {
    if log == [] then s else Recorded(RecordedAll(s, log[..|log| - 1]), log[|log| - 1])
  }

  lemma {:induction false} RunRecords(w: World, c: ClientState, cmds: seq<string>)
    ensures var log, c' := AttemptsOfRun(w, c, cmds), RunOn(w, c, cmds).0;
            c'.stats == RecordedAll(c.stats, log).(reloads := c'.stats.reloads)
    ensures var log, c' := AttemptsOfRun(w, c, cmds), RunOn(w, c, cmds).0;
            c'.sent == c.sent + (if w.badUrl.Some? then 0 else |log|)
  {
    var log := AttemptsOfRun(w, c, cmds);
    assert log[..1] == [log[0]] && log[..0] == [];
    if |log| == 1 {
      assert log == [log[0]];
    } else {
      assert log[..|log| - 1] == log[..1];
    }
    assert RecordedAll(c.stats, [log[0]]) == Recorded(c.stats, log[0]);
  }

  /** Any sequence of calls on one client. */
  function RunAll(w: World, c: ClientState, calls: seq<seq<string>>): ClientState {
    if calls == [] then c
    else RunOn(w, RunAll(w, c, calls[..|calls| - 1]), calls[|calls| - 1]).0
  }

  function AttemptsOf(w: World, c: ClientState, calls: seq<seq<string>>): seq<Attempted> {
    if calls == [] then []
    else
      var before := calls[..|calls| - 1];
      AttemptsOf(w, c, before) + AttemptsOfRun(w, RunAll(w, c, before), calls[|calls| - 1])
  }

  function Rejections(w: World, c: ClientState, calls: seq<seq<string>>): nat {
    if calls == [] then 0
    else
      var before := calls[..|calls| - 1];
      Rejections(w, c, before)
      + (if FirstRejected(w, RunAll(w, c, before), calls[|calls| - 1]) then 1 else 0)
  }

  lemma {:induction false} RecordedAllConcat(s: Counters, a: seq<Attempted>, b: seq<Attempted>)
    ensures RecordedAll(s, a + b) == RecordedAll(RecordedAll(s, a), b)
  {
    if b == [] {
      assert a + b == a;
    } else {
      var n := |b| - 1;
      RecordedAllConcat(s, a, b[..n]);
      assert (a + b)[..|a + b| - 1] == a + b[..n];
    }
  }

  lemma {:induction false} RecordedAllFrame(s: Counters, log: seq<Attempted>, reloads: Reloads)
    ensures RecordedAll(s.(reloads := reloads), log) == RecordedAll(s, log).(reloads := reloads)
  {
    if log != [] {
      RecordedAllFrame(s, log[..|log| - 1], reloads);
    }
  }

  /** The counters are those of the attempts the calls made, whatever they were before. */
  lemma {:induction false} CallsRecord(w: World, c: ClientState, calls: seq<seq<string>>)
    ensures var log, c' := AttemptsOf(w, c, calls), RunAll(w, c, calls);
            && c'.stats == RecordedAll(c.stats, log).(reloads := c'.stats.reloads)
            && c'.sent == c.sent + (if w.badUrl.Some? then 0 else |log|)
            && c'.attempts == c.attempts + |log|
  {
    if calls != [] {
      var before, last := calls[..|calls| - 1], calls[|calls| - 1];
      var c1, earlier := RunAll(w, c, before), AttemptsOf(w, c, before);
      CallsRecord(w, c, before);
      RunRecords(w, c1, last);
      RunAccounting(w, c1, last);
      RecordedAllFrame(RecordedAll(c.stats, earlier), AttemptsOfRun(w, c1, last), c1.stats.reloads);
      RecordedAllConcat(c.stats, earlier, AttemptsOfRun(w, c1, last));
    }
  }

  /** How many attempts of a log ended a given way. */
  function Occurrences(log: seq<Attempted>, key: RequestKey): nat {
    if log == [] then 0
    else Occurrences(log[..|log| - 1], key) + (if KeyOf(log[|log| - 1]) == key then 1 else 0)
  }

  function BytesIn(log: seq<Attempted>): nat {
    if log == [] then 0 else BytesIn(log[..|log| - 1]) + BytesOf(log[|log| - 1].reply)
  }

  function TimeIn(log: seq<Attempted>): Time {
    if log == [] then 0 else TimeIn(log[..|log| - 1]) + log[|log| - 1].took
  }

  lemma {:induction false} RecordedAllCounts(s: Counters, log: seq<Attempted>, key: RequestKey)
    ensures Counted(RecordedAll(s, log).requests, key) == Counted(s.requests, key) + Occurrences(log, key)
  {
    if log != [] {
      RecordedAllCounts(s, log[..|log| - 1], key);
    }
  }

  lemma {:induction false} RecordedAllSums(s: Counters, log: seq<Attempted>)
    ensures var s' := RecordedAll(s, log);
            && s'.bytes == s.bytes + BytesIn(log) && s'.duration == s.duration + TimeIn(log)
            && TotalRequests(s'.requests) == TotalRequests(s.requests) + |log|
  {
    if log != [] {
      var n := |log| - 1;
      RecordedAllSums(s, log[..n]);
      BumpAddsOne(RecordedAll(s, log[..n]).requests, KeyOf(log[n]));
    }
  }

  /** What the counters mean to whoever reads them: after any calls, each has grown by the number of
      attempts that ended its way, the bytes by what their replies held, the duration by what they took. */
  lemma {:induction false} CountersCountAttempts(w: World, c: ClientState, calls: seq<seq<string>>, key: RequestKey)
    ensures var log, c' := AttemptsOf(w, c, calls), RunAll(w, c, calls);
            && Counted(c'.stats.requests, key) == Counted(c.stats.requests, key) + Occurrences(log, key)
            && c'.stats.bytes == c.stats.bytes + BytesIn(log)
            && c'.stats.duration == c.stats.duration + TimeIn(log)
  {
    CallsRecord(w, c, calls);
    RecordedAllCounts(c.stats, AttemptsOf(w, c, calls), key);
    RecordedAllSums(c.stats, AttemptsOf(w, c, calls));
  }

  /** Over every sequence of calls, counted requests are calls plus rotations, and reloads are the
      calls whose first attempt met a 401. */
  lemma {:induction false} Conservation(w: World, c: ClientState, calls: seq<seq<string>>)
    ensures var c' := RunAll(w, c, calls);
            && TotalRequests(c'.stats.requests) + Counted(c.stats.reloads, Rotated)
               == TotalRequests(c.stats.requests) + |calls| + Counted(c'.stats.reloads, Rotated)
            && TotalReloads(c'.stats.reloads) == TotalReloads(c.stats.reloads) + Rejections(w, c, calls)
  {
    CallsRecord(w, c, calls);
    RecordedAllSums(c.stats, AttemptsOf(w, c, calls));
    RotationsAreExtraAttempts(w, c, calls);
  }

  lemma {:induction false} RotationsAreExtraAttempts(w: World, c: ClientState, calls: seq<seq<string>>)
    ensures var c' := RunAll(w, c, calls);
            && |AttemptsOf(w, c, calls)| + Counted(c.stats.reloads, Rotated)
               == |calls| + Counted(c'.stats.reloads, Rotated)
            && TotalReloads(c'.stats.reloads) == TotalReloads(c.stats.reloads) + Rejections(w, c, calls)
  {
    if calls != [] {
      var before := calls[..|calls| - 1];
      RotationsAreExtraAttempts(w, c, before);
      RunAccounting(w, RunAll(w, c, before), calls[|calls| - 1]);
    }
  }

  /** The requests counted are the requests sent, exactly when the URL parses (or nothing was asked):
      with a URL that does not, every attempt is counted and none is sent. */
  lemma {:induction false} CountedIsSentIffBuildable(w: World, c: ClientState, calls: seq<seq<string>>)
    ensures var c' := RunAll(w, c, calls);
            var counted, sent := TotalRequests(c'.stats.requests) - TotalRequests(c.stats.requests), c'.sent - c.sent;
            && counted == |AttemptsOf(w, c, calls)| >= |calls|
            && (w.badUrl.Some? ==> sent == 0)
            && (counted == sent <==> w.badUrl.None? || calls == [])
  {
    CallsRecord(w, c, calls);
    RecordedAllSums(c.stats, AttemptsOf(w, c, calls));
    AttemptsCoverCalls(w, c, calls);
  }

  lemma {:induction false} AttemptsCoverCalls(w: World, c: ClientState, calls: seq<seq<string>>)
    ensures |AttemptsOf(w, c, calls)| >= |calls|
    ensures calls == [] ==> AttemptsOf(w, c, calls) == []
  {
    if calls != [] {
      AttemptsCoverCalls(w, c, calls[..|calls| - 1]);
    }
  }

  /** One call to a switch whose URL does not parse: counted once, as a success, and nothing sent. */
  lemma {:induction false} UnbuildableIsCountedAsSuccess(w: World, c: ClientState, cmds: seq<string>)
    requires w.badUrl.Some?
    ensures var c' := RunOn(w, c, cmds).0;
            var key := RequestKey(OutcomeSuccess, AttemptFor(cmds));
            && RunOn(w, c, cmds).1.Err? && c'.sent == c.sent
            && Counted(c'.stats.requests, key) == Counted(c.stats.requests, key) + 1
  {
    assert NextAttempt(w, c, cmds).reply == None;
  }

  // --- The client at every moment ---------------------------------------------------------------

  /** The client after each thing one call of `Run` counts. */
  function StatesOfRun(w: World, c: ClientState, cmds: seq<string>): seq<ClientState> {
    var c1 := AttemptOn(w, c, cmds).0;
    var (c2, outcome) := ReloadCredential(w, c1);
    if !FirstRejected(w, c, cmds) then [c1]
    else if outcome == Rotated then [c1, c2, AttemptOn(w, c2, cmds).0]
    else [c1, c2]
  }

  /** The client at every moment of a sequence of calls. */
  function StatesOf(w: World, c: ClientState, calls: seq<seq<string>>): seq<ClientState> {
    if calls == [] then [c]
    else
      var n := |calls| - 1;
      StatesOf(w, c, calls[..n]) + StatesOfRun(w, RunAll(w, c, calls[..n]), calls[n])
  }

  /** `c1` has counted the first attempts of `log` and no others. */
  ghost predicate CountsPrefix(c: ClientState, log: seq<Attempted>, c1: ClientState) {
    && c.attempts <= c1.attempts <= c.attempts + |log|
    && c1.stats == RecordedAll(c.stats, log[..c1.attempts - c.attempts]).(reloads := c1.stats.reloads)
  }

  lemma {:induction false} RunCountsPrefix(w: World, c: ClientState, cmds: seq<string>, i: nat)
    requires i < |StatesOfRun(w, c, cmds)|
    ensures CountsPrefix(c, AttemptsOfRun(w, c, cmds), StatesOfRun(w, c, cmds)[i])
  {
    var log := AttemptsOfRun(w, c, cmds);
    assert log[..1] == [log[0]] && log[..0] == [] && [log[0]][..0] == [];
    assert log[..|log|] == log;
    if |log| == 2 {
      assert log[..|log| - 1] == log[..1];
    }
    assert RecordedAll(c.stats, [log[0]]) == Recorded(c.stats, log[0]);
  }

  lemma {:induction false} LongerLogPrefix(c: ClientState, log: seq<Attempted>, more: seq<Attempted>, c1: ClientState)
    requires CountsPrefix(c, log, c1)
    ensures CountsPrefix(c, log + more, c1)
  {
    var n := c1.attempts - c.attempts;
    assert (log + more)[..n] == log[..n];
  }

  lemma {:induction false} LaterPrefix(c: ClientState, log: seq<Attempted>, c1: ClientState, more: seq<Attempted>,
                                       c2: ClientState)
    requires c1.attempts == c.attempts + |log| && c1.stats == RecordedAll(c.stats, log).(reloads := c1.stats.reloads)
    requires CountsPrefix(c1, more, c2)
    ensures CountsPrefix(c, log + more, c2)
  {
    var n := c2.attempts - c1.attempts;
    assert (log + more)[..|log| + n] == log + more[..n];
    RecordedAllConcat(c.stats, log, more[..n]);
    RecordedAllFrame(RecordedAll(c.stats, log), more[..n], c1.stats.reloads);
  }

  lemma {:induction false} LastRunCountsPrefix(w: World, c: ClientState, before: seq<seq<string>>, last: seq<string>,
                                               i: nat)
    requires i < |StatesOfRun(w, RunAll(w, c, before), last)|
    ensures var c1 := RunAll(w, c, before);
            CountsPrefix(c, AttemptsOf(w, c, before) + AttemptsOfRun(w, c1, last), StatesOfRun(w, c1, last)[i])
  {
    var c1 := RunAll(w, c, before);
    CallsRecord(w, c, before);
    RunCountsPrefix(w, c1, last, i);
    LaterPrefix(c, AttemptsOf(w, c, before), c1, AttemptsOfRun(w, c1, last), StatesOfRun(w, c1, last)[i]);
  }

  /** Whenever it is looked at, the client has counted the attempts made so far. */
  lemma {:induction false} StatesCountPrefixes(w: World, c: ClientState, calls: seq<seq<string>>, i: nat)
    requires i < |StatesOf(w, c, calls)|
    ensures CountsPrefix(c, AttemptsOf(w, c, calls), StatesOf(w, c, calls)[i])
  {
    if calls == [] {
      assert AttemptsOf(w, c, calls)[..0] == [];
    } else {
      var before, last := calls[..|calls| - 1], calls[|calls| - 1];
      var earlier := |StatesOf(w, c, before)|;
      if i < earlier {
        StatesCountPrefixes(w, c, before, i);
        LongerLogPrefix(c, AttemptsOf(w, c, before), AttemptsOfRun(w, RunAll(w, c, before), last),
                        StatesOf(w, c, before)[i]);
      } else {
        LastRunCountsPrefix(w, c, before, last, i - earlier);
      }
    }
  }
}
