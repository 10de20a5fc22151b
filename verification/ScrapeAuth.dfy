/** Basic authentication of scrapes against a password that rotates underneath it. */
module ScrapeAuth {
  import opened Basics
  import opened Secret

  predicate Matches(user: string, pass: string, username: string, password: string) {
    user == username && pass == password
  }

  // --- One request at a time --------------------------------------------------------------------

  datatype Verdict = Verdict(accepted: bool, password: string, reloaded: Time, fileReads: int)

  predicate IsDue(reloaded: Time, now: Time) {
    now - reloaded >= RELOAD_INTERVAL
  }

  /** `file` is what a re-read would return, `None` for a static password. */
  function AllowOn(username: string, password: string, reloaded: Time, file: Option<FileRead>,
                   user: string, pass: string, now: Time): Verdict
  {
    if Matches(user, pass, username, password) then Verdict(true, password, reloaded, 0)
    else if !IsDue(reloaded, now) then Verdict(false, password, reloaded, 0)
    else
      var (pw, outcome) := Reloading(password, file);
      Verdict(outcome == Rotated && Matches(user, pass, username, pw), pw, now, if file.Some? then 1 else 0)
  }

  class BasicAuth {
    const username: string
    const cred: Credential
    var reloaded: Time

    /** The first re-read falls due an interval after startup, when the password was read. */
    constructor (username: string, cred: Credential, now: Time)
      ensures this.username == username && this.cred == cred && reloaded == now
    {
      this.username, this.cred, this.reloaded := username, cred, now;
    }

    /** Claims a re-read if one is due. */
    method Due(now: Time) returns (due: bool)
      modifies this
      ensures due <==> IsDue(old(reloaded), now)
      ensures reloaded == if due then now else old(reloaded)
    {
      if now - reloaded < RELOAD_INTERVAL {
        return false;
      }
      reloaded := now;
      return true;
    }

    method Allow(user: string, pass: string, now: Time) returns (accepted: bool)
      modifies this, cred
      ensures Verdict(accepted, cred.password, reloaded, cred.readCount - old(cred.readCount))
              == AllowOn(username, old(cred.password), old(reloaded),
                         if cred.fileBacked then Some(cred.file(old(cred.readCount))) else None, user, pass, now)
    {
      if Matches(user, pass, username, cred.password) {
        return true;
      }
      var due := Due(now);
      if !due {
        return false;
      }
      var outcome := cred.Reload();
      if outcome != Rotated {
        return false;
      }
      return Matches(user, pass, username, cred.password);
    }
  }

  /** Run alone, the first request that carries a rotated password succeeds as soon as a re-read is
      due; otherwise a request is accepted exactly when it matches the password in memory. */
  lemma {:induction false} AloneAcceptedIff(username: string, password: string, reloaded: Time, file: Option<FileRead>,
                                            user: string, pass: string, now: Time)
    ensures AllowOn(username, password, reloaded, file, user, pass, now).accepted
            <==> user == username
                 && (pass == password
                     || (IsDue(reloaded, now) && file.Some? && Usable(file.value) == Ok(pass)))
  {
  }

  // --- Any interleaving of requests -------------------------------------------------------------

  /** A password in memory, and which version of the file it was read from. */
  datatype Held = Held(password: string, version: nat)

  /** Where a call of `Allow` stands. The clock is read before the lock is taken, and the file
      between two sections of the credential's lock, so other calls may run in between. */
  datatype Stage =
    | Arrived
    | Rejected
    | Claiming(now: Time)
    | Reading
    | Swapping(read: string, version: nat)
    | Rechecking
    | Done(accepted: bool, end: nat)

  /** `start` and `first` are positions in the history of the password: where it stood when the call
      began, and when the call first compared against it. */
  datatype Call = Call(user: string, pass: string, start: nat, first: nat, stage: Stage)

  /** The last element of `memory` is the password in memory, the last of `versions` the file on
      disk; earlier elements, `claims` and `fileReads` are history. */
  datatype Auth = Auth(
    clock: Time,
    versions: seq<FileRead>,
    memory: seq<Held>,
    reloaded: Time,
    calls: map<nat, Call>,
    claims: seq<Time>,
    fileReads: nat)

  datatype Setup = Setup(username: string, fileBacked: bool, started: Time, file: FileRead, password: string) {
    /** A file that cannot be used is refused at startup. */
    predicate Opened() {
      fileBacked ==> Usable(file) == Ok(password)
    }
  }

  datatype Action =
    | Arrive(id: nat, user: string, pass: string)
    | Run(id: nat)
    | Write(file: FileRead)
    | Tick(elapsed: nat)

  function Begin(setup: Setup): Auth {
    Auth(setup.started, [setup.file], [Held(setup.password, 0)], setup.started, map[], [], 0)
  }

  predicate Formed(s: Auth) {
    s.memory != [] && s.versions != []
  }

  function Now(s: Auth): Held
    requires Formed(s)
  {
    s.memory[|s.memory| - 1]
  }

  function Moved(s: Auth, id: nat, stage: Stage): Auth
    requires id in s.calls
  {
    s.(calls := s.calls[id := s.calls[id].(stage := stage)])
  }

  function Finished(s: Auth, id: nat, accepted: bool): Auth
    requires Formed(s) && id in s.calls
  {
    Moved(s, id, Done(accepted, |s.memory| - 1))
  }

  function Compare(setup: Setup, s: Auth, c: Call): bool
    requires Formed(s)
  {
    Matches(c.user, c.pass, setup.username, Now(s).password)
  }

  /** The next atomic step of one call. */
  function Perform(setup: Setup, s: Auth, id: nat): (s': Auth)
    requires Formed(s) && id in s.calls
    ensures Formed(s')
  {
    var c := s.calls[id];
    match c.stage
    case Arrived =>
      var noted := s.(calls := s.calls[id := c.(first := |s.memory| - 1)]);
      if Compare(setup, s, c) then Finished(noted, id, true) else Moved(noted, id, Rejected)
    case Rejected => Moved(s, id, Claiming(s.clock))
    case Claiming(now) =>
      if !IsDue(s.reloaded, now) then Finished(s, id, false)
      else Moved(s.(reloaded := now, claims := s.claims + [now]), id, Reading)
    case Reading =>
      if !setup.fileBacked then Finished(s, id, false)
      else
        var latest := |s.versions| - 1;
        var counted := s.(fileReads := s.fileReads + 1);
        (match Usable(s.versions[latest])
         case Err(_) => Finished(counted, id, false)
         case Ok(pw) => Moved(counted, id, Swapping(pw, latest)))
    case Swapping(pw, version) =>
      if pw == Now(s).password then Finished(s, id, false)
      else Moved(s.(memory := s.memory + [Held(pw, version)]), id, Rechecking)
    case Rechecking => Finished(s, id, Compare(setup, s, c))
    case Done(_, _) => s
  }

  function Apply(setup: Setup, s: Auth, a: Action): (s': Auth)
    requires Formed(s)
    ensures Formed(s')
  {
    match a
    case Arrive(id, user, pass) =>
      if id in s.calls then s
      else s.(calls := s.calls[id := Call(user, pass, |s.memory| - 1, |s.memory| - 1, Arrived)])
    case Run(id) => if id in s.calls then Perform(setup, s, id) else s
    case Write(file) => s.(versions := s.versions + [file])
    case Tick(elapsed) => s.(clock := s.clock + elapsed)
  }

  /** The state after any interleaving of arrivals, steps of calls, file writes and clock ticks. */
  function After(setup: Setup, actions: seq<Action>): (s: Auth)
    ensures Formed(s)
  {
    if actions == [] then Begin(setup)
    else Apply(setup, After(setup, actions[..|actions| - 1]), actions[|actions| - 1])
  }

  // --- Re-reads are throttled -------------------------------------------------------------------

  function LastClaim(started: Time, claims: seq<Time>): Time {
    if claims == [] then started else claims[|claims| - 1]
  }

  ghost predicate Spaced(started: Time, claims: seq<Time>) {
    claims != [] ==>
      var n := |claims| - 1;
      Spaced(started, claims[..n]) && claims[n] - LastClaim(started, claims[..n]) >= RELOAD_INTERVAL
  }

  /** A call that has read the clock did so in the past. */
  ghost predicate ReadClock(c: Call, clock: Time) {
    c.stage.Claiming? ==> c.stage.now <= clock
  }

  ghost predicate Throttled(setup: Setup, s: Auth) {
    && Spaced(setup.started, s.claims)
    && s.reloaded == LastClaim(setup.started, s.claims) <= s.clock
    && forall id :: id in s.calls ==> ReadClock(s.calls[id], s.clock)
  }

  lemma {:induction false} ClaimExtends(started: Time, claims: seq<Time>, now: Time)
    requires Spaced(started, claims) && IsDue(LastClaim(started, claims), now)
    ensures Spaced(started, claims + [now]) && LastClaim(started, claims + [now]) == now
  {
    assert (claims + [now])[..|claims|] == claims;
  }

  lemma {:induction false} PerformThrottles(setup: Setup, s: Auth, id: nat)
    requires Formed(s) && id in s.calls && Throttled(setup, s)
    ensures Throttled(setup, Perform(setup, s, id))
  {
    var c := s.calls[id];
    var s' := Perform(setup, s, id);
    assert s'.calls == s.calls[id := s'.calls[id]] && s'.clock == s.clock;
    assert ReadClock(c, s.clock) && ReadClock(s'.calls[id], s.clock);
    if c.stage.Claiming? && IsDue(s.reloaded, c.stage.now) {
      ClaimExtends(setup.started, s.claims, c.stage.now);
    }
  }

  lemma {:induction false} AlwaysThrottled(setup: Setup, actions: seq<Action>)
    ensures Throttled(setup, After(setup, actions))
  {
    if actions != [] {
      var n := |actions| - 1;
      AlwaysThrottled(setup, actions[..n]);
      var s := After(setup, actions[..n]);
      if actions[n].Run? && actions[n].id in s.calls {
        PerformThrottles(setup, s, actions[n].id);
      }
    }
  }

  lemma {:induction false} ClaimsApart(started: Time, claims: seq<Time>, i: nat, j: nat)
    requires Spaced(started, claims) && i <= j < |claims|
    ensures claims[j] - claims[i] >= RELOAD_INTERVAL * (j - i)
    ensures claims[j] - started >= RELOAD_INTERVAL * (j + 1)
  {
    var n := |claims| - 1;
    if j < n {
      ClaimsApart(started, claims[..n], i, j);
    } else if n > 0 {
      ClaimsApart(started, claims[..n], if i < n then i else n - 1, n - 1);
    }
  }

  // --- A claim is one read ----------------------------------------------------------------------

  /** Calls that have claimed a re-read and not yet done it. */
  function Readers(calls: map<nat, Call>): set<nat> {
    set id | id in calls && calls[id].stage.Reading?
  }

  lemma {:induction false} ReadersUpdate(calls: map<nat, Call>, id: nat, c: Call)
    ensures |Readers(calls[id := c])|
            == |Readers(calls)|
               + (if c.stage.Reading? && id !in Readers(calls) then 1 else 0)
               - (if !c.stage.Reading? && id in Readers(calls) then 1 else 0)
  {
    var now := Readers(calls[id := c]);
    if c.stage.Reading? {
      assert now == Readers(calls) + {id};
    } else {
      assert now == Readers(calls) - {id};
    }
  }

  /** Every claim is a read done or about to be done. */
  ghost predicate Balanced(setup: Setup, s: Auth) {
    setup.fileBacked ==> s.fileReads + |Readers(s.calls)| == |s.claims|
  }

  lemma {:induction false} PerformBalances(setup: Setup, s: Auth, id: nat)
    requires Formed(s) && id in s.calls && Balanced(setup, s)
    ensures Balanced(setup, Perform(setup, s, id))
  {
    var s' := Perform(setup, s, id);
    ReadersUpdate(s.calls, id, s'.calls[id]);
    assert s'.calls == s.calls[id := s'.calls[id]];
  }

  lemma {:induction false} AlwaysBalanced(setup: Setup, actions: seq<Action>)
    ensures Balanced(setup, After(setup, actions))
  {
    if actions != [] {
      var n := |actions| - 1;
      AlwaysBalanced(setup, actions[..n]);
      var s := After(setup, actions[..n]);
      match actions[n]
      case Run(id) =>
        if id in s.calls {
          PerformBalances(setup, s, id);
        }
      case Arrive(id, user, pass) =>
        ReadersUpdate(s.calls, id, Call(user, pass, |s.memory| - 1, |s.memory| - 1, Arrived));
      case _ =>
    }
  }

  /** However requests interleave, and although each reads the clock before it takes the lock, claimed
      re-reads are at least 30 s apart, number at most one per 30 s of uptime, and each costs at most
      one file read. */
  lemma {:induction false} ReReadsAreThrottled(setup: Setup, actions: seq<Action>)
    ensures var s := After(setup, actions);
            && (forall i, j :: 0 <= i < j < |s.claims| ==> s.claims[j] - s.claims[i] >= RELOAD_INTERVAL * (j - i))
            && |s.claims| <= (s.clock - setup.started) / RELOAD_INTERVAL
            && (setup.fileBacked ==> s.fileReads <= |s.claims|)
  {
    var s := After(setup, actions);
    AlwaysThrottled(setup, actions);
    AlwaysBalanced(setup, actions);
    forall i, j | 0 <= i < j < |s.claims|
      ensures s.claims[j] - s.claims[i] >= RELOAD_INTERVAL * (j - i)
    {
      ClaimsApart(setup.started, s.claims, i, j);
    }
    if s.claims != [] {
      ClaimsApart(setup.started, s.claims, |s.claims| - 1, |s.claims| - 1);
    }
  }

  // --- What a verdict means ---------------------------------------------------------------------

  ghost predicate Honest(setup: Setup, memory: seq<Held>, c: Call) {
    && c.start <= c.first < |memory|
    && (c.stage.Arrived? || c.stage == Done(true, c.first)
        || !Matches(c.user, c.pass, setup.username, memory[c.first].password))
    && (c.stage.Done? ==>
          && c.first <= c.stage.end < |memory|
          && (c.stage.accepted ==> Matches(c.user, c.pass, setup.username, memory[c.stage.end].password)))
  }

  ghost predicate AllHonest(setup: Setup, s: Auth) {
    forall id :: id in s.calls ==> Honest(setup, s.memory, s.calls[id])
  }

  lemma {:induction false} PerformIsHonest(setup: Setup, s: Auth, id: nat)
    requires Formed(s) && id in s.calls && AllHonest(setup, s)
    ensures AllHonest(setup, Perform(setup, s, id))
  {
    var s' := Perform(setup, s, id);
    assert s.memory <= s'.memory;
    forall other | other in s'.calls
      ensures Honest(setup, s'.memory, s'.calls[other])
    {
      if other != id {
        assert Honest(setup, s.memory, s.calls[other]);
      } else {
        assert Honest(setup, s.memory, s.calls[id]);
      }
    }
  }

  lemma {:induction false} AlwaysHonest(setup: Setup, actions: seq<Action>)
    ensures AllHonest(setup, After(setup, actions))
  {
    if actions != [] {
      var n := |actions| - 1;
      AlwaysHonest(setup, actions[..n]);
      var s := After(setup, actions[..n]);
      if actions[n].Run? && actions[n].id in s.calls {
        PerformIsHonest(setup, s, actions[n].id);
      }
    }
  }

  /** Under every interleaving, an accepted call had the right username and a password that was in
      memory at some moment of that call, and a rejected one had a wrong username or met a moment at
      which its password was not the one in memory. */
  lemma {:induction false} VerdictsAreHonest(setup: Setup, actions: seq<Action>, id: nat)
    requires id in After(setup, actions).calls
    requires After(setup, actions).calls[id].stage.Done?
    ensures var s := After(setup, actions);
            var c := s.calls[id];
            && c.start <= c.stage.end < |s.memory|
            && (c.stage.accepted ==>
                  && c.user == setup.username
                  && exists k :: c.start <= k <= c.stage.end && s.memory[k].password == c.pass)
            && (!c.stage.accepted ==>
                  || c.user != setup.username
                  || exists k :: c.start <= k <= c.stage.end && s.memory[k].password != c.pass)
  {
    AlwaysHonest(setup, actions);
    var s := After(setup, actions);
    var c := s.calls[id];
    assert Honest(setup, s.memory, c);
    assert c.stage.accepted ==> s.memory[c.stage.end].password == c.pass;
    assert !c.stage.accepted && c.user == setup.username ==> s.memory[c.first].password != c.pass;
  }

  // --- What may be in memory --------------------------------------------------------------------

  ghost predicate FromFile(versions: seq<FileRead>, password: string, version: nat) {
    version < |versions| && Usable(versions[version]) == Ok(password)
  }

  /** What a call has read and not yet put in memory came from the file. */
  ghost predicate HoldsFromFile(versions: seq<FileRead>, c: Call) {
    c.stage.Swapping? ==> FromFile(versions, c.stage.read, c.stage.version)
  }

  ghost predicate Sourced(s: Auth) {
    && (forall k :: 0 <= k < |s.memory| ==> FromFile(s.versions, s.memory[k].password, s.memory[k].version))
    && (forall id :: id in s.calls ==> HoldsFromFile(s.versions, s.calls[id]))
  }

  /** What one step of a call changes about files, memory and calls. */
  ghost predicate SourcedStep(s: Auth, id: nat, s': Auth)
    requires id in s.calls
  {
    && s'.versions == s.versions && id in s'.calls
    && s'.calls == s.calls[id := s'.calls[id]] && HoldsFromFile(s.versions, s'.calls[id])
    && (s'.memory == s.memory
        || exists held: Held :: s'.memory == s.memory + [held] && FromFile(s.versions, held.password, held.version))
  }

  lemma {:induction false} PerformIsSourced(setup: Setup, s: Auth, id: nat)
    requires Formed(s) && id in s.calls && HoldsFromFile(s.versions, s.calls[id])
    ensures SourcedStep(s, id, Perform(setup, s, id))
  {
  }

  lemma {:induction false} SourcedStepKeeps(s: Auth, id: nat, s': Auth)
    requires Sourced(s) && id in s.calls && SourcedStep(s, id, s')
    ensures Sourced(s')
  {
  }

  /** The password in memory is always a non-empty, trimmed version of the file: a half-written,
      empty or unreadable file never replaces a working password. */
  lemma {:induction false} MemoryComesFromTheFile(setup: Setup, actions: seq<Action>)
    requires setup.fileBacked && setup.Opened()
    ensures var s := After(setup, actions);
            && Sourced(s)
            && Now(s).password != ""
            && exists v :: 0 <= v < |s.versions| && s.versions[v].Content?
                           && TrimSecret(s.versions[v].body) == Now(s).password
  {
    if actions != [] {
      var n := |actions| - 1;
      MemoryComesFromTheFile(setup, actions[..n]);
      var s := After(setup, actions[..n]);
      if actions[n].Run? && actions[n].id in s.calls {
        PerformIsSourced(setup, s, actions[n].id);
        SourcedStepKeeps(s, actions[n].id, After(setup, actions));
      }
    }
    var s := After(setup, actions);
    assert FromFile(s.versions, Now(s).password, Now(s).version);
  }

  lemma {:induction false} StaticPasswordNeverChanges(setup: Setup, actions: seq<Action>)
    requires !setup.fileBacked
    ensures var s := After(setup, actions);
            && s.memory == [Held(setup.password, 0)] && s.fileReads == 0
            && forall id :: id in s.calls ==> !s.calls[id].stage.Swapping?
  {
    if actions != [] {
      StaticPasswordNeverChanges(setup, actions[..|actions| - 1]);
    }
  }

  // --- Reads that overlap -----------------------------------------------------------------------

  ghost predicate NeverGoesBack(memory: seq<Held>) {
    forall i, j :: 0 <= i <= j < |memory| ==> memory[i].version <= memory[j].version
  }

  /** A call about to replace the password by one from an older version of the file. */
  predicate GoesBack(s: Auth, a: Action)
    requires Formed(s)
  {
    && a.Run? && a.id in s.calls && s.calls[a.id].stage.Swapping?
    && s.calls[a.id].stage.read != Now(s).password && s.calls[a.id].stage.version < Now(s).version
  }

  predicate StepGoesBack(setup: Setup, actions: seq<Action>, n: nat)
    requires n < |actions|
  {
    GoesBack(After(setup, actions[..n]), actions[n])
  }

  ghost predicate NoStepGoesBack(setup: Setup, actions: seq<Action>) {
    forall n :: 0 <= n < |actions| ==> !StepGoesBack(setup, actions, n)
  }

  lemma {:induction false} AppendNewer(memory: seq<Held>, held: Held)
    requires memory != []
    ensures NeverGoesBack(memory + [held])
            <==> NeverGoesBack(memory) && memory[|memory| - 1].version <= held.version
  {
    var longer, n := memory + [held], |memory|;
    if NeverGoesBack(longer) {
      assert forall i :: 0 <= i < n ==> longer[i] == memory[i];
      assert longer[n - 1].version <= longer[n].version;
    }
  }

  lemma {:induction false} StepGoesBackIff(setup: Setup, s: Auth, a: Action)
    requires Formed(s)
    ensures NeverGoesBack(Apply(setup, s, a).memory) <==> NeverGoesBack(s.memory) && !GoesBack(s, a)
  {
    if a.Run? && a.id in s.calls && s.calls[a.id].stage.Swapping? {
      AppendNewer(s.memory, Held(s.calls[a.id].stage.read, s.calls[a.id].stage.version));
    }
  }

  lemma {:induction false} PrefixStep(setup: Setup, actions: seq<Action>, m: nat, n: nat)
    requires n < m <= |actions|
    ensures StepGoesBack(setup, actions[..m], n) <==> StepGoesBack(setup, actions, n)
  {
    assert actions[..m][..n] == actions[..n];
  }

  lemma {:induction false} NoStepGoesBackLast(setup: Setup, actions: seq<Action>)
    requires actions != []
    ensures var n := |actions| - 1;
            NoStepGoesBack(setup, actions) <==> NoStepGoesBack(setup, actions[..n]) && !StepGoesBack(setup, actions, n)
  {
    var n := |actions| - 1;
    forall k | 0 <= k < n
      ensures StepGoesBack(setup, actions[..n], k) <==> StepGoesBack(setup, actions, k)
    {
      PrefixStep(setup, actions, n, k);
    }
    if NoStepGoesBack(setup, actions) {
      assert forall k :: 0 <= k < n ==> !StepGoesBack(setup, actions, k);
    }
  }

  /** The password in memory never goes back to an older version of the file than it has had, exactly
      when no call swaps in a password that was read before the one it replaces. */
  lemma {:induction false} NeverGoesBackIff(setup: Setup, actions: seq<Action>)
    ensures NeverGoesBack(After(setup, actions).memory) <==> NoStepGoesBack(setup, actions)
  {
    if actions != [] {
      var n := |actions| - 1;
      NeverGoesBackIff(setup, actions[..n]);
      StepGoesBackIff(setup, After(setup, actions[..n]), actions[n]);
      NoStepGoesBackLast(setup, actions);
    }
  }

  /** No call reads the file while another still holds what it read. */
  ghost predicate OneReadAtATime(setup: Setup, actions: seq<Action>) {
    forall n :: 0 <= n < |actions| ==> !ReadsWhileAnotherSwaps(After(setup, actions[..n]), actions[n])
  }

  ghost predicate ReadsWhileAnotherSwaps(s: Auth, a: Action) {
    && a.Run? && a.id in s.calls && s.calls[a.id].stage.Reading?
    && exists other :: other in s.calls && s.calls[other].stage.Swapping?
  }

  /** What a call holds is at least as new as what is in memory. */
  ghost predicate HoldsNew(c: Call, inMemory: nat, latest: nat) {
    c.stage.Swapping? ==> inMemory <= c.stage.version <= latest
  }

  ghost predicate OneSwapper(calls: map<nat, Call>) {
    forall id, other :: id in calls && other in calls ==>
      calls[id].stage.Swapping? && calls[other].stage.Swapping? ==> id == other
  }

  ghost predicate Fresh(s: Auth)
    requires Formed(s)
  {
    && Now(s).version < |s.versions|
    && (forall id :: id in s.calls ==> HoldsNew(s.calls[id], Now(s).version, |s.versions| - 1))
    && OneSwapper(s.calls)
  }

  lemma {:induction false} PerformStaysFresh(setup: Setup, s: Auth, id: nat)
    requires Formed(s) && id in s.calls && Fresh(s)
    requires !ReadsWhileAnotherSwaps(s, Run(id))
    ensures Fresh(Perform(setup, s, id))
  {
    var s' := Perform(setup, s, id);
    assert s'.calls == s.calls[id := s'.calls[id]] && s'.versions == s.versions;
    assert HoldsNew(s.calls[id], Now(s).version, |s.versions| - 1);
  }

  lemma {:induction false} ApplyStaysFresh(setup: Setup, s: Auth, a: Action)
    requires Formed(s) && Fresh(s) && !ReadsWhileAnotherSwaps(s, a)
    ensures Fresh(Apply(setup, s, a))
  {
    if a.Run? && a.id in s.calls {
      PerformStaysFresh(setup, s, a.id);
    }
  }

  lemma {:induction false} SeparateReadsStayFresh(setup: Setup, actions: seq<Action>)
    requires OneReadAtATime(setup, actions)
    ensures Fresh(After(setup, actions))
  {
    if actions != [] {
      var n := |actions| - 1;
      PrefixReadsSeparately(setup, actions, n);
      SeparateReadsStayFresh(setup, actions[..n]);
      assert !ReadsWhileAnotherSwaps(After(setup, actions[..n]), actions[n]);
      ApplyStaysFresh(setup, After(setup, actions[..n]), actions[n]);
    }
  }

  lemma {:induction false} PrefixReadsSeparately(setup: Setup, actions: seq<Action>, n: nat)
    requires OneReadAtATime(setup, actions) && n <= |actions|
    ensures OneReadAtATime(setup, actions[..n])
  {
    forall k | 0 <= k < n
      ensures !ReadsWhileAnotherSwaps(After(setup, actions[..n][..k]), actions[..n][k])
    {
      assert actions[..n][..k] == actions[..k];
    }
  }

  /** In particular while no two reads overlap. */
  lemma {:induction false} SeparateReadsNeverGoBack(setup: Setup, actions: seq<Action>)
    requires OneReadAtATime(setup, actions)
    ensures NeverGoesBack(After(setup, actions).memory)
  {
    forall n | 0 <= n < |actions|
      ensures !StepGoesBack(setup, actions, n)
    {
      PrefixReadsSeparately(setup, actions, n);
      SeparateReadsStayFresh(setup, actions[..n]);
      var s := After(setup, actions[..n]);
      assert actions[n].Run? && actions[n].id in s.calls ==>
        HoldsNew(s.calls[actions[n].id], Now(s).version, |s.versions| - 1);
    }
    NeverGoesBackIff(setup, actions);
  }

  lemma {:induction false} AfterOneMore(setup: Setup, actions: seq<Action>, a: Action)
    ensures After(setup, actions + [a]) == Apply(setup, After(setup, actions), a)
  {
    assert (actions + [a])[..|actions|] == actions;
  }

  /** Runs a rejected call up to the point where it holds the latest version of the file. */
  lemma {:induction false} ClaimAndRead(setup: Setup, actions: seq<Action>, id: nat) returns (longer: seq<Action>)
    requires var s := After(setup, actions);
             && setup.fileBacked && id in s.calls && s.calls[id].stage.Arrived?
             && s.calls[id].user != setup.username && IsDue(s.reloaded, s.clock)
             && Usable(s.versions[|s.versions| - 1]).Ok?
    ensures var s, s' := After(setup, actions), After(setup, longer);
            var latest := |s.versions| - 1;
            && id in s'.calls && s'.calls[id].stage == Swapping(Usable(s.versions[latest]).value, latest)
            && (forall other :: other in s.calls && other != id ==>
                  other in s'.calls && s'.calls[other] == s.calls[other])
            && s'.calls.Keys == s.calls.Keys && s'.memory == s.memory && s'.versions == s.versions
            && s'.clock == s.clock == s'.reloaded
  {
    AfterOneMore(setup, actions, Run(id));
    AfterOneMore(setup, actions + [Run(id)], Run(id));
    AfterOneMore(setup, actions + [Run(id)] + [Run(id)], Run(id));
    longer := actions + [Run(id)] + [Run(id)] + [Run(id)];
    AfterOneMore(setup, longer, Run(id));
    longer := longer + [Run(id)];
  }

  /** A file version appears, a call with a wrong name arrives and a re-read falls due. */
  lemma {:induction false} NewVersionAndCall(setup: Setup, actions: seq<Action>, file: FileRead,
                                             id: nat) returns (longer: seq<Action>)
    requires id !in After(setup, actions).calls
    requires After(setup, actions).reloaded <= After(setup, actions).clock
    ensures var s, s' := After(setup, actions), After(setup, longer);
            && s'.versions == s.versions + [file] && s'.memory == s.memory && IsDue(s'.reloaded, s'.clock)
            && s'.calls.Keys == s.calls.Keys + {id} && s'.calls[id].stage.Arrived?
            && s'.calls[id].user != setup.username
            && (forall other :: other in s.calls ==> s'.calls[other] == s.calls[other])
  {
    var user := setup.username + "x";
    assert |user| != |setup.username|;
    AfterOneMore(setup, actions, Write(file));
    AfterOneMore(setup, actions + [Write(file)], Arrive(id, user, ""));
    longer := actions + [Write(file)] + [Arrive(id, user, "")];
    AfterOneMore(setup, longer, Tick(RELOAD_INTERVAL));
    longer := longer + [Tick(RELOAD_INTERVAL)];
  }

  /** Two calls at once can each hold a version of the file, read 30 s apart. */
  lemma {:induction false} ReadsOverlap(setup: Setup, older: FileRead, newer: FileRead) returns (actions: seq<Action>)
    requires setup.fileBacked && Usable(older).Ok? && Usable(newer).Ok?
    ensures var s := After(setup, actions);
            && s.versions == [setup.file, older, newer] && s.memory == [Held(setup.password, 0)]
            && 1 in s.calls && s.calls[1].stage == Swapping(Usable(older).value, 1)
            && 2 in s.calls && s.calls[2].stage == Swapping(Usable(newer).value, 2)
  {
    actions := NewVersionAndCall(setup, [], older, 1);
    actions := ClaimAndRead(setup, actions, 1);
    actions := NewVersionAndCall(setup, actions, newer, 2);
    actions := ClaimAndRead(setup, actions, 2);
  }

  /** When reads do overlap it can go back: for every pair of successive rotations there is a run of
      two rejected requests, 30 s apart, that ends with the older password in memory although the
      newer one was there and is on disk. The claim spaces the reads, not the swaps. */
  lemma {:induction false} OverlappingReadsCanGoBack(setup: Setup, older: FileRead,
                                                     newer: FileRead) returns (actions: seq<Action>)
    requires setup.fileBacked && Usable(older).Ok? && Usable(newer).Ok?
    requires Usable(older) != Usable(newer) && Usable(newer) != Ok(setup.password)
    ensures var s := After(setup, actions);
            && s.versions == [setup.file, older, newer]
            && s.memory == [Held(setup.password, 0), Held(Usable(newer).value, 2), Held(Usable(older).value, 1)]
            && !NeverGoesBack(s.memory)
  {
    var before := ReadsOverlap(setup, older, newer);
    AfterOneMore(setup, before, Run(2));
    AfterOneMore(setup, before + [Run(2)], Run(1));
    actions := before + [Run(2)] + [Run(1)];
    var memory := After(setup, actions).memory;
    assert memory[1].version > memory[2].version;
  }

  // --- The interleaved call is the sequential one -----------------------------------------------

  function StepsLeft(stage: Stage): nat {
    match stage
    case Arrived => 6
    case Rejected => 5
    case Claiming(_) => 4
    case Reading => 3
    case Swapping(_, _) => 2
    case Rechecking => 1
    case Done(_, _) => 0
  }

  /** One call run to its end with nothing in between. */
  function RunAlone(setup: Setup, s: Auth, id: nat): (s': Auth)
    requires Formed(s) && id in s.calls
    ensures Formed(s') && id in s'.calls && s'.calls[id].stage.Done?
    decreases StepsLeft(s.calls[id].stage)
  {
    if s.calls[id].stage.Done? then s else RunAlone(setup, Perform(setup, s, id), id)
  }

  predicate Accepted(s: Auth, id: nat)
    requires id in s.calls
  {
    s.calls[id].stage.Done? && s.calls[id].stage.accepted
  }

  /** The steps that follow a granted claim: read, swap, compare again. */
  lemma {:induction false} ReloadAlone(setup: Setup, s: Auth, id: nat)
    requires Formed(s) && id in s.calls && s.calls[id].stage.Reading?
    ensures var file := if setup.fileBacked then Some(s.versions[|s.versions| - 1]) else None;
            var c := s.calls[id];
            var (pw, outcome) := Reloading(Now(s).password, file);
            var s' := RunAlone(setup, s, id);
            && (Accepted(s', id) <==> outcome == Rotated && Matches(c.user, c.pass, setup.username, pw))
            && Now(s').password == pw && s'.reloaded == s.reloaded
            && s'.fileReads == s.fileReads + (if setup.fileBacked then 1 else 0)
  {
    var s1 := Perform(setup, s, id);
    assert RunAlone(setup, s, id) == RunAlone(setup, s1, id);
    if !s1.calls[id].stage.Done? {
      var s2 := Perform(setup, s1, id);
      assert RunAlone(setup, s1, id) == RunAlone(setup, s2, id);
      if !s2.calls[id].stage.Done? {
        assert RunAlone(setup, s2, id) == Perform(setup, s2, id);
      }
    }
  }

  /** The steps up to the claim: compare, read the clock, claim. */
  lemma {:induction false} ClaimAlone(setup: Setup, s: Auth, id: nat) returns (claimed: Auth)
    requires Formed(s) && id in s.calls && s.calls[id].stage.Arrived?
    requires !Compare(setup, s, s.calls[id])
    ensures Formed(claimed) && id in claimed.calls && RunAlone(setup, s, id) == RunAlone(setup, claimed, id)
    ensures claimed.memory == s.memory && claimed.versions == s.versions && claimed.fileReads == s.fileReads
    ensures claimed.calls[id].user == s.calls[id].user && claimed.calls[id].pass == s.calls[id].pass
    ensures claimed.reloaded == if IsDue(s.reloaded, s.clock) then s.clock else s.reloaded
    ensures if IsDue(s.reloaded, s.clock) then claimed.calls[id].stage.Reading?
            else claimed.calls[id].stage.Done? && !claimed.calls[id].stage.accepted
  {
    var s1 := Perform(setup, s, id);
    assert RunAlone(setup, s, id) == RunAlone(setup, s1, id);
    var s2 := Perform(setup, s1, id);
    assert RunAlone(setup, s1, id) == RunAlone(setup, s2, id);
    claimed := Perform(setup, s2, id);
    assert RunAlone(setup, s2, id) == RunAlone(setup, claimed, id);
  }

  /** A call whose steps run with nothing in between does what the sequential `Allow` does, so the
      interleavings are of that method and not of another. */
  lemma {:induction false} AloneIsAllow(setup: Setup, s: Auth, id: nat)
    requires Formed(s) && id in s.calls && s.calls[id].stage.Arrived?
    ensures var file := if setup.fileBacked then Some(s.versions[|s.versions| - 1]) else None;
            var c := s.calls[id];
            var s' := RunAlone(setup, s, id);
            Verdict(Accepted(s', id), Now(s').password, s'.reloaded, s'.fileReads - s.fileReads)
            == AllowOn(setup.username, Now(s).password, s.reloaded, file, c.user, c.pass, s.clock)
  {
    if Compare(setup, s, s.calls[id]) {
      var s1 := Perform(setup, s, id);
      assert RunAlone(setup, s, id) == s1;
    } else {
      var claimed := ClaimAlone(setup, s, id);
      if claimed.calls[id].stage.Reading? {
        ReloadAlone(setup, claimed, id);
      }
    }
  }
}
