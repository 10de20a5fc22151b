/** The serving certificate: cached, checked against the files at most every interval, reloaded when
    they change. */
module Certificate {
  import opened Basics

  type Stamp = nat

  type Pair = nat

  /** The certificate and key files at one moment: what a stat returns and what loading them yields.
      `None` stands for a missing file, or for a pair that does not parse. */
  datatype Disk = Disk(stamp: Option<Stamp>, pair: Option<Pair>)

  predicate Loadable(d: Disk) {
    d.stamp.Some? && d.pair.Some?
  }

  datatype Cache = Cache(current: Pair, stamp: Stamp, checked: Time)

  /** What the files are like when `get` stats them, when `load` reads them, and when `load` stats them. */
  datatype View = View(seen: Disk, read: Disk, stamped: Disk)

  function LoadOn(c: Cache, read: Disk, stamped: Disk, clock: Time): Cache {
    if read.pair.None? || stamped.stamp.None? then c
    else Cache(read.pair.value, stamped.stamp.value, clock)
  }

  predicate IsDue(c: Cache, now: Time) {
    now - c.checked >= RELOAD_INTERVAL
  }

  predicate Changed(c: Cache, seen: Disk) {
    seen.stamp.Some? && seen.stamp.value != c.stamp
  }

  /** The cache after a handshake; what it serves is the `current` of the result. */
  function GetOn(c: Cache, now: Time, v: View, loadedAt: Time): Cache {
    if !IsDue(c, now) then c
    else
      var checked := c.(checked := now);
      if Changed(c, v.seen) then LoadOn(checked, v.read, v.stamped, loadedAt) else checked
  }

  class Certificate {
    var current: Pair
    var stamp: Stamp
    var checked: Time

    ghost function Cached(): Cache
      reads this
    {
      Cache(current, stamp, checked)
    }

    constructor (current: Pair, stamp: Stamp, checked: Time)
      ensures Cached() == Cache(current, stamp, checked)
    {
      this.current, this.stamp, this.checked := current, stamp, checked;
    }

    /** A pair that cannot be loaded is refused at startup. */
    static method Open(read: Disk, stamped: Disk, clock: Time) returns (r: Option<Certificate>)
      ensures r.Some? <==> read.pair.Some? && stamped.stamp.Some?
      ensures r.Some? ==> fresh(r.value) && r.value.Cached() == Cache(read.pair.value, stamped.stamp.value, clock)
    {
      if read.pair.None? || stamped.stamp.None? {
        return None;
      }
      var c := new Certificate(read.pair.value, stamped.stamp.value, clock);
      return Some(c);
    }

    method Load(read: Disk, stamped: Disk, clock: Time) returns (ok: bool)
      modifies this
      ensures ok <==> read.pair.Some? && stamped.stamp.Some?
      ensures Cached() == LoadOn(old(Cached()), read, stamped, clock)
    {
      if read.pair.None? {
        return false;
      }
      if stamped.stamp.None? {
        return false;
      }
      current, stamp, checked := read.pair.value, stamped.stamp.value, clock;
      return true;
    }

    method Get(now: Time, v: View, loadedAt: Time) returns (served: Pair)
      modifies this
      ensures Cached() == GetOn(old(Cached()), now, v, loadedAt)
      ensures served == current
    {
      var due := now - checked >= RELOAD_INTERVAL;
      var cur := current;
      if !due {
        return cur;
      }
      checked := now;
      var changed := v.seen.stamp.Some? && v.seen.stamp.value != stamp;
      if !changed {
        return cur;
      }
      var ok := Load(v.read, v.stamped, loadedAt);
      if !ok {
        return cur;
      }
      return current;
    }
  }

  // --- Any interleaving of handshakes -----------------------------------------------------------

  /** A pair in memory: which version of the files it was read from, and which version the stamp filed
      with it was taken of. */
  datatype Loaded = Loaded(pair: Pair, read: nat, stamp: Stamp, stamped: nat)

  /** Where a handshake stands. Only the due check, the marking, the installing and the last read of the
      pair are under the lock; the files are looked at in between. `cur` is the position of the pair the
      call found in memory at its due check. */
  datatype Stage =
    | Arrived
    | Stating(cur: nat)
    | Marking(cur: nat, seen: Option<Stamp>)
    | Reading(cur: nat)
    | Stamping(cur: nat, pair: Pair, read: nat)
    | Installing(cur: nat, load: Loaded)
    | Returning
    | Done(served: nat)

  /** `now` is the clock reading a handshake starts with, `start` the position of the pair then in memory. */
  datatype Call = Call(now: Time, start: nat, stage: Stage)

  /** The last of `disks` is what is on disk, in place since `since`; the last of `memory` is the cached
      pair. `marker` is the call that last marked the check time, `None` when a load has set it since. `rounds`
      and `crowded` count the checks: those begun while no other call was about to mark, and the others;
      `marks` and `loads` count the check times marked and the loads that followed. */
  datatype Listener = Listener(
    clock: Time,
    disks: seq<Disk>,
    since: Time,
    memory: seq<Loaded>,
    checked: Time,
    marker: Option<nat>,
    calls: map<nat, Call>,
    rounds: nat,
    crowded: nat,
    marks: nat,
    loads: nat)

  datatype Opening = Opening(disk: Disk, at: Time)

  datatype Action =
    | Arrive(id: nat)
    | Run(id: nat)
    | Write(disk: Disk)
    | Tick(elapsed: nat)

  function Begin(o: Opening): Listener
    requires Loadable(o.disk)
  {
    Listener(o.at, [o.disk], o.at, [Loaded(o.disk.pair.value, 0, o.disk.stamp.value, 0)], o.at, None, map[], 0, 0, 0, 0)
  }

  predicate Formed(l: Listener) {
    l.disks != [] && l.memory != []
  }

  function OnDisk(l: Listener): Disk
    requires Formed(l)
  {
    l.disks[|l.disks| - 1]
  }

  function Now(l: Listener): Loaded
    requires Formed(l)
  {
    l.memory[|l.memory| - 1]
  }

  function CacheOf(l: Listener): Cache
    requires Formed(l)
  {
    Cache(Now(l).pair, Now(l).stamp, l.checked)
  }

  function Moved(l: Listener, id: nat, stage: Stage): Listener
    requires id in l.calls
  {
    l.(calls := l.calls[id := l.calls[id].(stage := stage)])
  }

  predicate AboutToMark(c: Call) {
    c.stage.Stating? || c.stage.Marking?
  }

  predicate NoneAboutToMark(l: Listener) {
    forall id :: id in l.calls ==> !AboutToMark(l.calls[id])
  }

  /** The next atomic step of one handshake. */
  function Perform(l: Listener, id: nat): (l': Listener)
    requires Formed(l) && id in l.calls
    ensures Formed(l')
  {
    var c := l.calls[id];
    var latest := |l.memory| - 1;
    match c.stage
    case Arrived =>
      if !IsDue(CacheOf(l), c.now) then Moved(l, id, Done(latest))
      else
        var counted := if NoneAboutToMark(l) then l.(rounds := l.rounds + 1) else l.(crowded := l.crowded + 1);
        Moved(counted, id, Stating(latest))
    case Stating(cur) => Moved(l, id, Marking(cur, OnDisk(l).stamp))
    case Marking(cur, seen) =>
      var marked := l.(checked := c.now, marker := Some(id), marks := l.marks + 1);
      if seen.Some? && seen.value != Now(l).stamp then Moved(marked.(loads := l.loads + 1), id, Reading(cur))
      else Moved(marked, id, Done(cur))
    case Reading(cur) =>
      (match OnDisk(l).pair
       case None => Moved(l, id, Done(cur))
       case Some(pair) => Moved(l, id, Stamping(cur, pair, |l.disks| - 1)))
    case Stamping(cur, pair, read) =>
      (match OnDisk(l).stamp
       case None => Moved(l, id, Done(cur))
       case Some(stamp) => Moved(l, id, Installing(cur, Loaded(pair, read, stamp, |l.disks| - 1))))
    case Installing(cur, load) =>
      Moved(l.(memory := l.memory + [load], checked := l.clock, marker := None), id, Returning)
    case Returning => Moved(l, id, Done(latest))
    case Done(_) => l
  }

  function Apply(l: Listener, a: Action): (l': Listener)
    requires Formed(l)
    ensures Formed(l')
  {
    match a
    case Arrive(id) =>
      if id in l.calls then l else l.(calls := l.calls[id := Call(l.clock, |l.memory| - 1, Arrived)])
    case Run(id) => if id in l.calls then Perform(l, id) else l
    case Write(disk) => l.(disks := l.disks + [disk], since := l.clock)
    case Tick(elapsed) => l.(clock := l.clock + elapsed)
  }

  function ApplyAll(l: Listener, actions: seq<Action>): (l': Listener)
    requires Formed(l)
    ensures Formed(l')
  {
    if actions == [] then l else Apply(ApplyAll(l, actions[..|actions| - 1]), actions[|actions| - 1])
  }

  /** The state after any interleaving of handshakes, their steps, file writes and clock ticks. */
  function After(o: Opening, actions: seq<Action>): (l: Listener)
    requires Loadable(o.disk)
    ensures Formed(l)
  {
    ApplyAll(Begin(o), actions)
  }

  // --- A handshake that runs alone --------------------------------------------------------------

  function StepsLeft(stage: Stage): nat {
    match stage
    case Arrived => 7
    case Stating(_) => 6
    case Marking(_, _) => 5
    case Reading(_) => 4
    case Stamping(_, _, _) => 3
    case Installing(_, _) => 2
    case Returning => 1
    case Done(_) => 0
  }

  function RunAlone(l: Listener, id: nat): (l': Listener)
    requires Formed(l) && id in l.calls
    ensures Formed(l') && id in l'.calls && l'.calls[id].stage.Done?
    decreases StepsLeft(l.calls[id].stage)
  {
    if l.calls[id].stage.Done? then l else RunAlone(Perform(l, id), id)
  }

  lemma {:induction false} StepAlone(l: Listener, id: nat)
    requires Formed(l) && id in l.calls && !l.calls[id].stage.Done?
    ensures RunAlone(l, id) == RunAlone(Perform(l, id), id)
  {
  }

  /** A load with nothing in between, from the read of the pair on. */
  lemma {:induction false} LoadAlone(l: Listener, id: nat)
    requires Formed(l) && id in l.calls && l.calls[id].stage.Reading?
    ensures var l', d := RunAlone(l, id), OnDisk(l);
            && l'.disks == l.disks && CacheOf(l') == LoadOn(CacheOf(l), d, d, l.clock)
            && (if Loadable(d) then
                  var load := Loaded(d.pair.value, |l.disks| - 1, d.stamp.value, |l.disks| - 1);
                  l'.memory == l.memory + [load] && l'.calls[id].stage == Done(|l.memory|)
                else l'.memory == l.memory && l'.calls[id].stage == Done(l.calls[id].stage.cur))
  {
    var l1 := Perform(l, id);
    StepAlone(l, id);
    if OnDisk(l).pair.Some? {
      var l2 := Perform(l1, id);
      StepAlone(l1, id);
      if OnDisk(l).stamp.Some? {
        var l3 := Perform(l2, id);
        StepAlone(l2, id);
        StepAlone(l3, id);
      }
    }
  }

  /** The steps up to the marking, with nothing in between. */
  lemma {:induction false} CheckAlone(l: Listener, id: nat) returns (marked: Listener)
    requires Formed(l) && id in l.calls && l.calls[id].stage.Arrived? && IsDue(CacheOf(l), l.calls[id].now)
    ensures Formed(marked) && id in marked.calls && RunAlone(l, id) == RunAlone(marked, id)
    ensures marked.memory == l.memory && marked.disks == l.disks && marked.clock == l.clock
    ensures marked.checked == l.calls[id].now
    ensures marked.calls[id].stage
            == if Changed(CacheOf(l), OnDisk(l)) then Reading(|l.memory| - 1) else Done(|l.memory| - 1)
  {
    var l1 := Perform(l, id);
    StepAlone(l, id);
    var l2 := Perform(l1, id);
    StepAlone(l1, id);
    marked := Perform(l2, id);
    StepAlone(l2, id);
  }

  /** A handshake whose steps run with nothing in between does what the sequential `Get` does, so the
      interleavings are of that method and not of another. */
  lemma {:induction false} AloneIsGet(l: Listener, id: nat)
    requires Formed(l) && id in l.calls && l.calls[id].stage.Arrived?
    ensures var l', d := RunAlone(l, id), OnDisk(l);
            && CacheOf(l') == GetOn(CacheOf(l), l.calls[id].now, View(d, d, d), l.clock)
            && l'.calls[id].stage.served == |l'.memory| - 1
            && l'.memory == (if IsDue(CacheOf(l), l.calls[id].now) && Changed(CacheOf(l), d) && Loadable(d)
                             then l.memory + [Loaded(d.pair.value, |l.disks| - 1, d.stamp.value, |l.disks| - 1)]
                             else l.memory)
  {
    if IsDue(CacheOf(l), l.calls[id].now) {
      var marked := CheckAlone(l, id);
      if Changed(CacheOf(l), OnDisk(l)) {
        LoadAlone(marked, id);
      }
    } else {
      StepAlone(l, id);
    }
  }

  /** A handshake that arrives now and runs alone. */
  function Handshake(l: Listener, id: nat): (l': Listener)
    requires Formed(l) && id !in l.calls
    ensures Formed(l') && id in l'.calls && l'.calls[id].stage.Done?
  {
    RunAlone(Apply(l, Arrive(id)), id)
  }

  /** What it is served with. */
  function Served(l: Listener, id: nat): Pair
    requires Formed(l) && id !in l.calls
  {
    Now(Handshake(l, id)).pair
  }

  lemma {:induction false} HandshakeServes(l: Listener, id: nat)
    requires Formed(l) && id !in l.calls
    ensures var d, latest := OnDisk(l), |l.disks| - 1;
            var loads := IsDue(CacheOf(l), l.clock) && Changed(CacheOf(l), d) && Loadable(d);
            && Handshake(l, id).calls[id].stage.served == |Handshake(l, id).memory| - 1
            && Now(Handshake(l, id)) == (if loads then Loaded(d.pair.value, latest, d.stamp.value, latest) else Now(l))
  {
    AloneIsGet(Apply(l, Arrive(id)), id);
  }

  // --- What may be served -----------------------------------------------------------------------

  /** The pair and the stamp were on disk, the pair no later than the stamp. */
  ghost predicate FromDisks(disks: seq<Disk>, load: Loaded) {
    && load.read <= load.stamped < |disks|
    && disks[load.read].pair == Some(load.pair) && disks[load.stamped].stamp == Some(load.stamp)
  }

  ghost predicate HoldsFromDisks(disks: seq<Disk>, c: Call) {
    && (c.stage.Stamping? ==> c.stage.read < |disks| && disks[c.stage.read].pair == Some(c.stage.pair))
    && (c.stage.Installing? ==> FromDisks(disks, c.stage.load))
  }

  ghost predicate Sourced(l: Listener) {
    && (forall k :: 0 <= k < |l.memory| ==> FromDisks(l.disks, l.memory[k]))
    && (forall id :: id in l.calls ==> HoldsFromDisks(l.disks, l.calls[id]))
  }

  /** What one step of a call changes about memory and calls. */
  ghost predicate SourcedStep(l: Listener, id: nat, l': Listener)
    requires id in l.calls
  {
    && l'.disks == l.disks && id in l'.calls
    && l'.calls == l.calls[id := l'.calls[id]] && HoldsFromDisks(l.disks, l'.calls[id])
    && (l'.memory == l.memory || exists load :: l'.memory == l.memory + [load] && FromDisks(l.disks, load))
  }

  lemma {:induction false} PerformIsSourced(l: Listener, id: nat)
    requires Formed(l) && id in l.calls && HoldsFromDisks(l.disks, l.calls[id])
    ensures SourcedStep(l, id, Perform(l, id))
  {
  }

  lemma {:induction false} SourcedStepKeeps(l: Listener, id: nat, l': Listener)
    requires Sourced(l) && id in l.calls && SourcedStep(l, id, l')
    ensures Sourced(l')
  {
  }

  lemma {:induction false} ApplyIsSourced(l: Listener, a: Action)
    requires Formed(l) && Sourced(l)
    ensures Sourced(Apply(l, a))
  {
    if a.Run? && a.id in l.calls {
      PerformIsSourced(l, a.id);
      SourcedStepKeeps(l, a.id, Apply(l, a));
    }
  }

  /** Under every interleaving of handshakes and writes, every pair that is ever cached was read from
      files that loaded, and its stamp taken of the files then or later: a broken or missing pair never
      replaces a working one. */
  lemma {:induction false} OnlyLoadedPairsAreCached(o: Opening, actions: seq<Action>)
    requires Loadable(o.disk)
    ensures Sourced(After(o, actions))
  {
    if actions != [] {
      OnlyLoadedPairsAreCached(o, actions[..|actions| - 1]);
      ApplyIsSourced(After(o, actions[..|actions| - 1]), actions[|actions| - 1]);
    }
  }

  ghost predicate Honest(memory: seq<Loaded>, c: Call) {
    && c.start < |memory|
    && (match c.stage
        case Arrived => true
        case Returning => true
        case Done(served) => c.start <= served < |memory|
        case _ => c.start <= c.stage.cur < |memory|)
  }

  ghost predicate AllHonest(l: Listener) {
    forall id :: id in l.calls ==> Honest(l.memory, l.calls[id])
  }

  lemma {:induction false} PerformIsHonest(l: Listener, id: nat)
    requires Formed(l) && id in l.calls && Honest(l.memory, l.calls[id])
    ensures var l' := Perform(l, id);
            && l.memory <= l'.memory && id in l'.calls && l'.calls == l.calls[id := l'.calls[id]]
            && Honest(l'.memory, l'.calls[id])
  {
  }

  lemma {:induction false} ApplyIsHonest(l: Listener, a: Action)
    requires Formed(l) && AllHonest(l)
    ensures AllHonest(Apply(l, a))
  {
    if a.Run? && a.id in l.calls {
      PerformIsHonest(l, a.id);
    }
  }

  /** Under every interleaving, what a handshake is served was the cached pair at some moment of it. */
  lemma {:induction false} ServedWasCurrent(o: Opening, actions: seq<Action>)
    requires Loadable(o.disk)
    ensures var l := After(o, actions);
            && AllHonest(l)
            && forall id :: id in l.calls && l.calls[id].stage.Done? ==>
                 l.calls[id].start <= l.calls[id].stage.served < |l.memory|
  {
    if actions != [] {
      ServedWasCurrent(o, actions[..|actions| - 1]);
      ApplyIsHonest(After(o, actions[..|actions| - 1]), actions[|actions| - 1]);
    }
    var l := After(o, actions);
    assert forall id :: id in l.calls ==> Honest(l.memory, l.calls[id]);
  }

  // --- Checks that find the disk loadable -------------------------------------------------------

  /** Files with the same sizes and modification times hold the same pair. */
  ghost predicate StampsTell(disks: seq<Disk>) {
    forall i, j :: 0 <= i < |disks| && 0 <= j < |disks| && disks[i].stamp.Some? && disks[i].stamp == disks[j].stamp ==>
      disks[i].pair == disks[j].pair
  }

  /** The files changed to another pair between the read of the pair and the stat filed with it. */
  ghost predicate Disturbed(disks: seq<Disk>, load: Loaded)
    requires FromDisks(disks, load)
  {
    disks[load.stamped].pair != Some(load.pair)
  }

  /** Some version of the files had this stamp and this pair. */
  ghost predicate Described(disks: seq<Disk>, load: Loaded) {
    Disk(Some(load.stamp), Some(load.pair)) in disks
  }

  /** Under every interleaving, the cached stamp describes the cached pair exactly when its load was not
      disturbed. */
  lemma {:induction false} CacheIsDescribed(o: Opening, actions: seq<Action>)
    requires Loadable(o.disk)
    requires StampsTell(After(o, actions).disks)
    ensures var l := After(o, actions);
            FromDisks(l.disks, Now(l)) && (Described(l.disks, Now(l)) <==> !Disturbed(l.disks, Now(l)))
  {
    OnlyLoadedPairsAreCached(o, actions);
    var l := After(o, actions);
    var load := Now(l);
    assert FromDisks(l.disks, l.memory[|l.memory| - 1]);
    if Described(l.disks, load) {
      var v :| 0 <= v < |l.disks| && l.disks[v] == Disk(Some(load.stamp), Some(load.pair));
      assert l.disks[v].stamp == l.disks[load.stamped].stamp;
    }
    assert !Disturbed(l.disks, load) ==> l.disks[load.stamped] == Disk(Some(load.stamp), Some(load.pair));
  }

  /** In every reachable state, a handshake that finds a check due and runs alone fails to serve a
      loadable pair on disk exactly when the last load was disturbed and the disk still carries the stamp
      that load filed. With nothing loadable on disk it serves what was cached. */
  lemma {:induction false} CheckServesTheDisk(o: Opening, actions: seq<Action>, id: nat)
    requires Loadable(o.disk)
    requires StampsTell(After(o, actions).disks)
    requires var l := After(o, actions); id !in l.calls && IsDue(CacheOf(l), l.clock)
    ensures var l := After(o, actions);
            var d, cached := OnDisk(l), Now(l);
            && FromDisks(l.disks, cached)
            && (!Loadable(d) ==> Served(l, id) == cached.pair)
            && (Loadable(d) ==>
                  (Served(l, id) != d.pair.value <==> Disturbed(l.disks, cached) && d.stamp == Some(cached.stamp)))
  {
    OnlyLoadedPairsAreCached(o, actions);
    var l := After(o, actions);
    assert FromDisks(l.disks, l.memory[|l.memory| - 1]);
    HandshakeServes(l, id);
    assert OnDisk(l).stamp == Some(Now(l).stamp) && Loadable(OnDisk(l)) ==>
      OnDisk(l).pair == l.disks[Now(l).stamped].pair;
  }

  /** Whatever happened before, the next change of the stamp ends it: a check due after a loadable pair
      with another stamp is written serves that pair, and files it under its own stamp. */
  lemma {:induction false} NextStampRecovers(l: Listener, d: Disk, id: nat)
    requires Formed(l) && id !in l.calls && IsDue(CacheOf(l), l.clock)
    requires Loadable(d) && d.stamp != Some(Now(l).stamp)
    ensures var written := Apply(l, Write(d));
            && Served(written, id) == d.pair.value
            && FromDisks(Handshake(written, id).disks, Now(Handshake(written, id)))
            && !Disturbed(Handshake(written, id).disks, Now(Handshake(written, id)))
  {
    var written := Apply(l, Write(d));
    HandshakeServes(written, id);
    HandshakeKeepsDisks(written, id);
  }

  lemma {:induction false} RunAloneKeepsDisks(l: Listener, id: nat)
    requires Formed(l) && id in l.calls
    ensures RunAlone(l, id).disks == l.disks
    decreases StepsLeft(l.calls[id].stage)
  {
    if !l.calls[id].stage.Done? {
      RunAloneKeepsDisks(Perform(l, id), id);
    }
  }

  lemma {:induction false} HandshakeKeepsDisks(l: Listener, id: nat)
    requires Formed(l) && id !in l.calls
    ensures Handshake(l, id).disks == l.disks
  {
    RunAloneKeepsDisks(Apply(l, Arrive(id)), id);
  }

  // --- Nothing new to load ----------------------------------------------------------------------

  /** No handshake is past its stat and short of its end. */
  ghost predicate Settled(l: Listener) {
    forall id :: id in l.calls ==>
      var stage := l.calls[id].stage; stage.Arrived? || stage.Stating? || stage.Returning? || stage.Done?
  }

  ghost predicate NoWrites(actions: seq<Action>) {
    forall i :: 0 <= i < |actions| ==> !actions[i].Write?
  }

  /** A call that has not found anything to install. */
  ghost predicate FoundNothing(c: Call, disk: Disk, changed: bool) {
    && (c.stage.Marking? ==> c.stage.seen == disk.stamp)
    && (c.stage.Reading? ==> changed)
    && !c.stage.Installing? && (c.stage.Stamping? ==> changed && disk.pair.Some?)
  }

  ghost predicate AllFoundNothing(l: Listener)
    requires Formed(l)
  {
    forall id :: id in l.calls ==> FoundNothing(l.calls[id], OnDisk(l), Changed(CacheOf(l), OnDisk(l)))
  }

  lemma {:induction false} PerformFindsNothing(l: Listener, id: nat)
    requires Formed(l) && id in l.calls && !(Changed(CacheOf(l), OnDisk(l)) && Loadable(OnDisk(l)))
    requires FoundNothing(l.calls[id], OnDisk(l), Changed(CacheOf(l), OnDisk(l)))
    ensures var l' := Perform(l, id);
            && l'.memory == l.memory && l'.disks == l.disks && id in l'.calls && l'.calls == l.calls[id := l'.calls[id]]
            && FoundNothing(l'.calls[id], OnDisk(l), Changed(CacheOf(l), OnDisk(l)))
            && l'.loads - l.loads == (if Changed(CacheOf(l), OnDisk(l)) then l'.marks - l.marks else 0)
  {
  }

  lemma {:induction false} ApplyFindsNothing(l: Listener, a: Action)
    requires Formed(l) && !(Changed(CacheOf(l), OnDisk(l)) && Loadable(OnDisk(l))) && !a.Write?
    requires AllFoundNothing(l)
    ensures var l' := Apply(l, a);
            && l'.memory == l.memory && l'.disks == l.disks && AllFoundNothing(l')
            && l'.loads - l.loads == (if Changed(CacheOf(l), OnDisk(l)) then l'.marks - l.marks else 0)
  {
    if a.Run? && a.id in l.calls {
      PerformFindsNothing(l, a.id);
    }
  }

  /** While the files stay as they are and hold nothing that is both changed and loadable, no handshakes
      in any interleaving change what is cached; each check that marks tries to load if the stamp differs. */
  lemma {:induction false} NothingToLoad(l: Listener, actions: seq<Action>)
    requires Formed(l) && Settled(l) && NoWrites(actions)
    requires !(Changed(CacheOf(l), OnDisk(l)) && Loadable(OnDisk(l)))
    ensures var l' := ApplyAll(l, actions);
            && l'.memory == l.memory && l'.disks == l.disks && AllFoundNothing(l')
            && l'.loads - l.loads == (if Changed(CacheOf(l), OnDisk(l)) then l'.marks - l.marks else 0)
  {
    if actions != [] {
      var n := |actions| - 1;
      NothingToLoad(l, actions[..n]);
      ApplyFindsNothing(ApplyAll(l, actions[..n]), actions[n]);
    }
  }

  /** A changed pair that does not load leaves the cache alone, and every check tries it again. */
  lemma {:induction false} BrokenPairIsRetried(l: Listener, actions: seq<Action>)
    requires Formed(l) && Settled(l) && NoWrites(actions)
    requires Changed(CacheOf(l), OnDisk(l)) && !Loadable(OnDisk(l))
    ensures var l' := ApplyAll(l, actions);
            l'.memory == l.memory && l'.loads - l.loads == l'.marks - l.marks
  {
    NothingToLoad(l, actions);
  }

  // --- How often the files are looked at --------------------------------------------------------

  ghost predicate Paced(o: Opening, l: Listener)
    requires Formed(l)
  {
    && l.checked <= l.clock
    && (forall id :: id in l.calls ==> l.calls[id].now <= l.clock)
    && (if NoneAboutToMark(l) then l.checked >= o.at + RELOAD_INTERVAL * l.rounds
        else
          && l.checked >= o.at + RELOAD_INTERVAL * (l.rounds - 1)
          && forall id :: id in l.calls && AboutToMark(l.calls[id]) ==>
               l.calls[id].now >= o.at + RELOAD_INTERVAL * l.rounds)
  }

  lemma {:induction false} BeginRound(o: Opening, l: Listener, id: nat)
    requires Formed(l) && id in l.calls && Paced(o, l) && l.calls[id].stage.Arrived?
    ensures Paced(o, Perform(l, id))
  {
    var l' := Perform(l, id);
    assert l'.calls == l.calls[id := l'.calls[id]] && l'.calls[id].now == l.calls[id].now;
    if IsDue(CacheOf(l), l.calls[id].now) {
      assert AboutToMark(l'.calls[id]);
    } else {
      assert NoneAboutToMark(l') <==> NoneAboutToMark(l) by {
        assert forall other :: other in l.calls && other != id ==> l'.calls[other] == l.calls[other];
      }
    }
  }

  lemma {:induction false} OtherStepsKeepPace(o: Opening, l: Listener, id: nat)
    requires Formed(l) && id in l.calls && Paced(o, l) && !l.calls[id].stage.Arrived?
    ensures Paced(o, Perform(l, id))
  {
    var l' := Perform(l, id);
    assert l'.calls == l.calls[id := l'.calls[id]] && l'.calls[id].now == l.calls[id].now;
    assert forall other :: other in l.calls && other != id ==> l'.calls[other] == l.calls[other];
    assert AboutToMark(l'.calls[id]) ==> AboutToMark(l.calls[id]);
    if NoneAboutToMark(l) {
      assert NoneAboutToMark(l');
    }
  }

  lemma {:induction false} ApplyKeepsPace(o: Opening, l: Listener, a: Action)
    requires Formed(l) && Paced(o, l)
    ensures Paced(o, Apply(l, a))
  {
    var l' := Apply(l, a);
    match a
    case Run(id) =>
      if id in l.calls {
        if l.calls[id].stage.Arrived? {
          BeginRound(o, l, id);
        } else {
          OtherStepsKeepPace(o, l, id);
        }
      }
    case Arrive(id) =>
      assert forall other :: other in l.calls ==> l'.calls[other] == l.calls[other];
      assert NoneAboutToMark(l') <==> NoneAboutToMark(l);
    case _ =>
  }

  lemma {:induction false} AlwaysPaced(o: Opening, actions: seq<Action>)
    requires Loadable(o.disk)
    ensures Paced(o, After(o, actions))
  {
    if actions != [] {
      AlwaysPaced(o, actions[..|actions| - 1]);
      ApplyKeepsPace(o, After(o, actions[..|actions| - 1]), actions[|actions| - 1]);
    }
  }

  /** Calls that have passed the due check and not yet marked. */
  function Pending(calls: map<nat, Call>): set<nat> {
    set id | id in calls && AboutToMark(calls[id])
  }

  lemma {:induction false} PendingUpdate(calls: map<nat, Call>, id: nat, c: Call)
    ensures |Pending(calls[id := c])|
            == |Pending(calls)|
               + (if AboutToMark(c) && id !in Pending(calls) then 1 else 0)
               - (if !AboutToMark(c) && id in Pending(calls) then 1 else 0)
  {
    var now := Pending(calls[id := c]);
    if AboutToMark(c) {
      assert now == Pending(calls) + {id};
    } else {
      assert now == Pending(calls) - {id};
    }
  }

  /** Every check begun is marked once, and at most one load follows. */
  ghost predicate Balanced(l: Listener) {
    l.marks + |Pending(l.calls)| == l.rounds + l.crowded && l.loads <= l.marks
  }

  lemma {:induction false} ApplyBalances(l: Listener, a: Action)
    requires Formed(l) && Balanced(l)
    ensures Balanced(Apply(l, a))
  {
    match a
    case Run(id) =>
      if id in l.calls {
        var l' := Perform(l, id);
        PendingUpdate(l.calls, id, l'.calls[id]);
        assert l'.calls == l.calls[id := l'.calls[id]];
      }
    case Arrive(id) =>
      PendingUpdate(l.calls, id, Call(l.clock, |l.memory| - 1, Arrived));
    case _ =>
  }

  lemma {:induction false} AlwaysBalanced(o: Opening, actions: seq<Action>)
    requires Loadable(o.disk)
    ensures Balanced(After(o, actions))
  {
    if actions != [] {
      AlwaysBalanced(o, actions[..|actions| - 1]);
      ApplyBalances(After(o, actions[..|actions| - 1]), actions[|actions| - 1]);
    }
  }

  /** However handshakes interleave, checks begun while no other call was about to mark number at most
      one per 30 s of uptime. Only checks that overlap another come on top, and each check leads to at
      most one load. */
  lemma {:induction false} ChecksAreThrottled(o: Opening, actions: seq<Action>)
    requires Loadable(o.disk)
    ensures var l := After(o, actions);
            && l.rounds <= (l.clock - o.at) / RELOAD_INTERVAL
            && l.loads <= l.marks <= l.rounds + l.crowded
  {
    AlwaysPaced(o, actions);
    AlwaysBalanced(o, actions);
    var l := After(o, actions);
    if !NoneAboutToMark(l) {
      var id :| id in l.calls && AboutToMark(l.calls[id]);
      assert l.calls[id].now >= o.at + RELOAD_INTERVAL * l.rounds;
    }
  }

  lemma {:induction false} AfterOneMore(o: Opening, actions: seq<Action>, a: Action)
    requires Loadable(o.disk)
    ensures After(o, actions + [a]) == Apply(After(o, actions), a)
  {
    assert (actions + [a])[..|actions|] == actions;
  }

  /** Checks that overlap have no bound: any number of handshakes can find the same check due. */
  lemma {:induction false} ChecksCanPileUp(o: Opening, n: nat) returns (actions: seq<Action>)
    requires Loadable(o.disk)
    ensures var l := After(o, actions);
            && l.clock == o.at + RELOAD_INTERVAL && l.checked == o.at
            && l.rounds + l.crowded == n && (forall id :: id in l.calls ==> id < n)
  {
    if n == 0 {
      AfterOneMore(o, [], Tick(RELOAD_INTERVAL));
      actions := [] + [Tick(RELOAD_INTERVAL)];
    } else {
      var before := ChecksCanPileUp(o, n - 1);
      AfterOneMore(o, before, Arrive(n - 1));
      AfterOneMore(o, before + [Arrive(n - 1)], Run(n - 1));
      actions := before + [Arrive(n - 1)] + [Run(n - 1)];
    }
  }

  // --- How soon a renewal is served -------------------------------------------------------------

  predicate Loading(c: Call) {
    c.stage.Reading? || c.stage.Stamping? || c.stage.Installing?
  }

  /** A call that began after the last write sees what is on disk. */
  ghost predicate SeesDisk(l: Listener, c: Call)
    requires Formed(l)
  {
    c.now > l.since ==>
      && (c.stage.Marking? ==> c.stage.seen == OnDisk(l).stamp)
      && (c.stage.Stamping? ==> c.stage.read == |l.disks| - 1)
      && (c.stage.Installing? ==> c.stage.load.read == |l.disks| - 1)
  }

  /** A call that marked the check time after the last write found the cached stamp on disk, or is loading. */
  ghost predicate MarkerAccounts(l: Listener)
    requires Formed(l)
  {
    l.marker.Some? ==>
      && l.marker.value in l.calls && l.checked == l.calls[l.marker.value].now
      && (l.checked > l.since && Loadable(OnDisk(l)) ==>
            OnDisk(l).stamp == Some(Now(l).stamp) || Loading(l.calls[l.marker.value]))
  }

  ghost predicate Accounted(l: Listener)
    requires Formed(l)
  {
    && l.checked <= l.clock && l.since <= l.clock
    && (forall id :: id in l.calls ==> l.calls[id].now <= l.clock && SeesDisk(l, l.calls[id]))
    && MarkerAccounts(l)
  }

  lemma {:induction false} PerformAccounts(l: Listener, id: nat)
    requires Formed(l) && id in l.calls && HoldsFromDisks(l.disks, l.calls[id])
    requires SeesDisk(l, l.calls[id]) && MarkerAccounts(l)
    ensures var l' := Perform(l, id);
            && l'.disks == l.disks && l'.since == l.since && l'.clock == l.clock
            && id in l'.calls && l'.calls == l.calls[id := l'.calls[id]] && l'.calls[id].now == l.calls[id].now
            && SeesDisk(l, l'.calls[id]) && MarkerAccounts(l')
            && (l'.checked == l.checked || l'.checked == l.calls[id].now || l'.checked == l.clock)
  {
  }

  lemma {:induction false} ApplyAccounts(l: Listener, a: Action)
    requires Formed(l) && Sourced(l) && Accounted(l)
    ensures Accounted(Apply(l, a))
  {
    var l' := Apply(l, a);
    match a
    case Run(id) =>
      if id in l.calls {
        PerformAccounts(l, id);
        assert forall c: Call :: SeesDisk(l', c) <==> SeesDisk(l, c);
      }
    case Arrive(id) =>
      assert forall c: Call :: SeesDisk(l', c) <==> SeesDisk(l, c);
    case Tick(_) =>
      assert forall c: Call :: SeesDisk(l', c) <==> SeesDisk(l, c);
    case Write(_) =>
  }

  lemma {:induction false} AlwaysAccounted(o: Opening, actions: seq<Action>)
    requires Loadable(o.disk)
    ensures Accounted(After(o, actions))
  {
    if actions != [] {
      var before := actions[..|actions| - 1];
      AlwaysAccounted(o, before);
      OnlyLoadedPairsAreCached(o, before);
      ApplyAccounts(After(o, before), actions[|actions| - 1]);
    }
  }

  /** In every reachable state, a handshake that runs alone once a loadable pair has been on disk for 30 s
      fails to be served with it exactly when another pair is cached and one of three things holds: the
      cached stamp is that of the files (a disturbed load), or no check is due because a load has
      installed its pair in the last 30 s, or because a check in the last 30 s is still loading. */
  lemma {:induction false} RenewalFailsIff(o: Opening, actions: seq<Action>, id: nat)
    requires Loadable(o.disk)
    requires var l := After(o, actions);
             id !in l.calls && Loadable(OnDisk(l)) && l.clock >= l.since + RELOAD_INTERVAL
    ensures var l := After(o, actions);
            Served(l, id) != OnDisk(l).pair.value
            <==>
            && Now(l).pair != OnDisk(l).pair.value
            && (|| OnDisk(l).stamp == Some(Now(l).stamp)
                || (!IsDue(CacheOf(l), l.clock)
                    && (l.marker.Some? ==> l.marker.value in l.calls && Loading(l.calls[l.marker.value]))))
  {
    AlwaysAccounted(o, actions);
    HandshakeServes(After(o, actions), id);
  }

  /** A call about to install a pair although the files have been written since it read them. */
  predicate InstallsStale(l: Listener, a: Action)
    requires Formed(l)
  {
    a.Run? && a.id in l.calls && l.calls[a.id].stage.Installing? && l.calls[a.id].stage.load.read < |l.disks| - 1
  }

  predicate StepInstallsStale(o: Opening, actions: seq<Action>, n: nat)
    requires Loadable(o.disk) && n < |actions|
  {
    InstallsStale(After(o, actions[..n]), actions[n])
  }

  ghost predicate NoStaleInstall(o: Opening, actions: seq<Action>)
    requires Loadable(o.disk)
  {
    forall n :: 0 <= n < |actions| ==> !StepInstallsStale(o, actions, n)
  }

  /** Every cached load is of one version, and one installed after the last write is of the last version. */
  ghost predicate Current(l: Listener)
    requires Formed(l)
  {
    && Now(l).read == Now(l).stamped
    && (l.marker.None? && l.checked > l.since ==> Now(l).read == |l.disks| - 1)
  }

  lemma {:induction false} PerformStaysCurrent(l: Listener, id: nat)
    requires Formed(l) && id in l.calls && HoldsFromDisks(l.disks, l.calls[id])
    requires Current(l) && l.checked <= l.clock && !InstallsStale(l, Run(id))
    ensures Current(Perform(l, id))
  {
  }

  lemma {:induction false} AlwaysCurrent(o: Opening, actions: seq<Action>)
    requires Loadable(o.disk) && NoStaleInstall(o, actions)
    ensures Current(After(o, actions))
  {
    if actions != [] {
      var n := |actions| - 1;
      PrefixInstallsNoStale(o, actions, n);
      AlwaysCurrent(o, actions[..n]);
      AlwaysAccounted(o, actions[..n]);
      OnlyLoadedPairsAreCached(o, actions[..n]);
      var l := After(o, actions[..n]);
      assert !StepInstallsStale(o, actions, n);
      if actions[n].Run? && actions[n].id in l.calls {
        PerformStaysCurrent(l, actions[n].id);
      }
    }
  }

  lemma {:induction false} PrefixInstallsNoStale(o: Opening, actions: seq<Action>, n: nat)
    requires Loadable(o.disk) && NoStaleInstall(o, actions) && n <= |actions|
    ensures NoStaleInstall(o, actions[..n])
  {
    forall k | 0 <= k < n
      ensures !StepInstallsStale(o, actions[..n], k)
    {
      assert actions[..n][..k] == actions[..k];
      assert !StepInstallsStale(o, actions, k);
    }
  }

  /** While no load installs a pair that the files have left behind, a loadable pair that has been on disk
      for 30 s is served to every handshake, unless a check is loading at that moment. */
  lemma {:induction false} RenewalIsServedWithinAnInterval(o: Opening, actions: seq<Action>, id: nat)
    requires Loadable(o.disk) && NoStaleInstall(o, actions)
    requires var l := After(o, actions);
             && StampsTell(l.disks)
             && id !in l.calls && Loadable(OnDisk(l)) && l.clock >= l.since + RELOAD_INTERVAL
             && forall other :: other in l.calls ==> !Loading(l.calls[other])
    ensures var l := After(o, actions);
            Served(l, id) == OnDisk(l).pair.value
  {
    var l := After(o, actions);
    RenewalFailsIff(o, actions, id);
    AlwaysCurrent(o, actions);
    OnlyLoadedPairsAreCached(o, actions);
    assert FromDisks(l.disks, l.memory[|l.memory| - 1]);
    if OnDisk(l).stamp == Some(Now(l).stamp) {
      assert l.disks[Now(l).stamped].stamp == OnDisk(l).stamp;
    }
  }

  // --- Runs that fail ---------------------------------------------------------------------------

  /** The files are written, an interval passes and two handshakes both find a check due. */
  lemma {:induction false} TwoFindCheckDue(o: Opening, d: Disk) returns (actions: seq<Action>)
    requires Loadable(o.disk)
    ensures var l := After(o, actions);
            && l.disks == [o.disk, d] && l.memory == After(o, []).memory && l.calls.Keys == {1, 2}
            && l.calls[1].stage == l.calls[2].stage == Stating(0)
            && l.clock == o.at + RELOAD_INTERVAL
  {
    AfterOneMore(o, [], Write(d));
    actions := [] + [Write(d)];
    AfterOneMore(o, actions, Tick(RELOAD_INTERVAL));
    actions := actions + [Tick(RELOAD_INTERVAL)];
    AfterOneMore(o, actions, Arrive(1));
    actions := actions + [Arrive(1)];
    AfterOneMore(o, actions, Arrive(2));
    actions := actions + [Arrive(2)];
    AfterOneMore(o, actions, Run(1));
    actions := actions + [Run(1)];
    AfterOneMore(o, actions, Run(2));
    actions := actions + [Run(2)];
  }

  /** A handshake looks at the files and reads the pair. */
  lemma {:induction false} CheckAndRead(o: Opening, before: seq<Action>, id: nat) returns (actions: seq<Action>)
    requires Loadable(o.disk)
    requires var l := After(o, before);
             id in l.calls && l.calls[id].stage.Stating? && Changed(CacheOf(l), OnDisk(l)) && OnDisk(l).pair.Some?
    ensures var l, l' := After(o, before), After(o, actions);
            var c := l.calls[id];
            && l'.disks == l.disks && l'.memory == l.memory && l'.clock == l.clock && l'.since == l.since
            && l'.checked == c.now
            && l'.calls == l.calls[id := c.(stage := Stamping(c.stage.cur, OnDisk(l).pair.value, |l.disks| - 1))]
  {
    AfterOneMore(o, before, Run(id));
    AfterOneMore(o, before + [Run(id)], Run(id));
    AfterOneMore(o, before + [Run(id)] + [Run(id)], Run(id));
    actions := before + [Run(id)] + [Run(id)] + [Run(id)];
  }

  /** It takes the stamp. */
  lemma {:induction false} TakeStamp(o: Opening, before: seq<Action>, id: nat) returns (actions: seq<Action>)
    requires Loadable(o.disk)
    requires var l := After(o, before); id in l.calls && l.calls[id].stage.Stamping? && OnDisk(l).stamp.Some?
    ensures actions == before + [Run(id)]
    ensures var l, c := After(o, before), After(o, before).calls[id];
            var load := Loaded(c.stage.pair, c.stage.read, OnDisk(l).stamp.value, |l.disks| - 1);
            After(o, actions) == l.(calls := l.calls[id := c.(stage := Installing(c.stage.cur, load))])
  {
    AfterOneMore(o, before, Run(id));
    actions := before + [Run(id)];
  }

  /** It installs what it loaded and ends. */
  lemma {:induction false} InstallAndEnd(o: Opening, before: seq<Action>, id: nat) returns (actions: seq<Action>)
    requires Loadable(o.disk)
    requires var l := After(o, before); id in l.calls && l.calls[id].stage.Installing?
    ensures var l, l', c := After(o, before), After(o, actions), After(o, before).calls[id];
            && l'.disks == l.disks && l'.memory == l.memory + [c.stage.load] && l'.clock == l'.checked == l.clock
            && l'.since == l.since && l'.calls == l.calls[id := c.(stage := Done(|l.memory|))]
  {
    AfterOneMore(o, before, Run(id));
    AfterOneMore(o, before + [Run(id)], Run(id));
    actions := before + [Run(id)] + [Run(id)];
  }

  /** The older files are loaded by the first of two handshakes that found a check due, then the newer
      ones are written. Neither load is disturbed. */
  lemma {:induction false} OlderLoadPending(o: Opening, older: Disk, newer: Disk) returns (actions: seq<Action>)
    requires Loadable(o.disk) && Loadable(older) && older.stamp != o.disk.stamp
    ensures var l := After(o, actions);
            && l.disks == [o.disk, older, newer] && l.memory == After(o, []).memory && l.calls.Keys == {1, 2}
            && l.calls[1].stage == Installing(0, Loaded(older.pair.value, 1, older.stamp.value, 1))
            && l.calls[2].stage == Stating(0)
            && l.clock == l.since == o.at + RELOAD_INTERVAL
  {
    actions := TwoFindCheckDue(o, older);
    actions := CheckAndRead(o, actions, 1);
    actions := TakeStamp(o, actions, 1);
    AfterOneMore(o, actions, Write(newer));
    actions := actions + [Write(newer)];
  }

  /** Two overlapping handshakes, no write between the read and the stat of any load: the newer pair is
      installed and served, then the older one over it. Thirty seconds after the newer files were written
      a handshake is still served with the older pair. */
  lemma {:induction false} OverlappingLoadsServeOld(o: Opening, older: Disk, newer: Disk) returns (actions: seq<Action>)
    requires Loadable(o.disk) && Loadable(older) && Loadable(newer)
    requires older.stamp != o.disk.stamp && newer.stamp != o.disk.stamp
    ensures var l := After(o, actions);
            && OnDisk(l) == newer && l.clock == l.since + RELOAD_INTERVAL
            && |l.memory| == 3
            && l.memory[1] == Loaded(newer.pair.value, 2, newer.stamp.value, 2)
            && 2 in l.calls && l.calls[2].stage == Done(1)
            && l.memory[2] == Loaded(older.pair.value, 1, older.stamp.value, 1)
            && 3 !in l.calls && Served(l, 3) == older.pair.value
  {
    actions := OlderLoadPending(o, older, newer);
    actions := CheckAndRead(o, actions, 2);
    actions := TakeStamp(o, actions, 2);
    actions := InstallAndEnd(o, actions, 2);
    AfterOneMore(o, actions, Tick(1));
    actions := actions + [Tick(1)];
    actions := InstallAndEnd(o, actions, 1);
    AfterOneMore(o, actions, Tick(RELOAD_INTERVAL - 1));
    actions := actions + [Tick(RELOAD_INTERVAL - 1)];
    HandshakeServes(After(o, actions), 3);
  }

  /** A write between the read and the stat of a load: the old pair is filed under the new stamp. */
  lemma {:induction false} DisturbedLoad(o: Opening, older: Disk, newer: Disk) returns (actions: seq<Action>)
    requires Loadable(o.disk) && Loadable(older) && Loadable(newer)
    requires older.stamp != o.disk.stamp && older.pair != newer.pair
    ensures var l := After(o, actions);
            && l.disks == [o.disk, older, newer] && Settled(l)
            && FromDisks(l.disks, Now(l)) && Disturbed(l.disks, Now(l))
            && Now(l).pair == older.pair.value && OnDisk(l).stamp == Some(Now(l).stamp)
            && (older.stamp != newer.stamp && newer.stamp != o.disk.stamp ==> StampsTell(l.disks))
  {
    actions := TwoFindCheckDue(o, older);
    actions := CheckAndRead(o, actions, 1);
    AfterOneMore(o, actions, Write(newer));
    actions := actions + [Write(newer)];
    actions := TakeStamp(o, actions, 1);
    actions := InstallAndEnd(o, actions, 1);
  }

  /** From then on no handshakes in any interleaving serve the pair that is on disk, until the files
      change again (`NextStampRecovers`). */
  lemma {:induction false} WriteDuringLoadSticks(l: Listener, later: seq<Action>, id: nat)
    requires Formed(l) && Settled(l) && NoWrites(later)
    requires FromDisks(l.disks, Now(l)) && Disturbed(l.disks, Now(l)) && StampsTell(l.disks)
    requires OnDisk(l).stamp == Some(Now(l).stamp)
    requires id !in ApplyAll(l, later).calls
    ensures var l' := ApplyAll(l, later);
            l'.memory == l.memory && Served(l', id) == Now(l).pair && OnDisk(l').pair != Some(Served(l', id))
  {
    NothingToLoad(l, later);
    HandshakeServes(ApplyAll(l, later), id);
    assert l.disks[Now(l).stamped].stamp == OnDisk(l).stamp;
  }
}
