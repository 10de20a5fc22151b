/** The store built from the configuration, and what a request to /metrics is answered with. */
module Handler {
  import opened Basics
  import opened Catalogue
  import opened Schedule
  import Config
  import opened Poll
  import opened Render
  import opened Target

  const INTERNAL_TARGET := "internal"

  // --- The store --------------------------------------------------------------------------------

  datatype Entry = Entry(owner: string, specs: seq<CmdSpec>)

  function SpecsOf(sw: SwitchConfig, defaults: Config.CollectSet, pollInterval: Time): seq<CmdSpec> {
    Config.Commands(Config.Effective(defaults, sw.collect, pollInterval), sw.scope, pollInterval)
  }

  function EntryOf(sw: SwitchConfig, defaults: Config.CollectSet, pollInterval: Time): Entry {
    Entry(sw.Label(), SpecsOf(sw, defaults, pollInterval))
  }

  method NewEntry(sw: SwitchConfig, defaults: Config.CollectSet, pollInterval: Time) returns (e: Entry)
    ensures e == EntryOf(sw, defaults, pollInterval)
  {
    var collect := Config.EffectiveCollect(defaults, sw.collect, pollInterval);
    var specs := Config.CommandsFor(collect, sw.scope, pollInterval);
    e := Entry(sw.Label(), specs);
  }

  /** The entries of the first `n` switches. */
  function Entries(switches: seq<SwitchConfig>, n: nat, defaults: Config.CollectSet,
                   pollInterval: Time): (s: seq<Entry>)
    requires n <= |switches|
    ensures |s| == n
    ensures forall i :: 0 <= i < n ==> s[i] == EntryOf(switches[i], defaults, pollInterval)
  {
    if n == 0 then []
    else Entries(switches, n - 1, defaults, pollInterval) + [EntryOf(switches[n - 1], defaults, pollInterval)]
  }

  /** One entry per switch in configuration order; a repeated label is refused. */
  method NewStore(switches: seq<SwitchConfig>, defaults: Config.CollectSet, pollInterval: Time)
    returns (r: Result<seq<Entry>, string>)
    ensures r.Ok? <==> UniqueNames(switches)
    ensures r.Ok? ==> r.value == Entries(switches, |switches|, defaults, pollInterval)
    ensures r.Err? ==> exists i, j :: 0 <= i < j < |switches| && switches[i].Label() == r.error == switches[j].Label()
  {
    var order := [];
    var taken := {};
    for i := 0 to |switches|
      invariant order == Entries(switches, i, defaults, pollInterval)
      invariant taken == set k | 0 <= k < i :: switches[k].Label()
      invariant forall j, k :: 0 <= j < k < i ==> switches[j].Label() != switches[k].Label()
    {
      var owner := switches[i].Label();
      if owner in taken {
        return Err(owner);
      }
      var e := NewEntry(switches[i], defaults, pollInterval);
      taken := taken + {owner};
      order := order + [e];
    }
    return Ok(order);
  }

  /** What the store holds for a switch of a validated configuration: `show version` at the poll interval,
      then the commands of the groups its own block and the defaults enable, under the switch's scope. */
  lemma {:induction false} EntryIsConfigured(sw: SwitchConfig, defaults: Config.CollectSet, pollInterval: Time)
    requires pollInterval > 0
    requires Config.Decoded(defaults) && Config.Decoded(sw.collect)
    requires Config.Acceptable(defaults, pollInterval) && Config.Acceptable(sw.collect, pollInterval)
    ensures var e := EntryOf(sw, defaults, pollInterval);
            && e.owner == (if sw.name != "" then sw.name else sw.host)
            && InIssueOrder(e.specs) && e.specs != []
            && e.specs[0] == CmdSpec(ShowVersion, "show version", None, pollInterval)
            && forall s :: s in e.specs[1..] <==> Config.Wanted(defaults + sw.collect, sw.scope, pollInterval, s)
  {
    Config.CommandList(defaults, sw.collect, sw.scope, pollInterval);
  }

  /** Every command list built from a validated configuration meets what the scheduler, history and
      renderer theorems ask of a switch: `show version` at the poll interval, distinct names, positive
      intervals. */
  lemma {:induction false} ConfiguredSpecsAreRunnable(sw: SwitchConfig, defaults: Config.CollectSet, pollInterval: Time)
    requires pollInterval > 0
    requires Config.Decoded(defaults) && Config.Decoded(sw.collect)
    requires Config.Acceptable(defaults, pollInterval) && Config.Acceptable(sw.collect, pollInterval)
    ensures var specs := SpecsOf(sw, defaults, pollInterval);
            && specs != [] && Distinct(specs)
            && specs[0].name == ShowVersion && specs[0].interval == pollInterval
            && (forall c :: c in specs ==> c.interval > 0)
            && (forall c, wakes: seq<Wake> :: c in specs && wakes != [] && Forward(wakes) ==> Runs(specs, wakes, c))
  {
    Config.CommandList(defaults, sw.collect, sw.scope, pollInterval);
  }

  // --- Requests ---------------------------------------------------------------------------------

  /** The module parameter: absent, a known module, or anything else. */
  datatype ModuleParam = NoModule | Named(part: Module) | UnknownModule(text: string)

  datatype Query = Query(target: string, part: ModuleParam, iface: string)

  datatype Fault =
    | InternalTakesNoFilter
    | BadModule(text: string)
    | BadTarget(target: string)
    | NoSuchInterface(iface: string)

  datatype Reply = BadRequest(fault: Fault) | Internal | Full | Filtered(owner: string, f: Filter)

  predicate HasInterface(sw: Switch, iface: string) {
    || iface in ValueOf(sw.state, ShowInterfaces).ifaces
    || iface in ValueOf(sw.state, ShowTransceivers).ifaces
    || iface in ValueOf(sw.state, ShowPhy).ifaces
  }

  /** Whether the last poll saw an interface, on one switch or on any. */
  predicate KnownInterface(store: Store, owner: string, iface: string) {
    if owner != "" then Get(store, owner).Some? && HasInterface(Get(store, owner).value, iface)
    else exists i :: 0 <= i < |store| && HasInterface(store[i], iface)
  }

  function FilterOf(q: Query): Filter {
    Filter(if q.part.Named? then Some(q.part.part) else None, q.iface)
  }

  predicate Narrows(q: Query) {
    q.part != NoModule || q.iface != ""
  }

  /** The label a query asks for, "" for all switches; None when the target names no switch. */
  function Asked(index: Index, target: string): Option<string> {
    if target == "" || target == INTERNAL_TARGET then Some("") else Lookup(index, target)
  }

  /** A fault names what is wrong with the query. */
  predicate Justified(store: Store, index: Index, q: Query, fault: Fault) {
    match fault
    case InternalTakesNoFilter => q.target == INTERNAL_TARGET && Narrows(q)
    case BadModule(text) => q.part == UnknownModule(text)
    case BadTarget(target) => target == q.target && Asked(index, q.target).None?
    case NoSuchInterface(iface) =>
      && iface == q.iface != "" && Asked(index, q.target).Some?
      && !KnownInterface(store, Asked(index, q.target).value, iface)
  }

  /** `x` is a key of the last output of some command that reports on interfaces, on the switch of that
      label, or on any switch when none is given. */
  ghost predicate Seen(store: Store, owner: Option<string>, x: string) {
    exists sw, c ::
      && sw in store && (owner.None? || sw.name == owner.value)
      && (c == ShowInterfaces || c == ShowTransceivers || c == ShowPhy)
      && c in sw.state.values && x in sw.state.values[c].ifaces
  }

  lemma {:induction false} SeenIsKnown(store: Store, owner: string, x: string)
    requires UniqueLabels(store)
    ensures Seen(store, if owner == "" then None else Some(owner), x) <==> KnownInterface(store, owner, x)
  {
    if owner != "" {
      GetIs(store, owner);
    }
    forall sw: Switch
      ensures HasInterface(sw, x) <==> exists c ::
                && (c == ShowInterfaces || c == ShowTransceivers || c == ShowPhy)
                && c in sw.state.values && x in sw.state.values[c].ifaces
    {
    }
  }

  /** A query that is not for the internal target, with a known module or none, and with a target that
      resolves to a label or none. */
  predicate Sound(q: Query, index: Index) {
    && q.target != "internal" && !q.part.UnknownModule?
    && (q.target == "" || (q.target in index && index[q.target] != ""))
  }

  method Answer(store: Store, index: Index, q: Query) returns (reply: Reply)
    ensures reply.BadRequest? <==>
      || (q.target == INTERNAL_TARGET && Narrows(q))
      || q.part.UnknownModule?
      || Asked(index, q.target).None?
      || (q.iface != "" && !KnownInterface(store, Asked(index, q.target).value, q.iface))
    ensures reply.Internal? <==> q.target == INTERNAL_TARGET && !Narrows(q)
    ensures reply.Full? <==> q.target == "" && !Narrows(q)
    ensures reply.Filtered? ==> Some(reply.owner) == Asked(index, q.target) && reply.f == FilterOf(q)
    ensures reply.BadRequest? ==> Justified(store, index, q, reply.fault)
    ensures q.target == "internal" ==>
      reply == if q.part == NoModule && q.iface == "" then Internal else BadRequest(InternalTakesNoFilter)
    ensures q.target != "internal" ==>
      match q.part
      case UnknownModule(text) => reply == BadRequest(BadModule(text))
      case _ => q.target != "" && q.target !in index ==> reply == BadRequest(BadTarget(q.target))
    ensures Sound(q, index) ==>
      && !reply.Internal? && (reply.BadRequest? ==> reply == BadRequest(NoSuchInterface(q.iface)))
      && (reply.Full? ==> q == Query("", NoModule, ""))
      && (reply.Filtered? ==>
            && reply.owner == (if q.target == "" then "" else index[q.target])
            && reply.f.iface == q.iface
            && (reply.f.group.None? <==> q.part == NoModule)
            && (reply.f.group.Some? ==> q.part == Named(reply.f.group.value)))
    ensures Sound(q, index) && UniqueLabels(store) ==>
      (reply.BadRequest?
       <==> q.iface != "" && !Seen(store, if q.target == "" then None else Some(index[q.target]), q.iface))
  {
    if Sound(q, index) && UniqueLabels(store) {
      SeenIsKnown(store, if q.target == "" then "" else index[q.target], q.iface);
    }
    if q.target == INTERNAL_TARGET && (q.part != NoModule || q.iface != "") {
      return BadRequest(InternalTakesNoFilter);
    }
    if q.part.UnknownModule? {
      return BadRequest(BadModule(q.part.text));
    }
    var owner := "";
    if q.target != "" && q.target != INTERNAL_TARGET {
      if q.target !in index {
        return BadRequest(BadTarget(q.target));
      }
      owner := index[q.target];
    }
    if q.iface != "" && !KnownInterface(store, owner, q.iface) {
      return BadRequest(NoSuchInterface(q.iface));
    }
    if q.target == INTERNAL_TARGET {
      return Internal;
    } else if q.target == "" && q.part == NoModule && q.iface == "" {
      return Full;
    } else {
      return Filtered(owner, FilterOf(q));
    }
  }

  lemma {:induction false} ClaimantHasLabel(sw: SwitchConfig, key: string)
    requires ClaimsKey(sw, key)
    ensures sw.Label() != ""
  {
    assert StripScheme("") == "";
  }

  /** Whatever a targeted scrape shows belongs to the switch the target resolved to, which answers to
      that spelling; one switch's metrics never appear under another's identity, or under none. */
  lemma {:induction false} TargetedScrapeShowsTheTarget(switches: seq<SwitchConfig>, store: Store, index: Index,
                                                        target: string, f: Filter, stalenessLimit: Time, now: Time)
    requires forall key :: Lookup(index, key) == Resolved(switches, key)
    requires target != "" && target != INTERNAL_TARGET && Asked(index, target).Some?
    ensures var owner := Asked(index, target).value;
            && owner != ""
            && (exists i :: 0 <= i < |switches| && ClaimsKey(switches[i], target) && switches[i].Label() == owner)
            && (forall s :: s in Scraped(stalenessLimit, owner, f, store, now) ==> s.switch == owner)
  {
    var owner := Asked(index, target).value;
    assert Resolved(switches, target) == Some(owner);
    ResolvesToClaimant(switches, target);
    var i := FirstClaimant(switches, target).value;
    ClaimantHasLabel(switches[i], target);
    ScrapeHasLabel(stalenessLimit, owner, f, store, now);
  }

  lemma {:induction false} GetHasLabel(store: Store, owner: string)
    ensures Get(store, owner).Some? ==> Get(store, owner).value.name == owner
  {
    if store != [] {
      GetHasLabel(store[1..], owner);
    }
  }

  lemma {:induction false} ScrapeHasLabel(stalenessLimit: Time, owner: string, f: Filter, store: Store, now: Time)
    requires owner != ""
    ensures forall s :: s in Scraped(stalenessLimit, owner, f, store, now) ==> s.switch == owner
  {
    GetHasLabel(store, owner);
    var sw := Get(store, owner);
    if sw.Some? {
      RenderedHasLabel(stalenessLimit, f, sw.value, now);
    }
  }
}
