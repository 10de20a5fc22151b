/** What a scrape shows of the store: health always, data while it is fresh, narrowed by a filter. */
module Render {
  import opened Basics
  import opened Catalogue
  import opened Schedule
  import opened Secret
  import opened Eapi
  import opened Poll
  import opened History
  import opened Engine

  /** The filterable metric groups: the collect keys, and version which has no key. */
  datatype Module = VersionModule | Of(group: Group)

  const COMMANDS: nat := 17

  /** The command at position `k` of the rendering order, which is the issue order. */
  function CommandAt(k: nat): (c: Command)
    requires k < COMMANDS
    ensures Rank(c) == k
  {
    match k
    case 0 => ShowVersion
    case 1 => ShowProcesses
    case 2 => ShowTemperature
    case 3 => ShowPower
    case 4 => ShowCooling
    case 5 => ShowNtp
    case 6 => ShowCapacity
    case 7 => ShowInterfaces
    case 8 => ShowBgp
    case 9 => ShowVxlanVtep
    case 10 => ShowVxlanInterface
    case 11 => ShowVxlanAddresses
    case 12 => ShowEvpnSummary
    case 13 => ShowEvpnRoutes
    case 14 => ShowEvpnInstance
    case 15 => ShowTransceivers
    case _ => ShowPhy
  }

  function ModuleOf(c: Command): Module {
    match c
    case ShowVersion => VersionModule
    case ShowProcesses => Of(Processes)
    case ShowTemperature => Of(Temperature)
    case ShowPower => Of(Power)
    case ShowCooling => Of(Cooling)
    case ShowNtp => Of(Ntp)
    case ShowCapacity => Of(Capacity)
    case ShowInterfaces => Of(Interfaces)
    case ShowBgp => Of(Bgp)
    case ShowVxlanVtep => Of(Vxlan)
    case ShowVxlanInterface => Of(Vxlan)
    case ShowVxlanAddresses => Of(Vxlan)
    case ShowEvpnSummary => Of(Evpn)
    case ShowEvpnRoutes => Of(Evpn)
    case ShowEvpnInstance => Of(Esi)
    case ShowTransceivers => Of(Transceiver)
    case ShowPhy => Of(Phy)
  }

  predicate CarriesInterfaces(m: Module) {
    m == Of(Interfaces) || m == Of(Transceiver) || m == Of(Phy)
  }

  /** No module and "" mean no restriction. */
  datatype Filter = Filter(group: Option<Module>, iface: string)

  const UNFILTERED := Filter(None, "")

  predicate Wants(f: Filter, m: Module) {
    if f.group.Some? then f.group.value == m
    else if f.iface != "" then CarriesInterfaces(m)
    else true
  }

  predicate MatchIface(f: Filter, name: string) {
    f.iface == "" || f.iface == name
  }

  function OnIface(f: Filter): Item -> bool {
    (i: Item) => MatchIface(f, i.iface)
  }

  /** What the renderer reads of one switch. */
  datatype Switch = Switch(name: string, specs: seq<CmdSpec>, state: SwitchState, stats: Counters)

  datatype Sample =
    | ScrapeSuccess(switch: string, ok: bool)
    | CommandSuccess(switch: string, name: Command, ok: bool)
    | EapiStats(switch: string, stats: Counters)
    | ScrapeAge(switch: string, age: Option<Time>)
    | Data(switch: string, group: Module, item: Item)

  // --- Staleness --------------------------------------------------------------------------------

  function Intervals(specs: seq<CmdSpec>): map<Command, Time> {
    if specs == [] then map[]
    else Intervals(specs[..|specs| - 1])[specs[|specs| - 1].name := specs[|specs| - 1].interval]
  }

  lemma {:induction false} IntervalsOf(specs: seq<CmdSpec>)
    ensures Intervals(specs).Keys == Names(specs)
    ensures Distinct(specs) ==> forall c :: c in specs ==> Lookup(Intervals(specs), c.name) == Some(c.interval)
  {
    if specs != [] {
      var n := |specs| - 1;
      IntervalsOf(specs[..n]);
      assert specs == specs[..n] + [specs[n]];
      if Distinct(specs) {
        forall c | c in specs
          ensures Lookup(Intervals(specs), c.name) == Some(c.interval)
        {
          if c != specs[n] {
            var i :| 0 <= i < n && specs[i] == c;
            assert specs[i].name != specs[n].name;
            assert c in specs[..n];
          }
        }
      }
    }
  }

  /** The greatest age shown for a command: three of its own intervals, or the configured limit if longer. */
  function LimitFor(stalenessLimit: Time, intervals: map<Command, Time>, c: Command): Time {
    Max(stalenessLimit, 3 * (if c in intervals then intervals[c] else 0))
  }

  /** Older than the limit of every command. */
  ghost predicate ScrapeTooOld(stalenessLimit: Time, intervals: map<Command, Time>, age: Time) {
    age > stalenessLimit && forall c :: c in intervals ==> age > 3 * intervals[c]
  }

  method ScrapeLimit(stalenessLimit: Time, intervals: map<Command, Time>) returns (limit: Time)
    ensures forall age {:trigger ScrapeTooOld(stalenessLimit, intervals, age)} ::
      age > limit <==> ScrapeTooOld(stalenessLimit, intervals, age)
  {
    limit := stalenessLimit;
    var left := intervals.Keys;
    while left != {}
      invariant left <= intervals.Keys
      invariant limit >= stalenessLimit
      invariant forall c :: c in intervals && c !in left ==> limit >= 3 * intervals[c]
      invariant limit == stalenessLimit || exists c :: c in intervals && limit == 3 * intervals[c]
    {
      var c :| c in left;
      var bound := 3 * intervals[c];
      if bound > limit {
        limit := bound;
      }
      left := left - {c};
    }
  }

  function Fresh(stalenessLimit: Time, sw: Switch, c: Command, now: Time): bool {
    c in sw.state.commandLastSuccess
    && now - sw.state.commandLastSuccess[c] <= LimitFor(stalenessLimit, Intervals(sw.specs), c)
  }

  // --- Rendering --------------------------------------------------------------------------------

  function CommandStatus(sw: Switch, k: nat): seq<Sample>
    requires k <= |sw.specs|
    decreases |sw.specs| - k
  {
    if sw.state.commandErrors.None? || k == |sw.specs| then []
    else
      [CommandSuccess(sw.name, sw.specs[k].name, sw.specs[k].name !in sw.state.commandErrors.value)]
      + CommandStatus(sw, k + 1)
  }

  /** Scrape health and request counters: emitted whatever the state and the filter. */
  function Health(sw: Switch, now: Time): seq<Sample> {
    var s := sw.state;
    [ScrapeSuccess(sw.name, s.lastSuccess.Some? && s.scrapeErr.None?)]
    + CommandStatus(sw, 0)
    + [EapiStats(sw.name, sw.stats),
       ScrapeAge(sw.name, if s.lastSuccess.None? then None else Some(now - s.lastSuccess.value))]
  }

  function Tagged(owner: string, m: Module, items: seq<Item>): seq<Sample> {
    if items == [] then [] else [Data(owner, m, items[0])] + Tagged(owner, m, items[1..])
  }

  function Emit(f: Filter, owner: string, m: Module, items: seq<Item>): seq<Sample> {
    if CarriesInterfaces(m) then Tagged(owner, m, Select(items, OnIface(f)))
    else Tagged(owner, m, items)
  }

  function ValueOf(s: SwitchState, c: Command): Value {
    if c in s.values then s.values[c] else Value({}, [])
  }

  function CommandData(stalenessLimit: Time, f: Filter, sw: Switch, now: Time, c: Command): seq<Sample> {
    if Wants(f, ModuleOf(c)) && Fresh(stalenessLimit, sw, c, now)
    then Emit(f, sw.name, ModuleOf(c), ValueOf(sw.state, c).items)
    else []
  }

  /** The data of each command, in rendering order. */
  function Chunks(stalenessLimit: Time, f: Filter, sw: Switch, now: Time): (chunks: seq<seq<Sample>>)
    ensures |chunks| == COMMANDS
  {
    seq(COMMANDS, k requires 0 <= k < COMMANDS => CommandData(stalenessLimit, f, sw, now, CommandAt(k)))
  }

  function AllData(stalenessLimit: Time, f: Filter, sw: Switch, now: Time): seq<Sample> {
    Flatten(Chunks(stalenessLimit, f, sw, now))
  }

  ghost predicate Gated(stalenessLimit: Time, sw: Switch, now: Time) {
    || sw.state.lastSuccess.None?
    || ScrapeTooOld(stalenessLimit, Intervals(sw.specs), now - sw.state.lastSuccess.value)
  }

  ghost function Rendered(stalenessLimit: Time, f: Filter, sw: Switch, now: Time): seq<Sample> {
    Health(sw, now) + (if Gated(stalenessLimit, sw, now) then [] else AllData(stalenessLimit, f, sw, now))
  }

  method CollectSwitch(stalenessLimit: Time, f: Filter, sw: Switch, now: Time) returns (ch: seq<Sample>)
    ensures ch == Rendered(stalenessLimit, f, sw, now)
  {
    ch := [ScrapeSuccess(sw.name, sw.state.lastSuccess.Some? && sw.state.scrapeErr.None?)];
    var status := CommandStatus(sw, 0);
    ch := ch + status;
    ch := ch + [EapiStats(sw.name, sw.stats)];
    if sw.state.lastSuccess.None? {
      ch := ch + [ScrapeAge(sw.name, None)];
      assert ch == Health(sw, now);
      return;
    }
    var age := now - sw.state.lastSuccess.value;
    ch := ch + [ScrapeAge(sw.name, Some(age))];
    assert ch == Health(sw, now);
    var limit := ScrapeLimit(stalenessLimit, Intervals(sw.specs));
    if age > limit {
      return;
    }
    var data := CollectData(stalenessLimit, f, sw, now);
    ch := ch + data;
  }

  method CollectData(stalenessLimit: Time, f: Filter, sw: Switch, now: Time) returns (ch: seq<Sample>)
    ensures ch == AllData(stalenessLimit, f, sw, now)
  {
    ch := [];
    ghost var chunks := Chunks(stalenessLimit, f, sw, now);
    for k := 0 to COMMANDS
      invariant ch == Flatten(chunks[..k])
    {
      var here := CollectCommand(stalenessLimit, f, sw, now, CommandAt(k));
      assert chunks[..k + 1][..k] == chunks[..k] && chunks[k] == here;
      ch := ch + here;
    }
    assert chunks[..COMMANDS] == chunks;
  }

  method CollectCommand(stalenessLimit: Time, f: Filter, sw: Switch, now: Time, c: Command) returns (ch: seq<Sample>)
    ensures ch == CommandData(stalenessLimit, f, sw, now, c)
  {
    ch := [];
    if Wants(f, ModuleOf(c)) && Fresh(stalenessLimit, sw, c, now) {
      ch := Emit(f, sw.name, ModuleOf(c), ValueOf(sw.state, c).items);
    }
  }

  // --- The scrape-level gate --------------------------------------------------------------------

  lemma {:induction false} NothingFreshNothingShown(stalenessLimit: Time, f: Filter, sw: Switch, now: Time)
    requires forall c :: !Fresh(stalenessLimit, sw, c, now)
    ensures AllData(stalenessLimit, f, sw, now) == []
  {
    FlattenEmpties(Chunks(stalenessLimit, f, sw, now));
  }

  ghost predicate OnlyOwnCommands(sw: Switch) {
    forall c :: c in sw.state.commandLastSuccess ==> c in Names(sw.specs)
  }

  /** While the scrape-level gate is shut, every per-command gate is shut too. */
  lemma {:induction false} GateImpliesStale(stalenessLimit: Time, sw: Switch, now: Time, c: Command)
    requires IsLatest(sw.state) && OnlyOwnCommands(sw) && Gated(stalenessLimit, sw, now)
    ensures !Fresh(stalenessLimit, sw, c, now)
  {
    IntervalsOf(sw.specs);
  }

  lemma {:induction false} GateIsRedundant(stalenessLimit: Time, f: Filter, sw: Switch, now: Time)
    requires IsLatest(sw.state) && OnlyOwnCommands(sw)
    ensures Rendered(stalenessLimit, f, sw, now) == Health(sw, now) + AllData(stalenessLimit, f, sw, now)
  {
    if Gated(stalenessLimit, sw, now) {
      forall c
        ensures !Fresh(stalenessLimit, sw, c, now)
      {
        GateImpliesStale(stalenessLimit, sw, now, c);
      }
      NothingFreshNothingShown(stalenessLimit, f, sw, now);
    }
  }

  lemma {:induction false} HistoryHasOwnCommands(specs: seq<CmdSpec>, polls: seq<PollRecord>, c: Command)
    requires Plausible(polls)
    requires forall k :: 0 <= k < |polls| ==> forall d :: d in polls[k].issued ==> d in specs
    requires c in AfterPolls(polls).commandLastSuccess
    ensures c in Names(specs)
  {
    CacheIsLastSuccess(polls, c);
    var k := LastLanded(polls, c).value;
    var i :| 0 <= i < |polls[k].issued| && polls[k].issued[i].name == c;
    assert polls[k].issued[i] in polls[k].issued;
    var j :| 0 <= j < |specs| && specs[j] == polls[k].issued[i];
  }

  lemma {:induction false} IssuedAreOwn(specs: seq<CmdSpec>, wakes: seq<Wake>, k: nat)
    requires k < |wakes|
    ensures forall d :: d in IssuedAt(specs, wakes, k) ==> d in specs
  {
    SelectMembers(specs, (c: CmdSpec) => IsDue(After(specs, wakes[..k]), c, wakes[k].now));
  }

  lemma {:induction false} RunsKeepTimes(w: World, parser: Parser, c: ClientState, specs: seq<CmdSpec>,
                                         calls: seq<Call>, sw: Switch)
    requires specs != [] && Forward(Wakes(calls))
    requires sw.specs == specs && sw.state == EngineOn(w, parser, c, specs, calls).1
    ensures IsLatest(sw.state) && OnlyOwnCommands(sw)
  {
    var polls := RecordsOf(w, parser, c, specs, calls);
    var wakes := Wakes(calls);
    EngineIsHistory(w, parser, c, specs, calls);
    assert ForwardPolls(polls) by {
      assert forall k :: 0 <= k < |polls| ==> polls[k].now == wakes[k].now;
    }
    LastSuccessIsLatest(polls);
    forall k | 0 <= k < |polls|
      ensures forall d :: d in polls[k].issued ==> d in specs
    {
      IssuedAreOwn(specs, wakes, k);
    }
    forall n | n in sw.state.commandLastSuccess
      ensures n in Names(specs)
    {
      HistoryHasOwnCommands(specs, polls, n);
    }
  }

  /** In every state the engine reaches with a clock that does not go back, the scrape-level gate
      hides nothing that the per-command gates would show. */
  lemma {:induction false} GateIsRedundantInEveryRun(w: World, parser: Parser, c: ClientState, specs: seq<CmdSpec>,
                                                     calls: seq<Call>, stalenessLimit: Time, f: Filter, sw: Switch,
                                                     now: Time)
    requires specs != [] && Forward(Wakes(calls))
    requires sw.specs == specs && sw.state == EngineOn(w, parser, c, specs, calls).1
    ensures Rendered(stalenessLimit, f, sw, now) == Health(sw, now) + AllData(stalenessLimit, f, sw, now)
  {
    RunsKeepTimes(w, parser, c, specs, calls, sw);
    GateIsRedundant(stalenessLimit, f, sw, now);
  }

  lemma {:induction false} SameViewSameCommand(stalenessLimit: Time, f: Filter, a: Switch, b: Switch, now: Time,
                                               c: Command)
    requires a.name == b.name && a.specs == b.specs
    requires a.state.values == b.state.values && a.state.commandLastSuccess == b.state.commandLastSuccess
    ensures CommandData(stalenessLimit, f, a, now, c) == CommandData(stalenessLimit, f, b, now, c)
  {
  }

  lemma {:induction false} SameViewSameData(stalenessLimit: Time, f: Filter, a: Switch, b: Switch, now: Time)
    requires a.name == b.name && a.specs == b.specs
    requires a.state.values == b.state.values && a.state.commandLastSuccess == b.state.commandLastSuccess
    ensures AllData(stalenessLimit, f, a, now) == AllData(stalenessLimit, f, b, now)
  {
    var left, right := Chunks(stalenessLimit, f, a, now), Chunks(stalenessLimit, f, b, now);
    forall k | 0 <= k < COMMANDS
      ensures left[k] == right[k]
    {
      SameViewSameCommand(stalenessLimit, f, a, b, now, CommandAt(k));
    }
    assert left == right;
  }

  lemma {:induction false} SameViewSameStatus(a: Switch, b: Switch, k: nat)
    requires a.name == b.name && a.specs == b.specs && k <= |a.specs|
    requires a.state.commandErrors == b.state.commandErrors
    ensures CommandStatus(a, k) == CommandStatus(b, k)
    decreases |a.specs| - k
  {
    if k < |a.specs| {
      SameViewSameStatus(a, b, k + 1);
    }
  }

  /** Two states that differ in deadlines, attempt time and tracker alone. */
  ghost predicate SameView(a: SwitchState, b: SwitchState) {
    && a.values == b.values && a.commandLastSuccess == b.commandLastSuccess
    && a.commandErrors == b.commandErrors && a.lastSuccess == b.lastSuccess && a.scrapeErr == b.scrapeErr
  }

  /** A scrape with other request counters in it. */
  function WithStats(samples: seq<Sample>, stats: Counters): seq<Sample> {
    seq(|samples|, i requires 0 <= i < |samples| =>
      if samples[i].EapiStats? then EapiStats(samples[i].switch, stats) else samples[i])
  }

  lemma {:induction false} WithStatsOfOthers(samples: seq<Sample>, stats: Counters)
    requires forall s :: s in samples ==> !s.EapiStats?
    ensures WithStats(samples, stats) == samples
  {
  }

  lemma {:induction false} WithStatsConcat(a: seq<Sample>, b: seq<Sample>, stats: Counters)
    ensures WithStats(a + b, stats) == WithStats(a, stats) + WithStats(b, stats)
  {
  }

  lemma {:induction false} SameViewSameHealth(sw: Switch, s: SwitchState, stats: Counters, now: Time)
    requires SameView(s, sw.state)
    ensures Health(sw.(state := s, stats := stats), now) == WithStats(Health(sw, now), stats)
  {
    var status := CommandStatus(sw, 0);
    var success := [ScrapeSuccess(sw.name, sw.state.lastSuccess.Some? && sw.state.scrapeErr.None?)];
    var rest := Health(sw, now)[|success + status|..];
    SameViewSameStatus(sw.(state := s, stats := stats), sw, 0);
    StatusHasLabel(sw, 0);
    assert Health(sw, now) == (success + status) + rest;
    WithStatsConcat(success + status, rest, stats);
    WithStatsConcat(success, status, stats);
    WithStatsOfOthers(success, stats);
    WithStatsOfOthers(status, stats);
  }

  lemma {:induction false} SameViewSameScrape(stalenessLimit: Time, f: Filter, sw: Switch, s: SwitchState,
                                              stats: Counters, now: Time)
    requires SameView(s, sw.state)
    ensures Rendered(stalenessLimit, f, sw.(state := s, stats := stats), now)
            == WithStats(Rendered(stalenessLimit, f, sw, now), stats)
  {
    var changed := sw.(state := s, stats := stats);
    SameViewSameHealth(sw, s, stats, now);
    SameViewSameData(stalenessLimit, f, changed, sw, now);
    DataIsData(stalenessLimit, f, sw, now);
    var data := if Gated(stalenessLimit, sw, now) then [] else AllData(stalenessLimit, f, sw, now);
    WithStatsConcat(Health(sw, now), data, stats);
    WithStatsOfOthers(data, stats);
  }

  /** The record at the moments of a poll before it commits: untouched, its deadlines marked, and with the
      attempt time set. */
  predicate Uncommitted(before: SwitchState, issued: seq<CmdSpec>, at: Time, s: SwitchState) {
    || s == before
    || s == Marked(before, issued, at)
    || (s.lastAttempt.Some? && s == Marked(before, issued, at).(lastAttempt := s.lastAttempt))
  }

  /** A scrape at any moment of a poll before it commits, between any two of the requests the poll makes,
      shows what a scrape before the poll would have shown, except for the request counters: those count
      the attempts made so far. */
  lemma {:induction false} ScrapeSeesWholePolls(stalenessLimit: Time, f: Filter, sw: Switch, w: World, c: ClientState,
                                                issued: seq<CmdSpec>, at: Time, s: SwitchState, i: nat, now: Time)
    requires sw.stats == c.stats && Uncommitted(sw.state, issued, at, s)
    requires i < |StatesOf(w, c, CallsOf(w, c, issued))|
    ensures var c1 := StatesOf(w, c, CallsOf(w, c, issued))[i];
            && Rendered(stalenessLimit, f, sw.(state := s, stats := c1.stats), now)
               == WithStats(Rendered(stalenessLimit, f, sw, now), c1.stats)
            && CountsPrefix(c, AttemptsOf(w, c, CallsOf(w, c, issued)), c1)
  {
    var c1 := StatesOf(w, c, CallsOf(w, c, issued))[i];
    SameViewSameScrape(stalenessLimit, f, sw, s, c1.stats, now);
    StatesCountPrefixes(w, c, CallsOf(w, c, issued), i);
  }

  // --- Filters ----------------------------------------------------------------------------------

  /** The samples a filter keeps, by switch, module and interface alone. */
  predicate Keeps(only: string, f: Filter, s: Sample) {
    && (only == "" || s.switch == only)
    && (s.Data? ==> Wants(f, s.group) && (CarriesInterfaces(s.group) ==> MatchIface(f, s.item.iface)))
  }

  function Keeping(only: string, f: Filter): Sample -> bool {
    s => Keeps(only, f, s)
  }

  /** The switches of a store, in configuration order, under their labels. */
  type Store = seq<Switch>

  ghost predicate UniqueLabels(store: Store) {
    forall i, j :: 0 <= i < j < |store| ==> store[i].name != store[j].name
  }

  function Get(store: Store, owner: string): Option<Switch> {
    if store == [] then None
    else if store[0].name == owner then Some(store[0])
    else Get(store[1..], owner)
  }

  ghost function RenderedAll(stalenessLimit: Time, f: Filter, store: Store, now: Time): seq<Sample> {
    if store == [] then []
    else Rendered(stalenessLimit, f, store[0], now) + RenderedAll(stalenessLimit, f, store[1..], now)
  }

  /** A scrape of one switch, or of all of them when `only` is "". */
  ghost function Scraped(stalenessLimit: Time, only: string, f: Filter, store: Store, now: Time): seq<Sample> {
    if only == "" then RenderedAll(stalenessLimit, f, store, now)
    else
      match Get(store, only)
      case None => []
      case Some(sw) => Rendered(stalenessLimit, f, sw, now)
  }

  method Collect(stalenessLimit: Time, only: string, f: Filter, store: Store, now: Time) returns (ch: seq<Sample>)
    ensures ch == Scraped(stalenessLimit, only, f, store, now)
  {
    ch := [];
    if only != "" {
      var sw := Get(store, only);
      if sw.Some? {
        ch := CollectSwitch(stalenessLimit, f, sw.value, now);
      }
      return;
    }
    for i := 0 to |store|
      invariant ch + RenderedAll(stalenessLimit, f, store[i..], now) == RenderedAll(stalenessLimit, f, store, now)
    {
      assert store[i..][0] == store[i] && store[i..][1..] == store[i + 1..];
      var one := CollectSwitch(stalenessLimit, f, store[i], now);
      Reassociate(ch, one, RenderedAll(stalenessLimit, f, store[i + 1..], now));
      ch := ch + one;
    }
  }

  lemma {:induction false} TaggedAre(owner: string, m: Module, items: seq<Item>)
    ensures forall s :: s in Tagged(owner, m, items) ==> s.Data? && s.switch == owner && s.group == m && s.item in items
  {
    if items != [] {
      TaggedAre(owner, m, items[1..]);
    }
  }

  lemma {:induction false} SelectTagged(only: string, f: Filter, owner: string, m: Module, items: seq<Item>)
    requires only == "" || owner == only
    requires Wants(f, m) && CarriesInterfaces(m)
    ensures Select(Tagged(owner, m, items), Keeping(only, f))
            == Tagged(owner, m, Select(items, OnIface(f)))
  {
    if items != [] {
      SelectTagged(only, f, owner, m, items[1..]);
      var head := Data(owner, m, items[0]);
      assert Keeping(only, f)(head) == OnIface(f)(items[0]);
      assert Tagged(owner, m, items)[0] == head && Tagged(owner, m, items)[1..] == Tagged(owner, m, items[1..]);
      var rest := Select(items[1..], OnIface(f));
      assert ([items[0]] + rest)[1..] == rest && [] + rest == rest;
    }
  }

  lemma {:induction false} EmitUnfiltered(owner: string, m: Module, items: seq<Item>)
    ensures Emit(UNFILTERED, owner, m, items) == Tagged(owner, m, items)
  {
    SelectAll(items, OnIface(UNFILTERED));
  }

  lemma {:induction false} CommandDataRestricted(stalenessLimit: Time, only: string, f: Filter, sw: Switch, now: Time,
                                                 c: Command)
    requires only == "" || sw.name == only
    ensures CommandData(stalenessLimit, f, sw, now, c)
            == Select(CommandData(stalenessLimit, UNFILTERED, sw, now, c), Keeping(only, f))
  {
    var m, v := ModuleOf(c), ValueOf(sw.state, c).items;
    EmitUnfiltered(sw.name, m, v);
    TaggedAre(sw.name, m, v);
    if !Wants(f, m) {
      SelectNone(Tagged(sw.name, m, v), Keeping(only, f));
    } else if CarriesInterfaces(m) {
      SelectTagged(only, f, sw.name, m, v);
    } else {
      SelectAll(Tagged(sw.name, m, v), Keeping(only, f));
    }
  }

  lemma {:induction false} DataRestricted(stalenessLimit: Time, only: string, f: Filter, sw: Switch, now: Time)
    requires only == "" || sw.name == only
    ensures AllData(stalenessLimit, f, sw, now)
            == Select(AllData(stalenessLimit, UNFILTERED, sw, now), Keeping(only, f))
  {
    var whole, kept := Chunks(stalenessLimit, UNFILTERED, sw, now), Chunks(stalenessLimit, f, sw, now);
    forall k | 0 <= k < COMMANDS
      ensures kept[k] == Select(whole[k], Keeping(only, f))
    {
      CommandDataRestricted(stalenessLimit, only, f, sw, now, CommandAt(k));
    }
    FlattenSelects(whole, kept, Keeping(only, f));
  }

  lemma {:induction false} StatusHasLabel(sw: Switch, k: nat)
    requires k <= |sw.specs|
    ensures forall s :: s in CommandStatus(sw, k) ==> s.switch == sw.name && s.CommandSuccess?
    decreases |sw.specs| - k
  {
    if k < |sw.specs| {
      StatusHasLabel(sw, k + 1);
    }
  }

  lemma {:induction false} HealthHasLabel(sw: Switch, now: Time)
    ensures forall s :: s in Health(sw, now) ==> s.switch == sw.name && !s.Data?
  {
    StatusHasLabel(sw, 0);
  }

  lemma {:induction false} RenderedRestricted(stalenessLimit: Time, only: string, f: Filter, sw: Switch, now: Time)
    requires only == "" || sw.name == only
    ensures Rendered(stalenessLimit, f, sw, now)
            == Select(Rendered(stalenessLimit, UNFILTERED, sw, now), Keeping(only, f))
  {
    HealthHasLabel(sw, now);
    SelectAll(Health(sw, now), Keeping(only, f));
    DataRestricted(stalenessLimit, only, f, sw, now);
    SelectConcat(Health(sw, now),
                 if Gated(stalenessLimit, sw, now) then [] else AllData(stalenessLimit, UNFILTERED, sw, now),
                 Keeping(only, f));
  }

  lemma {:induction false} TaggedContains(owner: string, m: Module, items: seq<Item>, i: Item)
    requires i in items
    ensures Data(owner, m, i) in Tagged(owner, m, items)
  {
    if items[0] != i {
      TaggedContains(owner, m, items[1..], i);
    }
  }

  /** What is shown of a command: exactly the items of its last decoded output, under the switch's label
      and the command's module, if that module is asked for (by name, or by asking for an interface it
      carries), the output is fresh, and, where items name interfaces, the item is of the one asked for. */
  lemma {:induction false} CommandDataMeans(stalenessLimit: Time, f: Filter, sw: Switch, now: Time, c: Command,
                                            s: Sample)
    ensures s in CommandData(stalenessLimit, f, sw, now, c)
            <==>
            && s.Data? && s.switch == sw.name && s.group == ModuleOf(c) && s.item in ValueOf(sw.state, c).items
            && Wants(f, ModuleOf(c)) && Fresh(stalenessLimit, sw, c, now)
            && (CarriesInterfaces(ModuleOf(c)) ==> MatchIface(f, s.item.iface))
  {
    var m, items := ModuleOf(c), ValueOf(sw.state, c).items;
    var kept := if CarriesInterfaces(m) then Select(items, OnIface(f)) else items;
    SelectMembers(items, OnIface(f));
    TaggedAre(sw.name, m, kept);
    if s.Data? && s.item in kept {
      TaggedContains(sw.name, m, kept, s.item);
    }
  }

  lemma {:induction false} TaggedInOrder(owner: string, m: Module, items: seq<Item>)
    ensures |Tagged(owner, m, items)| == |items|
    ensures forall i :: 0 <= i < |items| ==> Tagged(owner, m, items)[i] == Data(owner, m, items[i])
  {
    if items != [] {
      TaggedInOrder(owner, m, items[1..]);
    }
  }

  /** Without a filter each item of a fresh output is shown once, in the order decoded. */
  lemma {:induction false} CommandDataInOrder(stalenessLimit: Time, sw: Switch, now: Time, c: Command)
    requires Fresh(stalenessLimit, sw, c, now) && c in sw.state.values
    ensures var shown, items := CommandData(stalenessLimit, UNFILTERED, sw, now, c), sw.state.values[c].items;
            && |shown| == |items|
            && forall i :: 0 <= i < |items| ==> shown[i] == Data(sw.name, ModuleOf(c), items[i])
  {
    EmitUnfiltered(sw.name, ModuleOf(c), sw.state.values[c].items);
    TaggedInOrder(sw.name, ModuleOf(c), sw.state.values[c].items);
  }

  /** A module filter shows the data of the commands of that collect group and of no other. */
  lemma {:induction false} ModuleFilterShowsItsGroup(stalenessLimit: Time, f: Filter, sw: Switch, now: Time,
                                                     c: Command, g: Group)
    requires f.group == Some(Of(g)) && CommandData(stalenessLimit, f, sw, now, c) != []
    ensures c in CommandsOf(g)
  {
    var s := CommandData(stalenessLimit, f, sw, now, c)[0];
    CommandDataMeans(stalenessLimit, f, sw, now, c, s);
    GroupOfCommand(g, c);
  }

  lemma {:induction false} GroupOfCommand(g: Group, c: Command)
    ensures c in CommandsOf(g) <==> ModuleOf(c) == Of(g)
  {
  }

  lemma {:induction false} DataIsData(stalenessLimit: Time, f: Filter, sw: Switch, now: Time)
    ensures forall s :: s in AllData(stalenessLimit, f, sw, now) ==> s.Data?
  {
    var chunks := Chunks(stalenessLimit, f, sw, now);
    forall s: Sample | s in Flatten(chunks)
      ensures s.Data?
    {
      FlattenMembers(chunks, s);
      var k :| 0 <= k < COMMANDS && s in chunks[k];
      CommandDataMeans(stalenessLimit, f, sw, now, CommandAt(k), s);
    }
  }

  lemma {:induction false} DataHasLabel(stalenessLimit: Time, f: Filter, sw: Switch, now: Time)
    ensures forall s :: s in AllData(stalenessLimit, f, sw, now) ==> s.switch == sw.name
  {
    var chunks := Chunks(stalenessLimit, f, sw, now);
    forall s: Sample | s in Flatten(chunks)
      ensures s.switch == sw.name
    {
      FlattenMembers(chunks, s);
      var k :| 0 <= k < COMMANDS && s in chunks[k];
      CommandDataMeans(stalenessLimit, f, sw, now, CommandAt(k), s);
    }
  }

  lemma {:induction false} RenderedHasLabel(stalenessLimit: Time, f: Filter, sw: Switch, now: Time)
    ensures forall s :: s in Rendered(stalenessLimit, f, sw, now) ==> s.switch == sw.name
  {
    HealthHasLabel(sw, now);
    DataHasLabel(stalenessLimit, f, sw, now);
  }

  lemma {:induction false} OtherSwitchDropped(stalenessLimit: Time, only: string, f: Filter, sw: Switch, now: Time)
    requires only != "" && sw.name != only
    ensures Select(Rendered(stalenessLimit, UNFILTERED, sw, now), Keeping(only, f)) == []
  {
    RenderedHasLabel(stalenessLimit, UNFILTERED, sw, now);
    SelectNone(Rendered(stalenessLimit, UNFILTERED, sw, now), Keeping(only, f));
  }

  lemma {:induction false} AllRestricted(stalenessLimit: Time, f: Filter, store: Store, now: Time)
    ensures RenderedAll(stalenessLimit, f, store, now)
            == Select(RenderedAll(stalenessLimit, UNFILTERED, store, now), Keeping("", f))
  {
    if store != [] {
      RenderedRestricted(stalenessLimit, "", f, store[0], now);
      AllRestricted(stalenessLimit, f, store[1..], now);
      SelectConcat(Rendered(stalenessLimit, UNFILTERED, store[0], now),
                   RenderedAll(stalenessLimit, UNFILTERED, store[1..], now), Keeping("", f));
    }
  }

  lemma {:induction false} OneRestricted(stalenessLimit: Time, only: string, f: Filter, store: Store, now: Time)
    requires only != "" && UniqueLabels(store)
    ensures Scraped(stalenessLimit, only, f, store, now)
            == Select(RenderedAll(stalenessLimit, UNFILTERED, store, now), Keeping(only, f))
  {
    if store != [] {
      var head, tail := store[0], store[1..];
      SelectConcat(Rendered(stalenessLimit, UNFILTERED, head, now),
                   RenderedAll(stalenessLimit, UNFILTERED, tail, now), Keeping(only, f));
      OneRestricted(stalenessLimit, only, f, tail, now);
      if head.name == only {
        RenderedRestricted(stalenessLimit, only, f, head, now);
        AbsentLabel(tail, only);
      } else {
        OtherSwitchDropped(stalenessLimit, only, f, head, now);
      }
    }
  }

  lemma {:induction false} AbsentLabel(store: Store, owner: string)
    requires forall i :: 0 <= i < |store| ==> store[i].name != owner
    ensures Get(store, owner) == None
  {
    if store != [] {
      AbsentLabel(store[1..], owner);
    }
  }

  /** Under unique labels `Get` finds the switch of that label, if there is one. */
  lemma {:induction false} GetIs(store: Store, owner: string)
    requires UniqueLabels(store)
    ensures forall i :: 0 <= i < |store| && store[i].name == owner ==> Get(store, owner) == Some(store[i])
    ensures Get(store, owner).Some? ==> exists i :: 0 <= i < |store| && store[i].name == owner
  {
    if store != [] {
      GetIs(store[1..], owner);
      assert forall i :: 0 < i < |store| ==> store[1..][i - 1] == store[i];
    }
  }

  /** For every store and every filter, a filtered scrape is the full one restricted sample by sample:
      same samples, same order, health and request counters never dropped. */
  lemma {:induction false} FilteredScrapeIsRestriction(stalenessLimit: Time, only: string, f: Filter, store: Store,
                                                       now: Time)
    requires UniqueLabels(store)
    ensures Scraped(stalenessLimit, only, f, store, now)
            == Select(Scraped(stalenessLimit, "", UNFILTERED, store, now), Keeping(only, f))
  {
    if only == "" {
      AllRestricted(stalenessLimit, f, store, now);
    } else {
      OneRestricted(stalenessLimit, only, f, store, now);
    }
  }
}
