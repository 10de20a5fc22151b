/** What a scrape shows, from the polls behind it and the filter asked for. */
module Shown {
  import opened Basics
  import opened Catalogue
  import opened Schedule
  import opened Eapi
  import opened Poll
  import opened History
  import opened Engine
  import opened Render

  // --- Health -----------------------------------------------------------------------------------

  lemma {:induction false} StatusIs(sw: Switch, k: nat)
    requires k <= |sw.specs|
    ensures var status := CommandStatus(sw, k);
            && |status| == (if sw.state.commandErrors.None? then 0 else |sw.specs| - k)
            && forall i :: 0 <= i < |status| ==>
                 status[i]
                 == CommandSuccess(sw.name, sw.specs[k + i].name, ErrorFor(sw.state, sw.specs[k + i].name).None?)
    decreases |sw.specs| - k
  {
    if k < |sw.specs| && sw.state.commandErrors.Some? {
      StatusIs(sw, k + 1);
      var rest := CommandStatus(sw, k + 1);
      assert CommandStatus(sw, k)[1..] == rest;
      forall i | 0 <= i < |sw.specs| - k
        ensures CommandStatus(sw, k)[i]
                == CommandSuccess(sw.name, sw.specs[k + i].name, ErrorFor(sw.state, sw.specs[k + i].name).None?)
      {
        if i > 0 {
          assert CommandStatus(sw, k)[i] == rest[i - 1];
        }
      }
    }
  }

  /** The poll got usable output from some command. */
  ghost predicate Brought(p: PollRecord) {
    && p.issued != [] && p.answers.Answered?
    && exists name :: name in p.answers.results && p.answers.results[name].Ok?
  }

  /** Poll `k` is the last that brought something back. */
  ghost predicate BroughtLast(polls: seq<PollRecord>, k: nat) {
    k < |polls| && Brought(polls[k]) && forall j :: k < j < |polls| ==> !Brought(polls[j])
  }

  /** Poll `k` is the last that issued anything. */
  ghost predicate PolledLast(polls: seq<PollRecord>, k: nat) {
    k < |polls| && polls[k].issued != [] && forall j :: k < j < |polls| ==> polls[j].issued == []
  }

  lemma {:induction false} BroughtIsLanded(p: PollRecord)
    ensures Brought(p) <==> HasLanded(p)
  {
    if p.answers.Answered? {
      assert forall name :: name in Good(p.answers) <==> name in p.answers.results && p.answers.results[name].Ok?;
    }
  }

  lemma {:induction false} LastOfKind(polls: seq<PollRecord>, k: nat)
    ensures BroughtLast(polls, k) <==> Last(polls, HasLanded) == Some(k)
    ensures PolledLast(polls, k) <==> Last(polls, IsPoll) == Some(k)
  {
    forall p: PollRecord
      ensures Brought(p) <==> HasLanded(p)
    {
      BroughtIsLanded(p);
    }
  }

  ghost predicate Stands(polls: seq<PollRecord>, name: Command)
    requires Plausible(polls)
  {
    exists k: nat :: StandingFailure(polls, name, k)
  }

  /** The commands of which a failure stands. */
  ghost function Standing(polls: seq<PollRecord>): iset<Command>
    requires Plausible(polls)
  {
    iset name | Stands(polls, name)
  }

  /** The time since the last poll that brought something back, if there was one. */
  ghost function AgeAfter(polls: seq<PollRecord>, now: Time): Option<Time> {
    if exists k: nat :: BroughtLast(polls, k) then
      var k: nat :| BroughtLast(polls, k);
      Some(now - polls[k].now)
    else None
  }

  /** How a scrape begins: success, a status per listed command once there has been a poll, the request
      counters, and the age; everything after that is data. */
  ghost predicate Opens(ch: seq<Sample>, sw: Switch, ok: bool, polled: bool, failing: iset<Command>,
                        age: Option<Time>)
  {
    var n := if polled then |sw.specs| else 0;
    && |ch| >= n + 3
    && ch[0] == ScrapeSuccess(sw.name, ok)
    && (forall k :: 0 <= k < n ==> ch[k + 1] == CommandSuccess(sw.name, sw.specs[k].name, sw.specs[k].name !in failing))
    && ch[n + 1] == EapiStats(sw.name, sw.stats)
    && ch[n + 2] == ScrapeAge(sw.name, age)
    && forall i :: n + 3 <= i < |ch| ==> ch[i].Data?
  }

  /** The commands the record has a failure of. */
  ghost function Failed(s: SwitchState): iset<Command> {
    iset name | ErrorFor(s, name).Some?
  }

  lemma {:induction false} StartOpens(sw: Switch, ok: bool, polled: bool, failing: iset<Command>, age: Option<Time>,
                                      status: seq<Sample>)
    requires |status| == if polled then |sw.specs| else 0
    requires forall k :: 0 <= k < |status| ==>
      status[k] == CommandSuccess(sw.name, sw.specs[k].name, sw.specs[k].name !in failing)
    ensures Opens([ScrapeSuccess(sw.name, ok)] + status + [EapiStats(sw.name, sw.stats), ScrapeAge(sw.name, age)],
                  sw, ok, polled, failing, age)
  {
  }

  lemma {:induction false} StatusFromStart(sw: Switch)
    ensures var status := CommandStatus(sw, 0);
            && |status| == (if sw.state.commandErrors.Some? then |sw.specs| else 0)
            && forall k :: 0 <= k < |status| ==>
                 status[k] == CommandSuccess(sw.name, sw.specs[k].name, sw.specs[k].name !in Failed(sw.state))
  {
    StatusIs(sw, 0);
  }

  lemma {:induction false} HealthOpens(sw: Switch, now: Time, ok: bool, polled: bool, age: Option<Time>)
    requires ok == (sw.state.lastSuccess.Some? && sw.state.scrapeErr.None?) && polled == sw.state.commandErrors.Some?
    requires age == if sw.state.lastSuccess.None? then None else Some(now - sw.state.lastSuccess.value)
    ensures Opens(Health(sw, now), sw, ok, polled, Failed(sw.state), age)
  {
    var status := CommandStatus(sw, 0);
    StatusFromStart(sw);
    StartOpens(sw, ok, polled, Failed(sw.state), age, status);
    assert Health(sw, now) == [ScrapeSuccess(sw.name, ok)] + status
                              + [EapiStats(sw.name, sw.stats), ScrapeAge(sw.name, age)];
  }

  lemma {:induction false} OpensThenData(health: seq<Sample>, data: seq<Sample>, sw: Switch, ok: bool, polled: bool,
                                         failing: iset<Command>, age: Option<Time>)
    requires Opens(health, sw, ok, polled, failing, age)
    requires forall s :: s in data ==> s.Data?
    ensures Opens(health + data, sw, ok, polled, failing, age)
  {
    var ch := health + data;
    forall i | |health| <= i < |ch|
      ensures ch[i].Data?
    {
      assert ch[i] in data;
    }
  }

  lemma {:induction false} RenderedOpens(stalenessLimit: Time, f: Filter, sw: Switch, now: Time, ok: bool, polled: bool,
                                         age: Option<Time>)
    requires ok == (sw.state.lastSuccess.Some? && sw.state.scrapeErr.None?) && polled == sw.state.commandErrors.Some?
    requires age == if sw.state.lastSuccess.None? then None else Some(now - sw.state.lastSuccess.value)
    ensures Opens(Rendered(stalenessLimit, f, sw, now), sw, ok, polled, Failed(sw.state), age)
  {
    HealthOpens(sw, now, ok, polled, age);
    DataIsData(stalenessLimit, f, sw, now);
    OpensThenData(Health(sw, now), if Gated(stalenessLimit, sw, now) then [] else AllData(stalenessLimit, f, sw, now),
                  sw, ok, polled, Failed(sw.state), age);
  }

  lemma {:induction false} RecordByHistory(polls: seq<PollRecord>, now: Time)
    requires Plausible(polls)
    ensures var s := AfterPolls(polls);
            && (s.lastSuccess.Some? && s.scrapeErr.None?
                <==> exists k: nat :: PolledLast(polls, k) && BroughtLast(polls, k))
            && (s.commandErrors.Some? <==> exists k: nat :: PolledLast(polls, k))
            && AgeAfter(polls, now) == (if s.lastSuccess.None? then None else Some(now - s.lastSuccess.value))
  {
    forall k: nat
      ensures BroughtLast(polls, k) <==> Last(polls, HasLanded) == Some(k)
      ensures PolledLast(polls, k) <==> Last(polls, IsPoll) == Some(k)
    {
      LastOfKind(polls, k);
    }
    ClocksByHistory(polls);
    ScrapeSuccessMeansLastPollLanded(polls);
    var polled, landed := Last(polls, IsPoll), Last(polls, HasLanded);
    if polled.Some? {
      assert PolledLast(polls, polled.value);
      if HasLanded(polls[polled.value]) {
        BroughtIsLanded(polls[polled.value]);
        NothingLater(polls, polled.value);
      }
    }
    if landed.Some? {
      assert BroughtLast(polls, landed.value);
    }
  }

  lemma {:induction false} NothingLater(polls: seq<PollRecord>, k: nat)
    requires PolledLast(polls, k) && Brought(polls[k])
    ensures BroughtLast(polls, k)
  {
  }

  lemma {:induction false} FailedIsStanding(polls: seq<PollRecord>)
    requires Plausible(polls)
    ensures Failed(AfterPolls(polls)) == Standing(polls)
  {
    forall name: Command
      ensures ErrorFor(AfterPolls(polls), name).Some? <==> Stands(polls, name)
    {
      CommandErrorsAreStandingFailures(polls, name);
    }
  }

  /** The health part of a scrape, after every history and whatever the filter: success exactly when the
      last poll brought something back; a status for each listed command once there has been a poll, good
      exactly when no failure of it stands; the request counters; and the time since the last poll that
      brought something back. */
  lemma {:induction false} HealthByHistory(stalenessLimit: Time, f: Filter, sw: Switch, polls: seq<PollRecord>,
                                           now: Time)
    requires Plausible(polls) && sw.state == AfterPolls(polls)
    ensures Opens(Rendered(stalenessLimit, f, sw, now), sw,
                  exists k: nat :: PolledLast(polls, k) && BroughtLast(polls, k),
                  exists k: nat :: PolledLast(polls, k),
                  Standing(polls), AgeAfter(polls, now))
  {
    RecordByHistory(polls, now);
    FailedIsStanding(polls);
    RenderedOpens(stalenessLimit, f, sw, now, exists k: nat :: PolledLast(polls, k) && BroughtLast(polls, k),
                  exists k: nat :: PolledLast(polls, k), AgeAfter(polls, now));
  }

  /** The same for every run of the engine: what a scrape after it says of the switch's health. */
  lemma {:induction false} HealthByRun(w: World, parser: Parser, c: ClientState, calls: seq<Call>, stalenessLimit: Time,
                                       f: Filter, sw: Switch, now: Time)
    requires sw.specs != [] && sw.state == EngineOn(w, parser, c, sw.specs, calls).1
    ensures var polls := RecordsOf(w, parser, c, sw.specs, calls);
            && Plausible(polls)
            && Opens(Rendered(stalenessLimit, f, sw, now), sw,
                     exists k: nat :: PolledLast(polls, k) && BroughtLast(polls, k),
                     exists k: nat :: PolledLast(polls, k),
                     Standing(polls), AgeAfter(polls, now))
  {
    EngineIsHistory(w, parser, c, sw.specs, calls);
    HealthByHistory(stalenessLimit, f, sw, RecordsOf(w, parser, c, sw.specs, calls), now);
  }

  // --- One switch in a scrape -------------------------------------------------------------------

  function OfSwitch(owner: string): Sample -> bool {
    (s: Sample) => s.switch == owner
  }

  lemma {:induction false} PartOfOne(stalenessLimit: Time, f: Filter, sw: Switch, owner: string, now: Time)
    ensures Select(Rendered(stalenessLimit, f, sw, now), OfSwitch(owner))
            == if sw.name == owner then Rendered(stalenessLimit, f, sw, now) else []
  {
    RenderedHasLabel(stalenessLimit, f, sw, now);
    if sw.name == owner {
      SelectAll(Rendered(stalenessLimit, f, sw, now), OfSwitch(owner));
    } else {
      SelectNone(Rendered(stalenessLimit, f, sw, now), OfSwitch(owner));
    }
  }

  lemma {:induction false} NoneOfOthers(stalenessLimit: Time, f: Filter, store: Store, owner: string, now: Time)
    requires forall i :: 0 <= i < |store| ==> store[i].name != owner
    ensures Select(RenderedAll(stalenessLimit, f, store, now), OfSwitch(owner)) == []
  {
    if store != [] {
      NoneOfOthers(stalenessLimit, f, store[1..], owner, now);
      PartOfOne(stalenessLimit, f, store[0], owner, now);
      SelectConcat(Rendered(stalenessLimit, f, store[0], now), RenderedAll(stalenessLimit, f, store[1..], now),
                   OfSwitch(owner));
    }
  }

  lemma {:induction false} PartOfAll(stalenessLimit: Time, f: Filter, store: Store, i: nat, now: Time)
    requires UniqueLabels(store) && i < |store|
    ensures Select(RenderedAll(stalenessLimit, f, store, now), OfSwitch(store[i].name))
            == Rendered(stalenessLimit, f, store[i], now)
  {
    var owner := store[i].name;
    PartOfOne(stalenessLimit, f, store[0], owner, now);
    SelectConcat(Rendered(stalenessLimit, f, store[0], now), RenderedAll(stalenessLimit, f, store[1..], now),
                 OfSwitch(owner));
    if i == 0 {
      NoneOfOthers(stalenessLimit, f, store[1..], owner, now);
    } else {
      PartOfAll(stalenessLimit, f, store[1..], i - 1, now);
    }
  }

  /** The samples a scrape has of a switch it asks for are what that switch renders to, in order. */
  lemma {:induction false} SwitchPart(stalenessLimit: Time, only: string, f: Filter, store: Store, i: nat, now: Time)
    requires UniqueLabels(store) && i < |store| && (only == "" || store[i].name == only)
    ensures Select(Scraped(stalenessLimit, only, f, store, now), OfSwitch(store[i].name))
            == Rendered(stalenessLimit, f, store[i], now)
  {
    if only == "" {
      PartOfAll(stalenessLimit, f, store, i, now);
    } else {
      GetIs(store, only);
      PartOfOne(stalenessLimit, f, store[i], only, now);
    }
  }

  // --- Data -------------------------------------------------------------------------------------

  lemma {:induction false} ScrapedMembers(stalenessLimit: Time, only: string, f: Filter, store: Store, now: Time,
                                          s: Sample)
    requires UniqueLabels(store)
    ensures s in Scraped(stalenessLimit, only, f, store, now)
            <==> exists i :: 0 <= i < |store| && (only == "" || store[i].name == only)
                             && s in Rendered(stalenessLimit, f, store[i], now)
  {
    if only == "" {
      AllMembers(stalenessLimit, f, store, now, s);
    } else {
      GetIs(store, only);
    }
  }

  lemma {:induction false} AllMembers(stalenessLimit: Time, f: Filter, store: Store, now: Time, s: Sample)
    ensures s in RenderedAll(stalenessLimit, f, store, now)
            <==> exists i :: 0 <= i < |store| && s in Rendered(stalenessLimit, f, store[i], now)
  {
    if store != [] {
      AllMembers(stalenessLimit, f, store[1..], now, s);
      if i :| 0 <= i < |store| && s in Rendered(stalenessLimit, f, store[i], now) {
        if i > 0 {
          assert store[1..][i - 1] == store[i];
        }
      }
      if i :| 0 <= i < |store[1..]| && s in Rendered(stalenessLimit, f, store[1..][i], now) {
        assert store[1..][i] == store[i + 1];
      }
    }
  }

  /** What every run of the engine keeps of a switch: its command list has distinct names, only listed
      commands have data, and the switch's success time is the latest of theirs. */
  ghost predicate Settled(sw: Switch) {
    Distinct(sw.specs) && OnlyOwnCommands(sw) && IsLatest(sw.state)
  }

  lemma {:induction false} RunsAreSettled(w: World, parser: Parser, c: ClientState, calls: seq<Call>, sw: Switch)
    requires sw.specs != [] && Distinct(sw.specs) && Forward(Wakes(calls))
    requires sw.state == EngineOn(w, parser, c, sw.specs, calls).1
    ensures Settled(sw)
  {
    RunsKeepTimes(w, parser, c, sw.specs, calls, sw);
  }

  /** `item` is in the last output of `c`, and that output is no older than the staleness limit or three
      of the command's own intervals. */
  ghost predicate Current(stalenessLimit: Time, sw: Switch, now: Time, c: Command, item: Item) {
    && c in sw.state.values && item in sw.state.values[c].items
    && c in sw.state.commandLastSuccess
    && var age := now - sw.state.commandLastSuccess[c];
       exists spec :: spec in sw.specs && spec.name == c && (age <= stalenessLimit || age <= 3 * spec.interval)
  }

  lemma {:induction false} CurrentIsFresh(stalenessLimit: Time, sw: Switch, now: Time, c: Command, item: Item)
    requires Distinct(sw.specs) && OnlyOwnCommands(sw)
    ensures Current(stalenessLimit, sw, now, c, item)
            <==> Fresh(stalenessLimit, sw, c, now) && item in ValueOf(sw.state, c).items
  {
    IntervalsOf(sw.specs);
    if Fresh(stalenessLimit, sw, c, now) {
      var i :| 0 <= i < |sw.specs| && sw.specs[i].name == c;
      assert sw.specs[i] in sw.specs;
    }
  }

  lemma {:induction false} CommandIsAt(c: Command)
    ensures Rank(c) < COMMANDS && CommandAt(Rank(c)) == c
  {
  }

  lemma {:induction false} FlattenHas<T>(chunks: seq<seq<T>>, i: nat, x: T)
    requires i < |chunks| && x in chunks[i]
    ensures x in Flatten(chunks)
  {
    if i < |chunks| - 1 {
      FlattenHas(chunks[..|chunks| - 1], i, x);
    }
  }

  lemma {:induction false} AllDataMembers(stalenessLimit: Time, f: Filter, sw: Switch, now: Time, s: Sample)
    ensures s in AllData(stalenessLimit, f, sw, now)
            <==> exists c :: s in CommandData(stalenessLimit, f, sw, now, c)
  {
    var chunks := Chunks(stalenessLimit, f, sw, now);
    if s in Flatten(chunks) {
      FlattenMembers(chunks, s);
      var k :| 0 <= k < COMMANDS && s in chunks[k];
      assert s in CommandData(stalenessLimit, f, sw, now, CommandAt(k));
    }
    if c :| s in CommandData(stalenessLimit, f, sw, now, c) {
      CommandIsAt(c);
      assert chunks[Rank(c)] == CommandData(stalenessLimit, f, sw, now, c);
      FlattenHas(chunks, Rank(c), s);
    }
  }

  /** Why a scrape that asks for module `g` and interface `x` shows `s`: it is an item of `c`'s current
      output on a switch asked for. A module picks the commands of that module; an interface alone picks
      the three commands that report on interfaces; and it picks among their items, never among those of
      other commands. */
  ghost predicate Explains(stalenessLimit: Time, only: string, g: Option<Module>, x: string, sw: Switch, now: Time,
                           s: Sample, c: Command)
    requires s.Data?
  {
    && (only == "" || sw.name == only) && s.switch == sw.name && s.group == ModuleOf(c)
    && Current(stalenessLimit, sw, now, c, s.item)
    && (g.Some? ==> g == Some(ModuleOf(c)))
    && (g.None? && x != "" ==> c == ShowInterfaces || c == ShowTransceivers || c == ShowPhy)
    && (x != "" && (c == ShowInterfaces || c == ShowTransceivers || c == ShowPhy) ==> s.item.iface == x)
  }

  lemma {:induction false} FilterInWords(g: Option<Module>, x: string, c: Command, iface: string)
    ensures var f, carries := Filter(g, x), c == ShowInterfaces || c == ShowTransceivers || c == ShowPhy;
            && (Wants(f, ModuleOf(c)) <==> (g.Some? ==> g == Some(ModuleOf(c))) && (g.None? && x != "" ==> carries))
            && (CarriesInterfaces(ModuleOf(c)) <==> carries)
            && (MatchIface(f, iface) <==> x != "" ==> iface == x)
  {
  }

  lemma {:induction false} CommandExplains(stalenessLimit: Time, g: Option<Module>, x: string, sw: Switch, now: Time,
                                           s: Sample, c: Command)
    requires Settled(sw) && s.Data?
    ensures s in CommandData(stalenessLimit, Filter(g, x), sw, now, c)
            <==> Explains(stalenessLimit, "", g, x, sw, now, s, c)
  {
    CommandDataMeans(stalenessLimit, Filter(g, x), sw, now, c, s);
    CurrentIsFresh(stalenessLimit, sw, now, c, s.item);
    FilterInWords(g, x, c, s.item.iface);
  }

  lemma {:induction false} SwitchShows(stalenessLimit: Time, g: Option<Module>, x: string, sw: Switch, now: Time,
                                       s: Sample)
    requires Settled(sw) && s.Data?
    ensures s in Rendered(stalenessLimit, Filter(g, x), sw, now)
            <==> exists c :: Explains(stalenessLimit, "", g, x, sw, now, s, c)
  {
    GateIsRedundant(stalenessLimit, Filter(g, x), sw, now);
    HealthHasLabel(sw, now);
    AllDataMembers(stalenessLimit, Filter(g, x), sw, now, s);
    forall c
      ensures s in CommandData(stalenessLimit, Filter(g, x), sw, now, c)
              <==> Explains(stalenessLimit, "", g, x, sw, now, s, c)
    {
      CommandExplains(stalenessLimit, g, x, sw, now, s, c);
    }
  }

  /** Exactly what a scrape shows: for every store, target and filter, a data sample is there if and only if
      some switch and some command explain it. */
  lemma {:induction false} ScrapeShows(stalenessLimit: Time, only: string, g: Option<Module>, x: string, store: Store,
                                       now: Time, s: Sample)
    requires UniqueLabels(store) && s.Data? && forall sw :: sw in store ==> Settled(sw)
    ensures s in Scraped(stalenessLimit, only, Filter(g, x), store, now)
            <==> exists sw, c :: sw in store && Explains(stalenessLimit, only, g, x, sw, now, s, c)
  {
    ScrapedMembers(stalenessLimit, only, Filter(g, x), store, now, s);
    forall i | 0 <= i < |store|
      ensures s in Rendered(stalenessLimit, Filter(g, x), store[i], now)
              <==> exists c :: Explains(stalenessLimit, "", g, x, store[i], now, s, c)
    {
      SwitchShows(stalenessLimit, g, x, store[i], now, s);
    }
    if s in Scraped(stalenessLimit, only, Filter(g, x), store, now) {
      var i :| 0 <= i < |store| && (only == "" || store[i].name == only)
               && s in Rendered(stalenessLimit, Filter(g, x), store[i], now);
      var c :| Explains(stalenessLimit, "", g, x, store[i], now, s, c);
      assert Explains(stalenessLimit, only, g, x, store[i], now, s, c);
    }
    if sw, c :| sw in store && Explains(stalenessLimit, only, g, x, sw, now, s, c) {
      var i :| 0 <= i < |store| && store[i] == sw;
      assert Explains(stalenessLimit, "", g, x, store[i], now, s, c);
    }
  }

  /** Asking for an interface, alone or with a module that reports on interfaces: nothing but items of that
      interface, in the module asked for. */
  lemma {:induction false} InterfaceScrapeShowsOnly(stalenessLimit: Time, only: string, g: Option<Module>, x: string,
                                                    store: Store, now: Time, s: Sample)
    requires UniqueLabels(store) && x != "" && forall sw :: sw in store ==> Settled(sw)
    requires g.None? || g.value == Of(Interfaces) || g.value == Of(Transceiver) || g.value == Of(Phy)
    requires s.Data? && s in Scraped(stalenessLimit, only, Filter(g, x), store, now)
    ensures s.item.iface == x && (s.group == Of(Interfaces) || s.group == Of(Transceiver) || s.group == Of(Phy))
    ensures g.None? || g == Some(s.group)
  {
    ScrapeShows(stalenessLimit, only, g, x, store, now, s);
  }

  /** And all of them: of the current items of these modules, a scrape shows those it asks for. */
  lemma {:induction false} InterfaceScrapeShowsAll(stalenessLimit: Time, only: string, g: Option<Module>, x: string,
                                                   store: Store, now: Time, sw: Switch, c: Command, item: Item)
    requires UniqueLabels(store) && forall other :: other in store ==> Settled(other)
    requires c == ShowInterfaces || c == ShowTransceivers || c == ShowPhy
    requires sw in store && (only == "" || sw.name == only) && Current(stalenessLimit, sw, now, c, item)
    ensures Data(sw.name, ModuleOf(c), item) in Scraped(stalenessLimit, only, Filter(g, x), store, now)
            <==> (g.None? || g == Some(ModuleOf(c))) && (x == "" || item.iface == x)
  {
    var s := Data(sw.name, ModuleOf(c), item);
    ScrapeShows(stalenessLimit, only, g, x, store, now, s);
    OneCommandPerInterfaceModule(c);
    if (g.None? || g == Some(ModuleOf(c))) && (x == "" || item.iface == x) {
      assert Explains(stalenessLimit, only, g, x, sw, now, s, c);
    }
  }

  lemma {:induction false} OneCommandPerInterfaceModule(c: Command)
    requires c == ShowInterfaces || c == ShowTransceivers || c == ShowPhy
    ensures forall d :: ModuleOf(d) == ModuleOf(c) ==> d == c
  {
  }

  lemma {:induction false} OtherModuleExplains(stalenessLimit: Time, only: string, m: Module, x: string, sw: Switch,
                                               now: Time, s: Sample, c: Command)
    requires s.Data? && m != Of(Interfaces) && m != Of(Transceiver) && m != Of(Phy)
    ensures Explains(stalenessLimit, only, Some(m), x, sw, now, s, c)
            <==> Explains(stalenessLimit, only, Some(m), "", sw, now, s, c)
  {
  }

  /** With a module that does not report on interfaces, the interface asked for restricts nothing. */
  lemma {:induction false} OtherModuleIgnoresInterface(stalenessLimit: Time, only: string, m: Module, x: string,
                                                       store: Store, now: Time, s: Sample)
    requires UniqueLabels(store) && s.Data? && forall sw :: sw in store ==> Settled(sw)
    requires m != Of(Interfaces) && m != Of(Transceiver) && m != Of(Phy)
    ensures s in Scraped(stalenessLimit, only, Filter(Some(m), x), store, now)
            <==> s in Scraped(stalenessLimit, only, Filter(Some(m), ""), store, now)
  {
    ScrapeShows(stalenessLimit, only, Some(m), x, store, now, s);
    ScrapeShows(stalenessLimit, only, Some(m), "", store, now, s);
    forall sw, c
      ensures Explains(stalenessLimit, only, Some(m), x, sw, now, s, c)
              <==> Explains(stalenessLimit, only, Some(m), "", sw, now, s, c)
    {
      OtherModuleExplains(stalenessLimit, only, m, x, sw, now, s, c);
    }
  }
}
