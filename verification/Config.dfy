/** Which groups a switch collects, how often, and the command list that follows from it. */
module Config {
  import opened Basics
  import opened Catalogue

  /** A collect key as written in the file: one of the known groups or a typo. */
  datatype Key = Known(group: Group) | Unknown(text: string)

  /** `interval` is zero when unset. */
  datatype ModuleConfig = ModuleConfig(enabled: bool, interval: Time)

  type CollectSet = map<Key, ModuleConfig>

  datatype Fault = UnknownKey(key: Key) | TooShort(key: Key)

  function DefaultInterval(k: Key): Time {
    match k
    case Known(Ntp) => MINUTE
    case Known(Capacity) => 5 * MINUTE
    case Known(Esi) => 15 * MINUTE
    case Known(Transceiver) => 5 * MINUTE
    case Known(Phy) => 15 * MINUTE
    case _ => 0
  }

  function ResolveInterval(k: Key, explicit: Time, pollInterval: Time): (d: Time)
    ensures d >= pollInterval
    ensures explicit != 0 ==> d == Max(explicit, pollInterval)
    ensures explicit == 0 ==> d == Max(DefaultInterval(k), pollInterval)
  {
    var d := if explicit == 0 then DefaultInterval(k) else explicit;
    if d < pollInterval then pollInterval else d
  }

  /** What a decoded collect entry can hold: the decoder refuses intervals that are not positive. */
  ghost predicate Decoded(block: CollectSet) {
    forall k :: k in block ==> block[k].interval >= 0
  }

  ghost predicate Acceptable(block: CollectSet, pollInterval: Time) {
    forall k :: k in block ==> k.Known? && !(0 < block[k].interval < pollInterval)
  }

  method ValidateCollect(block: CollectSet, pollInterval: Time) returns (r: Result<(), Fault>)
    ensures r.Ok? <==> Acceptable(block, pollInterval)
    ensures r.Err? ==> r.error.key in block
    ensures r.Err? && r.error.UnknownKey? ==> r.error.key.Unknown?
    ensures r.Err? && r.error.TooShort? ==> 0 < block[r.error.key].interval < pollInterval
  {
    var left := block.Keys;
    while left != {}
      invariant left <= block.Keys
      invariant forall k :: k in block && k !in left ==> k.Known? && !(0 < block[k].interval < pollInterval)
    {
      var k :| k in left;
      if k.Unknown? {
        return Err(UnknownKey(k));
      }
      if block[k].interval > 0 && block[k].interval < pollInterval {
        return Err(TooShort(k));
      }
      left := left - {k};
    }
    return Ok(());
  }

  /** A switch entry replaces the default of the same key; groups that end up disabled drop out. */
  function Effective(defaults: CollectSet, own: CollectSet, pollInterval: Time): CollectSet {
    var merged := defaults + own;
    map k | k in merged && merged[k].enabled ::
      ModuleConfig(true, ResolveInterval(k, merged[k].interval, pollInterval))
  }

  method EffectiveCollect(defaults: CollectSet, own: CollectSet, pollInterval: Time)
    returns (out: CollectSet)
    ensures out == Effective(defaults, own, pollInterval)
  {
    var merged := defaults;
    var left := own.Keys;
    while left != {}
      invariant left <= own.Keys
      invariant forall k :: k in merged <==> k in defaults || (k in own && k !in left)
      invariant forall k :: k in merged ==>
        merged[k] == if k in own && k !in left then own[k] else defaults[k]
    {
      var k :| k in left;
      merged := merged[k := own[k]];
      left := left - {k};
    }
    assert merged == defaults + own;

    out := map[];
    left := merged.Keys;
    while left != {}
      invariant left <= merged.Keys
      invariant forall k :: k in out <==> k in merged && k !in left && merged[k].enabled
      invariant forall k :: k in out ==>
        out[k] == ModuleConfig(true, ResolveInterval(k, merged[k].interval, pollInterval))
    {
      var k :| k in left;
      left := left - {k};
      if merged[k].enabled {
        out := out[k := ModuleConfig(true, ResolveInterval(k, merged[k].interval, pollInterval))];
      }
    }
  }

  predicate Enabled(collect: CollectSet, g: Group) {
    Known(g) in collect && collect[Known(g)].enabled
  }

  function GroupInterval(collect: CollectSet, g: Group, pollInterval: Time): Time
    requires Enabled(collect, g)
  {
    var interval := collect[Known(g)].interval;
    if interval <= 0 then pollInterval else interval
  }

  function GroupSpec(collect: CollectSet, g: Group, c: Command, scope: string, pollInterval: Time): CmdSpec
    requires Enabled(collect, g)
  {
    CmdSpec(c, Scoped(c, scope), Some(g), GroupInterval(collect, g, pollInterval))
  }

  function GroupSpecs(collect: CollectSet, g: Group, scope: string, pollInterval: Time): seq<CmdSpec> {
    if !Enabled(collect, g) then []
    else seq(|CommandsOf(g)|, i requires 0 <= i < |CommandsOf(g)| =>
               GroupSpec(collect, g, CommandsOf(g)[i], scope, pollInterval))
  }

  /** The commands of the groups from position `k` of the issue order on. The constant first component
      of the measure keeps the verifier from unrolling the list wherever `k` is a literal. */
  function SpecsFrom(collect: CollectSet, k: nat, scope: string, pollInterval: Time): seq<CmdSpec>
    decreases |collect|, GROUPS - k
  {
    if k >= GROUPS then []
    else GroupSpecs(collect, GroupAt(k), scope, pollInterval) + SpecsFrom(collect, k + 1, scope, pollInterval)
  }

  function VersionSpec(pollInterval: Time): CmdSpec {
    CmdSpec(ShowVersion, Cli(ShowVersion), None, pollInterval)
  }

  function Commands(collect: CollectSet, scope: string, pollInterval: Time): seq<CmdSpec> {
    [VersionSpec(pollInterval)] + SpecsFrom(collect, 0, scope, pollInterval)
  }

  method AppendGroup(before: seq<CmdSpec>, collect: CollectSet, key: Group, scope: string, pollInterval: Time)
    returns (out: seq<CmdSpec>)
    ensures out == before + GroupSpecs(collect, key, scope, pollInterval)
  {
    out := before;
    if Enabled(collect, key) {
      ghost var group := GroupSpecs(collect, key, scope, pollInterval);
      var commands := CommandsOf(key);
      for i := 0 to |commands|
        invariant out == before + group[..i]
      {
        var interval := collect[Known(key)].interval;
        if interval <= 0 {
          interval := pollInterval;
        }
        out := out + [CmdSpec(commands[i], Scoped(commands[i], scope), Some(key), interval)];
        assert group[..i + 1] == group[..i] + [group[i]];
      }
    }
  }

  method CommandsFor(collect: CollectSet, scope: string, pollInterval: Time) returns (out: seq<CmdSpec>)
    ensures out == Commands(collect, scope, pollInterval)
  {
    out := [VersionSpec(pollInterval)];
    for k := 0 to GROUPS
      invariant out + SpecsFrom(collect, k, scope, pollInterval) == Commands(collect, scope, pollInterval)
    {
      ghost var before := out;
      out := AppendGroup(out, collect, GroupAt(k), scope, pollInterval);
      Reassociate(before, GroupSpecs(collect, GroupAt(k), scope, pollInterval),
                  SpecsFrom(collect, k + 1, scope, pollInterval));
    }
  }

  // --- Order, distinctness and membership of the command list -----------------------------------

  /** The rank below which every command of a group before position `k` lies. */
  function Floor(k: nat): nat
    requires k <= GROUPS
  {
    if k == GROUPS then 17 else Rank(CommandsOf(GroupAt(k))[0])
  }

  lemma {:induction false} CommandRanks(g: Group, i: nat)
    requires i < |CommandsOf(g)|
    ensures Rank(CommandsOf(g)[i]) == Floor(Position(g)) + i < Floor(Position(g) + 1)
  {
    match g
    case Vxlan => assert i in {0, 1, 2};
    case Evpn => assert i in {0, 1};
    case _ => assert i == 0;
  }

  lemma {:induction false} PositionOfGroupAt(k: nat)
    requires k < GROUPS
    ensures Position(GroupAt(k)) == k
  {
  }

  lemma {:induction false} GroupSpecsInOrder(collect: CollectSet, k: nat, scope: string, pollInterval: Time)
    requires k < GROUPS
    ensures InIssueOrder(GroupSpecs(collect, GroupAt(k), scope, pollInterval))
    ensures forall s :: s in GroupSpecs(collect, GroupAt(k), scope, pollInterval) ==>
      Floor(k) <= Rank(s.name) < Floor(k + 1)
  {
    var g := GroupAt(k);
    PositionOfGroupAt(k);
    var group := GroupSpecs(collect, g, scope, pollInterval);
    forall i | 0 <= i < |group|
      ensures Rank(group[i].name) == Floor(k) + i < Floor(k + 1)
    {
      CommandRanks(g, i);
    }
  }

  lemma {:induction false} FloorsGrow(k: nat)
    requires k < GROUPS
    ensures Floor(k) < Floor(k + 1)
  {
    var g := GroupAt(k);
    PositionOfGroupAt(k);
    CommandRanks(g, 0);
  }

  lemma {:induction false} ConcatInIssueOrder(head: seq<CmdSpec>, tail: seq<CmdSpec>, floor: nat)
    requires InIssueOrder(head) && InIssueOrder(tail)
    requires forall s :: s in head ==> Rank(s.name) < floor
    requires forall s :: s in tail ==> floor <= Rank(s.name)
    ensures InIssueOrder(head + tail)
  {
    var both: seq<CmdSpec> := head + tail;
    forall i, j | 0 <= i < j < |both|
      ensures Rank(both[i].name) < Rank(both[j].name)
    {
      if i < |head| <= j {
        assert head[i] in head && tail[j - |head|] in tail;
      }
    }
  }

  lemma {:induction false} SpecsFromInOrder(collect: CollectSet, k: nat, scope: string, pollInterval: Time)
    requires k <= GROUPS
    ensures InIssueOrder(SpecsFrom(collect, k, scope, pollInterval))
    ensures forall s :: s in SpecsFrom(collect, k, scope, pollInterval) ==> Rank(s.name) >= Floor(k)
    decreases GROUPS - k
  {
    if k < GROUPS {
      GroupSpecsInOrder(collect, k, scope, pollInterval);
      SpecsFromInOrder(collect, k + 1, scope, pollInterval);
      FloorsGrow(k);
      ConcatInIssueOrder(GroupSpecs(collect, GroupAt(k), scope, pollInterval),
                         SpecsFrom(collect, k + 1, scope, pollInterval), Floor(k + 1));
    }
  }

  lemma {:induction false} GroupSpecsMembers(collect: CollectSet, g: Group, scope: string, pollInterval: Time,
                                             s: CmdSpec)
    ensures s in GroupSpecs(collect, g, scope, pollInterval)
            <==> Enabled(collect, g) && s.name in CommandsOf(g)
                 && s == GroupSpec(collect, g, s.name, scope, pollInterval)
  {
    var group := GroupSpecs(collect, g, scope, pollInterval);
    if Enabled(collect, g) {
      assert forall i :: 0 <= i < |group| ==>
        group[i] == GroupSpec(collect, g, CommandsOf(g)[i], scope, pollInterval);
      if s.name in CommandsOf(g) && s == GroupSpec(collect, g, s.name, scope, pollInterval) {
        var i :| 0 <= i < |CommandsOf(g)| && CommandsOf(g)[i] == s.name;
        assert group[i] == s;
      }
    }
  }

  lemma {:induction false} SpecsFromMembers(collect: CollectSet, k: nat, scope: string, pollInterval: Time, s: CmdSpec)
    requires k <= GROUPS
    ensures s in SpecsFrom(collect, k, scope, pollInterval)
            <==> s.group.Some? && Position(s.group.value) >= k
                 && s in GroupSpecs(collect, s.group.value, scope, pollInterval)
    decreases GROUPS - k
  {
    if k < GROUPS {
      SpecsFromMembers(collect, k + 1, scope, pollInterval, s);
      GroupSpecsMembers(collect, GroupAt(k), scope, pollInterval, s);
      PositionOfGroupAt(k);
    }
  }

  /** What the command list must hold: every command of every group the merged blocks enable, at the
      interval written for the group, or else the slower of its default and the poll interval. */
  ghost predicate Wanted(merged: CollectSet, scope: string, pollInterval: Time, s: CmdSpec) {
    && s.group.Some? && s.name in CommandsOf(s.group.value)
    && Enabled(merged, s.group.value)
    && s.cli == Scoped(s.name, scope)
    && s.interval == (var explicit := merged[Known(s.group.value)].interval;
                      if explicit > 0 then explicit
                      else Max(DefaultInterval(Known(s.group.value)), pollInterval))
  }

  lemma {:induction false} WantedSpecs(defaults: CollectSet, own: CollectSet, scope: string, pollInterval: Time,
                                       s: CmdSpec)
    requires pollInterval > 0
    requires Decoded(defaults) && Decoded(own)
    requires Acceptable(defaults, pollInterval) && Acceptable(own, pollInterval)
    ensures s in SpecsFrom(Effective(defaults, own, pollInterval), 0, scope, pollInterval)
            <==> Wanted(defaults + own, scope, pollInterval, s)
    ensures Wanted(defaults + own, scope, pollInterval, s) ==> s.interval >= pollInterval
  {
    var collect := Effective(defaults, own, pollInterval);
    SpecsFromMembers(collect, 0, scope, pollInterval, s);
    if s.group.Some? {
      GroupSpecsMembers(collect, s.group.value, scope, pollInterval, s);
    }
  }

  lemma {:induction false} CommandsInOrder(collect: CollectSet, scope: string, pollInterval: Time)
    ensures InIssueOrder(Commands(collect, scope, pollInterval)) && Distinct(Commands(collect, scope, pollInterval))
  {
    SpecsFromInOrder(collect, 0, scope, pollInterval);
    ConcatInIssueOrder([VersionSpec(pollInterval)], SpecsFrom(collect, 0, scope, pollInterval), 1);
    IssueOrderIsDistinct(Commands(collect, scope, pollInterval));
  }

  /** The command list of a switch, for every pair of validated collect blocks. Order and membership
      together pin the list down. */
  lemma {:induction false} CommandList(defaults: CollectSet, own: CollectSet, scope: string, pollInterval: Time)
    requires pollInterval > 0
    requires Decoded(defaults) && Decoded(own)
    requires Acceptable(defaults, pollInterval) && Acceptable(own, pollInterval)
    ensures var specs := Commands(Effective(defaults, own, pollInterval), scope, pollInterval);
            && InIssueOrder(specs) && Distinct(specs)
            && specs[0] == VersionSpec(pollInterval)
            && (forall s :: s in specs[1..] <==> Wanted(defaults + own, scope, pollInterval, s))
            && (forall s :: s in specs ==> s.interval >= pollInterval)
  {
    var collect := Effective(defaults, own, pollInterval);
    CommandsInOrder(collect, scope, pollInterval);
    forall s
      ensures s in SpecsFrom(collect, 0, scope, pollInterval) <==> Wanted(defaults + own, scope, pollInterval, s)
      ensures s in SpecsFrom(collect, 0, scope, pollInterval) ==> s.interval >= pollInterval
    {
      WantedSpecs(defaults, own, scope, pollInterval, s);
    }
    VersionFirst(pollInterval, SpecsFrom(collect, 0, scope, pollInterval));
  }

  lemma {:induction false} VersionFirst(pollInterval: Time, rest: seq<CmdSpec>)
    ensures var specs := [VersionSpec(pollInterval)] + rest;
            && specs[0] == VersionSpec(pollInterval) && specs[1..] == rest
            && forall s :: s in specs ==> s == VersionSpec(pollInterval) || s in rest
  {
  }

  // --- The startup schedule ---------------------------------------------------------------------

  datatype ModuleSchedule = ModuleSchedule(group: Group, interval: Time)

  /** One entry per run of consecutive commands of the same group. */
  function Runs(specs: seq<CmdSpec>, last: Option<Group>): seq<ModuleSchedule> {
    if specs == [] then []
    else if specs[0].group.None? || specs[0].group == last then Runs(specs[1..], last)
    else [ModuleSchedule(specs[0].group.value, specs[0].interval)] + Runs(specs[1..], specs[0].group)
  }

  method Schedule(specs: seq<CmdSpec>) returns (out: seq<ModuleSchedule>)
    ensures out == Runs(specs, None)
  {
    out := [];
    var last := None;
    for i := 0 to |specs|
      invariant out + Runs(specs[i..], last) == Runs(specs, None)
    {
      var c := specs[i];
      assert specs[i..][0] == c && specs[i..][1..] == specs[i + 1..];
      if c.group.None? || c.group == last {
        continue;
      }
      out := out + [ModuleSchedule(c.group.value, c.interval)];
      last := c.group;
    }
  }

  /** Each enabled group once, in issue order. */
  function Planned(collect: CollectSet, k: nat, pollInterval: Time): seq<ModuleSchedule>
    decreases |collect|, GROUPS - k
  {
    if k >= GROUPS then []
    else
      var g := GroupAt(k);
      (if Enabled(collect, g) then [ModuleSchedule(g, GroupInterval(collect, g, pollInterval))] else [])
      + Planned(collect, k + 1, pollInterval)
  }

  lemma {:induction false} RunsSkipsRepeats(head: seq<CmdSpec>, tail: seq<CmdSpec>, g: Group)
    requires forall s :: s in head ==> s.group == Some(g)
    ensures Runs(head + tail, Some(g)) == Runs(tail, Some(g))
  {
    if head == [] {
      assert head + tail == tail;
    } else {
      assert (head + tail)[0] == head[0] && (head + tail)[1..] == head[1..] + tail;
      assert head[0] in head;
      RunsSkipsRepeats(head[1..], tail, g);
    }
  }

  lemma {:induction false} RunsArePlanned(collect: CollectSet, k: nat, scope: string, pollInterval: Time,
                                          last: Option<Group>)
    requires k <= GROUPS
    requires last.Some? ==> Position(last.value) < k
    ensures Runs(SpecsFrom(collect, k, scope, pollInterval), last) == Planned(collect, k, pollInterval)
    decreases GROUPS - k
  {
    if k < GROUPS {
      var g := GroupAt(k);
      PositionOfGroupAt(k);
      var tail := SpecsFrom(collect, k + 1, scope, pollInterval);
      if Enabled(collect, g) {
        RunsOfGroup(collect, g, scope, pollInterval, tail, last);
        RunsArePlanned(collect, k + 1, scope, pollInterval, Some(g));
      } else {
        assert [] + tail == tail;
        RunsArePlanned(collect, k + 1, scope, pollInterval, last);
      }
    }
  }

  lemma {:induction false} RunsOfGroup(collect: CollectSet, g: Group, scope: string, pollInterval: Time,
                                       tail: seq<CmdSpec>, last: Option<Group>)
    requires Enabled(collect, g) && last != Some(g)
    ensures Runs(GroupSpecs(collect, g, scope, pollInterval) + tail, last)
            == [ModuleSchedule(g, GroupInterval(collect, g, pollInterval))] + Runs(tail, Some(g))
  {
    var head := GroupSpecs(collect, g, scope, pollInterval);
    assert |CommandsOf(g)| > 0;
    assert (head + tail)[0] == head[0] && (head + tail)[1..] == head[1..] + tail;
    RunsSkipsRepeats(head[1..], tail, g);
  }

  /** The startup schedule lists every enabled group exactly once, multi-command groups included. */
  lemma {:induction false} ScheduleListsEachGroupOnce(collect: CollectSet, scope: string, pollInterval: Time)
    ensures Runs(Commands(collect, scope, pollInterval), None) == Planned(collect, 0, pollInterval)
  {
    var specs := Commands(collect, scope, pollInterval);
    assert specs[1..] == SpecsFrom(collect, 0, scope, pollInterval);
    RunsArePlanned(collect, 0, scope, pollInterval, None);
  }
}
