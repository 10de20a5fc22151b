/** The commands arex can issue, the groups that enable them, and the per-switch command list. */
module Catalogue {
  import opened Basics

  /** The optional collect keys. "show version" belongs to none of them. */
  datatype Group =
    | Processes | Temperature | Power | Cooling | Ntp | Capacity
    | Interfaces | Bgp | Vxlan | Evpn | Esi | Transceiver | Phy

  /** The stable metric name of each command. */
  datatype Command =
    | ShowVersion
    | ShowProcesses
    | ShowTemperature
    | ShowPower
    | ShowCooling
    | ShowNtp
    | ShowCapacity
    | ShowInterfaces
    | ShowBgp
    | ShowVxlanVtep
    | ShowVxlanInterface
    | ShowVxlanAddresses
    | ShowEvpnSummary
    | ShowEvpnRoutes
    | ShowEvpnInstance
    | ShowTransceivers
    | ShowPhy

  const GROUPS: nat := 13

  /** The group at position `k` of the fixed issue order. */
  function GroupAt(k: nat): Group
    requires k < GROUPS
  {
    match k
    case 0 => Processes
    case 1 => Temperature
    case 2 => Power
    case 3 => Cooling
    case 4 => Ntp
    case 5 => Capacity
    case 6 => Interfaces
    case 7 => Bgp
    case 8 => Vxlan
    case 9 => Evpn
    case 10 => Esi
    case 11 => Transceiver
    case _ => Phy
  }

  function Position(g: Group): (k: nat)
    ensures k < GROUPS && GroupAt(k) == g
  {
    match g
    case Processes => 0
    case Temperature => 1
    case Power => 2
    case Cooling => 3
    case Ntp => 4
    case Capacity => 5
    case Interfaces => 6
    case Bgp => 7
    case Vxlan => 8
    case Evpn => 9
    case Esi => 10
    case Transceiver => 11
    case Phy => 12
  }

  function CommandsOf(g: Group): seq<Command> {
    match g
    case Processes => [ShowProcesses]
    case Temperature => [ShowTemperature]
    case Power => [ShowPower]
    case Cooling => [ShowCooling]
    case Ntp => [ShowNtp]
    case Capacity => [ShowCapacity]
    case Interfaces => [ShowInterfaces]
    case Bgp => [ShowBgp]
    case Vxlan => [ShowVxlanVtep, ShowVxlanInterface, ShowVxlanAddresses]
    case Evpn => [ShowEvpnSummary, ShowEvpnRoutes]
    case Esi => [ShowEvpnInstance]
    case Transceiver => [ShowTransceivers]
    case Phy => [ShowPhy]
  }

  /** What goes on the wire for a command when no interface scope is set. */
  function Cli(c: Command): string {
    match c
    case ShowVersion => "show version"
    case ShowProcesses => "show processes top once"
    case ShowTemperature => "show system environment temperature"
    case ShowPower => "show system environment power"
    case ShowCooling => "show system environment cooling"
    case ShowNtp => "show ntp associations"
    case ShowCapacity => "show hardware capacity"
    case ShowInterfaces => "show interfaces"
    case ShowBgp => "show ip bgp summary vrf all"
    case ShowVxlanVtep => "show vxlan vtep"
    case ShowVxlanInterface => "show interfaces vxlan 1"
    case ShowVxlanAddresses => "show vxlan address-table count"
    case ShowEvpnSummary => "show bgp evpn summary"
    case ShowEvpnRoutes => "show bgp evpn route-type count"
    case ShowEvpnInstance => "show bgp evpn instance"
    case ShowTransceivers => "show interfaces transceiver detail"
    case ShowPhy => "show interfaces phy detail"
  }

  /** The label a command has in metrics and failure messages. */
  function Label(c: Command): string {
    if c == ShowVxlanInterface then "show interface vxlan 1" else Cli(c)
  }

  function Scoped(c: Command, scope: string): string {
    if scope == "" then Cli(c)
    else
      match c
      case ShowInterfaces => "show interfaces " + scope
      case ShowTransceivers => "show interfaces " + scope + " transceiver detail"
      case ShowPhy => "show interfaces " + scope + " phy detail"
      case _ => Cli(c)
  }

  predicate TakesScope(c: Command) {
    c == ShowInterfaces || c == ShowTransceivers || c == ShowPhy
  }

  const SCOPABLE := "show interfaces"

  lemma {:induction false} ScopableSplits(c: Command, rest: string)
    requires (c == ShowInterfaces && rest == "")
             || (c == ShowTransceivers && rest == " transceiver detail")
             || (c == ShowPhy && rest == " phy detail")
    ensures Cli(c) == SCOPABLE + rest
  {
  }

  lemma {:induction false} SpliceAt(a: string, rest: string)
    ensures a <= a + rest && (a + rest)[|a|..] == rest
  {
  }

  /** A scope goes in after "show interfaces" of the three commands that report on interfaces, and nowhere
      else; no scope changes nothing. */
  lemma {:induction false} ScopedMeans(c: Command, scope: string)
    ensures scope == "" || !TakesScope(c) ==> Scoped(c, scope) == Cli(c)
    ensures scope != "" && TakesScope(c) ==>
      SCOPABLE <= Cli(c) && Scoped(c, scope) == SCOPABLE + " " + scope + Cli(c)[|SCOPABLE|..]
  {
    if scope != "" && TakesScope(c) {
      var rest := if c == ShowInterfaces then "" else if c == ShowPhy then " phy detail" else " transceiver detail";
      ScopableSplits(c, rest);
      SpliceAt(SCOPABLE, rest);
      ScopedIs(c, scope, rest);
    }
  }

  lemma {:induction false} ScopedIs(c: Command, scope: string, rest: string)
    requires scope != ""
    requires (c == ShowInterfaces && rest == "")
             || (c == ShowTransceivers && rest == " transceiver detail")
             || (c == ShowPhy && rest == " phy detail")
    ensures Scoped(c, scope) == SCOPABLE + " " + scope + rest
  {
    assert SCOPABLE + " " == "show interfaces ";
  }

  ghost predicate NoBracket(s: string) {
    forall i :: 0 <= i < |s| ==> s[i] != '('
  }

  lemma {:induction false} EarlyLabels(c: Command)
    requires Rank(c) < 6
    ensures NoBracket(Label(c))
  {
  }

  lemma {:induction false} MiddleLabels(c: Command)
    requires 6 <= Rank(c) < 12
    ensures NoBracket(Label(c))
  {
  }

  lemma {:induction false} LateLabels(c: Command)
    requires 12 <= Rank(c)
    ensures NoBracket(Label(c))
  {
  }

  lemma {:induction false} LabelHasNoBracket(c: Command)
    ensures NoBracket(Label(c))
  {
    if Rank(c) < 6 {
      EarlyLabels(c);
    } else if Rank(c) < 12 {
      MiddleLabels(c);
    } else {
      LateLabels(c);
    }
  }

  /** No two commands share a label. */
  lemma {:induction false} LabelIsInjective(c: Command, d: Command)
    requires Label(c) == Label(d)
    ensures c == d
  {
    assert |Label(c)| == |Label(d)| && Label(c)[5] == Label(d)[5];
  }

  datatype CmdSpec = CmdSpec(name: Command, cli: string, group: Option<Group>, interval: Time)

  ghost predicate Distinct(specs: seq<CmdSpec>) {
    forall i, j :: 0 <= i < j < |specs| ==> specs[i].name != specs[j].name
  }

  function Names(specs: seq<CmdSpec>): set<Command> {
    set i | 0 <= i < |specs| :: specs[i].name
  }

  function Clis(specs: seq<CmdSpec>): seq<string> {
    seq(|specs|, i requires 0 <= i < |specs| => specs[i].cli)
  }

  /** Position in the fixed issue order. */
  function Rank(c: Command): nat {
    match c
    case ShowVersion => 0
    case ShowProcesses => 1
    case ShowTemperature => 2
    case ShowPower => 3
    case ShowCooling => 4
    case ShowNtp => 5
    case ShowCapacity => 6
    case ShowInterfaces => 7
    case ShowBgp => 8
    case ShowVxlanVtep => 9
    case ShowVxlanInterface => 10
    case ShowVxlanAddresses => 11
    case ShowEvpnSummary => 12
    case ShowEvpnRoutes => 13
    case ShowEvpnInstance => 14
    case ShowTransceivers => 15
    case ShowPhy => 16
  }

  ghost predicate InIssueOrder(specs: seq<CmdSpec>) {
    forall i, j :: 0 <= i < j < |specs| ==> Rank(specs[i].name) < Rank(specs[j].name)
  }

  lemma {:induction false} IssueOrderIsDistinct(specs: seq<CmdSpec>)
    requires InIssueOrder(specs)
    ensures Distinct(specs)
  {
    forall i, j | 0 <= i < j < |specs|
      ensures specs[i].name != specs[j].name
    {
      assert Rank(specs[i].name) < Rank(specs[j].name);
    }
  }
}
