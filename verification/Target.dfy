/** Which switch a scrape target names, and what a request for it is answered with. */
module Target {
  import opened Basics
  import opened Catalogue
  import Config
  import opened Poll
  import opened Render

  datatype SwitchConfig = SwitchConfig(name: string, host: string, collect: Config.CollectSet, scope: string) {
    function Label(): string {
      if name != "" then name else host
    }
  }

  // --- Host names -------------------------------------------------------------------------------

  predicate SchemeEndsAt(host: string, i: nat) {
    i + 3 <= |host| && host[i] == ':' && host[i + 1] == '/' && host[i + 2] == '/'
  }

  /** Where the first "://" starts, searching from `from`. */
  function Cut(host: string, from: nat): (i: Option<nat>)
    ensures i.Some? ==> from <= i.value && SchemeEndsAt(host, i.value)
    ensures forall j: nat :: from <= j && (i.Some? ==> j < i.value) ==> !SchemeEndsAt(host, j)
    decreases |host| - from
  {
    if from >= |host| then None
    else if SchemeEndsAt(host, from) then Some(from)
    else Cut(host, from + 1)
  }

  function StripScheme(host: string): string {
    match Cut(host, 0)
    case None => host
    case Some(i) => host[i + 3..]
  }

  /** What follows the first "://" is kept, and a host without one is left as it is. */
  lemma {:induction false} StripSchemeMeans(scheme: string, rest: string)
    ensures var host := scheme + "://" + rest;
            (forall j: nat :: j < |scheme| ==> !SchemeEndsAt(host, j)) ==> StripScheme(host) == rest
    ensures (forall j: nat :: !SchemeEndsAt(rest, j)) ==> StripScheme(rest) == rest
  {
    var host := scheme + "://" + rest;
    assert host[|scheme| + 3..] == rest;
    assert SchemeEndsAt(host, |scheme|);
  }

  // --- The index --------------------------------------------------------------------------------

  type Index = map<string, string>

  /** One spelling of a target, and the label of the switch it is for. */
  datatype Claim = Claim(key: string, owner: string)

  /** A switch answers to its label, its host, and its host without the scheme. */
  function ClaimsOf(sw: SwitchConfig): seq<Claim> {
    [Claim(sw.Label(), sw.Label()), Claim(sw.host, sw.Label()), Claim(StripScheme(sw.host), sw.Label())]
  }

  function AllClaims(switches: seq<SwitchConfig>): seq<Claim> {
    if switches == [] then []
    else AllClaims(switches[..|switches| - 1]) + ClaimsOf(switches[|switches| - 1])
  }

  /** The labels a key is claimed for, in order. */
  function Owners(claims: seq<Claim>, key: string): seq<string> {
    if claims == [] then []
    else
      var last := claims[|claims| - 1];
      Owners(claims[..|claims| - 1], key) + (if key != "" && last.key == key then [last.owner] else [])
  }

  predicate Unanimous(owners: seq<string>) {
    forall i :: 0 <= i < |owners| ==> owners[i] == owners[0]
  }

  /** A key resolves to its first owner, provided nobody else claims it or it is that owner's label. */
  function Resolved(switches: seq<SwitchConfig>, key: string): Option<string> {
    var owners := Owners(AllClaims(switches), key);
    if owners != [] && (Unanimous(owners) || owners[0] == key) then Some(owners[0]) else None
  }

  /** The index and the ambiguous keys after some claims have been added. */
  ghost predicate Tracks(index: Index, ambiguous: set<string>, claims: seq<Claim>) {
    forall key {:trigger Owners(claims, key)} ::
      var owners := Owners(claims, key);
      && (key in index <==> owners != [])
      && (key in index ==> index[key] == owners[0])
      && (key in ambiguous <==> !Unanimous(owners))
  }

  lemma {:induction false} OneMoreOwner(owners: seq<string>, owner: string)
    ensures Unanimous(owners + [owner]) <==> Unanimous(owners) && (owners == [] || owners[0] == owner)
  {
    var longer := owners + [owner];
    assert longer[|owners|] == owner;
    if owners != [] && Unanimous(longer) {
      assert longer[|owners|] == longer[0];
      assert forall i :: 0 <= i < |owners| ==> owners[i] == longer[i];
    }
  }

  lemma {:induction false} OwnersOfLonger(claims: seq<Claim>, c: Claim, key: string)
    ensures Owners(claims + [c], key) == Owners(claims, key) + (if key != "" && c.key == key then [c.owner] else [])
  {
    assert (claims + [c])[..|claims|] == claims;
  }

  method Add(index: Index, ambiguous: set<string>, c: Claim, ghost claims: seq<Claim>)
    returns (index': Index, ambiguous': set<string>)
    requires Tracks(index, ambiguous, claims)
    ensures Tracks(index', ambiguous', claims + [c])
  {
    index', ambiguous' := index, ambiguous;
    if c.key != "" {
      if c.key in index && index[c.key] != c.owner {
        ambiguous' := ambiguous + {c.key};
      } else {
        index' := index[c.key := c.owner];
      }
    }
    forall key
      ensures var owners := Owners(claims + [c], key);
              && (key in index' <==> owners != [])
              && (key in index' ==> index'[key] == owners[0])
              && (key in ambiguous' <==> !Unanimous(owners))
    {
      var owners := Owners(claims, key);
      OwnersOfLonger(claims, c, key);
      OneMoreOwner(owners, c.owner);
      assert owners + [] == owners;
    }
  }

  method TargetIndex(switches: seq<SwitchConfig>) returns (index: Index)
    ensures forall key :: Lookup(index, key) == Resolved(switches, key)
  {
    index := map[];
    var ambiguous := {};
    ghost var claims: seq<Claim> := [];
    for i := 0 to |switches|
      invariant claims == AllClaims(switches[..i])
      invariant Tracks(index, ambiguous, claims)
    {
      var sw := switches[i];
      ghost var before := claims;
      index, ambiguous := Add(index, ambiguous, ClaimsOf(sw)[0], claims);
      index, ambiguous := Add(index, ambiguous, ClaimsOf(sw)[1], claims + [ClaimsOf(sw)[0]]);
      index, ambiguous := Add(index, ambiguous, ClaimsOf(sw)[2], claims + [ClaimsOf(sw)[0]] + [ClaimsOf(sw)[1]]);
      claims := claims + [ClaimsOf(sw)[0]] + [ClaimsOf(sw)[1]] + [ClaimsOf(sw)[2]];
      assert claims == before + ClaimsOf(sw);
      assert switches[..i + 1][..i] == switches[..i];
    }
    assert switches[..|switches|] == switches;
    index := DropAmbiguous(index, ambiguous, claims);
    forall key
      ensures Lookup(index, key) == Resolved(switches, key)
    {
      assert Owners(claims, key) == Owners(AllClaims(switches), key);
    }
  }

  method DropAmbiguous(full: Index, ambiguous: set<string>, ghost claims: seq<Claim>) returns (index: Index)
    requires Tracks(full, ambiguous, claims)
    ensures forall key {:trigger Owners(claims, key)} ::
      var owners := Owners(claims, key);
      Lookup(index, key)
      == if owners != [] && (Unanimous(owners) || owners[0] == key) then Some(owners[0]) else None
  {
    index := full;
    var left := ambiguous;
    while left != {}
      invariant left <= ambiguous
      invariant forall key :: key in index <==>
        key in full && !(key in ambiguous && key !in left && full[key] != key)
      invariant forall key :: key in index ==> index[key] == full[key]
    {
      var key :| key in left;
      assert Owners(claims, key) != [];
      if index[key] != key {
        index := index - {key};
      }
      left := left - {key};
    }
  }

  // --- What the index means ---------------------------------------------------------------------

  predicate ClaimsKey(sw: SwitchConfig, key: string) {
    key != "" && (key == sw.Label() || key == sw.host || key == StripScheme(sw.host))
  }

  lemma {:induction false} OwnersOfConcat(a: seq<Claim>, b: seq<Claim>, key: string)
    ensures Owners(a + b, key) == Owners(a, key) + Owners(b, key)
  {
    if b == [] {
      assert a + b == a;
    } else {
      var n := |b| - 1;
      OwnersOfConcat(a, b[..n], key);
      assert (a + b)[..|a + b| - 1] == a + b[..n];
    }
  }

  lemma {:induction false} OwnersOfSwitch(sw: SwitchConfig, key: string)
    ensures forall l :: l in Owners(ClaimsOf(sw), key) ==> l == sw.Label()
    ensures Owners(ClaimsOf(sw), key) != [] <==> ClaimsKey(sw, key)
  {
    var all := ClaimsOf(sw);
    assert all[..2] == [all[0], all[1]] && all[..2][..1] == [all[0]] && [all[0]][..0] == [];
    assert Owners(all, key) == Owners(all[..2], key) + (if key != "" && all[2].key == key then [sw.Label()] else []);
    assert Owners(all[..2], key)
           == Owners(all[..2][..1], key) + (if key != "" && all[1].key == key then [sw.Label()] else []);
    assert Owners([all[0]], key) == (if key != "" && all[0].key == key then [sw.Label()] else []);
  }

  /** The position of the first switch that claims a key. */
  function FirstClaimant(switches: seq<SwitchConfig>, key: string): (i: Option<nat>)
    ensures i.Some? ==> i.value < |switches| && ClaimsKey(switches[i.value], key)
    ensures forall j :: 0 <= j < (if i.Some? then i.value else |switches|) ==> !ClaimsKey(switches[j], key)
  {
    if switches == [] then None
    else
      var n := |switches| - 1;
      var earlier := FirstClaimant(switches[..n], key);
      if earlier.Some? then earlier
      else if ClaimsKey(switches[n], key) then Some(n) else None
  }

  ghost predicate IsOwner(switches: seq<SwitchConfig>, key: string, l: string) {
    exists i :: 0 <= i < |switches| && ClaimsKey(switches[i], key) && switches[i].Label() == l
  }

  /** Nobody claims the key under another label. */
  ghost predicate OnlyOwner(switches: seq<SwitchConfig>, key: string, l: string) {
    forall sw :: sw in switches && ClaimsKey(sw, key) ==> sw.Label() == l
  }

  lemma {:induction false} OwnersOfMore(switches: seq<SwitchConfig>, key: string)
    requires switches != []
    ensures var n := |switches| - 1;
            Owners(AllClaims(switches), key)
            == Owners(AllClaims(switches[..n]), key) + Owners(ClaimsOf(switches[n]), key)
  {
    var n := |switches| - 1;
    OwnersOfConcat(AllClaims(switches[..n]), ClaimsOf(switches[n]), key);
  }

  lemma {:induction false} FirstOwner(switches: seq<SwitchConfig>, key: string)
    ensures var owners, first := Owners(AllClaims(switches), key), FirstClaimant(switches, key);
            && (owners != [] <==> first.Some?)
            && (first.Some? ==> owners[0] == switches[first.value].Label())
  {
    if switches != [] {
      var n := |switches| - 1;
      FirstOwner(switches[..n], key);
      OwnersOfMore(switches, key);
      OwnersOfSwitch(switches[n], key);
      var own := Owners(ClaimsOf(switches[n]), key);
      assert own != [] ==> own[0] in own;
    }
  }

  lemma {:induction false} OwnersAre(switches: seq<SwitchConfig>, key: string, l: string)
    ensures l in Owners(AllClaims(switches), key) <==> IsOwner(switches, key, l)
  {
    if switches != [] {
      var n := |switches| - 1;
      OwnersAre(switches[..n], key, l);
      OwnersOfMore(switches, key);
      OwnersOfSwitch(switches[n], key);
      var own := Owners(ClaimsOf(switches[n]), key);
      assert own != [] ==> own[0] in own;
      assert IsOwner(switches, key, l)
             <==> IsOwner(switches[..n], key, l) || (ClaimsKey(switches[n], key) && switches[n].Label() == l);
    }
  }

  lemma {:induction false} UnanimousMeansOnlyOwner(switches: seq<SwitchConfig>, key: string)
    requires Owners(AllClaims(switches), key) != []
    ensures var owners := Owners(AllClaims(switches), key);
            Unanimous(owners) <==> OnlyOwner(switches, key, owners[0])
  {
    var owners := Owners(AllClaims(switches), key);
    if Unanimous(owners) {
      forall sw | sw in switches && ClaimsKey(sw, key)
        ensures sw.Label() == owners[0]
      {
        OwnersAre(switches, key, sw.Label());
      }
    }
    if OnlyOwner(switches, key, owners[0]) {
      forall i | 0 <= i < |owners|
        ensures owners[i] == owners[0]
      {
        OwnersAre(switches, key, owners[i]);
        assert owners[i] in owners;
      }
    }
  }

  /** A key resolves exactly when it has one owner, or when its first claimant has it as label; it then
      resolves to that first claimant and never to a switch that does not claim it. */
  lemma {:induction false} ResolvesToClaimant(switches: seq<SwitchConfig>, key: string)
    ensures var r, first := Resolved(switches, key), FirstClaimant(switches, key);
            && (r.Some? ==> first.Some? && r.value == switches[first.value].Label())
            && (r.Some? <==>
                  && first.Some?
                  && (OnlyOwner(switches, key, switches[first.value].Label()) || switches[first.value].Label() == key))
  {
    FirstOwner(switches, key);
    if FirstClaimant(switches, key).Some? {
      UnanimousMeansOnlyOwner(switches, key);
    }
  }

  ghost predicate UniqueNames(switches: seq<SwitchConfig>) {
    forall i, j :: 0 <= i < j < |switches| ==> switches[i].Label() != switches[j].Label()
  }

  /** A label resolves, and then to its own switch, exactly when no earlier switch has it as a host. */
  lemma {:induction false} LabelResolvesUnlessAnEarlierHost(switches: seq<SwitchConfig>, i: nat)
    requires UniqueNames(switches) && i < |switches| && switches[i].Label() != ""
    ensures Resolved(switches, switches[i].Label()).Some?
            <==> forall j :: 0 <= j < i ==> !ClaimsKey(switches[j], switches[i].Label())
    ensures Resolved(switches, switches[i].Label()).Some? ==>
      Resolved(switches, switches[i].Label()) == Some(switches[i].Label())
  {
    var key := switches[i].Label();
    ResolvesToClaimant(switches, key);
    assert ClaimsKey(switches[i], key);
    var first := FirstClaimant(switches, key).value;
    assert switches[first] in switches && switches[i] in switches;
  }

  /** "spine" is the host of the first switch and the name of the second: the name does not resolve. */
  lemma {:induction false} LabelShadowedByHost(none: Config.CollectSet)
    ensures var switches := [SwitchConfig("leaf", "spine", none, ""), SwitchConfig("spine", "b", none, "")];
            UniqueNames(switches) && Resolved(switches, "spine") == None
  {
    var switches := [SwitchConfig("leaf", "spine", none, ""), SwitchConfig("spine", "b", none, "")];
    assert switches[0].Label() == "leaf" && switches[1].Label() == "spine";
    assert "leaf"[0] == 'l' && "spine"[0] == 's';
    assert ClaimsKey(switches[0], "spine");
    LabelResolvesUnlessAnEarlierHost(switches, 1);
  }

  /** The order of the configuration matters only for keys that are one switch's label and another
      switch's host. */
  lemma {:induction false} OrderIndependent(a: seq<SwitchConfig>, b: seq<SwitchConfig>, key: string)
    requires forall sw :: sw in a <==> sw in b
    requires (forall sw :: sw in a ==> sw.Label() != key) || OnlyOwner(a, key, key)
    ensures Resolved(a, key) == Resolved(b, key)
  {
    ResolvesToClaimant(a, key);
    ResolvesToClaimant(b, key);
    assert forall l :: OnlyOwner(a, key, l) <==> OnlyOwner(b, key, l);
    SameClaimed(a, b, key);
    SameClaimed(b, a, key);
    var x, y := FirstClaimant(a, key), FirstClaimant(b, key);
    if x.Some? {
      assert a[x.value] in b && b[y.value] in a;
    }
  }

  lemma {:induction false} SameClaimed(a: seq<SwitchConfig>, b: seq<SwitchConfig>, key: string)
    requires forall sw :: sw in a ==> sw in b
    ensures FirstClaimant(a, key).Some? ==> FirstClaimant(b, key).Some?
  {
    var x := FirstClaimant(a, key);
    if x.Some? {
      assert a[x.value] in a;
      var j :| 0 <= j < |b| && b[j] == a[x.value];
    }
  }
}
