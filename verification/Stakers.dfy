/** Switching the staking clients of a network (packages/stakers/src/stakerComponent.ts,
    execution.ts, consensus.ts). A compose file is a map entry; Docker, the installer and every
    other call that can fail answer through `Luck`. */
module Stakers {
  import opened Wrappers
  import opened Compose
  import opened Environment
  import opened ComposeEditor
  import ComposeDefaults
  import ComposeRules
  import NetworkAlias
  import Strings
  import UserSettings

  const DNCORE := "dncore_network"
  const DNPRIVATE := "dnprivate_network"

  datatype Role = Execution | Consensus

  /** `DOCKER_STAKER_NETWORKS`. */
  function StakerNetwork(network: string): string
  {
    if network == "starknet-sepolia" then "starknet_sepolia_network" else network + "_network"
  }

  /** One choice of the user: which client plays a role on a network. */
  datatype Slot = Slot(role: Role, network: string)

  type Version = (nat, nat, nat)

  predicate VersionLess(a: Version, b: Version)
  {
    a.0 < b.0 || (a.0 == b.0 && (a.1 < b.1 || (a.1 == b.1 && a.2 < b.2)))
  }

  /** The compatible clients of each slot with their minimum versions. */
  type Catalog = map<Slot, map<string, Version>>

  datatype Package = Package(version: Version, compose: Compose)

  datatype State = State(db: map<Slot, string>, packages: map<string, Package>)

  /** Which fallible steps succeed, and the order in which files list environment variables. */
  datatype Luck = Luck(settings: bool, removeNetwork: bool, removeAliases: bool, recreate: bool, write: bool, up: bool,
                       order: KeyOrder)

  function Current(st: State, slot: Slot): Option<string>
  {
    if slot in st.db then Some(st.db[slot]) else None
  }

  function WithDb(st: State, slot: Slot, client: Option<string>): State
  {
    st.(db := if client.Some? then st.db[slot := client.value] else st.db - {slot})
  }

  function WithCompose(st: State, dnp: string, c: Compose): State
    requires dnp in st.packages
  {
    st.(packages := st.packages[dnp := st.packages[dnp].(compose := c)])
  }

  // ----- the settings of a slot -----

  /** The aliases on the core network that only the selected client may have. */
  function FullnodeAliases(slot: Slot): seq<string>
  {
    match slot.role
    case Execution => ["execution." + slot.network + ".dncore.dappnode"]
    case Consensus =>
      ["beacon-chain." + slot.network + ".dncore.dappnode", "validator." + slot.network + ".dncore.dappnode"]
  }

  function RoleNetworks(name: string, network: string): NetworksObject
  {
    map[StakerNetwork(network) := ServiceNetwork(None, Some([name + "." + network + ".staker.dappnode"])),
        DNCORE := ServiceNetwork(None, Some([name + "." + network + ".dncore.dappnode"])),
        DNPRIVATE := ServiceNetwork(None, Some([name + "." + network + ".dappnode.private"]))]
  }

  /** `getUserSettings`: `service` is the execution client's service, `environment` the consensus
      client's extra variables. */
  function SettingsFor(slot: Slot, service: string, environment: map<string, Envs>): UserSettings.UserSettings
  {
    var root := map[StakerNetwork(slot.network) := Network(Some(true), map[]), DNCORE := Network(Some(true), map[])];
    var services :=
      match slot.role
      case Execution => map[service := NetworkObject(RoleNetworks("execution", slot.network))]
      case Consensus =>
        if slot.network in ["starknet", "starknet-sepolia"]
        then map["staking" := NetworkObject(RoleNetworks("staking", slot.network))]
        else map["beacon-chain" := NetworkObject(RoleNetworks("beacon-chain", slot.network)),
                 "validator" := NetworkObject(RoleNetworks("validator", slot.network))];
    UserSettings.UserSettings(if slot.role.Consensus? then Some(environment) else None, None, None, None,
      Some(UserSettings.NetworkSettings(services, root)))
  }

  // ----- files -----

  function WithoutStakerNetwork(s: Service, network: string): Service
  {
    match s.networks
    case None => s
    case Some(NetworkList(names)) => s.(networks := Some(NetworkList(Without(names, [network]))))
    case Some(NetworkObject(nets)) => s.(networks := Some(NetworkObject(nets - {network})))
  }

  function Without(xs: seq<string>, drop: seq<string>): (r: seq<string>)
    ensures forall x :: x in r <==> x in xs && x !in drop
  {
    if xs == [] then []
    else if xs[0] in drop then Without(xs[1..], drop)
    else [xs[0]] + Without(xs[1..], drop)
  }

  /** `removeStakerNetworkFromCompose`. */
  function RemoveStakerNetwork(c: Compose, network: string): Compose
  {
    c.(services := map n | n in c.services :: WithoutStakerNetwork(c.services[n], network),
       networks := match c.networks case None => None case Some(root) => Some(root - {network}))
  }

  function WithoutAliases(s: Service, aliases: seq<string>): Service
  {
    match s.networks
    case Some(NetworkObject(nets)) =>
      if DNCORE in nets && nets[DNCORE].aliases.Some?
      then s.(networks := Some(NetworkObject(nets[DNCORE :=
        nets[DNCORE].(aliases := Some(Without(nets[DNCORE].aliases.value, aliases)))])))
      else s
    case _ => s
  }

  /** `removeFullnodeAliasFromDncoreNetwork`. */
  function RemoveFullnodeAliases(c: Compose, aliases: seq<string>): Compose
  {
    c.(services := map n | n in c.services :: WithoutAliases(c.services[n], aliases))
  }

  // ----- the operations -----

  /** Whether the previous client may be replaced: it is compatible and recent enough. */
  predicate Compatible(catalog: Catalog, slot: Slot, dnp: string, version: Version)
  {
    slot in catalog && dnp in catalog[slot] && !VersionLess(version, catalog[slot][dnp])
  }

  /** The states after each write, and whether the operation completed. */
  datatype Course = Course(states: seq<State>, ok: bool)

  function Last(st: State, h: Course): State
  {
    if h.states == [] then st else h.states[|h.states| - 1]
  }

  /** `unsetStakerPkgConfig`. */
  function Unset(st: State, slot: Slot, dnp: string, luck: Luck): Course
    requires dnp in st.packages
  {
    var c0 := st.packages[dnp].compose;
    if !luck.removeNetwork then Course([], false)
    else
      var c1 := Saved(RemoveStakerNetwork(c0, StakerNetwork(slot.network)), luck.order);
      var s1 := WithCompose(st, dnp, c1);
      if !luck.removeAliases then Course([s1], false)
      else
        var c2 := Saved(RemoveFullnodeAliases(c1, FullnodeAliases(slot)), luck.order);
        Course([s1, WithCompose(s1, dnp, c2)], luck.recreate)
  }

  /** The package as published, when it has to be installed. */
  datatype Release = Release(version: Version, compose: Compose)

  /** `setStakerPkgConfig`: writes the settings into the installed package's compose and starts it,
      or installs the package with these settings. A failed install leaves nothing behind. */
  function SetConfig(st: State, dnp: string, settings: UserSettings.UserSettings, release: Release, luck: Luck): Course
  {
    var base := if dnp in st.packages then st.packages[dnp].compose else release.compose;
    var next := UserSettings.Apply(base, settings, dnp);
    if next.Err? || !luck.write then Course([], false)
    else if dnp in st.packages then Course([WithCompose(st, dnp, Saved(next.value, luck.order))], luck.up)
    else Course([st.(packages := st.packages[dnp := Package(release.version, Saved(next.value, luck.order))])], true)
  }

  /** The first half of `setNew`: the previous client, if installed and replaced, is unset. */
  function UnsetPrevious(st: State, slot: Slot, client: Option<string>, luck: Luck): Course
  {
    var prev := Current(st, slot);
    if prev.Some? && prev.value in st.packages && prev != client then Unset(st, slot, prev.value, luck)
    else Course([], true)
  }

  /** The previous client, if installed, passes the check. */
  predicate PreviousAccepted(catalog: Catalog, st: State, slot: Slot)
  {
    var prev := Current(st, slot);
    prev.Some? && prev.value in st.packages ==>
      Compatible(catalog, slot, prev.value, st.packages[prev.value].version)
  }

  /** The second half of `setNew` and its caller: configure the new client, then store the choice. */
  function SetAndStore(mid: State, slot: Slot, prev: Option<string>, client: Option<string>,
                       settings: UserSettings.UserSettings, release: Release, luck: Luck): Course
  {
    var set_ := if client.Some? then SetConfig(mid, client.value, settings, release, luck) else Course([], true);
    if !set_.ok || client == prev then set_
    else Course(set_.states + [WithDb(Last(mid, set_), slot, client)], true)
  }

  /** `setNew` with its caller: check the previous client, unset it, set the new one, store the choice. */
  function SetNew(catalog: Catalog, st: State, slot: Slot, client: Option<string>,
                  settings: UserSettings.UserSettings, release: Release, luck: Luck): Course
  {
    var prev := Current(st, slot);
    if !luck.settings then Course([], false)
    else if prev.None? && client.None? then Course([], true)
    else if !PreviousAccepted(catalog, st, slot) then Course([], false)
    else
      var unset := UnsetPrevious(st, slot, client, luck);
      if !unset.ok then unset
      else
        var tail := SetAndStore(Last(st, unset), slot, prev, client, settings, release, luck);
        Course(unset.states + tail.states, tail.ok)
  }

  /** `persistSelected…IfInstalled`. */
  function Persist(st: State, slot: Slot, settings: UserSettings.UserSettings, luck: Luck): Course
  {
    var current := Current(st, slot);
    if current.None? then Course([], true)
    else if current.value !in st.packages then Course([WithDb(st, slot, None)], true)
    else if !luck.settings then Course([], false)
    else SetConfig(st, current.value, settings, Release((0, 0, 0), st.packages[current.value].compose), luck)
  }

  /** `unsetStakerPkgConfig`, one write after the other. */
  method UnsetClient(st0: State, slot: Slot, dnp: string, luck: Luck)
    returns (st: State, states: seq<State>, ok: bool)
    requires dnp in st0.packages
    ensures Course(states, ok) == Unset(st0, slot, dnp, luck)
    ensures st == Last(st0, Course(states, ok))
  {
    hide Saved;
    hide RemoveStakerNetwork;
    hide RemoveFullnodeAliases;
    hide StakerNetwork;
    hide FullnodeAliases;
    st, states, ok := st0, [], false;
    if !luck.removeNetwork { return; }
    var c := Saved(RemoveStakerNetwork(st.packages[dnp].compose, StakerNetwork(slot.network)), luck.order);
    st := WithCompose(st, dnp, c);
    states := [st];
    if !luck.removeAliases { return; }
    st := WithCompose(st, dnp, Saved(RemoveFullnodeAliases(c, FullnodeAliases(slot)), luck.order));
    states := states + [st];
    ok := luck.recreate;
  }

  /** `setStakerPkgConfig`: apply and write, then start; or install. */
  method SetClientConfig(st0: State, dnp: string, settings: UserSettings.UserSettings, release: Release, luck: Luck)
    returns (st: State, states: seq<State>, ok: bool)
    ensures Course(states, ok) == SetConfig(st0, dnp, settings, release, luck)
    ensures st == Last(st0, Course(states, ok))
  {
    hide Saved;
    hide UserSettings.Apply;
    st, states, ok := st0, [], false;
    if dnp in st.packages {
      var next := UserSettings.Apply(st.packages[dnp].compose, settings, dnp);
      if next.Err? || !luck.write { return; }
      st := WithCompose(st, dnp, Saved(next.value, luck.order));
      ok := luck.up;
    } else {
      var next := UserSettings.Apply(release.compose, settings, dnp);
      if next.Err? || !luck.write { return; }
      st := st.(packages := st.packages[dnp := Package(release.version, Saved(next.value, luck.order))]);
      ok := true;
    }
    states := [st];
  }

  /** Sets the new client, if any, and stores the choice if it changed. */
  method SetAndStoreClient(mid: State, slot: Slot, prev: Option<string>, client: Option<string>,
                           settings: UserSettings.UserSettings, release: Release, luck: Luck)
    returns (st: State, states: seq<State>, ok: bool)
    ensures Course(states, ok) == SetAndStore(mid, slot, prev, client, settings, release, luck)
    ensures st == Last(mid, Course(states, ok))
  {
    hide SetConfig;
    st, states, ok := mid, [], true;
    if client.Some? {
      st, states, ok := SetClientConfig(mid, client.value, settings, release, luck);
      if !ok { return; }
    }
    if client != prev {
      st := WithDb(st, slot, client);
      states := states + [st];
    }
  }

  /** `setNewExecution` and `setNewConsensus`: stop at the first failure. */
  method SetNewClient(catalog: Catalog, st0: State, slot: Slot, client: Option<string>,
                      settings: UserSettings.UserSettings, release: Release, luck: Luck)
    returns (st: State, states: seq<State>, ok: bool)
    ensures Course(states, ok) == SetNew(catalog, st0, slot, client, settings, release, luck)
    ensures st == Last(st0, Course(states, ok))
  {
    hide Compatible;
    hide Unset;
    hide SetAndStore;
    st, states, ok := st0, [], false;
    if !luck.settings { return; }
    var prev := Current(st, slot);
    if prev.None? && client.None? { return st, states, true; }
    if prev.Some? && prev.value in st.packages {
      if !Compatible(catalog, slot, prev.value, st.packages[prev.value].version) { return; }
      if prev != client {
        st, states, ok := UnsetClient(st, slot, prev.value, luck);
        if !ok { return; }
      }
    }
    var more;
    st, more, ok := SetAndStoreClient(st, slot, prev, client, settings, release, luck);
    LastOfBoth(st0, Course(states, true), Course(more, ok));
    states := states + more;
  }

  // ----- who carries a slot -----

  predicate ServiceCarries(slot: Slot, nets: NetworksObject)
  {
    || StakerNetwork(slot.network) in nets
    || (DNCORE in nets && exists a :: a in FullnodeAliases(slot) && a in UserSettings.Aliases(nets[DNCORE]))
  }

  /** The compose declares or joins the staker network, or has a full node's alias on the core network. */
  predicate Carrier(slot: Slot, c: Compose)
  {
    || StakerNetwork(slot.network) in OrElse(c.networks, map[])
    || exists n :: n in c.services && ServiceCarries(slot, NetworksOf(c.services[n]))
  }

  /** An installed client of the slot that carries it. */
  predicate Carries(catalog: Catalog, st: State, slot: Slot, p: string)
    requires slot in catalog
  {
    p in st.packages && p in catalog[slot] && Carrier(slot, st.packages[p].compose)
  }

  /** No client of the slot carries it but `who`. */
  ghost predicate CarriedBy(catalog: Catalog, st: State, slot: Slot, who: Option<string>)
    requires slot in catalog
  {
    forall p :: Carries(catalog, st, slot, p) ==> Some(p) == who
  }

  /** At most one client of each slot carries it. */
  ghost predicate Exclusive(catalog: Catalog, st: State)
  {
    forall slot, p, q :: slot in catalog && Carries(catalog, st, slot, p) && Carries(catalog, st, slot, q) ==> p == q
  }

  /** Every slot is carried by nobody but the client in the database; `slot` by nobody but `who`. */
  ghost predicate GoodBut(catalog: Catalog, st: State, slot: Slot, who: Option<string>)
  {
    forall s :: s in catalog ==> CarriedBy(catalog, st, s, if s == slot then who else Current(st, s))
  }

  ghost predicate Good(catalog: Catalog, st: State)
  {
    forall s :: s in catalog ==> CarriedBy(catalog, st, s, Current(st, s))
  }

  /** The client may be chosen for the slot: it plays no other. */
  predicate FitsSlot(catalog: Catalog, slot: Slot, dnp: string)
  {
    forall s :: s in catalog && dnp in catalog[s] ==> s == slot
  }

  lemma GoodButExclusive(catalog: Catalog, st: State, slot: Slot, who: Option<string>)
    requires GoodBut(catalog, st, slot, who)
    ensures Exclusive(catalog, st)
  {
    hide Carries;
    forall s | s in catalog ensures CarriedBy(catalog, st, s, if s == slot then who else Current(st, s)) { }
  }

  lemma GoodIsGoodBut(catalog: Catalog, st: State, slot: Slot)
    ensures Good(catalog, st) <==> GoodBut(catalog, st, slot, Current(st, slot))
  {
  }

  // ----- what an edit does to the carriers -----

  /** Writing a compose changes nobody's role. */
  lemma SavedCarrier(c: Compose, order: KeyOrder, slot: Slot)
    ensures Carrier(slot, Saved(c, order)) <==> Carrier(slot, c)
  {
    hide Saved;
    hide NetworksOf;
    hide ServiceCarries;
    SavedKeepsNetworks(c, order);
  }

  lemma ListWithout(names: seq<string>, network: string)
    ensures ParseNetworks(NetworkList(Without(names, [network]))) == ParseNetworks(NetworkList(names)) - {network}
  {
    hide Without;
  }

  lemma WithoutNetworkOf(s: Service, network: string)
    ensures NetworksOf(WithoutStakerNetwork(s, network)) == NetworksOf(s) - {network}
  {
    hide Without;
    match s.networks {
      case None =>
      case Some(NetworkList(names)) => ListWithout(names, network);
      case Some(NetworkObject(nets)) =>
    }
  }

  lemma WithoutAliasesOf(s: Service, aliases: seq<string>)
    ensures var before, after := NetworksOf(s), NetworksOf(WithoutAliases(s, aliases));
      && after.Keys == before.Keys
      && (forall k :: k in before && k != DNCORE ==> after[k] == before[k])
      && (DNCORE in before ==> forall a :: a in UserSettings.Aliases(after[DNCORE]) <==>
            a in UserSettings.Aliases(before[DNCORE]) && a !in aliases)
  {
  }

  /** Removing a staker network takes it away and gives no one anything. */
  lemma RemoveNetworkCarrier(c: Compose, network: string, slot: Slot)
    ensures Carrier(slot, RemoveStakerNetwork(c, network)) ==> Carrier(slot, c)
    ensures var r := RemoveStakerNetwork(c, network);
      network !in OrElse(r.networks, map[]) && r.services.Keys == c.services.Keys
      && forall n :: n in r.services ==> network !in NetworksOf(r.services[n])
  {
    hide NetworksOf;
    hide StakerNetwork;
    hide FullnodeAliases;
    hide WithoutStakerNetwork;
    var r := RemoveStakerNetwork(c, network);
    forall n | n in c.services
      ensures NetworksOf(r.services[n]) == NetworksOf(c.services[n]) - {network}
      ensures ServiceCarries(slot, NetworksOf(r.services[n])) ==> ServiceCarries(slot, NetworksOf(c.services[n]))
    {
      WithoutNetworkOf(c.services[n], network);
    }
  }

  lemma RemoveAliasesCarrier(c: Compose, aliases: seq<string>, slot: Slot)
    ensures Carrier(slot, RemoveFullnodeAliases(c, aliases)) ==> Carrier(slot, c)
  {
    hide NetworksOf;
    hide StakerNetwork;
    hide FullnodeAliases;
    hide WithoutAliases;
    hide UserSettings.Aliases;
    var r := RemoveFullnodeAliases(c, aliases);
    forall n | n in c.services
      ensures ServiceCarries(slot, NetworksOf(r.services[n])) ==> ServiceCarries(slot, NetworksOf(c.services[n]))
    {
      WithoutAliasesOf(c.services[n], aliases);
    }
  }

  /** After both removals the package no longer carries the slot. */
  lemma UnsetCarrier(c: Compose, slot: Slot, order: KeyOrder)
    ensures !Carrier(slot, RemoveFullnodeAliases(
      Saved(RemoveStakerNetwork(c, StakerNetwork(slot.network)), order), FullnodeAliases(slot)))
  {
    hide Saved;
    hide RemoveStakerNetwork;
    hide NetworksOf;
    hide StakerNetwork;
    hide FullnodeAliases;
    hide WithoutAliases;
    hide UserSettings.Aliases;
    var c1 := RemoveStakerNetwork(c, StakerNetwork(slot.network));
    var c2 := Saved(c1, order);
    var c3 := RemoveFullnodeAliases(c2, FullnodeAliases(slot));
    RemoveNetworkCarrier(c, StakerNetwork(slot.network), slot);
    SavedKeepsNetworks(c1, order);
    forall n | n in c3.services ensures !ServiceCarries(slot, NetworksOf(c3.services[n])) {
      WithoutAliasesOf(c2.services[n], FullnodeAliases(slot));
    }
  }

  /** What unsetting leaves of a service's networks. */
  ghost predicate Unclaims(before: NetworksObject, after: NetworksObject, network: string, aliases: seq<string>)
  {
    && after.Keys == before.Keys - {network}
    && (forall k :: k in after && k != DNCORE ==> after[k] == before[k])
    && (DNCORE in after ==> forall a ::
          a in UserSettings.Aliases(after[DNCORE]) <==> a in UserSettings.Aliases(before[DNCORE]) && a !in aliases)
  }

  lemma UnclaimsInSteps(before: NetworksObject, between: NetworksObject, after: NetworksObject, network: string,
                        aliases: seq<string>)
    requires between == before - {network} && after.Keys == between.Keys
    requires forall k :: k in between && k != DNCORE ==> after[k] == between[k]
    requires DNCORE in between ==> forall a ::
      a in UserSettings.Aliases(after[DNCORE]) <==> a in UserSettings.Aliases(between[DNCORE]) && a !in aliases
    ensures Unclaims(before, after, network, aliases)
  {
  }

  lemma RemovedIn(c: Compose, network: string, n: string)
    requires n in c.services
    ensures var r := RemoveStakerNetwork(c, network);
      r.services.Keys == c.services.Keys && r.services[n] == WithoutStakerNetwork(c.services[n], network)
  {
    hide WithoutStakerNetwork;
  }

  lemma AliasesRemovedIn(c: Compose, aliases: seq<string>, n: string)
    requires n in c.services
    ensures var r := RemoveFullnodeAliases(c, aliases);
      r.services.Keys == c.services.Keys && r.services[n] == WithoutAliases(c.services[n], aliases)
  {
    hide WithoutAliases;
  }

  /** All that unsetting changes: the staker network goes, the core network loses the full node's
      aliases, and every other membership stays, the alias on the private network included. */
  lemma UnsetEffect(c: Compose, slot: Slot, order: KeyOrder, n: string)
    requires n in c.services
    ensures var r := RemoveFullnodeAliases(
        Saved(RemoveStakerNetwork(c, StakerNetwork(slot.network)), order), FullnodeAliases(slot));
      && r.services.Keys == c.services.Keys
      && Unclaims(NetworksOf(c.services[n]), NetworksOf(r.services[n]), StakerNetwork(slot.network),
        FullnodeAliases(slot))
  {
    hide *;
    var network, aliases := StakerNetwork(slot.network), FullnodeAliases(slot);
    var c1 := RemoveStakerNetwork(c, network);
    RemovedIn(c, network, n);
    SavedKeepsNetworks(c1, order);
    AliasesRemovedIn(Saved(c1, order), aliases, n);
    WithoutNetworkOf(c.services[n], network);
    WithoutAliasesOf(Saved(c1, order).services[n], aliases);
    UnclaimsInSteps(NetworksOf(c.services[n]), NetworksOf(Saved(c1, order).services[n]),
      NetworksOf(RemoveFullnodeAliases(Saved(c1, order), aliases).services[n]), network, aliases);
  }

  /** A compose with the settings of a slot declares the slot's network. */
  lemma SettingsCarrier(c: Compose, slot: Slot, service: string, environment: map<string, Envs>, dnp: string)
    ensures var r := UserSettings.Apply(c, SettingsFor(slot, service, environment), dnp);
      r.Ok? && Carrier(slot, r.value)
  {
    hide UserSettings.Applied;
    hide StakerNetwork;
    hide ServiceCarries;
    var s := SettingsFor(slot, service, environment);
    assert UserSettings.MountpointsAbsolute(c, s);
    UserSettings.AppliedSections(c, s, dnp);
    assert StakerNetwork(slot.network) in UserSettings.RootNetworks(c, s);
  }

  // ----- one operation -----

  /** Rewriting one package's compose keeps who carries what, if it gains no role it may have. */
  lemma RewriteKeeps(catalog: Catalog, st: State, slot: Slot, who: Option<string>, dnp: string, c: Compose)
    requires GoodBut(catalog, st, slot, who) && dnp in st.packages
    requires forall s :: s in catalog && dnp in catalog[s] && Carrier(s, c) ==>
      (s == slot && who == Some(dnp)) || Carrier(s, st.packages[dnp].compose)
    ensures GoodBut(catalog, WithCompose(st, dnp, c), slot, who)
  {
    hide Carrier;
    var after := WithCompose(st, dnp, c);
    forall s | s in catalog ensures CarriedBy(catalog, after, s, if s == slot then who else Current(after, s)) {
      forall p | Carries(catalog, after, s, p) ensures Some(p) == if s == slot then who else Current(after, s) {
        if !(p == dnp && s == slot && who == Some(dnp)) { assert Carries(catalog, st, s, p); }
      }
    }
  }

  /** A package that does not carry the slot need not be counted. */
  lemma NobodyLeft(catalog: Catalog, st: State, slot: Slot, dnp: string)
    requires GoodBut(catalog, st, slot, Some(dnp)) && slot in catalog && !Carries(catalog, st, slot, dnp)
    ensures GoodBut(catalog, st, slot, None)
  {
    hide Carries;
    assert CarriedBy(catalog, st, slot, Some(dnp));
  }

  lemma UnsetSafe(catalog: Catalog, st: State, slot: Slot, dnp: string, luck: Luck)
    requires Good(catalog, st) && slot in catalog && Current(st, slot) == Some(dnp) && dnp in st.packages
    ensures var h := Unset(st, slot, dnp, luck);
      && (forall s :: s in h.states ==> Exclusive(catalog, s))
      && GoodBut(catalog, Last(st, h), slot, Some(dnp)) && Last(st, h).db == st.db
      && Last(st, h).packages.Keys == st.packages.Keys
      && (h.ok ==> GoodBut(catalog, Last(st, h), slot, None))
  {
    hide Saved;
    hide RemoveStakerNetwork;
    hide RemoveFullnodeAliases;
    hide Carrier;
    hide GoodBut;
    hide Exclusive;
    hide Good;
    hide StakerNetwork;
    hide FullnodeAliases;
    GoodIsGoodBut(catalog, st, slot);
    var c0 := st.packages[dnp].compose;
    var c1 := RemoveStakerNetwork(c0, StakerNetwork(slot.network));
    var s1 := WithCompose(st, dnp, Saved(c1, luck.order));
    forall s ensures Carrier(s, Saved(c1, luck.order)) ==> Carrier(s, c0) {
      RemoveNetworkCarrier(c0, StakerNetwork(slot.network), s);
      SavedCarrier(c1, luck.order, s);
    }
    RewriteKeeps(catalog, st, slot, Some(dnp), dnp, Saved(c1, luck.order));
    GoodButExclusive(catalog, s1, slot, Some(dnp));
    var c2 := RemoveFullnodeAliases(Saved(c1, luck.order), FullnodeAliases(slot));
    var s2 := WithCompose(s1, dnp, Saved(c2, luck.order));
    forall s ensures Carrier(s, Saved(c2, luck.order)) ==> Carrier(s, Saved(c1, luck.order)) {
      RemoveAliasesCarrier(Saved(c1, luck.order), FullnodeAliases(slot), s);
      SavedCarrier(c2, luck.order, s);
    }
    RewriteKeeps(catalog, s1, slot, Some(dnp), dnp, Saved(c2, luck.order));
    GoodButExclusive(catalog, s2, slot, Some(dnp));
    UnsetCarrier(c0, slot, luck.order);
    SavedCarrier(c2, luck.order, slot);
    NobodyLeft(catalog, s2, slot, dnp);
  }

  lemma SetConfigSafe(catalog: Catalog, st: State, slot: Slot, who: Option<string>, dnp: string,
                      settings: UserSettings.UserSettings, release: Release, luck: Luck)
    requires slot in catalog && FitsSlot(catalog, slot, dnp)
    requires GoodBut(catalog, st, slot, who) && (who == None || who == Some(dnp))
    ensures var h := SetConfig(st, dnp, settings, release, luck);
      && (forall s :: s in h.states ==> Exclusive(catalog, s))
      && Last(st, h).db == st.db
      && (h.states == [] ==> !h.ok)
      && (h.states != [] ==> GoodBut(catalog, Last(st, h), slot, Some(dnp)) && dnp in Last(st, h).packages)
  {
    hide Saved;
    hide Carrier;
    hide UserSettings.Apply;
    var h := SetConfig(st, dnp, settings, release, luck);
    if h.states != [] {
      var after := h.states[0];
      forall s | s in catalog ensures CarriedBy(catalog, after, s, if s == slot then Some(dnp) else Current(after, s)) {
        assert CarriedBy(catalog, st, s, if s == slot then who else Current(st, s));
        forall p | Carries(catalog, after, s, p) ensures Some(p) == if s == slot then Some(dnp) else Current(after, s) {
          if p != dnp { assert Carries(catalog, st, s, p); }
        }
      }
      GoodButExclusive(catalog, after, slot, Some(dnp));
    }
  }

  lemma StoredChoice(catalog: Catalog, st: State, slot: Slot, client: Option<string>)
    requires GoodBut(catalog, st, slot, client)
    ensures Good(catalog, WithDb(st, slot, client))
  {
    hide Carrier;
    var after := WithDb(st, slot, client);
    forall s | s in catalog ensures CarriedBy(catalog, after, s, Current(after, s)) {
      assert CarriedBy(catalog, st, s, if s == slot then client else Current(st, s));
      forall p | Carries(catalog, after, s, p) ensures Some(p) == Current(after, s) {
        assert Carries(catalog, st, s, p);
      }
    }
  }

  /** Before the new client is set, nobody else carries the slot. */
  lemma UnsetPhase(catalog: Catalog, st: State, slot: Slot, client: Option<string>, luck: Luck)
    requires Good(catalog, st) && slot in catalog
    ensures var prev := Current(st, slot);
      var unset := UnsetPrevious(st, slot, client, luck);
      && (forall s :: s in unset.states ==> Exclusive(catalog, s))
      && Last(st, unset).db == st.db && Last(st, unset).packages.Keys == st.packages.Keys
      && Good(catalog, Last(st, unset))
      && (unset.ok ==> GoodBut(catalog, Last(st, unset), slot, if prev == client then client else None))
  {
    hide Carrier;
    hide Unset;
    hide Exclusive;
    hide GoodBut;
    hide Good;
    var prev := Current(st, slot);
    GoodIsGoodBut(catalog, st, slot);
    if prev.Some? && prev.value in st.packages && prev != client {
      UnsetSafe(catalog, st, slot, prev.value, luck);
      GoodIsGoodBut(catalog, Last(st, Unset(st, slot, prev.value, luck)), slot);
    } else if prev.Some? && prev != client {
      NobodyLeft(catalog, st, slot, prev.value);
    }
  }

  /** The one failure that leaves the slot with a client that the database does not name: another
      client is chosen that is installed, everything up to the write of its file succeeds, and
      starting it fails. */
  predicate FailsAfterWrite(catalog: Catalog, st: State, slot: Slot, client: Option<string>,
                            settings: UserSettings.UserSettings, luck: Luck)
  {
    && client.Some? && client != Current(st, slot) && client.value in st.packages
    && PreviousAccepted(catalog, st, slot) && luck.settings
    && (Current(st, slot).Some? && Current(st, slot).value in st.packages ==>
          luck.removeNetwork && luck.removeAliases && luck.recreate)
    && UserSettings.MountpointsAbsolute(st.packages[client.value].compose, settings)
    && luck.write && !luck.up
  }

  /** The same, by what the steps do: the new client's file was written, yet setting it failed. */
  lemma FailsAfterWriteIs(catalog: Catalog, st: State, slot: Slot, client: Option<string>,
                          settings: UserSettings.UserSettings, release: Release, luck: Luck)
    ensures FailsAfterWrite(catalog, st, slot, client, settings, luck) <==>
      (&& luck.settings && PreviousAccepted(catalog, st, slot) && UnsetPrevious(st, slot, client, luck).ok
       && client.Some? && client != Current(st, slot)
       && var set_ := SetConfig(Last(st, UnsetPrevious(st, slot, client, luck)), client.value, settings, release, luck);
          set_.states != [] && !set_.ok)
  {
    hide Saved;
    hide PreviousAccepted;
    hide RemoveStakerNetwork;
    hide RemoveFullnodeAliases;
    hide UserSettings.Apply;
    hide UserSettings.MountpointsAbsolute;
    if client.Some? && client != Current(st, slot) {
      var mid := Last(st, UnsetPrevious(st, slot, client, luck));
      UnsetFrame(st, slot, client, luck, client.value);
      if client.value in st.packages {
        UserSettings.ApplyOk(st.packages[client.value].compose, settings, client.value);
      }
    }
  }

  lemma RewriteFrame(st: State, dnp: string, c: Compose, p: string)
    requires dnp in st.packages && p != dnp
    ensures var after := WithCompose(st, dnp, c);
      && after.db == st.db && after.packages.Keys == st.packages.Keys
      && (p in st.packages ==> after.packages[p] == st.packages[p])
  {
  }

  /** Unsetting the previous client touches no other package. */
  lemma UnsetFrame(st: State, slot: Slot, client: Option<string>, luck: Luck, p: string)
    requires Some(p) != Current(st, slot)
    ensures var mid := Last(st, UnsetPrevious(st, slot, client, luck));
      && mid.db == st.db && mid.packages.Keys == st.packages.Keys
      && (p in st.packages ==> mid.packages[p] == st.packages[p])
  {
    hide Saved;
    hide WithCompose;
    hide RemoveStakerNetwork;
    hide RemoveFullnodeAliases;
    hide StakerNetwork;
    hide FullnodeAliases;
    var prev := Current(st, slot);
    if prev.Some? && prev.value in st.packages {
      var c1 := Saved(RemoveStakerNetwork(st.packages[prev.value].compose, StakerNetwork(slot.network)), luck.order);
      var s1 := WithCompose(st, prev.value, c1);
      RewriteFrame(st, prev.value, c1, p);
      RewriteFrame(s1, prev.value, Saved(RemoveFullnodeAliases(c1, FullnodeAliases(slot)), luck.order), p);
    }
  }

  lemma StoredSafe(catalog: Catalog, st: State, slot: Slot, client: Option<string>)
    ensures GoodBut(catalog, st, slot, client) ==>
      Good(catalog, WithDb(st, slot, client)) && Exclusive(catalog, WithDb(st, slot, client))
  {
    hide Carries;
    if GoodBut(catalog, st, slot, client) {
      StoredChoice(catalog, st, slot, client);
      var after := WithDb(st, slot, client);
      GoodIsGoodBut(catalog, after, slot);
      GoodButExclusive(catalog, after, slot, Current(after, slot));
    }
  }

  lemma SetAndStoreSafe(catalog: Catalog, mid: State, slot: Slot, client: Option<string>,
                        settings: UserSettings.UserSettings, release: Release, luck: Luck)
    requires slot in catalog && (client.Some? ==> FitsSlot(catalog, slot, client.value))
    requires Good(catalog, mid)
    requires GoodBut(catalog, mid, slot, if Current(mid, slot) == client then client else None)
    ensures var prev := Current(mid, slot);
      var h := SetAndStore(mid, slot, prev, client, settings, release, luck);
      var set_ := if client.Some? then SetConfig(mid, client.value, settings, release, luck) else Course([], true);
      && (forall s :: s in h.states ==> Exclusive(catalog, s))
      && (set_.states == [] || set_.ok || client == prev ==> Good(catalog, Last(mid, h)))
      && (h.ok ==> Current(Last(mid, h), slot) == client)
      && h.ok == set_.ok && (!h.ok ==> h == set_)
  {
    hide Good;
    hide GoodBut;
    hide Exclusive;
    hide SetConfig;
    hide FitsSlot;
    var prev := Current(mid, slot);
    if client.Some? {
      SetConfigSafe(catalog, mid, slot, if prev == client then client else None, client.value, settings, release, luck);
      var done := Last(mid, SetConfig(mid, client.value, settings, release, luck));
      GoodIsGoodBut(catalog, done, slot);
      StoredSafe(catalog, done, slot, client);
    } else if prev != client {
      StoredSafe(catalog, mid, slot, client);
    }
  }

  lemma LastOfBoth(st: State, a: Course, b: Course)
    ensures Last(st, Course(a.states + b.states, b.ok)) == Last(Last(st, a), b)
  {
  }

  /** Switching a client: at every moment at most one client of each slot carries it. Afterwards only
      the client in the database may, unless starting the new client failed; and a completed switch
      stores the choice. */
  lemma SetNewSafe(catalog: Catalog, st: State, slot: Slot, client: Option<string>,
                   settings: UserSettings.UserSettings, release: Release, luck: Luck)
    requires Good(catalog, st) && slot in catalog && (client.Some? ==> FitsSlot(catalog, slot, client.value))
    ensures var h := SetNew(catalog, st, slot, client, settings, release, luck);
      && (forall s :: s in h.states ==> Exclusive(catalog, s))
      && (!FailsAfterWrite(catalog, st, slot, client, settings, luck) ==> Good(catalog, Last(st, h)))
      && (h.ok ==> Current(Last(st, h), slot) == client && Good(catalog, Last(st, h)))
  {
    hide Good;
    hide GoodBut;
    hide Exclusive;
    hide PreviousAccepted;
    hide UnsetPrevious;
    hide SetConfig;
    hide SetAndStore;
    hide FitsSlot;
    hide FailsAfterWrite;
    FailsAfterWriteIs(catalog, st, slot, client, settings, release, luck);
    var prev := Current(st, slot);
    if luck.settings && !(prev.None? && client.None?) && PreviousAccepted(catalog, st, slot) {
      UnsetPhase(catalog, st, slot, client, luck);
      var unset := UnsetPrevious(st, slot, client, luck);
      var mid := Last(st, unset);
      if unset.ok {
        SetAndStoreSafe(catalog, mid, slot, client, settings, release, luck);
        LastOfBoth(st, unset, SetAndStore(mid, slot, prev, client, settings, release, luck));
      }
    }
  }

  /** After configuring an installed or a new client with the settings of the slot, it carries it. */
  lemma SetConfigCarries(st: State, slot: Slot, dnp: string, service: string, environment: map<string, Envs>,
                         release: Release, luck: Luck)
    ensures var h := SetConfig(st, dnp, SettingsFor(slot, service, environment), release, luck);
      h.states != [] ==>
        (&& dnp in Last(st, h).packages && Carrier(slot, Last(st, h).packages[dnp].compose)
         && Last(st, h).db == st.db
         && forall p :: p != dnp && p in st.packages ==>
              p in Last(st, h).packages && Last(st, h).packages[p] == st.packages[p])
  {
    hide Carrier;
    hide SettingsFor;
    hide Saved;
    hide UserSettings.Apply;
    var settings := SettingsFor(slot, service, environment);
    var base := if dnp in st.packages then st.packages[dnp].compose else release.compose;
    SettingsCarrier(base, slot, service, environment, dnp);
    SavedCarrier(UserSettings.Apply(base, settings, dnp).value, luck.order, slot);
  }

  /** With the settings of the slot: a completed switch leaves exactly the chosen client carrying it,
      and the failure after the write always breaks the invariant. */
  lemma SetNewCarrier(catalog: Catalog, st: State, slot: Slot, dnp: string, service: string,
                      environment: map<string, Envs>, release: Release, luck: Luck)
    requires Good(catalog, st) && slot in catalog && dnp in catalog[slot] && FitsSlot(catalog, slot, dnp)
    ensures var settings := SettingsFor(slot, service, environment);
      var h := SetNew(catalog, st, slot, Some(dnp), settings, release, luck);
      && (h.ok ==> forall p :: Carries(catalog, Last(st, h), slot, p) <==> p == dnp)
      && (FailsAfterWrite(catalog, st, slot, Some(dnp), settings, luck) ==> !Good(catalog, Last(st, h)))
  {
    hide Exclusive;
    hide Carrier;
    hide PreviousAccepted;
    hide UnsetPrevious;
    hide SettingsFor;
    hide SetConfig;
    hide Good;
    hide GoodBut;
    hide FitsSlot;
    hide FailsAfterWrite;
    var settings := SettingsFor(slot, service, environment);
    FailsAfterWriteIs(catalog, st, slot, Some(dnp), settings, release, luck);
    var h := SetNew(catalog, st, slot, Some(dnp), settings, release, luck);
    SetNewSafe(catalog, st, slot, Some(dnp), settings, release, luck);
    UnsetPhase(catalog, st, slot, Some(dnp), luck);
    var unset := UnsetPrevious(st, slot, Some(dnp), luck);
    var mid := Last(st, unset);
    LastOfBoth(st, unset, SetAndStore(mid, slot, Current(st, slot), Some(dnp), settings, release, luck));
    SetConfigCarries(mid, slot, dnp, service, environment, release, luck);
    SetConfigWrites(mid, dnp, settings, release, luck);
    var last := Last(st, h);
    if h.ok { OnlyCurrent(catalog, last, slot, dnp); }
    if FailsAfterWrite(catalog, st, slot, Some(dnp), settings, luck) {
      assert Carries(catalog, last, slot, dnp) && Current(last, slot) == Current(st, slot);
      NotGood(catalog, last, slot, dnp);
    }
  }

  lemma SetConfigWrites(st: State, dnp: string, settings: UserSettings.UserSettings, release: Release, luck: Luck)
    ensures var h := SetConfig(st, dnp, settings, release, luck); h.ok ==> h.states != []
  {
    hide Saved;
    hide UserSettings.Apply;
  }

  lemma OnlyCurrent(catalog: Catalog, st: State, slot: Slot, dnp: string)
    requires Good(catalog, st) && slot in catalog && Current(st, slot) == Some(dnp)
    ensures forall p :: Carries(catalog, st, slot, p) ==> p == dnp
  {
    hide Carries;
    assert CarriedBy(catalog, st, slot, Current(st, slot));
  }

  lemma NotGood(catalog: Catalog, st: State, slot: Slot, dnp: string)
    requires slot in catalog && Carries(catalog, st, slot, dnp) && Current(st, slot) != Some(dnp)
    ensures !Good(catalog, st)
  {
    hide Carries;
  }

  /** Why that failure matters: the next completed switch leaves two clients carrying the slot. */
  lemma FailedStartThenTwoCarriers(catalog: Catalog, st: State, slot: Slot, a: string, b: string, service: string,
                                   release: Release, fails: Luck, works: Luck)
    requires slot in catalog && a in catalog[slot] && b in catalog[slot] && a != b
    requires a in st.packages && b in st.packages && Current(st, slot) == None
    requires fails.settings && fails.write && !fails.up
    requires works.settings && works.write && works.up
    ensures var settings := SettingsFor(slot, service, map[]);
      var first := SetNew(catalog, st, slot, Some(a), settings, release, fails);
      var second := SetNew(catalog, Last(st, first), slot, Some(b), settings, release, works);
      !first.ok && second.ok && !Exclusive(catalog, Last(Last(st, first), second))
  {
    hide SettingsFor;
    hide SetNew;
    hide Carrier;
    hide SetConfig;
    var settings := SettingsFor(slot, service, map[]);
    FirstChoice(catalog, st, slot, a, settings, service, release, fails);
    var mid := Last(st, SetNew(catalog, st, slot, Some(a), settings, release, fails));
    FirstChoice(catalog, mid, slot, b, settings, service, release, works);
    var last := Last(mid, SetNew(catalog, mid, slot, Some(b), settings, release, works));
    assert Carries(catalog, last, slot, a) && Carries(catalog, last, slot, b);
  }

  /** Choosing an installed client when none was chosen: it carries the slot even if it does not start. */
  lemma FirstChoice(catalog: Catalog, st: State, slot: Slot, dnp: string, settings: UserSettings.UserSettings,
                    service: string, release: Release, luck: Luck)
    requires settings == SettingsFor(slot, service, map[])
    requires dnp in st.packages && Current(st, slot) == None && luck.settings && luck.write
    ensures var h := SetNew(catalog, st, slot, Some(dnp), settings, release, luck);
      var last := Last(st, h);
      && h.ok == luck.up && (!h.ok ==> last.db == st.db)
      && dnp in last.packages && Carrier(slot, last.packages[dnp].compose)
      && forall p :: p != dnp && p in st.packages ==> p in last.packages && last.packages[p] == st.packages[p]
  {
    hide Carrier;
    hide SettingsFor;
    hide Saved;
    hide UserSettings.Apply;
    SettingsCarrier(st.packages[dnp].compose, slot, service, map[], dnp);
    SetConfigCarries(st, slot, dnp, service, map[], release, luck);
  }

  // ----- an update of a package -----

  /** Applying settings to a service gives it a role exactly when it had it or the settings give it. */
  lemma NextCarries(slot: Slot, base: NetworksObject, user: NetworksObject)
    ensures ServiceCarries(slot, UserSettings.NextNetworks(base, user))
      <==> ServiceCarries(slot, base) || ServiceCarries(slot, user)
  {
    hide StakerNetwork;
    hide FullnodeAliases;
    hide UserSettings.NextNetworks;
    hide UserSettings.Unique;
    UserSettings.NextNetworksKeys(base, user);
    if DNCORE in base || DNCORE in user {
      UserSettings.NextNetworkIs(base, user, DNCORE);
      if DNCORE in base && DNCORE in user && user[DNCORE].aliases.Some? {
        UserSettings.UniqueMeaning(UserSettings.Aliases(base[DNCORE]) + user[DNCORE].aliases.value);
      }
    }
  }

  lemma AppliedNetworks(c: Compose, s: UserSettings.UserSettings, dnp: string, n: string)
    requires UserSettings.MountpointsAbsolute(c, s) && n in c.services
    ensures var r := UserSettings.Applied(c, s, dnp);
      n in r.services
      && NetworksOf(r.services[n]) == UserSettings.NextNetworks(NetworksOf(c.services[n]),
        UserSettings.ChoicesFor(s, n).networks)
  {
    hide *;
    UserSettings.AppliedService(c, s, dnp, n);
    UserSettings.ReadCleaned(c.services[n], UserSettings.ChoicesFor(s, n));
  }

  /** What the settings read from a compose give to the service `n` of another one. */
  lemma ReadNetworks(c: Compose, n: string)
    ensures UserSettings.ChoicesFor(UserSettings.Parse(c), n).networks
      == if n in c.services && c.networks.Some? then NetworksOf(c.services[n]) else map[]
  {
    hide NetworksOf;
    hide UserSettings.Mountpoints;
    hide UserSettings.OmitEmpty;
    hide UserSettings.HostsById;
    hide UserSettings.Lookup;
    hide EnvsOf;
    if n in c.services { UserSettings.ParsedNetworks(c, n); }
  }

  lemma ReadRootNetworks(c: Compose, next: Compose)
    ensures UserSettings.RootNetworks(next, UserSettings.Parse(c)).Keys
      == OrElse(next.networks, map[]).Keys + OrElse(c.networks, map[]).Keys
  {
    hide UserSettings.Mountpoints;
    hide UserSettings.OmitEmpty;
  }

  /** What an update keeps of a role: the declared networks, and those of the services that remain. */
  predicate CarriedOver(slot: Slot, c: Compose, next: Compose)
  {
    c.networks.Some? &&
    (|| StakerNetwork(slot.network) in c.networks.value
     || exists n :: n in c.services && n in next.services && ServiceCarries(slot, NetworksOf(c.services[n])))
  }

  /** The roles of an updated package: those of the new version and those carried over. */
  lemma UpdateCarrier(c: Compose, next: Compose, slot: Slot, dnp: string)
    requires UserSettings.Apply(next, UserSettings.Parse(c), dnp).Ok?
    ensures Carrier(slot, UserSettings.Apply(next, UserSettings.Parse(c), dnp).value)
      <==> Carrier(slot, next) || CarriedOver(slot, c, next)
  {
    hide UserSettings.Parse;
    hide UserSettings.Applied;
    hide UserSettings.MountpointsAbsolute;
    hide UserSettings.RootNetworks;
    hide UserSettings.NextNetworks;
    hide UserSettings.ChoicesFor;
    hide StakerNetwork;
    hide ServiceCarries;
    hide NetworksOf;
    var w := UserSettings.Parse(c);
    var r := UserSettings.Applied(next, w, dnp);
    UserSettings.AppliedSections(next, w, dnp);
    UserSettings.CleanMapNone(UserSettings.RootNetworks(next, w));
    ReadRootNetworks(c, next);
    NoServiceCarries(slot);
    forall n | n in next.services
      ensures ServiceCarries(slot, NetworksOf(r.services[n])) <==>
        ServiceCarries(slot, NetworksOf(next.services[n]))
        || (n in c.services && c.networks.Some? && ServiceCarries(slot, NetworksOf(c.services[n])))
    {
      AppliedNetworks(next, w, dnp, n);
      ReadNetworks(c, n);
      NextCarries(slot, NetworksOf(next.services[n]), UserSettings.ChoicesFor(w, n).networks);
    }
  }

  lemma NoServiceCarries(slot: Slot)
    ensures !ServiceCarries(slot, map[])
  {
  }

  lemma CarriedOverCarrier(slot: Slot, c: Compose, next: Compose)
    ensures CarriedOver(slot, c, next) ==> Carrier(slot, c)
  {
    hide ServiceCarries;
    hide NetworksOf;
  }

  // ----- whole runs -----

  datatype Op =
    | Switch(slot: Slot, client: Option<string>, service: string, environment: map<string, Envs>, release: Release,
             luck: Luck)
    | Refresh(slot: Slot, service: string, environment: map<string, Envs>, luck: Luck)
    | Install(dnp: string, release: Release, settings: UserSettings.UserSettings, order: KeyOrder)
    | Update(dnp: string, release: Release, order: KeyOrder)
    | Uninstall(dnp: string)

  /** An update carries the user's settings over to the new version. */
  function UpdatePackage(st: State, dnp: string, release: Release, order: KeyOrder): Course
  {
    if dnp !in st.packages then Course([], false)
    else
      var next := UserSettings.Apply(release.compose, UserSettings.Parse(st.packages[dnp].compose), dnp);
      if next.Err? then Course([], false)
      else Course([st.(packages := st.packages[dnp := Package(release.version, Saved(next.value, order))])], true)
  }

  /** A package is installed with what the user set in the installer. */
  function InstallPackage(st: State, dnp: string, release: Release, settings: UserSettings.UserSettings,
                          order: KeyOrder): Course
  {
    var next := UserSettings.Apply(release.compose, settings, dnp);
    if next.Err? then Course([], false)
    else Course([st.(packages := st.packages[dnp := Package(release.version, Saved(next.value, order))])], true)
  }

  function Do(catalog: Catalog, st: State, op: Op): Course
  {
    match op
    case Switch(slot, client, service, environment, release, luck) =>
      SetNew(catalog, st, slot, client, SettingsFor(slot, service, environment), release, luck)
    case Refresh(slot, service, environment, luck) => Persist(st, slot, SettingsFor(slot, service, environment), luck)
    case Install(dnp, release, settings, order) => InstallPackage(st, dnp, release, settings, order)
    case Update(dnp, release, order) => UpdatePackage(st, dnp, release, order)
    case Uninstall(dnp) => Course([st.(packages := st.packages - {dnp})], true)
  }

  /** A published compose that claims no slot of its client. */
  predicate Unclaimed(catalog: Catalog, dnp: string, c: Compose)
  {
    forall s :: s in catalog && dnp in catalog[s] ==> !Carrier(s, c)
  }

  /** What the settings claim for the services of a compose. */
  predicate SettingsClaim(slot: Slot, s: UserSettings.UserSettings, c: Compose)
  {
    || SettingsDeclare(slot, s)
    || exists n :: n in c.services && ServiceCarries(slot, UserSettings.ChoicesFor(s, n).networks)
  }

  /** The compose claims a slot of the package only where the package is the stored client. */
  predicate NoNewRole(catalog: Catalog, st: State, dnp: string, c: Compose)
  {
    forall s :: s in catalog && dnp in catalog[s] && Carrier(s, c) ==> Current(st, s) == Some(dnp)
  }

  predicate NoNewClaim(catalog: Catalog, st: State, dnp: string, settings: UserSettings.UserSettings, c: Compose)
  {
    forall s :: s in catalog && dnp in catalog[s] && SettingsClaim(s, settings, c) ==> Current(st, s) == Some(dnp)
  }

  /** Slots are known, and clients are chosen for the slot they play. */
  predicate Proper(catalog: Catalog, op: Op)
  {
    match op
    case Switch(slot, client, _, _, _, _) => slot in catalog && (client.Some? ==> FitsSlot(catalog, slot, client.value))
    case Refresh(slot, _, _, _) => slot in catalog
    case _ => true
  }

  /** A newly chosen client of the slot does not fail to start, and a file that is installed or updated
      to gives its package no role but those it is stored for. */
  predicate Harmless(catalog: Catalog, st: State, op: Op)
    requires Proper(catalog, op)
  {
    match op
    case Switch(slot, client, service, environment, release, luck) =>
      !(FailsAfterWrite(catalog, st, slot, client, SettingsFor(slot, service, environment), luck)
        && client.value in catalog[slot])
    case Refresh(_, _, _, _) => true
    case Install(dnp, release, settings, order) =>
      UserSettings.MountpointsAbsolute(release.compose, settings) ==>
        NoNewRole(catalog, st, dnp, release.compose) && NoNewClaim(catalog, st, dnp, settings, release.compose)
    case Update(dnp, release, order) =>
      dnp in st.packages
      && UserSettings.MountpointsAbsolute(release.compose, UserSettings.Parse(st.packages[dnp].compose)) ==>
        NoNewRole(catalog, st, dnp, release.compose)
    case Uninstall(_) => true
  }

  predicate AllProper(catalog: Catalog, ops: seq<Op>)
  {
    forall i :: 0 <= i < |ops| ==> Proper(catalog, ops[i])
  }

  predicate AllHarmless(catalog: Catalog, st: State, ops: seq<Op>)
    requires AllProper(catalog, ops)
    decreases ops
  {
    ops == [] || (Harmless(catalog, st, ops[0]) && AllHarmless(catalog, Last(st, Do(catalog, st, ops[0])), ops[1..]))
  }

  /** After every operation each slot is carried by nobody but the client in the database. */
  ghost predicate GoodThroughout(catalog: Catalog, st: State, ops: seq<Op>)
    decreases ops
  {
    ops == [] ||
      var next := Last(st, Do(catalog, st, ops[0])); Good(catalog, next) && GoodThroughout(catalog, next, ops[1..])
  }

  /** Every state of a run, the first one left out. */
  function Run(catalog: Catalog, st: State, ops: seq<Op>): seq<State>
    decreases ops
  {
    if ops == [] then []
    else var h := Do(catalog, st, ops[0]); h.states + Run(catalog, Last(st, h), ops[1..])
  }

  function End(st: State, run: seq<State>): State
  {
    if run == [] then st else run[|run| - 1]
  }

  lemma PersistSafe(catalog: Catalog, st: State, slot: Slot, settings: UserSettings.UserSettings, luck: Luck)
    requires Good(catalog, st) && slot in catalog
    requires Current(st, slot).Some? ==> FitsSlot(catalog, slot, Current(st, slot).value)
    ensures var h := Persist(st, slot, settings, luck);
      (forall s :: s in h.states ==> Exclusive(catalog, s)) && Good(catalog, Last(st, h))
  {
    hide Good;
    hide GoodBut;
    hide Exclusive;
    hide SetConfig;
    hide FitsSlot;
    GoodIsGoodBut(catalog, st, slot);
    var current := Current(st, slot);
    if current.Some? {
      var dnp := current.value;
      if dnp !in st.packages {
        NobodyLeft(catalog, st, slot, dnp);
        StoredSafe(catalog, st, slot, None);
      } else if luck.settings {
        var release := Release((0, 0, 0), st.packages[dnp].compose);
        SetConfigSafe(catalog, st, slot, current, dnp, settings, release, luck);
        var last := Last(st, SetConfig(st, dnp, settings, release, luck));
        GoodIsGoodBut(catalog, last, slot);
      }
    }
  }

  /** A package set anew leaves the roles in order exactly when it claims none but those it is stored for. */
  lemma ReplaceExactly(catalog: Catalog, st: State, dnp: string, package: Package)
    requires Good(catalog, st)
    ensures var after := st.(packages := st.packages[dnp := package]);
      && (Good(catalog, after) <==> NoNewRole(catalog, st, dnp, package.compose))
      && (Good(catalog, after) ==> Exclusive(catalog, after))
  {
    hide Carrier;
    var after := st.(packages := st.packages[dnp := package]);
    if NoNewRole(catalog, st, dnp, package.compose) {
      forall s | s in catalog ensures CarriedBy(catalog, after, s, Current(after, s)) {
        assert CarriedBy(catalog, st, s, Current(st, s));
        forall p | Carries(catalog, after, s, p) ensures Some(p) == Current(after, s) {
          if p != dnp { assert Carries(catalog, st, s, p); }
        }
      }
    }
    if Good(catalog, after) {
      GoodExclusive(catalog, after);
      forall s | s in catalog && dnp in catalog[s] && Carrier(s, package.compose) ensures Current(st, s) == Some(dnp) {
        assert Carries(catalog, after, s, dnp) && CarriedBy(catalog, after, s, Current(after, s));
      }
    }
  }

  lemma UninstallSafe(catalog: Catalog, st: State, dnp: string)
    requires Good(catalog, st)
    ensures var after := st.(packages := st.packages - {dnp}); Good(catalog, after) && Exclusive(catalog, after)
  {
    hide Carrier;
    var after := st.(packages := st.packages - {dnp});
    forall s | s in catalog ensures CarriedBy(catalog, after, s, Current(after, s)) {
      assert CarriedBy(catalog, st, s, Current(st, s));
      forall p | Carries(catalog, after, s, p) ensures Some(p) == Current(after, s) {
        assert Carries(catalog, st, s, p);
      }
    }
    GoodExclusive(catalog, after);
  }

  lemma GoodExclusive(catalog: Catalog, st: State)
    requires Good(catalog, st)
    ensures Exclusive(catalog, st)
  {
    hide Carries;
    forall s | s in catalog ensures CarriedBy(catalog, st, s, Current(st, s)) { }
  }

  /** One state in which a package was set anew, or nothing. */
  function SetAnew(st: State, dnp: string, version: Version, next: Result<Compose, string>, order: KeyOrder): Course
  {
    if next.Err? then Course([], false)
    else Course([WithPackage(st, dnp, Package(version, Saved(next.value, order)))], true)
  }

  lemma UpdateIsSet(st: State, dnp: string, release: Release, order: KeyOrder)
    requires dnp in st.packages
    ensures var next := UserSettings.Apply(release.compose, UserSettings.Parse(st.packages[dnp].compose), dnp);
      UpdatePackage(st, dnp, release, order) == SetAnew(st, dnp, release.version, next, order)
  {
    hide Saved;
    hide UserSettings.Apply;
    hide UserSettings.Parse;
  }

  lemma InstallIsSet(st: State, dnp: string, release: Release, settings: UserSettings.UserSettings, order: KeyOrder)
    ensures InstallPackage(st, dnp, release, settings, order)
      == SetAnew(st, dnp, release.version, UserSettings.Apply(release.compose, settings, dnp), order)
  {
    hide Saved;
    hide UserSettings.Apply;
  }

  lemma SetAnewExactly(catalog: Catalog, st: State, dnp: string, version: Version, next: Result<Compose, string>,
                       order: KeyOrder)
    requires Good(catalog, st)
    ensures var h := SetAnew(st, dnp, version, next, order);
      && (Good(catalog, Last(st, h)) <==> next.Ok? ==> NoNewRole(catalog, st, dnp, Saved(next.value, order)))
      && (Good(catalog, Last(st, h)) ==> forall s :: s in h.states ==> Exclusive(catalog, s))
  {
    hide Good;
    hide Exclusive;
    hide NoNewRole;
    hide Saved;
    if next.Ok? { ReplaceExactly(catalog, st, dnp, Package(version, Saved(next.value, order))); }
  }

  lemma UpdateExactly(catalog: Catalog, st: State, dnp: string, release: Release, order: KeyOrder)
    requires Good(catalog, st)
    ensures var h := UpdatePackage(st, dnp, release, order);
      && (Good(catalog, Last(st, h)) <==> Harmless(catalog, st, Update(dnp, release, order)))
      && (Good(catalog, Last(st, h)) ==> forall s :: s in h.states ==> Exclusive(catalog, s))
  {
    hide *;
    HarmlessUpdate(catalog, st, dnp, release, order);
    if dnp in st.packages {
      var w := UserSettings.Parse(st.packages[dnp].compose);
      UserSettings.ApplyOk(release.compose, w, dnp);
      UpdateIsSet(st, dnp, release, order);
      SetAnewExactly(catalog, st, dnp, release.version, UserSettings.Apply(release.compose, w, dnp), order);
      if UserSettings.MountpointsAbsolute(release.compose, w) { UpdateRoles(catalog, st, dnp, release.compose, order); }
    } else {
      UpdateMissing(st, dnp, release, order);
    }
  }

  lemma UpdateMissing(st: State, dnp: string, release: Release, order: KeyOrder)
    requires dnp !in st.packages
    ensures var h := UpdatePackage(st, dnp, release, order); h.states == [] && Last(st, h) == st
  {
  }

  lemma HarmlessUpdate(catalog: Catalog, st: State, dnp: string, release: Release, order: KeyOrder)
    ensures Proper(catalog, Update(dnp, release, order))
    ensures Harmless(catalog, st, Update(dnp, release, order)) <==>
      (dnp in st.packages
       && UserSettings.MountpointsAbsolute(release.compose, UserSettings.Parse(st.packages[dnp].compose)) ==>
         NoNewRole(catalog, st, dnp, release.compose))
  {
    hide NoNewRole;
    hide UserSettings.MountpointsAbsolute;
    hide UserSettings.Parse;
  }

  lemma HarmlessInstall(catalog: Catalog, st: State, dnp: string, release: Release, settings: UserSettings.UserSettings,
                        order: KeyOrder)
    ensures Proper(catalog, Install(dnp, release, settings, order))
    ensures Harmless(catalog, st, Install(dnp, release, settings, order)) <==>
      (UserSettings.MountpointsAbsolute(release.compose, settings) ==>
         NoNewRole(catalog, st, dnp, release.compose) && NoNewClaim(catalog, st, dnp, settings, release.compose))
  {
    hide NoNewRole;
    hide NoNewClaim;
    hide UserSettings.MountpointsAbsolute;
  }

  /** An update gives a package a new role exactly when the new version does. */
  lemma UpdateRoles(catalog: Catalog, st: State, dnp: string, c: Compose, order: KeyOrder)
    requires Good(catalog, st) && dnp in st.packages
    requires UserSettings.Apply(c, UserSettings.Parse(st.packages[dnp].compose), dnp).Ok?
    ensures var next := UserSettings.Apply(c, UserSettings.Parse(st.packages[dnp].compose), dnp).value;
      NoNewRole(catalog, st, dnp, Saved(next, order)) <==> NoNewRole(catalog, st, dnp, c)
  {
    hide Good;
    hide Carrier;
    hide CarriedOver;
    hide Saved;
    hide UserSettings.Apply;
    hide UserSettings.Parse;
    var was := st.packages[dnp].compose;
    var next := UserSettings.Apply(c, UserSettings.Parse(was), dnp).value;
    forall s | s in catalog && dnp in catalog[s]
      ensures Carrier(s, Saved(next, order)) <==> Carrier(s, c) || CarriedOver(s, was, c)
      ensures CarriedOver(s, was, c) ==> Current(st, s) == Some(dnp)
    {
      SavedCarrier(next, order, s);
      UpdateCarrier(was, c, s, dnp);
      CarriedOverCarrier(s, was, c);
      CurrentOnly(catalog, st, s);
      assert Carrier(s, was) ==> Carries(catalog, st, s, dnp);
    }
  }

  lemma CurrentOnly(catalog: Catalog, st: State, slot: Slot)
    requires Good(catalog, st) && slot in catalog
    ensures forall p :: Carries(catalog, st, slot, p) ==> Some(p) == Current(st, slot)
  {
    hide Carries;
    assert CarriedBy(catalog, st, slot, Current(st, slot));
  }

  /** The roles of a compose with any settings applied: its own, and those that the settings claim. */
  lemma AppliedCarrier(c: Compose, s: UserSettings.UserSettings, slot: Slot, dnp: string)
    requires UserSettings.MountpointsAbsolute(c, s)
    ensures Carrier(slot, UserSettings.Applied(c, s, dnp)) <==> Carrier(slot, c) || SettingsClaim(slot, s, c)
  {
    hide UserSettings.Applied;
    hide UserSettings.MountpointsAbsolute;
    hide UserSettings.NextNetworks;
    hide UserSettings.ChoicesFor;
    hide StakerNetwork;
    hide ServiceCarries;
    hide NetworksOf;
    var r := UserSettings.Applied(c, s, dnp);
    UserSettings.AppliedSections(c, s, dnp);
    AppliedDeclares(c, s, slot, dnp);
    forall n | n in c.services
      ensures ServiceCarries(slot, NetworksOf(r.services[n])) <==>
        ServiceCarries(slot, NetworksOf(c.services[n])) || ServiceCarries(slot, UserSettings.ChoicesFor(s, n).networks)
    {
      AppliedNetworks(c, s, dnp, n);
      NextCarries(slot, NetworksOf(c.services[n]), UserSettings.ChoicesFor(s, n).networks);
    }
  }

  /** An installed file has the release's roles and those that the settings claim. */
  lemma InstallRoles(catalog: Catalog, st: State, dnp: string, c: Compose, settings: UserSettings.UserSettings,
                     order: KeyOrder)
    requires UserSettings.MountpointsAbsolute(c, settings)
    ensures NoNewRole(catalog, st, dnp, Saved(UserSettings.Applied(c, settings, dnp), order))
      <==> NoNewRole(catalog, st, dnp, c) && NoNewClaim(catalog, st, dnp, settings, c)
  {
    hide Carrier;
    hide SettingsClaim;
    hide Saved;
    hide UserSettings.Applied;
    hide UserSettings.MountpointsAbsolute;
    var next := UserSettings.Applied(c, settings, dnp);
    forall s ensures Carrier(s, Saved(next, order)) <==> Carrier(s, c) || SettingsClaim(s, settings, c) {
      SavedCarrier(next, order, s);
      AppliedCarrier(c, settings, s, dnp);
    }
  }

  lemma InstallExactly(catalog: Catalog, st: State, dnp: string, release: Release, settings: UserSettings.UserSettings,
                       order: KeyOrder)
    requires Good(catalog, st)
    ensures var h := InstallPackage(st, dnp, release, settings, order);
      && (Good(catalog, Last(st, h)) <==> Harmless(catalog, st, Install(dnp, release, settings, order)))
      && (Good(catalog, Last(st, h)) ==> forall s :: s in h.states ==> Exclusive(catalog, s))
  {
    hide *;
    HarmlessInstall(catalog, st, dnp, release, settings, order);
    UserSettings.ApplyOk(release.compose, settings, dnp);
    InstallIsSet(st, dnp, release, settings, order);
    SetAnewExactly(catalog, st, dnp, release.version, UserSettings.Apply(release.compose, settings, dnp), order);
    if UserSettings.MountpointsAbsolute(release.compose, settings) {
      InstallRoles(catalog, st, dnp, release.compose, settings, order);
    }
  }

  lemma GoodButNobody(catalog: Catalog, st: State, slot: Slot)
    requires GoodBut(catalog, st, slot, None)
    ensures Good(catalog, st)
  {
    hide Carries;
    forall s | s in catalog ensures CarriedBy(catalog, st, s, Current(st, s)) {
      assert CarriedBy(catalog, st, s, if s == slot then None else Current(st, s));
    }
  }

  /** A client that is none of the slot's does no harm when it fails to start. */
  lemma OutsiderSafe(catalog: Catalog, st: State, slot: Slot, client: Option<string>,
                     settings: UserSettings.UserSettings, release: Release, luck: Luck)
    requires Good(catalog, st) && slot in catalog && client.Some? && FitsSlot(catalog, slot, client.value)
    requires client.value !in catalog[slot] && FailsAfterWrite(catalog, st, slot, client, settings, luck)
    ensures Good(catalog, Last(st, SetNew(catalog, st, slot, client, settings, release, luck)))
  {
    hide Good;
    hide GoodBut;
    hide Exclusive;
    hide PreviousAccepted;
    hide UnsetPrevious;
    hide SetConfig;
    hide FitsSlot;
    hide FailsAfterWrite;
    FailsAfterWriteIs(catalog, st, slot, client, settings, release, luck);
    UnsetPhase(catalog, st, slot, client, luck);
    var unset := UnsetPrevious(st, slot, client, luck);
    var mid := Last(st, unset);
    SetConfigSafe(catalog, mid, slot, None, client.value, settings, release, luck);
    LastOfBoth(st, unset, SetConfig(mid, client.value, settings, release, luck));
    var last := Last(mid, SetConfig(mid, client.value, settings, release, luck));
    NobodyLeft(catalog, last, slot, client.value);
    GoodButNobody(catalog, last, slot);
  }

  lemma SwitchExactly(catalog: Catalog, st: State, slot: Slot, client: Option<string>, service: string,
                      environment: map<string, Envs>, release: Release, luck: Luck)
    requires Good(catalog, st) && slot in catalog && (client.Some? ==> FitsSlot(catalog, slot, client.value))
    ensures var settings := SettingsFor(slot, service, environment);
      var h := SetNew(catalog, st, slot, client, settings, release, luck);
      && (Good(catalog, Last(st, h))
          <==> !(FailsAfterWrite(catalog, st, slot, client, settings, luck) && client.value in catalog[slot]))
      && forall s :: s in h.states ==> Exclusive(catalog, s)
  {
    hide Good;
    hide Exclusive;
    hide Carrier;
    hide FitsSlot;
    hide SetNew;
    hide SettingsFor;
    var settings := SettingsFor(slot, service, environment);
    SetNewSafe(catalog, st, slot, client, settings, release, luck);
    if FailsAfterWrite(catalog, st, slot, client, settings, luck) {
      hide FailsAfterWrite;
      if client.value in catalog[slot] {
        SetNewCarrier(catalog, st, slot, client.value, service, environment, release, luck);
        assert client == Some(client.value);
      } else {
        OutsiderSafe(catalog, st, slot, client, settings, release, luck);
      }
    }
  }

  /** One operation leaves every slot in order exactly when it is harmless. */
  lemma StepExactly(catalog: Catalog, st: State, op: Op)
    requires Good(catalog, st) && DbFits(catalog, st) && Proper(catalog, op)
    ensures var h := Do(catalog, st, op);
      && (Good(catalog, Last(st, h)) <==> Harmless(catalog, st, op))
      && (Good(catalog, Last(st, h)) ==> forall s :: s in h.states ==> Exclusive(catalog, s))
  {
    hide Good;
    hide DbFits;
    hide Exclusive;
    hide Carrier;
    hide FitsSlot;
    hide SetNew;
    hide SettingsFor;
    hide Persist;
    hide UpdatePackage;
    hide InstallPackage;
    hide FailsAfterWrite;
    hide NoNewRole;
    hide NoNewClaim;
    hide UserSettings.MountpointsAbsolute;
    hide UserSettings.Parse;
    match op {
      case Switch(slot, client, service, environment, release, luck) =>
        SwitchExactly(catalog, st, slot, client, service, environment, release, luck);
      case Refresh(slot, service, environment, luck) =>
        if Current(st, slot).Some? { StoredFits(catalog, st, slot); }
        PersistSafe(catalog, st, slot, SettingsFor(slot, service, environment), luck);
      case Install(dnp, release, settings, order) => InstallExactly(catalog, st, dnp, release, settings, order);
      case Update(dnp, release, order) => UpdateExactly(catalog, st, dnp, release, order);
      case Uninstall(dnp) => UninstallSafe(catalog, st, dnp);
    }
  }

  /** Over every run: after each operation only the client in the database carries a slot, exactly
      when all operations are harmless; and then at every moment at most one client does. */
  lemma {:induction false} RunSafe(catalog: Catalog, st: State, ops: seq<Op>)
    requires Good(catalog, st) && DbFits(catalog, st) && AllProper(catalog, ops)
    ensures GoodThroughout(catalog, st, ops) <==> AllHarmless(catalog, st, ops)
    ensures AllHarmless(catalog, st, ops) ==>
      (forall s :: s in Run(catalog, st, ops) ==> Exclusive(catalog, s))
        && Good(catalog, End(st, Run(catalog, st, ops)))
    decreases ops
  {
    hide Good;
    hide DbFits;
    hide Exclusive;
    hide Harmless;
    hide Proper;
    hide Do;
    if ops != [] {
      StepExactly(catalog, st, ops[0]);
      FitsStep(catalog, st, ops[0]);
      if Harmless(catalog, st, ops[0]) { RunSafe(catalog, Last(st, Do(catalog, st, ops[0])), ops[1..]); }
    }
  }

  // ----- the stored client carries its slot -----

  predicate Declares(slot: Slot, c: Compose)
  {
    StakerNetwork(slot.network) in OrElse(c.networks, map[])
  }

  predicate SettingsDeclare(slot: Slot, settings: UserSettings.UserSettings)
  {
    settings.networks.Some? && StakerNetwork(slot.network) in settings.networks.value.rootNetworks
  }

  /** The settings of a slot declare its network. */
  lemma SettingsForDeclare(slot: Slot, service: string, environment: map<string, Envs>)
    ensures SettingsDeclare(slot, SettingsFor(slot, service, environment))
  {
    hide StakerNetwork;
    hide RoleNetworks;
  }

  /** The client in the database is installed and declares the slot's network. */
  predicate Holds(catalog: Catalog, st: State, slot: Slot)
    requires slot in catalog
  {
    Current(st, slot).Some? &&
    var p := Current(st, slot).value;
    p in catalog[slot] && p in st.packages && Declares(slot, st.packages[p].compose)
  }

  /** Every stored client fits its slot. */
  predicate DbFits(catalog: Catalog, st: State)
  {
    forall s :: s in catalog && s in st.db ==> FitsSlot(catalog, s, st.db[s])
  }

  lemma DeclaresCarrier(slot: Slot, c: Compose)
    ensures Declares(slot, c) ==> Carrier(slot, c)
  {
    hide ServiceCarries;
    hide NetworksOf;
    hide StakerNetwork;
  }

  /** Such a client carries the slot, and nobody else does. */
  lemma HoldsExactly(catalog: Catalog, st: State, slot: Slot)
    requires Good(catalog, st) && slot in catalog && Holds(catalog, st, slot)
    ensures forall p :: Carries(catalog, st, slot, p) <==> Some(p) == Current(st, slot)
  {
    hide Carrier;
    hide Declares;
    hide Good;
    var p := Current(st, slot).value;
    DeclaresCarrier(slot, st.packages[p].compose);
    OnlyCurrent(catalog, st, slot, p);
  }

  /** Whether the client of `slot` holds it after an operation: after a completed switch of the slot
      the chosen client does; it no longer need to after a failed one that wrote something, and after
      it was installed anew or removed. */
  predicate HeldAfter(catalog: Catalog, st: State, op: Op, slot: Slot, held: bool)
    requires slot in catalog
  {
    match op
    case Switch(s, client, service, environment, release, luck) =>
      if s != slot then held
      else
        var h := SetNew(catalog, st, slot, client, SettingsFor(slot, service, environment), release, luck);
        if h.ok then client.Some? && client.value in catalog[slot] else held && h.states == []
    case Refresh(_, _, _, _) => held
    case Install(dnp, release, settings, order) => held && Current(st, slot) != Some(dnp)
    case Update(dnp, release, order) => held
    case Uninstall(dnp) => held && Current(st, slot) != Some(dnp)
  }

  predicate Held(catalog: Catalog, st: State, ops: seq<Op>, slot: Slot, held: bool)
    requires slot in catalog
    decreases ops
  {
    if ops == [] then held
    else Held(catalog, Last(st, Do(catalog, st, ops[0])), ops[1..], slot, HeldAfter(catalog, st, ops[0], slot, held))
  }

  lemma AppliedDeclares(c: Compose, s: UserSettings.UserSettings, slot: Slot, dnp: string)
    requires UserSettings.MountpointsAbsolute(c, s)
    ensures Declares(slot, UserSettings.Applied(c, s, dnp)) <==> Declares(slot, c) || SettingsDeclare(slot, s)
  {
    hide UserSettings.Applied;
    hide StakerNetwork;
    UserSettings.AppliedSections(c, s, dnp);
    UserSettings.CleanMapNone(UserSettings.RootNetworks(c, s));
  }

  lemma SavedDeclares(c: Compose, order: KeyOrder, slot: Slot)
    ensures Declares(slot, Saved(c, order)) <==> Declares(slot, c)
  {
    hide Saved;
    SavedKeepsNetworks(c, order);
  }

  /** A state in which one package was set anew. */
  function WithPackage(st: State, dnp: string, package: Package): State
  {
    st.(packages := st.packages[dnp := package])
  }

  lemma PackageSet(st: State, dnp: string, package: Package)
    ensures var last := WithPackage(st, dnp, package);
      && last.db == st.db && dnp in last.packages && last.packages[dnp] == package
      && forall p :: p != dnp && p in st.packages ==> p in last.packages && last.packages[p] == st.packages[p]
  {
  }

  /** Setting a package writes nothing, or the file with the settings applied. */
  lemma SetConfigIs(st: State, dnp: string, settings: UserSettings.UserSettings, release: Release, luck: Luck)
    returns (version: Version)
    ensures var base := if dnp in st.packages then st.packages[dnp].compose else release.compose;
      var next := UserSettings.Apply(base, settings, dnp);
      var h := SetConfig(st, dnp, settings, release, luck);
      || h == Course([], false)
      || (next.Ok? && h.states == [WithPackage(st, dnp, Package(version, Saved(next.value, luck.order)))])
  {
    hide Saved;
    hide UserSettings.Apply;
    version := if dnp in st.packages then st.packages[dnp].version else release.version;
  }

  lemma AppliedSaved(c: Compose, s: UserSettings.UserSettings, dnp: string, order: KeyOrder, slot: Slot)
    ensures UserSettings.Apply(c, s, dnp).Ok? ==>
      (Declares(slot, Saved(UserSettings.Apply(c, s, dnp).value, order))
       <==> Declares(slot, c) || SettingsDeclare(slot, s))
  {
    hide *;
    UserSettings.ApplyOk(c, s, dnp);
    if UserSettings.Apply(c, s, dnp).Ok? {
      AppliedDeclares(c, s, slot, dnp);
      SavedDeclares(UserSettings.Applied(c, s, dnp), order, slot);
    }
  }

  /** Writing the settings into a package changes that package only, and keeps the declared networks. */
  lemma SetConfigDeclares(st: State, slot: Slot, dnp: string, settings: UserSettings.UserSettings, release: Release,
                          luck: Luck)
    ensures var last := Last(st, SetConfig(st, dnp, settings, release, luck));
      && last.db == st.db
      && (forall p :: p != dnp && p in st.packages ==> p in last.packages && last.packages[p] == st.packages[p])
      && (dnp in st.packages && Declares(slot, st.packages[dnp].compose) ==>
            dnp in last.packages && Declares(slot, last.packages[dnp].compose))
      && (SetConfig(st, dnp, settings, release, luck).ok && SettingsDeclare(slot, settings) ==>
            dnp in last.packages && Declares(slot, last.packages[dnp].compose))
  {
    hide Saved;
    hide SetConfig;
    hide WithPackage;
    hide Declares;
    hide SettingsDeclare;
    hide UserSettings.Apply;
    var base := if dnp in st.packages then st.packages[dnp].compose else release.compose;
    var next := UserSettings.Apply(base, settings, dnp);
    var version := SetConfigIs(st, dnp, settings, release, luck);
    if next.Ok? {
      AppliedSaved(base, settings, dnp, luck.order, slot);
      PackageSet(st, dnp, Package(version, Saved(next.value, luck.order)));
    }
  }

  /** A switch touches the previous and the new client of its own slot only. */
  lemma SwitchFrame(catalog: Catalog, st: State, slot: Slot, client: Option<string>,
                    settings: UserSettings.UserSettings, release: Release, luck: Luck, p: string)
    requires Some(p) != Current(st, slot) && Some(p) != client
    ensures var last := Last(st, SetNew(catalog, st, slot, client, settings, release, luck));
      && (forall s :: s != slot ==> Current(last, s) == Current(st, s))
      && (p in st.packages ==> p in last.packages && last.packages[p] == st.packages[p])
  {
    hide *;
    UnsetFrame(st, slot, client, luck, p);
    var unset := UnsetPrevious(st, slot, client, luck);
    var mid := Last(st, unset);
    StoreFrame(mid, slot, Current(st, slot), client, settings, release, luck, p);
    SwitchIs(catalog, st, slot, client, settings, release, luck);
    SameElsewhere(st, mid, slot);
  }

  lemma SameElsewhere(st: State, after: State, slot: Slot)
    requires after.db == st.db
    ensures forall s :: Current(after, s) == Current(st, s)
  {
  }

  lemma StoreFrame(mid: State, slot: Slot, prev: Option<string>, client: Option<string>,
                   settings: UserSettings.UserSettings, release: Release, luck: Luck, p: string)
    requires Some(p) != client
    ensures var last := Last(mid, SetAndStore(mid, slot, prev, client, settings, release, luck));
      && (forall s :: s != slot ==> Current(last, s) == Current(mid, s))
      && (p in mid.packages ==> p in last.packages && last.packages[p] == mid.packages[p])
  {
    hide *;
    var set_ := if client.Some? then SetConfig(mid, client.value, settings, release, luck) else Course([], true);
    if client.Some? { SetConfigDeclares(mid, slot, client.value, settings, release, luck); }
    LastOfNothing(mid, set_);
    StoreIs(mid, slot, prev, client, settings, release, luck);
    SameElsewhere(mid, Last(mid, set_), slot);
    WithDbElsewhere(Last(mid, set_), slot, client);
  }

  lemma LastOfNothing(st: State, h: Course)
    ensures h.states == [] ==> Last(st, h) == st
  {
  }

  lemma WithDbElsewhere(st: State, slot: Slot, client: Option<string>)
    ensures WithDb(st, slot, client).packages == st.packages
    ensures forall s :: s != slot ==> Current(WithDb(st, slot, client), s) == Current(st, s)
  {
  }

  /** Configuring and storing ends after the first, or after both. */
  lemma StoreIs(mid: State, slot: Slot, prev: Option<string>, client: Option<string>,
                settings: UserSettings.UserSettings, release: Release, luck: Luck)
    ensures var set_ := if client.Some? then SetConfig(mid, client.value, settings, release, luck)
      else Course([], true);
      var last := Last(mid, SetAndStore(mid, slot, prev, client, settings, release, luck));
      last == Last(mid, set_) || last == WithDb(Last(mid, set_), slot, client)
  {
    hide SetConfig;
    hide WithDb;
  }

  /** A switch ends where it began, or after the unsetting, or after the rest too. */
  lemma SwitchIs(catalog: Catalog, st: State, slot: Slot, client: Option<string>, settings: UserSettings.UserSettings,
                 release: Release, luck: Luck)
    ensures var last := Last(st, SetNew(catalog, st, slot, client, settings, release, luck));
      var mid := Last(st, UnsetPrevious(st, slot, client, luck));
      || last == st
      || last == mid
      || last == Last(mid, SetAndStore(mid, slot, Current(st, slot), client, settings, release, luck))
  {
    hide PreviousAccepted;
    hide UnsetPrevious;
    hide SetAndStore;
    var unset := UnsetPrevious(st, slot, client, luck);
    var mid := Last(st, unset);
    LastOfBoth(st, unset, SetAndStore(mid, slot, Current(st, slot), client, settings, release, luck));
  }

  /** A completed switch to a client with the settings of the slot. */
  lemma SwitchHolds(catalog: Catalog, st: State, slot: Slot, client: Option<string>,
                    settings: UserSettings.UserSettings, release: Release, luck: Luck)
    requires Good(catalog, st) && slot in catalog && client.Some? && client.value in catalog[slot]
    requires FitsSlot(catalog, slot, client.value) && SettingsDeclare(slot, settings)
    requires SetNew(catalog, st, slot, client, settings, release, luck).ok
    ensures Holds(catalog, Last(st, SetNew(catalog, st, slot, client, settings, release, luck)), slot)
  {
    hide Good;
    hide Exclusive;
    hide PreviousAccepted;
    hide UnsetPrevious;
    hide SetConfig;
    hide Declares;
    hide SettingsDeclare;
    hide FitsSlot;
    hide FailsAfterWrite;
    SetNewSafe(catalog, st, slot, client, settings, release, luck);
    var unset := UnsetPrevious(st, slot, client, luck);
    var mid := Last(st, unset);
    SetConfigDeclares(mid, slot, client.value, settings, release, luck);
    LastOfBoth(st, unset, SetAndStore(mid, slot, Current(st, slot), client, settings, release, luck));
  }

  lemma UpdateDeclares(st: State, slot: Slot, dnp: string, release: Release, order: KeyOrder)
    ensures var last := Last(st, UpdatePackage(st, dnp, release, order));
      && last.db == st.db
      && (forall p :: p != dnp && p in st.packages ==> p in last.packages && last.packages[p] == st.packages[p])
      && (dnp in st.packages && Declares(slot, st.packages[dnp].compose) ==>
            dnp in last.packages && Declares(slot, last.packages[dnp].compose))
  {
    hide *;
    UpdateIs(st, dnp, release, order);
    if dnp in st.packages {
      var c := st.packages[dnp].compose;
      var w := UserSettings.Parse(c);
      var next := UserSettings.Apply(release.compose, w, dnp);
      if next.Ok? {
        AppliedSaved(release.compose, w, dnp, order, slot);
        ParsedDeclares(c, slot);
        PackageSet(st, dnp, Package(release.version, Saved(next.value, order)));
      }
    }
  }

  lemma UpdateIs(st: State, dnp: string, release: Release, order: KeyOrder)
    ensures var last := Last(st, UpdatePackage(st, dnp, release, order));
      if dnp !in st.packages then last == st
      else
        var next := UserSettings.Apply(release.compose, UserSettings.Parse(st.packages[dnp].compose), dnp);
        last == if next.Err? then st else WithPackage(st, dnp, Package(release.version, Saved(next.value, order)))
  {
    hide Saved;
    hide UserSettings.Apply;
    hide UserSettings.Parse;
  }

  lemma ParsedDeclares(c: Compose, slot: Slot)
    ensures Declares(slot, c) ==> SettingsDeclare(slot, UserSettings.Parse(c))
  {
    hide UserSettings.Mountpoints;
    hide UserSettings.OmitEmpty;
    hide StakerNetwork;
  }

  /** An operation that leaves the client of a slot, its choice and its declarations alone. */
  lemma HoldsStill(catalog: Catalog, st: State, after: State, slot: Slot)
    requires slot in catalog && Holds(catalog, st, slot) && Current(after, slot) == Current(st, slot)
    requires var p := Current(st, slot).value;
      p in after.packages && (Declares(slot, st.packages[p].compose) ==> Declares(slot, after.packages[p].compose))
    ensures Holds(catalog, after, slot)
  {
    hide Declares;
  }

  /** The client of one slot is not chosen for another. */
  lemma OtherClient(catalog: Catalog, st: State, slot: Slot, other: Slot, dnp: string)
    requires slot in catalog && Holds(catalog, st, slot) && slot != other && FitsSlot(catalog, other, dnp)
    ensures Current(st, slot) != Some(dnp)
  {
    hide Declares;
  }

  lemma StoredFits(catalog: Catalog, st: State, slot: Slot)
    requires DbFits(catalog, st) && slot in catalog && Current(st, slot).Some?
    ensures FitsSlot(catalog, slot, Current(st, slot).value)
  {
    hide FitsSlot;
  }

  lemma SwitchStep(catalog: Catalog, st: State, op: Op, slot: Slot, held: bool)
    requires op.Switch? && Good(catalog, st) && DbFits(catalog, st) && Proper(catalog, op)
    requires slot in catalog && (held ==> Holds(catalog, st, slot))
    ensures HeldAfter(catalog, st, op, slot, held) ==> Holds(catalog, Last(st, Do(catalog, st, op)), slot)
  {
    hide Good;
    hide DbFits;
    hide FitsSlot;
    hide SetNew;
    hide Declares;
    hide SettingsDeclare;
    hide SettingsFor;
    var Switch(s, client, service, environment, release, luck) := op;
    var settings := SettingsFor(s, service, environment);
    SettingsForDeclare(s, service, environment);
    if HeldAfter(catalog, st, op, slot, held) {
      if s == slot {
        if SetNew(catalog, st, slot, client, settings, release, luck).ok {
          SwitchHolds(catalog, st, slot, client, settings, release, luck);
        }
      } else {
        var p := Current(st, slot).value;
        if Current(st, s).Some? {
          StoredFits(catalog, st, s);
          OtherClient(catalog, st, slot, s, Current(st, s).value);
        }
        if client.Some? { OtherClient(catalog, st, slot, s, client.value); }
        SwitchFrame(catalog, st, s, client, settings, release, luck, p);
        HoldsStill(catalog, st, Last(st, Do(catalog, st, op)), slot);
      }
    }
  }

  lemma RefreshStep(catalog: Catalog, st: State, op: Op, slot: Slot)
    requires op.Refresh? && DbFits(catalog, st) && Proper(catalog, op) && slot in catalog && Holds(catalog, st, slot)
    ensures Holds(catalog, Last(st, Do(catalog, st, op)), slot)
  {
    hide FitsSlot;
    hide DbFits;
    hide SetConfig;
    hide Declares;
    hide SettingsFor;
    var Refresh(s, service, environment, luck) := op;
    var settings := SettingsFor(s, service, environment);
    var current := Current(st, s);
    if current.Some? {
      StoredFits(catalog, st, s);
      if s != slot { OtherClient(catalog, st, slot, s, current.value); }
      if current.value in st.packages {
        SetConfigDeclares(st, slot, current.value, settings, Release((0, 0, 0), st.packages[current.value].compose),
          luck);
      }
      HoldsStill(catalog, st, Last(st, Do(catalog, st, op)), slot);
    }
  }

  lemma HoldsStep(catalog: Catalog, st: State, op: Op, slot: Slot, held: bool)
    requires Good(catalog, st) && DbFits(catalog, st) && Proper(catalog, op)
    requires slot in catalog && (held ==> Holds(catalog, st, slot))
    ensures HeldAfter(catalog, st, op, slot, held) ==> Holds(catalog, Last(st, Do(catalog, st, op)), slot)
  {
    hide Good;
    hide DbFits;
    hide Proper;
    hide Holds;
    hide SetNew;
    hide SettingsFor;
    hide Persist;
    hide UpdatePackage;
    hide InstallPackage;
    hide Declares;
    hide SettingsDeclare;
    if op.Switch? {
      SwitchStep(catalog, st, op, slot, held);
    } else if HeldAfter(catalog, st, op, slot, held) {
      HoldsMeans(catalog, st, slot);
      match op {
        case Refresh(_, _, _, _) =>
          RefreshStep(catalog, st, op, slot);
        case Update(dnp, release, order) =>
          UpdateStep(catalog, st, slot, dnp, release, order);
        case Install(dnp, release, settings, order) =>
          InstallFrame(st, dnp, release, settings, order);
          HoldsStill(catalog, st, Last(st, Do(catalog, st, op)), slot);
        case Uninstall(dnp) =>
          HoldsStill(catalog, st, Last(st, Do(catalog, st, op)), slot);
        case _ =>
      }
    }
  }

  lemma UpdateStep(catalog: Catalog, st: State, slot: Slot, dnp: string, release: Release, order: KeyOrder)
    requires slot in catalog && Holds(catalog, st, slot)
    ensures Holds(catalog, Last(st, UpdatePackage(st, dnp, release, order)), slot)
  {
    hide *;
    HoldsMeans(catalog, st, slot);
    UpdateDeclares(st, slot, dnp, release, order);
    var p, after := Current(st, slot).value, Last(st, UpdatePackage(st, dnp, release, order));
    SameElsewhere(st, after, slot);
    HoldsStill(catalog, st, after, slot);
  }

  lemma InstallFrame(st: State, dnp: string, release: Release, settings: UserSettings.UserSettings, order: KeyOrder)
    ensures var last := Last(st, InstallPackage(st, dnp, release, settings, order));
      && last.db == st.db
      && (forall p :: p != dnp && p in st.packages ==> p in last.packages && last.packages[p] == st.packages[p])
  {
    hide Saved;
    hide UserSettings.Apply;
  }

  lemma HoldsMeans(catalog: Catalog, st: State, slot: Slot)
    requires slot in catalog && Holds(catalog, st, slot)
    ensures Current(st, slot).Some? && Current(st, slot).value in st.packages
    ensures Declares(slot, st.packages[Current(st, slot).value].compose)
  {
    hide Declares;
  }

  /** Stored clients keep fitting their slots. */
  lemma FitsStep(catalog: Catalog, st: State, op: Op)
    requires DbFits(catalog, st) && Proper(catalog, op)
    ensures DbFits(catalog, Last(st, Do(catalog, st, op)))
  {
    hide FitsSlot;
    hide SettingsFor;
    hide SetNew;
    hide Persist;
    hide UpdatePackage;
    hide InstallPackage;
    match op {
      case Switch(slot, client, service, environment, release, luck) =>
        StoredOnly(catalog, st, slot, client, SettingsFor(slot, service, environment), release, luck);
      case Refresh(slot, service, environment, luck) =>
        RefreshStores(st, slot, SettingsFor(slot, service, environment), luck);
      case Install(dnp, release, settings, order) => InstallFrame(st, dnp, release, settings, order);
      case Update(dnp, release, order) => UpdateStores(st, dnp, release, order);
      case _ =>
    }
  }

  lemma RefreshStores(st: State, slot: Slot, settings: UserSettings.UserSettings, luck: Luck)
    ensures var last := Last(st, Persist(st, slot, settings, luck));
      last.db == st.db || last.db == WithDb(st, slot, None).db
  {
    hide SetConfig;
    var current := Current(st, slot);
    if current.Some? && current.value in st.packages {
      SetConfigDeclares(st, slot, current.value, settings, Release((0, 0, 0), st.packages[current.value].compose),
        luck);
    }
  }

  lemma UpdateStores(st: State, dnp: string, release: Release, order: KeyOrder)
    ensures Last(st, UpdatePackage(st, dnp, release, order)).db == st.db
  {
    hide Saved;
    hide UserSettings.Apply;
    hide UserSettings.Parse;
  }

  /** A switch stores the new choice, or leaves the database as it was. */
  lemma StoredOnly(catalog: Catalog, st: State, slot: Slot, client: Option<string>, settings: UserSettings.UserSettings,
                   release: Release, luck: Luck)
    ensures var last := Last(st, SetNew(catalog, st, slot, client, settings, release, luck));
      last.db == st.db || last.db == WithDb(st, slot, client).db
  {
    hide PreviousAccepted;
    hide SetConfig;
    hide Unset;
    UnsetDb(st, slot, client, luck);
    hide UnsetPrevious;
    var unset := UnsetPrevious(st, slot, client, luck);
    var mid := Last(st, unset);
    if client.Some? { SetConfigDeclares(mid, slot, client.value, settings, release, luck); }
    LastOfBoth(st, unset, SetAndStore(mid, slot, Current(st, slot), client, settings, release, luck));
  }

  lemma UnsetDb(st: State, slot: Slot, client: Option<string>, luck: Luck)
    ensures Last(st, UnsetPrevious(st, slot, client, luck)).db == st.db
  {
    hide Saved;
    hide RemoveStakerNetwork;
    hide RemoveFullnodeAliases;
  }

  lemma EndOfStep(catalog: Catalog, st: State, ops: seq<Op>)
    requires ops != []
    ensures var h := Do(catalog, st, ops[0]);
      End(st, Run(catalog, st, ops)) == End(Last(st, h), Run(catalog, Last(st, h), ops[1..]))
  {
    hide Do;
  }

  /** Over every run: while the slot is held, exactly the client in the database carries it. */
  lemma {:induction false} HeldRun(catalog: Catalog, st: State, ops: seq<Op>, slot: Slot, held: bool)
    requires Good(catalog, st) && DbFits(catalog, st) && AllProper(catalog, ops) && AllHarmless(catalog, st, ops)
    requires slot in catalog && (held ==> Holds(catalog, st, slot))
    ensures var end := End(st, Run(catalog, st, ops));
      Held(catalog, st, ops, slot, held) ==>
        forall p :: Carries(catalog, end, slot, p) <==> Some(p) == Current(end, slot)
    decreases ops
  {
    hide Good;
    hide DbFits;
    hide Harmless;
    hide Proper;
    hide Holds;
    hide HeldAfter;
    hide Carries;
    hide Do;
    if ops == [] {
      if held { HoldsExactly(catalog, st, slot); }
    } else {
      StepExactly(catalog, st, ops[0]);
      FitsStep(catalog, st, ops[0]);
      HoldsStep(catalog, st, ops[0], slot, held);
      EndOfStep(catalog, st, ops);
      hide Run;
      HeldRun(catalog, Last(st, Do(catalog, st, ops[0])), ops[1..], slot, HeldAfter(catalog, st, ops[0], slot, held));
    }
  }

  // ----- published files -----

  predicate Ends(s: string, suffix: string)
  {
    |suffix| <= |s| && s[|s| - |suffix|..] == suffix
  }

  /** A package whose aliases cannot be a full node's: its short name does not end like them. */
  predicate OrdinaryName(dnpName: string)
  {
    !Ends("." + NetworkAlias.Short(dnpName), ".dncore")
  }

  predicate FullnodeAlias(a: string)
  {
    Ends(a, ".dncore.dappnode")
  }

  lemma FullnodeAliasesEnd(slot: Slot, a: string)
    requires a in FullnodeAliases(slot)
    ensures FullnodeAlias(a)
  {
    var ending := ".dncore.dappnode";
    var who :=
      if slot.role.Execution? then "execution."
      else if a == FullnodeAliases(slot)[0] then "beacon-chain."
      else "validator.";
    assert a == who + slot.network + ending;
  }

  lemma EndsSplit(s: string, suffix: string, more: string)
    ensures Ends(s + more, suffix + more) <==> Ends(s, suffix)
  {
    var whole := s + more;
    if |suffix| <= |s| {
      var k := |s| - |suffix|;
      assert whole[k..] == s[k..] + more;
      if s[k..] + more == suffix + more { Strings.SameEnding(s[k..], suffix, more); }
    }
  }

  lemma EndsInside(n: string, s: string)
    ensures Ends(n + ("." + s), ".dncore") ==> Ends("." + s, ".dncore")
  {
    var whole, part := n + ("." + s), "." + s;
    if |whole| >= 7 {
      var tail := whole[|whole| - 7..];
      if |part| < 7 {
        var k := |n| - (|whole| - 7);
        assert tail[k] == part[0];
        assert ".dncore"[k] != '.';
      } else {
        assert tail == part[|part| - 7..];
      }
    }
  }

  lemma EndsTail(s: string)
    ensures Ends(s, ".dncore") ==> Ends("." + s, ".dncore")
  {
    if Ends(s, ".dncore") { assert ("." + s)[|s| + 1 - 7..] == s[|s| - 7..]; }
  }

  lemma CoreEnding()
    ensures NetworkAlias.EndDomain(NetworkAlias.Core) == ".dappnode" && ".dncore.dappnode" == ".dncore" + ".dappnode"
  {
  }

  lemma AdminAliasesEnd(a: string)
    requires a in NetworkAlias.AdminAliases(NetworkAlias.Core)
    ensures !FullnodeAlias(a)
  {
    var ending := ".dncore.dappnode";
    assert ending[6] == 'e';
    if |a| >= 16 { assert a[|a| - 16..][6] == a[|a| - 10]; }
  }

  /** The aliases generated for an ordinary package are no full node's. */
  lemma GeneratedOrdinary(dnpName: string, n: string, main: bool, a: string)
    requires OrdinaryName(dnpName) && a in NetworkAlias.PrivateNetworkAliases(dnpName, n, main, NetworkAlias.Core)
    ensures !FullnodeAlias(a)
  {
    hide *;
    NetworkAlias.GeneratedAliases(dnpName, n, main, NetworkAlias.Core, a);
    if a in NetworkAlias.AdminAliases(NetworkAlias.Core) {
      AdminAliasesEnd(a);
    } else {
      OwnAliasesOrdinary(dnpName, n, a);
    }
  }

  lemma OwnAliasesOrdinary(dnpName: string, n: string, a: string)
    requires OrdinaryName(dnpName)
    requires a == NetworkAlias.Alias(dnpName, n, false, NetworkAlias.Core)
      || a == NetworkAlias.Alias(dnpName, n, true, NetworkAlias.Core)
    ensures !FullnodeAlias(a)
  {
    hide NetworkAlias.Short;
    hide NetworkAlias.EndDomain;
    hide Ends;
    CoreEnding();
    var short := NetworkAlias.Short(dnpName);
    EndsSplit(n + ("." + short), ".dncore", ".dappnode");
    EndsSplit(short, ".dncore", ".dappnode");
    EndsInside(n, short);
    EndsTail(short);
    assert n + "." + short + ".dappnode" == n + ("." + short) + ".dappnode";
  }

  /** A valid file completed with the defaults claims no staker network and no full node's alias. */
  lemma DefaultsClaimNothing(c: Compose, m: ComposeRules.Manifest, naming: ComposeDefaults.Naming, slot: Slot)
    requires ComposeRules.Valid(c, m) && OrdinaryName(m.name)
    requires StakerNetwork(slot.network) !in ComposeRules.WHITELIST_NETWORKS
    ensures !Carrier(slot, ComposeDefaults.Defaulted(c, m, naming))
  {
    hide *;
    var d := ComposeDefaults.Defaulted(c, m, naming);
    ComposeDefaults.DefaultedSections(c, m, naming);
    DeclaredAllowed(c, m);
    forall n | n in d.services ensures !ServiceCarries(slot, NetworksOf(d.services[n])) {
      var main := ComposeDefaults.Main(c, m, n);
      ComposeDefaults.DefaultedServices(c, m, naming, n);
      ComposeDefaults.CleanDefault(m, naming, n, main, c.services[n]);
      NetworksOfObject(d.services[n], ComposeDefaults.JoinedNetworks(m, n, main, c.services[n].networks));
      JoinedClaimNothing(c, m, n, main, slot);
    }
    NotCarrier(slot, d, ComposeDefaults.DeclaredNetworks(c.networks));
  }

  lemma NetworksOfObject(s: Service, nets: NetworksObject)
    requires s.networks == Some(NetworkObject(nets))
    ensures NetworksOf(s) == nets
  {
  }

  lemma NotCarrier(slot: Slot, c: Compose, root: map<string, Network>)
    requires c.networks == Some(root) && StakerNetwork(slot.network) !in root
    requires forall n :: n in c.services ==> !ServiceCarries(slot, NetworksOf(c.services[n]))
    ensures !Carrier(slot, c)
  {
    hide ServiceCarries;
    hide NetworksOf;
    hide StakerNetwork;
  }

  lemma PrivateNetworksAllowed()
    ensures ComposeDefaults.DNCORE in ComposeRules.WHITELIST_NETWORKS
      && ComposeDefaults.DNPRIVATE in ComposeRules.WHITELIST_NETWORKS
    ensures ComposeDefaults.DNCORE == DNCORE
  {
    assert ComposeRules.WHITELIST_NETWORKS[0] == DNCORE && ComposeRules.WHITELIST_NETWORKS[1] == DNPRIVATE;
  }

  lemma DeclaredAllowed(c: Compose, m: ComposeRules.Manifest)
    requires ComposeRules.Valid(c, m)
    ensures forall k :: k in ComposeDefaults.DeclaredNetworks(c.networks) ==> k in ComposeRules.WHITELIST_NETWORKS
  {
    PrivateNetworksAllowed();
    hide ComposeRules.WHITELIST_NETWORKS;
    hide ComposeRules.ServiceValid;
    hide ComposeRules.ReadVersion;
  }

  lemma ValidNetworks(c: Compose, m: ComposeRules.Manifest, n: string)
    requires ComposeRules.Valid(c, m) && n in c.services
    ensures forall k :: k in NetworksOf(c.services[n]) ==> k in ComposeRules.WHITELIST_NETWORKS
  {
    hide ComposeRules.WHITELIST_NETWORKS;
    hide ComposeRules.ReadVersion;
    hide ComposeRules.ReservedAliasOf;
    hide ComposeRules.RowAllowed;
    hide NetworksOf;
    assert ComposeRules.ServiceValid(c, m, n);
  }

  lemma JoinedClaimNothing(c: Compose, m: ComposeRules.Manifest, n: string, main: bool, slot: Slot)
    requires ComposeRules.Valid(c, m) && n in c.services && OrdinaryName(m.name)
    requires StakerNetwork(slot.network) !in ComposeRules.WHITELIST_NETWORKS
    ensures !ServiceCarries(slot, ComposeDefaults.JoinedNetworks(m, n, main, c.services[n].networks))
  {
    hide *;
    var nets := ComposeDefaults.JoinedNetworks(m, n, main, c.services[n].networks);
    ComposeDefaults.JoinedNetworksAre(m, n, main, c.services[n].networks);
    GivenNetworks(c.services[n]);
    PrivateNetworksAllowed();
    ValidNetworks(c, m, n);
    assert StakerNetwork(slot.network) !in nets;
    var given := NetworksOf(c.services[n]);
    CoreAliases(m, n, main, nets[DNCORE], if DNCORE in given then given[DNCORE] else NO_NETWORK);
    forall a | a in FullnodeAliases(slot) ensures a !in UserSettings.Aliases(nets[DNCORE]) {
      FullnodeAliasesEnd(slot, a);
      if a in UserSettings.Aliases(nets[DNCORE]) { GeneratedOrdinary(m.name, n, main, a); }
    }
    ClaimsNothing(slot, nets);
  }

  lemma GivenNetworks(s: Service)
    ensures ParseNetworks(OrElse(s.networks, NetworkObject(map[]))) == NetworksOf(s)
  {
  }

  lemma CoreAliases(m: ComposeRules.Manifest, n: string, main: bool, core: ServiceNetwork, given: ServiceNetwork)
    requires core == ComposeDefaults.CoreNetwork(m, n, main, given)
    ensures UserSettings.Aliases(core) == NetworkAlias.PrivateNetworkAliases(m.name, n, main, NetworkAlias.Core)
  {
    hide NetworkAlias.PrivateNetworkAliases;
  }

  lemma ClaimsNothing(slot: Slot, nets: NetworksObject)
    requires StakerNetwork(slot.network) !in nets && DNCORE in nets
    requires forall a :: a in FullnodeAliases(slot) ==> a !in UserSettings.Aliases(nets[DNCORE])
    ensures !ServiceCarries(slot, nets)
  {
    hide StakerNetwork;
    hide FullnodeAliases;
    hide UserSettings.Aliases;
  }

  /** The file of a published release: a valid one, completed with the defaults. */
  ghost predicate Published(dnp: string, c: Compose)
  {
    exists source: Compose, m: ComposeRules.Manifest, naming: ComposeDefaults.Naming ::
      m.name == dnp && ComposeRules.Valid(source, m) && ComposeDefaults.SetDefaults(source, m, naming) == Ok(c)
  }

  /** Slots and clients as they are: no slot's network is one of the system's own. */
  predicate OrdinaryCatalog(catalog: Catalog)
  {
    forall s :: s in catalog ==>
      && StakerNetwork(s.network) !in ComposeRules.WHITELIST_NETWORKS
      && forall dnp :: dnp in catalog[s] ==> OrdinaryName(dnp)
  }

  lemma PublishedUnclaimed(catalog: Catalog, dnp: string, c: Compose)
    requires OrdinaryCatalog(catalog) && Published(dnp, c)
    ensures Unclaimed(catalog, dnp, c)
  {
    hide Carrier;
    hide StakerNetwork;
    hide OrdinaryName;
    hide ComposeRules.Valid;
    hide ComposeDefaults.SetDefaults;
    hide ComposeRules.WHITELIST_NETWORKS;
    var source: Compose, m: ComposeRules.Manifest, naming: ComposeDefaults.Naming :|
      m.name == dnp && ComposeRules.Valid(source, m) && ComposeDefaults.SetDefaults(source, m, naming) == Ok(c);
    ComposeDefaults.DefaultsOk(source, m, naming);
    forall s | s in catalog && dnp in catalog[s] ensures !Carrier(s, c) {
      DefaultsClaimNothing(source, m, naming, s);
    }
  }

  /** Published releases are installed, with settings that claim nothing, and updated to. */
  ghost predicate Ordinary(catalog: Catalog, op: Op)
  {
    match op
    case Install(dnp, release, settings, order) =>
      Published(dnp, release.compose)
      && forall s :: s in catalog && dnp in catalog[s] ==> !SettingsClaim(s, settings, release.compose)
    case Update(dnp, release, order) => Published(dnp, release.compose)
    case _ => true
  }

  /** No newly chosen client of a slot fails to start after its file was written. */
  predicate AllStart(catalog: Catalog, st: State, ops: seq<Op>)
    requires AllProper(catalog, ops)
    decreases ops
  {
    ops == [] ||
      (&& (ops[0].Switch? ==> Harmless(catalog, st, ops[0]))
       && AllStart(catalog, Last(st, Do(catalog, st, ops[0])), ops[1..]))
  }

  lemma OrdinaryHarmless(catalog: Catalog, st: State, op: Op)
    requires OrdinaryCatalog(catalog) && Ordinary(catalog, op) && Proper(catalog, op) && !op.Switch?
    ensures Harmless(catalog, st, op)
  {
    hide OrdinaryCatalog;
    hide Published;
    hide Carrier;
    hide SettingsClaim;
    hide UserSettings.MountpointsAbsolute;
    hide UserSettings.Parse;
    match op {
      case Install(dnp, release, settings, order) => PublishedUnclaimed(catalog, dnp, release.compose);
      case Update(dnp, release, order) => PublishedUnclaimed(catalog, dnp, release.compose);
      case _ =>
    }
  }

  lemma {:induction false} OrdinaryRun(catalog: Catalog, st: State, ops: seq<Op>)
    requires OrdinaryCatalog(catalog) && AllProper(catalog, ops)
    requires forall i :: 0 <= i < |ops| ==> Ordinary(catalog, ops[i])
    ensures AllHarmless(catalog, st, ops) <==> AllStart(catalog, st, ops)
    decreases ops
  {
    hide OrdinaryCatalog;
    hide Ordinary;
    hide Proper;
    hide Harmless;
    hide Do;
    if ops != [] {
      if !ops[0].Switch? { OrdinaryHarmless(catalog, st, ops[0]); }
      OrdinaryRun(catalog, Last(st, Do(catalog, st, ops[0])), ops[1..]);
    }
  }

  /** A system with nothing installed and nothing chosen. */
  const FRESH := State(map[], map[])

  lemma FreshIsGood(catalog: Catalog)
    ensures Good(catalog, FRESH) && DbFits(catalog, FRESH)
  {
    hide Carrier;
  }

  /** From a fresh system, with published releases: after each operation only the client in the
      database carries a slot, exactly when no start fails after the write; then at every moment at
      most one client carries it, and in the end exactly the stored one while the slot is held. */
  lemma FreshRun(catalog: Catalog, ops: seq<Op>, slot: Slot)
    requires OrdinaryCatalog(catalog) && AllProper(catalog, ops) && slot in catalog
    requires forall i :: 0 <= i < |ops| ==> Ordinary(catalog, ops[i])
    ensures GoodThroughout(catalog, FRESH, ops) <==> AllStart(catalog, FRESH, ops)
    ensures AllStart(catalog, FRESH, ops) ==> forall s :: s in Run(catalog, FRESH, ops) ==> Exclusive(catalog, s)
    ensures var end := End(FRESH, Run(catalog, FRESH, ops));
      AllStart(catalog, FRESH, ops) && Held(catalog, FRESH, ops, slot, false) ==>
        forall p :: Carries(catalog, end, slot, p) <==> Some(p) == Current(end, slot)
  {
    hide *;
    OrdinaryRun(catalog, FRESH, ops);
    FreshIsGood(catalog);
    RunSafe(catalog, FRESH, ops);
    if AllStart(catalog, FRESH, ops) { HeldRun(catalog, FRESH, ops, slot, false); }
  }
}
