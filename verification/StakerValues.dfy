/** What switching a staking client writes, value by value (packages/stakers/src/execution.ts, consensus.ts,
    stakerComponent.ts). */
module StakerValues {
  import opened Wrappers
  import opened Compose
  import opened Environment
  import opened ComposeEditor
  import opened Stakers
  import UserSettings

  // ----- names -----

  /** The Docker network of each network that has clients. */
  lemma NetworkNames()
    ensures StakerNetwork("mainnet") == "mainnet_network" && StakerNetwork("gnosis") == "gnosis_network"
    ensures StakerNetwork("holesky") == "holesky_network" && StakerNetwork("hoodi") == "hoodi_network"
    ensures StakerNetwork("sepolia") == "sepolia_network" && StakerNetwork("prater") == "prater_network"
    ensures StakerNetwork("lukso") == "lukso_network" && StakerNetwork("starknet") == "starknet_network"
    ensures StakerNetwork("starknet-sepolia") == "starknet_sepolia_network"
  {
    LongName();
    assert "mainnet" + "_network" == "mainnet_network" && "gnosis" + "_network" == "gnosis_network";
    assert "holesky" + "_network" == "holesky_network" && "hoodi" + "_network" == "hoodi_network";
    assert "sepolia" + "_network" == "sepolia_network" && "prater" + "_network" == "prater_network";
    assert "lukso" + "_network" == "lukso_network" && "starknet" + "_network" == "starknet_network";
  }

  lemma LongName()
    ensures |"starknet-sepolia"| == 16
  {
  }

  predicate Starknet(network: string)
  {
    network == "starknet" || network == "starknet-sepolia"
  }

  /** The names under which the services of a slot's client are reached. */
  function ServiceAlias(slot: Slot, n: string): string
  {
    if slot.role.Execution? then "execution" else n
  }

  /** The services that get settings. */
  predicate Configured(slot: Slot, service: string, n: string)
  {
    match slot.role
    case Execution => n == service
    case Consensus => if Starknet(slot.network) then n == "staking" else n == "beacon-chain" || n == "validator"
  }

  /** The settings of a slot: three networks for each configured service, with one alias each, two
      networks declared external, and variables for a consensus client only. */
  lemma SettingsAre(slot: Slot, service: string, environment: map<string, Envs>)
    ensures var s := SettingsFor(slot, service, environment);
      && s.networks.Some? && s.portMappings == None && s.namedVolumeMountpoints == None
      && s.allNamedVolumeMountpoint == None
      && s.environment == (if slot.role.Consensus? then Some(environment) else None)
      && s.networks.value.rootNetworks.Keys == {StakerNetwork(slot.network), "dncore_network"}
      && (forall k :: k in s.networks.value.rootNetworks ==>
            s.networks.value.rootNetworks[k] == Network(Some(true), map[]))
      && (forall n :: n in s.networks.value.serviceNetworks <==> Configured(slot, service, n))
      && forall n :: n in s.networks.value.serviceNetworks ==>
           && s.networks.value.serviceNetworks[n].NetworkObject?
           && RoleGiven(s.networks.value.serviceNetworks[n].networks, ServiceAlias(slot, n), slot.network)
  {
    hide StakerNetwork;
    SystemNetworks(slot.network);
    RoleNetworksAre("execution", slot.network);
    RoleNetworksAre("staking", slot.network);
    RoleNetworksAre("beacon-chain", slot.network);
    RoleNetworksAre("validator", slot.network);
    hide RoleNetworks;
    hide RoleGiven;
  }

  /** What one service is given. */
  predicate RoleGiven(nets: NetworksObject, name: string, network: string)
  {
    && nets.Keys == {StakerNetwork(network), "dncore_network", "dnprivate_network"}
    && (StakerNetwork(network) != "dncore_network" && StakerNetwork(network) != "dnprivate_network" ==>
          nets[StakerNetwork(network)] == ServiceNetwork(None, Some([name + "." + network + ".staker.dappnode"])))
    && nets["dncore_network"] == ServiceNetwork(None, Some([name + "." + network + ".dncore.dappnode"]))
    && nets["dnprivate_network"] == ServiceNetwork(None, Some([name + "." + network + ".dappnode.private"]))
  }

  lemma SystemNetworks(network: string)
    ensures "dncore_network" != "dnprivate_network"
  {
    assert |"dncore_network"| != |"dnprivate_network"|;
  }

  lemma RoleNetworksAre(name: string, network: string)
    ensures RoleGiven(RoleNetworks(name, network), name, network)
  {
    hide StakerNetwork;
    SystemNetworks(network);
  }

  // ----- the aliases that are handed out and taken back -----

  /** The settings give a service this alias on the core network. */
  predicate GivenTo(s: UserSettings.UserSettings, n: string, a: string)
  {
    && s.networks.Some? && n in s.networks.value.serviceNetworks
    && var nets := ParseNetworks(s.networks.value.serviceNetworks[n]);
       DNCORE in nets && a in UserSettings.Aliases(nets[DNCORE])
  }

  ghost predicate HandedOut(slot: Slot, service: string, environment: map<string, Envs>, a: string)
  {
    exists n :: GivenTo(SettingsFor(slot, service, environment), n, a)
  }

  lemma GivenToIs(slot: Slot, service: string, environment: map<string, Envs>, n: string, a: string)
    ensures GivenTo(SettingsFor(slot, service, environment), n, a)
      <==> Configured(slot, service, n) && a == ServiceAlias(slot, n) + "." + slot.network + ".dncore.dappnode"
  {
    SettingsAre(slot, service, environment);
    hide SettingsFor;
    hide StakerNetwork;
    hide Configured;
    hide ServiceAlias;
  }

  /** What is handed out, by name. */
  lemma HandedOutIs(slot: Slot, service: string, environment: map<string, Envs>, a: string)
    ensures HandedOut(slot, service, environment, a) <==>
      match slot.role
      case Execution => a == "execution." + slot.network + ".dncore.dappnode"
      case Consensus =>
        if Starknet(slot.network) then a == "staking." + slot.network + ".dncore.dappnode"
        else
          a in ["beacon-chain." + slot.network + ".dncore.dappnode", "validator." + slot.network + ".dncore.dappnode"]
  {
    hide GivenTo;
    hide SettingsFor;
    var s := SettingsFor(slot, service, environment);
    forall n ensures GivenTo(s, n, a)
      <==> Configured(slot, service, n) && a == ServiceAlias(slot, n) + "." + slot.network + ".dncore.dappnode"
    {
      GivenToIs(slot, service, environment, n, a);
    }
    Dotted(slot.network);
    if slot.role.Execution? {
      assert Configured(slot, service, service);
    } else if Starknet(slot.network) {
      assert Configured(slot, service, "staking");
    } else {
      assert Configured(slot, service, "beacon-chain") && Configured(slot, service, "validator");
    }
  }

  lemma Dotted(network: string)
    ensures "execution" + "." == "execution." && "staking" + "." == "staking."
    ensures "beacon-chain" + "." == "beacon-chain." && "validator" + "." == "validator."
  {
  }

  /** What unsetting takes back, by name. */
  lemma TakenBackIs(slot: Slot, a: string)
    ensures a in FullnodeAliases(slot) <==>
      match slot.role
      case Execution => a == "execution." + slot.network + ".dncore.dappnode"
      case Consensus =>
        a in ["beacon-chain." + slot.network + ".dncore.dappnode", "validator." + slot.network + ".dncore.dappnode"]
  {
  }

  /** The aliases handed out are exactly those taken back, but for the consensus clients of starknet. */
  lemma TakenBackWhatWasHandedOut(slot: Slot, service: string, environment: map<string, Envs>)
    ensures (forall a :: HandedOut(slot, service, environment, a) <==> a in FullnodeAliases(slot))
      <==> !(slot.role.Consensus? && Starknet(slot.network))
  {
    hide HandedOut;
    hide FullnodeAliases;
    forall a: string
      ensures !(slot.role.Consensus? && Starknet(slot.network)) ==>
        (HandedOut(slot, service, environment, a) <==> a in FullnodeAliases(slot))
    {
      HandedOutIs(slot, service, environment, a);
      TakenBackIs(slot, a);
    }
    var staking := "staking." + slot.network + ".dncore.dappnode";
    HandedOutIs(slot, service, environment, staking);
    TakenBackIs(slot, staking);
    StakingDiffers(slot.network);
  }

  lemma StakingDiffers(network: string)
    ensures "staking." + network + ".dncore.dappnode" != "beacon-chain." + network + ".dncore.dappnode"
    ensures "staking." + network + ".dncore.dappnode" != "validator." + network + ".dncore.dappnode"
  {
    assert ("staking." + network + ".dncore.dappnode")[0] == 's';
    assert ("beacon-chain." + network + ".dncore.dappnode")[0] == 'b';
    assert ("validator." + network + ".dncore.dappnode")[0] == 'v';
  }

  // ----- the files after a completed switch -----

  /** A service has an alias on the core network. */
  predicate Answers(c: Compose, n: string, a: string)
  {
    && n in c.services && DNCORE in NetworksOf(c.services[n])
    && a in UserSettings.Aliases(NetworksOf(c.services[n])[DNCORE])
  }

  lemma NotCarrierAnswers(slot: Slot, c: Compose, n: string, a: string)
    requires !Carrier(slot, c) && a in FullnodeAliases(slot)
    ensures !Answers(c, n, a)
    ensures n in c.services ==> StakerNetwork(slot.network) !in NetworksOf(c.services[n])
    ensures StakerNetwork(slot.network) !in OrElse(c.networks, map[])
  {
    hide StakerNetwork;
    hide FullnodeAliases;
    hide NetworksOf;
    if n in c.services { assert !ServiceCarries(slot, NetworksOf(c.services[n])); }
  }

  /** An unset package no longer carries its slot. */
  lemma UnsetPackage(st: State, slot: Slot, p: string, luck: Luck)
    requires p in st.packages && Unset(st, slot, p, luck).ok
    ensures var mid := Last(st, Unset(st, slot, p, luck));
      p in mid.packages && !Carrier(slot, mid.packages[p].compose)
  {
    hide Saved;
    hide RemoveStakerNetwork;
    hide RemoveFullnodeAliases;
    hide Carrier;
    hide StakerNetwork;
    hide FullnodeAliases;
    var c0 := st.packages[p].compose;
    UnsetCarrier(c0, slot, luck.order);
    SavedCarrier(RemoveFullnodeAliases(Saved(RemoveStakerNetwork(c0, StakerNetwork(slot.network)), luck.order),
                                       FullnodeAliases(slot)), luck.order, slot);
  }

  /** A completed switch away from an installed client unset it, and a completed switch at all ends with
      the configuration of the new one. */
  lemma CompletedSwitch(catalog: Catalog, st: State, slot: Slot, client: Option<string>,
                        settings: UserSettings.UserSettings, release: Release, luck: Luck)
    requires SetNew(catalog, st, slot, client, settings, release, luck).ok
    requires Current(st, slot).Some? || client.Some?
    ensures var prev, unset := Current(st, slot), UnsetPrevious(st, slot, client, luck);
      && unset.ok
      && (prev.Some? && prev.value in st.packages && prev != client ==> unset == Unset(st, slot, prev.value, luck))
      && (client.Some? ==> SetConfig(Last(st, unset), client.value, settings, release, luck).ok)
      && Last(st, SetNew(catalog, st, slot, client, settings, release, luck))
         == Last(Last(st, unset), SetAndStore(Last(st, unset), slot, prev, client, settings, release, luck))
  {
    hide PreviousAccepted;
    hide Unset;
    hide SetConfig;
    var unset := UnsetPrevious(st, slot, client, luck);
    LastOfBoth(st, unset, SetAndStore(Last(st, unset), slot, Current(st, slot), client, settings, release, luck));
  }

  /** After a completed switch away from a client, none of its services has a full node's alias, and it
      is off the staker network. */
  lemma OldClientLetsGo(catalog: Catalog, st: State, slot: Slot, client: Option<string>,
                        settings: UserSettings.UserSettings, release: Release, luck: Luck, p: string, n: string)
    requires SetNew(catalog, st, slot, client, settings, release, luck).ok
    requires Current(st, slot) == Some(p) && p in st.packages && client != Some(p)
    ensures var last := Last(st, SetNew(catalog, st, slot, client, settings, release, luck));
      && p in last.packages
      && var c := last.packages[p].compose;
         && (slot.role.Execution? ==> !Answers(c, n, "execution." + slot.network + ".dncore.dappnode"))
         && (slot.role.Consensus? ==> !Answers(c, n, "beacon-chain." + slot.network + ".dncore.dappnode"))
         && (slot.role.Consensus? ==> !Answers(c, n, "validator." + slot.network + ".dncore.dappnode"))
         && (n in c.services ==> StakerNetwork(slot.network) !in NetworksOf(c.services[n]))
         && StakerNetwork(slot.network) !in OrElse(c.networks, map[])
  {
    hide *;
    CompletedSwitch(catalog, st, slot, client, settings, release, luck);
    UnsetPackage(st, slot, p, luck);
    var mid := Last(st, Unset(st, slot, p, luck));
    StoreFrame(mid, slot, Some(p), client, settings, release, luck, p);
    var c := mid.packages[p].compose;
    var execution := "execution." + slot.network + ".dncore.dappnode";
    var beacon := "beacon-chain." + slot.network + ".dncore.dappnode";
    var validator := "validator." + slot.network + ".dncore.dappnode";
    TakenBackIs(slot, execution);
    TakenBackIs(slot, beacon);
    TakenBackIs(slot, validator);
    if slot.role.Execution? {
      NotCarrierAnswers(slot, c, n, execution);
    } else {
      NotCarrierAnswers(slot, c, n, beacon);
      NotCarrierAnswers(slot, c, n, validator);
    }
  }

  /** Settings that give a service an alias give it to the service in the written file. */
  lemma AppliedAnswers(c: Compose, s: UserSettings.UserSettings, dnp: string, order: KeyOrder, n: string, a: string)
    requires UserSettings.Apply(c, s, dnp).Ok? && n in c.services && GivenTo(s, n, a)
    ensures Answers(Saved(UserSettings.Apply(c, s, dnp).value, order), n, a)
  {
    hide Saved;
    hide UserSettings.Applied;
    hide UserSettings.MountpointsAbsolute;
    hide UserSettings.NextNetworks;
    hide UserSettings.Unique;
    hide NetworksOf;
    var r := UserSettings.Apply(c, s, dnp).value;
    UserSettings.ApplyOk(c, s, dnp);
    AppliedNetworks(c, s, dnp, n);
    SavedKeepsNetworks(r, order);
    var base, user := NetworksOf(c.services[n]), UserSettings.ChoicesFor(s, n).networks;
    UserSettings.NextNetworkIs(base, user, DNCORE);
    if DNCORE in base {
      UserSettings.UniqueMeaning(UserSettings.Aliases(base[DNCORE]) + user[DNCORE].aliases.value);
    }
  }

  /** The file of a newly configured client. */
  lemma ConfiguredFile(st: State, dnp: string, settings: UserSettings.UserSettings, release: Release, luck: Luck)
    requires SetConfig(st, dnp, settings, release, luck).ok
    ensures var base := if dnp in st.packages then st.packages[dnp].compose else release.compose;
      var last := Last(st, SetConfig(st, dnp, settings, release, luck));
      && UserSettings.Apply(base, settings, dnp).Ok? && dnp in last.packages
      && last.packages[dnp].compose == Saved(UserSettings.Apply(base, settings, dnp).value, luck.order)
  {
    hide Saved;
    hide UserSettings.Apply;
  }

  lemma StoredKeepsPackages(mid: State, slot: Slot, prev: Option<string>, client: Option<string>,
                            settings: UserSettings.UserSettings, release: Release, luck: Luck)
    requires client.Some?
    ensures Last(mid, SetAndStore(mid, slot, prev, client, settings, release, luck)).packages
      == Last(mid, SetConfig(mid, client.value, settings, release, luck)).packages
  {
    hide *;
    StoreIs(mid, slot, prev, client, settings, release, luck);
    WithDbElsewhere(Last(mid, SetConfig(mid, client.value, settings, release, luck)), slot, client);
  }

  /** After a completed switch every service of the chosen client that the settings are for has its
      full node's alias. */
  lemma NewClientAnswers(catalog: Catalog, st: State, slot: Slot, dnp: string, service: string,
                         environment: map<string, Envs>, release: Release, luck: Luck, n: string)
    requires SetNew(catalog, st, slot, Some(dnp), SettingsFor(slot, service, environment), release, luck).ok
    requires n in (if dnp in st.packages then st.packages[dnp].compose else release.compose).services
    requires Configured(slot, service, n)
    ensures var settings := SettingsFor(slot, service, environment);
      var last := Last(st, SetNew(catalog, st, slot, Some(dnp), settings, release, luck));
      && dnp in last.packages
      && Answers(last.packages[dnp].compose, n,
                 match slot.role
                 case Execution => "execution." + slot.network + ".dncore.dappnode"
                 case Consensus => n + "." + slot.network + ".dncore.dappnode")
  {
    hide *;
    var settings := SettingsFor(slot, service, environment);
    var alias := ServiceAlias(slot, n) + "." + slot.network + ".dncore.dappnode";
    CompletedSwitch(catalog, st, slot, Some(dnp), settings, release, luck);
    var mid := Last(st, UnsetPrevious(st, slot, Some(dnp), luck));
    SamePackage(st, slot, dnp, luck);
    ConfiguredFile(mid, dnp, settings, release, luck);
    StoredKeepsPackages(mid, slot, Current(st, slot), Some(dnp), settings, release, luck);
    var base := if dnp in st.packages then st.packages[dnp].compose else release.compose;
    GivenToIs(slot, service, environment, n, alias);
    AppliedAnswers(base, settings, dnp, luck.order, n, alias);
    AliasName(slot, n);
  }

  lemma AliasName(slot: Slot, n: string)
    ensures ServiceAlias(slot, n) + "." + slot.network + ".dncore.dappnode" ==
      match slot.role
      case Execution => "execution." + slot.network + ".dncore.dappnode"
      case Consensus => n + "." + slot.network + ".dncore.dappnode"
  {
    Dotted(slot.network);
  }

  /** Unsetting the previous client does not touch the one that is chosen. */
  lemma SamePackage(st: State, slot: Slot, dnp: string, luck: Luck)
    ensures var mid := Last(st, UnsetPrevious(st, slot, Some(dnp), luck));
      (dnp in mid.packages <==> dnp in st.packages) && (dnp in st.packages ==> mid.packages[dnp] == st.packages[dnp])
  {
    hide Unset;
    if Current(st, slot) != Some(dnp) { UnsetFrame(st, slot, Some(dnp), luck, dnp); }
  }

  // ----- what starknet leaves behind -----

  /** On starknet a client that is replaced keeps the alias it was given. */
  lemma StakingAliasStays(catalog: Catalog, st: State, network: string, client: Option<string>,
                          settings: UserSettings.UserSettings, release: Release, luck: Luck, p: string)
    requires Starknet(network)
    requires SetNew(catalog, st, Slot(Consensus, network), client, settings, release, luck).ok
    requires Current(st, Slot(Consensus, network)) == Some(p) && p in st.packages && client != Some(p)
    requires Answers(st.packages[p].compose, "staking", "staking." + network + ".dncore.dappnode")
    ensures var last := Last(st, SetNew(catalog, st, Slot(Consensus, network), client, settings, release, luck));
      p in last.packages && Answers(last.packages[p].compose, "staking", "staking." + network + ".dncore.dappnode")
  {
    hide *;
    var slot, alias := Slot(Consensus, network), "staking." + network + ".dncore.dappnode";
    CompletedSwitch(catalog, st, slot, client, settings, release, luck);
    var mid := Last(st, Unset(st, slot, p, luck));
    UnsetFile(st, slot, p, luck);
    StoreFrame(mid, slot, Some(p), client, settings, release, luck, p);
    StakingDiffers(network);
    TakenBackIs(slot, alias);
    KeptByUnset(st.packages[p].compose, slot, luck.order, alias);
  }

  lemma UnsetFile(st: State, slot: Slot, p: string, luck: Luck)
    requires p in st.packages && Unset(st, slot, p, luck).ok
    ensures var mid := Last(st, Unset(st, slot, p, luck));
      && p in mid.packages
      && mid.packages[p].compose == Saved(UnsetIn(st.packages[p].compose, slot, luck.order), luck.order)
  {
    hide Saved;
    hide RemoveStakerNetwork;
    hide RemoveFullnodeAliases;
    hide StakerNetwork;
    hide FullnodeAliases;
  }

  /** A compose after both removals. */
  function UnsetIn(c: Compose, slot: Slot, order: KeyOrder): Compose
  {
    RemoveFullnodeAliases(Saved(RemoveStakerNetwork(c, StakerNetwork(slot.network)), order), FullnodeAliases(slot))
  }

  lemma KeptByUnset(c: Compose, slot: Slot, order: KeyOrder, a: string)
    requires Answers(c, "staking", a) && a !in FullnodeAliases(slot) && Starknet(slot.network)
    ensures Answers(Saved(UnsetIn(c, slot, order), order), "staking", a)
  {
    hide UnsetIn;
    hide Saved;
    hide NetworksOf;
    SavedKeepsNetworks(UnsetIn(c, slot, order), order);
    UnsetLeaves(c, slot, order, a);
  }

  lemma UnsetLeaves(c: Compose, slot: Slot, order: KeyOrder, a: string)
    requires Answers(c, "staking", a) && a !in FullnodeAliases(slot) && Starknet(slot.network)
    ensures Answers(UnsetIn(c, slot, order), "staking", a)
  {
    StarknetNetworkName(slot.network);
    hide UnsetIn;
    hide NetworksOf;
    hide StakerNetwork;
    hide FullnodeAliases;
    UnsetEffect(c, slot, order, "staking");
  }

  lemma StarknetNetworkName(network: string)
    requires Starknet(network)
    ensures StakerNetwork(network) != DNCORE
  {
    assert StakerNetwork(network)[0] == 's' && DNCORE[0] == 'd';
  }

  // ----- versions that are refused -----

  /** A version is accepted when it is not below the minimum: by its first number that differs. */
  lemma AcceptedVersions(catalog: Catalog, slot: Slot, dnp: string, version: Version)
    ensures Compatible(catalog, slot, dnp, version) <==>
      && slot in catalog && dnp in catalog[slot]
      && var min := catalog[slot][dnp];
         if version.0 != min.0 then version.0 > min.0
         else if version.1 != min.1 then version.1 > min.1
         else version.2 >= min.2
  {
  }

  /** While the stored client is installed in an older version, a switch is refused and changes nothing. */
  lemma OldVersionRefused(catalog: Catalog, st: State, slot: Slot, client: Option<string>,
                          settings: UserSettings.UserSettings, release: Release, luck: Luck, p: string)
    requires Current(st, slot) == Some(p) && p in st.packages
    requires slot in catalog && p in catalog[slot]
    requires st.packages[p].version == (1, 2, 3) && catalog[slot][p] == (1, 10, 0)
    ensures SetNew(catalog, st, slot, client, settings, release, luck) == Course([], false)
  {
    hide UnsetPrevious;
    hide SetAndStore;
  }
}
