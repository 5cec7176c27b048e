/** The texts that the HTTPS portal and the compose files get, and when an operation completes
    (packages/httpsPortal/src/httpsPortal.ts, domains.ts). */
module PortalValues {
  import opened Wrappers
  import opened Strings
  import opened Compose
  import opened ComposeEditor
  import opened HttpsPortal
  import Numbers
  import NetworkAlias
  import DefaultsValues
  import EditorValues

  // ----- aliases -----

  /** The alias of a container: its package's short name, after the service's name if that is another. */
  lemma AliasIs(short: string, service: string)
    requires '.' !in short && '_' !in short && short != "eth"
    requires '_' !in service
    ensures var name := short + ".dnp.dappnode.eth";
      && ExternalAlias(Id(name, name)) == short + ".external"
      && ExternalAlias(Id(name, "")) == short + ".external"
      && (service != "" && service != name ==> ExternalAlias(Id(name, service)) == service + "." + short + ".external")
  {
    hide NetworkAlias.Short;
    var name := short + ".dnp.dappnode.eth";
    DefaultsValues.ShortOf(short);
    var full := service + "." + short;
    assert service + "." + name == full + ".dnp.dappnode.eth";
    var j := NotEth(service, short);
    DefaultsValues.ShortOfPackage(full, j);
    assert full + ".external" == service + "." + short + ".external";
  }

  lemma NotEth(service: string, short: string) returns (j: nat)
    requires '.' !in short && short != "eth"
    ensures var full := service + "." + short; j < 4 && (|full| >= 4 ==> full[|full| - 4 + j] != ".eth"[j])
  {
    if |short| >= 4 {
      j := 0;
      assert short[|short| - 4] != '.';
    } else if |short| == 3 {
      j := if short[0] != 'e' then 1 else if short[1] != 't' then 2 else 3;
    } else {
      j := 3 - |short|;
    }
  }

  // ----- an entry and what is read of it -----

  /** An entry reads back as the mapping it was made of exactly when the port is a number other than 0;
      otherwise port 80 is shown. */
  lemma EntryReadsBack(m: Mapping)
    requires ':' !in ExternalAlias(m.id)
    ensures MappingOf(NewEntry(m), m.id)
      == m.(port := if m.port.Num? && m.port.value != 0 then m.port else Numbers.Num(80))
    ensures Target(NewEntry(m)) == ExternalAlias(m.id)
    ensures NewEntry(m).toHost == ExternalAlias(m.id) + ":" + Numbers.Print(m.port)
  {
    hide ExternalAlias;
    hide Numbers.ParseInt;
    hide Numbers.Print;
    var alias, port := ExternalAlias(m.id), Numbers.Print(m.port);
    NewEntryTarget(m);
    Numbers.PrintPlain(m.port);
    Numbers.ParsePrint(m.port);
    assert alias + ":" + port == alias + [':'] + port;
    SplitFirst(alias, ':', port);
    SplitWithout(port, ':');
  }

  /** An entry without a port is shown with port 80. */
  lemma PortLess(e: Entry, id: Id)
    requires ':' !in e.toHost
    ensures Target(e) == e.toHost
    ensures MappingOf(e, id) == Mapping(e.fromSubdomain, id, Numbers.Num(80), e.auth, e.external)
  {
    SplitWithout(e.toHost, ':');
  }

  lemma {:induction false} OwnerOf(ids: seq<Id>, i: nat)
    requires i < |ids| && forall j :: i < j < |ids| ==> ExternalAlias(ids[j]) != ExternalAlias(ids[i])
    ensures Owner(ids, ExternalAlias(ids[i])) == Some(ids[i])
  {
    hide ExternalAlias;
    if i < |ids| - 1 { OwnerOf(ids[..|ids| - 1], i); }
  }

  /** What is listed after a completed add of a container without an entry: one more mapping, the one that
      was asked for, but for an empty port. */
  lemma AddedIsListed(w: World, ids: seq<Id>, m: Mapping, luck: Luck)
    requires ApartAliases(ids) && luck.running && Added(w, ids, m, luck).ok && !HasEntry(w, m.id)
    ensures MappingsOf(Added(w, ids, m, luck).world.entries, ids) == MappingsOf(w.entries, ids)
      + [m.(port := if m.port.Num? && m.port.value != 0 then m.port else Numbers.Num(80))]
  {
    hide Added;
    hide ExternalAlias;
    hide HasEntry;
    hide Owner;
    hide MappingOf;
    hide NewEntry;
    AddedNeedsListed(w, ids, m, luck);
    AliasesApart(ids, m.id, m.id);
    AddedEntries(w, ids, m, luck);
    EntryReadsBack(m);
    OwnerIs(ids, ExternalAlias(m.id));
    AliasesOnce(ids, m.id);
    var entries := w.entries + [NewEntry(m)];
    assert entries[..|entries| - 1] == w.entries;
  }

  lemma AliasesOnce(ids: seq<Id>, id: Id)
    requires ApartAliases(ids) && id in ids
    ensures Owner(ids, ExternalAlias(id)) == Some(id)
  {
    hide ExternalAlias;
    OwnerIs(ids, ExternalAlias(id));
  }

  // ----- what the portal deletes -----

  /** The positions of the entries that the portal keeps for a removal, in order: all but those with the
      subdomain whose target it takes for the container's alias. */
  ghost function KeptAt(entries: seq<Entry>, m: Mapping, luck: Luck): (r: seq<nat>)
    ensures forall i :: 0 <= i < |r| ==> r[i] < |entries|
    ensures forall i, j :: 0 <= i < j < |r| ==> r[i] < r[j]
    ensures forall k :: 0 <= k < |entries| ==>
      (k in r <==> entries[k].fromSubdomain != m.fromSubdomain || !luck.matches(entries[k].toHost, ExternalAlias(m.id)))
  {
    hide ExternalAlias;
    Positions(entries, (e: Entry) =>
      e.fromSubdomain != m.fromSubdomain || !luck.matches(e.toHost, ExternalAlias(m.id)))
  }

  lemma KeptAtMore(entries: seq<Entry>, e: Entry, m: Mapping, luck: Luck)
    ensures KeptAt(entries + [e], m, luck) == KeptAt(entries, m, luck) + if Hit(e, m, luck) then [] else [|entries|]
  {
    hide ExternalAlias;
    PositionsMore(entries, e, (e: Entry) =>
      e.fromSubdomain != m.fromSubdomain || !luck.matches(e.toHost, ExternalAlias(m.id)));
  }

  lemma UnhitStep(e: Entry, rest: seq<Entry>, m: Mapping, luck: Luck)
    ensures Unhit([e] + rest, m, luck) == (if Hit(e, m, luck) then [] else [e]) + Unhit(rest, m, luck)
    ensures Unhit([], m, luck) == []
  {
    hide Hit;
    assert ([e] + rest)[1..] == rest;
  }

  lemma {:induction false} UnhitMore(entries: seq<Entry>, e: Entry, m: Mapping, luck: Luck)
    ensures Unhit(entries + [e], m, luck) == Unhit(entries, m, luck) + if Hit(e, m, luck) then [] else [e]
  {
    hide *;
    if entries == [] {
      UnhitStep(e, [], m, luck);
      assert [e] + [] == [e] && entries + [e] == [e];
    } else {
      var first, rest := entries[0], entries[1..];
      UnhitMore(rest, e, m, luck);
      UnhitStep(first, rest, m, luck);
      UnhitStep(first, rest + [e], m, luck);
      assert entries == [first] + rest && entries + [e] == [first] + (rest + [e]);
    }
  }

  ghost predicate TakenAt(entries: seq<Entry>, at: seq<nat>, r: seq<Entry>)
  {
    |r| == |at| && forall i :: 0 <= i < |at| ==> at[i] < |entries| && r[i] == entries[at[i]]
  }

  lemma TakenMore(entries: seq<Entry>, at: seq<nat>, r: seq<Entry>, e: Entry)
    requires TakenAt(entries, at, r)
    ensures TakenAt(entries + [e], at + [], r + []) && TakenAt(entries + [e], at + [|entries|], r + [e])
  {
  }

  lemma NothingTaken(m: Mapping, luck: Luck)
    ensures TakenAt([], KeptAt([], m, luck), Unhit([], m, luck))
  {
  }

  lemma {:induction false} DeletedAre(entries: seq<Entry>, m: Mapping, luck: Luck)
    ensures TakenAt(entries, KeptAt(entries, m, luck), Unhit(entries, m, luck))
  {
    hide *;
    if entries == [] {
      NothingTaken(m, luck);
    } else {
      var front, last := entries[..|entries| - 1], entries[|entries| - 1];
      assert entries == front + [last];
      DeletedAre(front, m, luck);
      KeptAtMore(front, last, m, luck);
      UnhitMore(front, last, m, luck);
      TakenMore(front, KeptAt(front, m, luck), Unhit(front, m, luck), last);
    }
  }

  // ----- what the compose files get -----

  /** A file after a container was put on the public network: its service has that network with the alias
      alone, the fixed address it had, and its other networks; the file declares the network. */
  lemma FileGets(w: World, id: Id, write: bool, order: KeyOrder)
    requires AddToCompose(w, id, write, order).1
    ensures HasService(w, id)
    ensures var c, d := w.files[id.dnpName], AddToCompose(w, id, write, order).0.files[id.dnpName];
      && id.serviceName in d.services
      && var before, after := NetworksOf(c.services[id.serviceName]), NetworksOf(d.services[id.serviceName]);
         && after.Keys == before.Keys + {"dnpublic_network"}
         && (forall k :: k in before && k != "dnpublic_network" ==> after[k] == before[k])
         && after["dnpublic_network"].aliases == Some([ExternalAlias(id)])
         && after["dnpublic_network"].ipv4
              == (if "dnpublic_network" in before then before["dnpublic_network"].ipv4 else None)
         && d.networks.Some? && d.networks.value.Keys == OrElse(c.networks, map[]).Keys + {"dnpublic_network"}
  {
    hide ExternalAlias;
    hide NetworksOf;
    hide WithNetwork;
    hide Saved;
    hide Environment.Enumerates;
    var c0, aliases := w.files[id.dnpName], ServiceNetwork(None, Some([ExternalAlias(id)]));
    var c := WithNetwork(c0, id.serviceName, PUBLIC, aliases, Network(Some(true), map[]));
    EditorValues.NetworkAdded(c0, id.serviceName, PUBLIC, aliases, Network(Some(true), map[]));
    SavedKeepsNetworks(c, order);
  }

  /** And after it was taken off: the service has its other networks, and the file declares it no more. */
  lemma FileLoses(w: World, id: Id, write: bool, order: KeyOrder)
    requires RemoveFromCompose(w, id, write, order).1
    ensures HasService(w, id)
    ensures var c, d := w.files[id.dnpName], RemoveFromCompose(w, id, write, order).0.files[id.dnpName];
      && id.serviceName in d.services
      && var before, after := NetworksOf(c.services[id.serviceName]), NetworksOf(d.services[id.serviceName]);
         && after.Keys == before.Keys - {"dnpublic_network"} && (forall k :: k in after ==> after[k] == before[k])
         && OrElse(d.networks, map[]).Keys == OrElse(c.networks, map[]).Keys - {"dnpublic_network"}
  {
    hide NetworksOf;
    hide WithoutNetwork;
    hide Saved;
    hide Environment.Enumerates;
    var c0 := w.files[id.dnpName];
    EditorValues.NetworkRemoved(c0, id.serviceName, PUBLIC);
    SavedKeepsNetworks(WithoutNetwork(c0, id.serviceName, PUBLIC), order);
  }

  /** After a completed add the container's service has its alias on the public network in the file. */
  lemma AliasInFile(w: World, ids: seq<Id>, m: Mapping, luck: Luck)
    requires ApartAliases(ids) && luck.running && Added(w, ids, m, luck).ok
    ensures var files := Added(w, ids, m, luck).world.files;
      && m.id.dnpName in files && m.id.serviceName in files[m.id.dnpName].services
      && var nets := NetworksOf(files[m.id.dnpName].services[m.id.serviceName]);
         && "dnpublic_network" in nets && nets["dnpublic_network"].aliases.Some?
         && ExternalAlias(m.id) in nets["dnpublic_network"].aliases.value
  {
    hide Added;
    hide ExternalAlias;
    hide NetworksOf;
    hide HasEntry;
    AddExposes(w, ids, m, luck);
  }

  lemma {:induction false} PortalIs(ids: seq<Id>, i: nat)
    requires i <= |ids| && forall j :: 0 <= j < i ==> ids[j].dnpName != "https.dnp.dappnode.eth"
    requires i < |ids| ==> ids[i].dnpName == "https.dnp.dappnode.eth"
    ensures PortalOf(ids) == if i < |ids| then Some(ids[i]) else None
  {
    if i > 0 {
      assert forall j :: 0 <= j < |ids| - 1 ==> ids[1..][j] == ids[j + 1];
      PortalIs(ids[1..], i - 1);
    }
  }

  // ----- when an add completes -----

  /** The network, the portal on it and the portal's file are there, or can be set up. */
  predicate CanPrepare(w: World, ids: seq<Id>, luck: Luck)
  {
    && (w.network || luck.create)
    && PortalOf(ids).Some?
    && (PortalOf(ids).value in w.connected || luck.connectPortal)
    && "https.dnp.dappnode.eth" in w.files
    && var file := w.files["https.dnp.dappnode.eth"];
       Declares(file) || (PortalOf(ids).value.serviceName in file.services && luck.writePortal)
  }

  lemma Prepares(w: World, ids: seq<Id>, luck: Luck)
    ensures Ensured(w, ids, luck).ok <==> CanPrepare(w, ids, luck)
  {
    hide Declares;
    hide ExternalAlias;
    hide WithNetwork;
    hide Saved;
    hide Environment.Enumerates;
    if PortalOf(ids).Some? { PortalFound(ids); }
  }

  /** The container can join: it is on the network, or Docker takes it; a portal that was only just
      connected counts as not on it, and joining once more fails. */
  predicate CanJoin(w: World, ids: seq<Id>, id: Id, luck: Luck)
  {
    id in w.connected || (luck.connect && PortalOf(ids) != Some(id))
  }

  lemma EnsuredConnected(w: World, ids: seq<Id>, luck: Luck)
    requires Ensured(w, ids, luck).ok
    ensures PortalOf(ids).Some? && Ensured(w, ids, luck).world.connected == w.connected + {PortalOf(ids).value}
  {
    hide Declares;
    hide ExternalAlias;
    hide WithNetwork;
    hide Saved;
    hide Environment.Enumerates;
  }

  /** A service of a package's file. */
  predicate HasService(w: World, id: Id)
  {
    id.dnpName in w.files && id.serviceName in w.files[id.dnpName].services
  }

  lemma AddToComposeServices(w: World, id: Id, write: bool, order: KeyOrder, other: Id)
    ensures HasService(AddToCompose(w, id, write, order).0, other) <==> HasService(w, other)
  {
    hide ExternalAlias;
    hide WithNetwork;
    hide Saved;
    hide Environment.Enumerates;
    if HasService(w, id) {
      var c := WithNetwork(w.files[id.dnpName], id.serviceName, PUBLIC,
        ServiceNetwork(None, Some([ExternalAlias(id)])), Network(Some(true), map[]));
      SavedKeepsNetworks(c, order);
      WithNetworkShape(w.files[id.dnpName], id.serviceName, [ExternalAlias(id)]);
    }
  }

  lemma EnsuredServices(w: World, ids: seq<Id>, luck: Luck, other: Id)
    ensures HasService(Ensured(w, ids, luck).world, other) <==> HasService(w, other)
  {
    hide Declares;
    hide AddToCompose;
    if PortalOf(ids).Some? {
      AddToComposeServices(w.(network := true, connected := w.connected + {PortalOf(ids).value}),
        PortalOf(ids).value, luck.writePortal, luck.order, other);
    }
  }

  lemma PersistedWhen(w: World, files: map<string, Compose>, id: Id, luck: Luck)
    requires w.files == files
    ensures Persisted(w, id, luck).ok <==> HasService(w, id) && (HasComposeAlias(w, id) || luck.write)
    ensures forall x: World :: x.files == files ==> (HasComposeAlias(x, id) <==> HasComposeAlias(w, id))
    ensures forall x: World :: x.files == files ==> (HasService(x, id) <==> HasService(w, id))
  {
    hide ExternalAlias;
    hide WithNetwork;
    hide Saved;
    hide Environment.Enumerates;
    hide NetworksOf;
    hide Declares;
  }

  lemma RegisteredWhen(w: World, m: Mapping, luck: Luck)
    ensures var d := Registered(w, m, luck);
      (d.ok <==> luck.list && (HasEntry(w, m.id) || luck.api)) && d.world.files == w.files
  {
    hide NewEntry;
  }

  lemma ConnectedWhen(w: World, seen: set<Id>, id: Id, luck: Luck)
    ensures var d := Connected(w, seen, id, luck);
      && (d.ok <==> id in seen || (id !in w.connected && luck.connect))
      && d.world.files == w.files && d.world.entries == w.entries
  {
  }

  lemma AddedInSteps(w: World, ids: seq<Id>, m: Mapping, luck: Luck)
    requires luck.running && m.id in ids
    ensures var d1 := Ensured(w, ids, luck);
      var d2 := Connected(d1.world, w.connected, m.id, luck);
      var d3 := Registered(d2.world, m, luck);
      Added(w, ids, m, luck).ok <==> d1.ok && d2.ok && d3.ok && Persisted(d3.world, m.id, luck).ok
  {
    hide Ensured;
    hide Connected;
    hide Registered;
    hide Persisted;
  }

  /** An add completes exactly when every step can; without a running portal it does nothing. */
  lemma AddCompletes(w: World, ids: seq<Id>, m: Mapping, luck: Luck)
    ensures !luck.running ==> Added(w, ids, m, luck) == Done(w, true)
    ensures luck.running ==> (Added(w, ids, m, luck).ok <==>
      && m.id in ids && CanPrepare(w, ids, luck) && CanJoin(w, ids, m.id, luck)
      && luck.list && (HasEntry(w, m.id) || luck.api)
      && m.id.dnpName in w.files && m.id.serviceName in w.files[m.id.dnpName].services
      && (HasComposeAlias(Ensured(w, ids, luck).world, m.id) || luck.write))
  {
    hide *;
    if luck.running && m.id in ids {
      Prepares(w, ids, luck);
      AddedInSteps(w, ids, m, luck);
      var d1 := Ensured(w, ids, luck);
      if d1.ok {
        EnsuredPortal(w, ids, luck);
        EnsuredConnected(w, ids, luck);
        EnsuredServices(w, ids, luck, m.id);
        var d2 := Connected(d1.world, w.connected, m.id, luck);
        ConnectedWhen(d1.world, w.connected, m.id, luck);
        RegisteredWhen(d2.world, m, luck);
        var d3 := Registered(d2.world, m, luck);
        PersistedWhen(d3.world, d1.world.files, m.id, luck);
        SameEntriesSameEntry(w, d2.world, m.id);
        CanJoinIs(w, ids, m.id, luck);
        HasServiceIs(w, m.id);
      }
    } else {
      AddedNot(w, ids, m, luck);
    }
  }

  lemma CanJoinIs(w: World, ids: seq<Id>, id: Id, luck: Luck)
    ensures CanJoin(w, ids, id, luck) <==> id in w.connected || (luck.connect && PortalOf(ids) != Some(id))
  {
  }

  lemma HasServiceIs(w: World, id: Id)
    ensures HasService(w, id) <==> id.dnpName in w.files && id.serviceName in w.files[id.dnpName].services
  {
  }

  lemma AddedNot(w: World, ids: seq<Id>, m: Mapping, luck: Luck)
    ensures !luck.running ==> Added(w, ids, m, luck) == Done(w, true)
    ensures luck.running && m.id !in ids ==> Added(w, ids, m, luck) == Done(w, false)
  {
  }
}
