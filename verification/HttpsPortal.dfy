/** Exposing containers through the HTTPS portal (packages/httpsPortal/src/httpsPortal.ts). The portal's
    entries, the Docker network and the compose files are one state; a call that can fail answers
    through `Luck`. */
module HttpsPortal {
  import opened Wrappers
  import opened Strings
  import opened Compose
  import opened ComposeEditor
  import Environment
  import Numbers
  import NetworkAlias

  const PUBLIC := "dnpublic_network"
  const PORTAL := "https.dnp.dappnode.eth"

  /** A container is known by its package and service. */
  datatype Id = Id(dnpName: string, serviceName: string)

  datatype Entry = Entry(fromSubdomain: string, toHost: string, auth: Option<string>, external: bool)

  datatype Mapping = Mapping(fromSubdomain: string, id: Id, port: Numbers.JsNumber, auth: Option<string>,
    external: bool)

  datatype World = World(network: bool, entries: seq<Entry>, connected: set<Id>, files: map<string, Compose>)

  /** Which calls succeed. A listed container is running or not throughout an operation. A removal
      names a subdomain and a target; whether the portal takes the target of an entry for that one is
      up to it, too. */
  datatype Luck = Luck(running: bool, create: bool, connectPortal: bool, writePortal: bool, connect: bool, api: bool,
                       list: bool, write: bool, order: KeyOrder, matches: (string, string) -> bool)

  /** `getContainerDomain`. */
  function ContainerDomain(id: Id): string
  {
    if id.serviceName == "" || id.serviceName == id.dnpName then id.dnpName else id.serviceName + "." + id.dnpName
  }

  /** `getExternalNetworkAlias`. */
  function ExternalAlias(id: Id): string
  {
    NetworkAlias.Short(ContainerDomain(id)) + ".external"
  }

  /** The alias an entry points to. */
  function Target(e: Entry): string
  {
    Split(e.toHost, ':')[0]
  }

  /** `hasApiMapping`. */
  predicate HasEntry(w: World, id: Id)
  {
    exists i :: 0 <= i < |w.entries| && Target(w.entries[i]) == ExternalAlias(id)
  }

  /** The service's own entry in the compose file lists the public network. */
  predicate Joined(w: World, id: Id)
  {
    && id.dnpName in w.files && id.serviceName in w.files[id.dnpName].services
    && PUBLIC in NetworksOf(w.files[id.dnpName].services[id.serviceName])
  }

  /** `getComposeNetwork(…) !== null`. */
  predicate Declares(c: Compose)
  {
    var root := OrElse(c.networks, map[]);
    PUBLIC in root && root[PUBLIC].Network?
  }

  /** `hasComposeNetworkAlias`. */
  predicate HasComposeAlias(w: World, id: Id)
  {
    && Joined(w, id) && Declares(w.files[id.dnpName])
    && ExternalAlias(id) in OrElse(NetworksOf(w.files[id.dnpName].services[id.serviceName])[PUBLIC].aliases, [])
  }

  // ----- the compose files -----

  /** A change of a package's file: it fails when the service is missing or the file cannot be written. */
  function AddToCompose(w: World, id: Id, write: bool, order: KeyOrder): (World, bool)
  {
    if id.dnpName in w.files && id.serviceName in w.files[id.dnpName].services && write then
      var aliases := ServiceNetwork(None, Some([ExternalAlias(id)]));
      var c := WithNetwork(w.files[id.dnpName], id.serviceName, PUBLIC, aliases, Network(Some(true), map[]));
      (w.(files := w.files[id.dnpName := Saved(c, order)]), true)
    else (w, false)
  }

  function RemoveFromCompose(w: World, id: Id, write: bool, order: KeyOrder): (World, bool)
  {
    if id.dnpName in w.files && id.serviceName in w.files[id.dnpName].services && write then
      var c := WithoutNetwork(w.files[id.dnpName], id.serviceName, PUBLIC);
      (w.(files := w.files[id.dnpName := Saved(c, order)]), true)
    else (w, false)
  }

  // ----- the operations -----

  /** The portal's first container. */
  function PortalOf(ids: seq<Id>): Option<Id>
  {
    if ids == [] then None else if ids[0].dnpName == PORTAL then Some(ids[0]) else PortalOf(ids[1..])
  }

  /** What an operation leaves behind, and whether it completed. */
  datatype Done = Done(world: World, ok: bool)

  /** `ensureExternalNetworkConfig`: the network exists, the portal is on it, and its file declares it. */
  function Ensured(w: World, ids: seq<Id>, luck: Luck): Done
  {
    if !w.network && !luck.create then Done(w, false)
    else
      var w1 := w.(network := true);
      if PortalOf(ids).None? then Done(w1, false)
      else
        var portal := PortalOf(ids).value;
        if portal !in w.connected && !luck.connectPortal then Done(w1, false)
        else
          var w2 := w1.(connected := w1.connected + {portal});
          if PORTAL !in w.files then Done(w2, false)
          else if Declares(w.files[PORTAL]) then Done(w2, true)
          else
            var (w3, written) := AddToCompose(w2, portal, luck.writePortal, luck.order);
            Done(w3, written)
  }

  method EnsureNetwork(w0: World, ids: seq<Id>, luck: Luck) returns (w: World, ok: bool)
    ensures Done(w, ok) == Ensured(w0, ids, luck)
  {
    hide AddToCompose;
    w, ok := w0, false;
    if !w.network {
      if !luck.create { return; }
      w := w.(network := true);
    }
    if PortalOf(ids).None? { return; }
    var portal := PortalOf(ids).value;
    if portal !in w.connected {
      if !luck.connectPortal { return; }
      w := w.(connected := w.connected + {portal});
    }
    assert w.connected == w0.connected + {portal};
    if PORTAL !in w.files { return; }
    if !Declares(w.files[PORTAL]) {
      var (next, written) := AddToCompose(w, portal, luck.writePortal, luck.order);
      return next, written;
    }
    ok := true;
  }

  function NewEntry(m: Mapping): Entry
  {
    Entry(m.fromSubdomain, ExternalAlias(m.id) + ":" + Numbers.Print(m.port), m.auth, m.external)
  }

  /** Joining the network: it fails for a container that already has (the check uses an older list). */
  function Connected(w: World, seen: set<Id>, id: Id, luck: Luck): Done
  {
    if id in seen then Done(w, true)
    else if id in w.connected || !luck.connect then Done(w, false)
    else Done(w.(connected := w.connected + {id}), true)
  }

  /** An entry is registered unless the container has one. */
  function Registered(w: World, m: Mapping, luck: Luck): Done
  {
    if !luck.list then Done(w, false)
    else if HasEntry(w, m.id) then Done(w, true)
    else if !luck.api then Done(w, false)
    else Done(w.(entries := w.entries + [NewEntry(m)]), true)
  }

  function Persisted(w: World, id: Id, luck: Luck): Done
  {
    if !(id.dnpName in w.files && id.serviceName in w.files[id.dnpName].services) then Done(w, false)
    else if HasComposeAlias(w, id) then Done(w, true)
    else var (next, written) := AddToCompose(w, id, luck.write, luck.order); Done(next, written)
  }

  /** One step after the other, stopping at the first that fails. */
  function Added(w: World, ids: seq<Id>, m: Mapping, luck: Luck): Done
  {
    if !luck.running then Done(w, true)
    else if m.id !in ids then Done(w, false)
    else
      var d1 := Ensured(w, ids, luck);
      if !d1.ok then d1
      else
        var d2 := Connected(d1.world, w.connected, m.id, luck);
        if !d2.ok then d2
        else
          var d3 := Registered(d2.world, m, luck);
          if !d3.ok then d3 else Persisted(d3.world, m.id, luck)
  }

  /** `addMapping`. A portal that is not running is left alone. */
  method AddMapping(w0: World, ids: seq<Id>, m: Mapping, luck: Luck) returns (w: World, ok: bool)
    ensures Done(w, ok) == Added(w0, ids, m, luck)
  {
    hide Ensured;
    hide AddToCompose;
    hide NewEntry;
    hide HasComposeAlias;
    hide HasEntry;
    w, ok := w0, false;
    if !luck.running { return w, true; }
    var i := 0;
    while i < |ids| && ids[i] != m.id
      invariant 0 <= i <= |ids| && m.id !in ids[..i]
    {
      i := i + 1;
    }
    if i == |ids| { return; }
    var ensured;
    w, ensured := EnsureNetwork(w0, ids, luck);
    if !ensured { return; }
    if m.id !in w0.connected {
      if m.id in w.connected || !luck.connect { return; }
      w := w.(connected := w.connected + {m.id});
    }
    if !luck.list { return; }
    if !HasEntry(w, m.id) {
      if !luck.api { return; }
      w := w.(entries := w.entries + [NewEntry(m)]);
    }
    if !(m.id.dnpName in w.files && m.id.serviceName in w.files[m.id.dnpName].services) { return; }
    if !HasComposeAlias(w, m.id) {
      var (next, written) := AddToCompose(w, m.id, luck.write, luck.order);
      return next, written;
    }
    ok := true;
  }

  // ----- reading the portal's entries -----

  /** The container an alias belongs to: the last one listed. */
  function Owner(ids: seq<Id>, alias: string): Option<Id>
  {
    if ids == [] then None
    else if ExternalAlias(ids[|ids| - 1]) == alias then Some(ids[|ids| - 1])
    else Owner(ids[..|ids| - 1], alias)
  }

  /** The port of an entry, 80 when there is none. */
  function PortOf(e: Entry): Numbers.JsNumber
  {
    var parts := Split(e.toHost, ':');
    var n := if |parts| > 1 then Numbers.ParseInt(parts[1]) else Numbers.NaN;
    if Numbers.Truthy(n) then n else Numbers.Num(80)
  }

  function MappingOf(e: Entry, id: Id): Mapping
  {
    Mapping(e.fromSubdomain, id, PortOf(e), e.auth, e.external)
  }

  function MappingsOf(entries: seq<Entry>, ids: seq<Id>): seq<Mapping>
  {
    if entries == [] then []
    else
      var e := entries[|entries| - 1];
      var rest := MappingsOf(entries[..|entries| - 1], ids);
      var owner := Owner(ids, Target(e));
      if owner.Some? then rest + [MappingOf(e, owner.value)] else rest
  }

  /** `getMappings`: the alias table is filled container by container, then each entry is looked up. */
  method GetMappings(entries: seq<Entry>, ids: seq<Id>) returns (mappings: seq<Mapping>)
    ensures mappings == MappingsOf(entries, ids)
  {
    hide ExternalAlias;
    hide Target;
    hide MappingOf;
    var aliases: map<string, Id> := map[];
    for i := 0 to |ids|
      invariant forall a :: a in aliases <==> Owner(ids[..i], a).Some?
      invariant forall a :: a in aliases ==> Owner(ids[..i], a) == Some(aliases[a])
    {
      assert ids[..i + 1][..i] == ids[..i];
      aliases := aliases[ExternalAlias(ids[i]) := ids[i]];
    }
    assert ids[..|ids|] == ids;
    mappings := [];
    for i := 0 to |entries|
      invariant mappings == MappingsOf(entries[..i], ids)
    {
      assert entries[..i + 1][..i] == entries[..i];
      var alias := Target(entries[i]);
      if alias in aliases { mappings := mappings + [MappingOf(entries[i], aliases[alias])]; }
    }
    assert entries[..|entries|] == entries;
  }

  // ----- removing -----

  /** An entry that the portal deletes for a mapping: it has the subdomain, and its target matches. */
  predicate Hit(e: Entry, m: Mapping, luck: Luck)
  {
    e.fromSubdomain == m.fromSubdomain && luck.matches(e.toHost, ExternalAlias(m.id))
  }

  /** The entries that the portal keeps. */
  function Unhit(entries: seq<Entry>, m: Mapping, luck: Luck): (r: seq<Entry>)
    ensures forall e :: e in r <==> e in entries && !Hit(e, m, luck)
  {
    if entries == [] then []
    else if Hit(entries[0], m, luck) then Unhit(entries[1..], m, luck)
    else [entries[0]] + Unhit(entries[1..], m, luck)
  }

  predicate Mapped(mappings: seq<Mapping>, id: Id)
  {
    exists i :: 0 <= i < |mappings| && mappings[i].id == id
  }

  /** Takes a container off the network and out of its file. */
  function Withdrawn(w: World, id: Id, luck: Luck): Done
  {
    if id in w.connected && !luck.connect then Done(w, false)
    else
      var (next, written) := RemoveFromCompose(w.(connected := w.connected - {id}), id, luck.write, luck.order);
      Done(next, written)
  }

  function Removed(w: World, ids: seq<Id>, m: Mapping, luck: Luck): Done
  {
    if !luck.running then Done(w, true)
    else if m.id !in ids || !luck.api then Done(w, false)
    else
      var w1 := w.(entries := Unhit(w.entries, m, luck));
      if !luck.list then Done(w1, false)
      else if Mapped(MappingsOf(w1.entries, ids), m.id) then Done(w1, true)
      else Withdrawn(w1, m.id, luck)
  }

  /** `removeMapping`: the entry goes first; the container leaves when it has no entry left. */
  method RemoveMapping(w0: World, ids: seq<Id>, m: Mapping, luck: Luck) returns (w: World, ok: bool)
    ensures Done(w, ok) == Removed(w0, ids, m, luck)
  {
    hide MappingsOf;
    hide RemoveFromCompose;
    w, ok := w0, false;
    if !luck.running { return w, true; }
    var i := 0;
    while i < |ids| && ids[i] != m.id
      invariant 0 <= i <= |ids| && m.id !in ids[..i]
    {
      i := i + 1;
    }
    if i == |ids| || !luck.api { return; }
    w := w.(entries := Unhit(w.entries, m, luck));
    if !luck.list { return; }
    var mappings := GetMappings(w.entries, ids);
    for j := 0 to |mappings|
      invariant forall k :: 0 <= k < j ==> mappings[k].id != m.id
    {
      if mappings[j].id == m.id { return w, true; }
    }
    if m.id in w.connected {
      if !luck.connect { return; }
      w := w.(connected := w.connected - {m.id});
    }
    assert w.connected == w0.connected - {m.id};
    var (next, written) := RemoveFromCompose(w, m.id, luck.write, luck.order);
    w, ok := next, written;
  }

  // ----- what a change of a compose file does -----

  /** Only one service of one file changes, as far as the public network goes. */
  ghost predicate OnlyJoins(w: World, next: World, id: Id)
  {
    && next.entries == w.entries && next.connected == w.connected && next.network == w.network
    && next.files.Keys == w.files.Keys
    && (forall p :: p in w.files && p != id.dnpName ==> next.files[p] == w.files[p])
    && (forall other: Id :: other != id ==> (Joined(next, other) <==> Joined(w, other)))
  }

  lemma AddedToCompose(w: World, id: Id, write: bool, order: KeyOrder)
    ensures var (next, written) := AddToCompose(w, id, write, order);
      && OnlyJoins(w, next, id) && (written ==> HasComposeAlias(next, id)) && (!written ==> next == w)
      && (written ==> id.dnpName in next.files && Declares(next.files[id.dnpName]))
      && (forall p :: p in w.files && Declares(w.files[p]) ==> Declares(next.files[p]))
  {
    hide Environment.Enumerates;
    hide Saved;
    hide ExternalAlias;
    hide NetworksOf;
    var (next, written) := AddToCompose(w, id, write, order);
    if written {
      var c0 := w.files[id.dnpName];
      var c := WithNetwork(c0, id.serviceName, PUBLIC, ServiceNetwork(None, Some([ExternalAlias(id)])),
        Network(Some(true), map[]));
      SavedKeepsNetworks(c, order);
      WithNetworkShape(c0, id.serviceName, [ExternalAlias(id)]);
    }
  }

  lemma WithNetworkShape(c: Compose, n: string, aliases: seq<string>)
    requires n in c.services
    ensures var r := WithNetwork(c, n, PUBLIC, ServiceNetwork(None, Some(aliases)), Network(Some(true), map[]));
      && r.services.Keys == c.services.Keys && Declares(r)
      && PUBLIC in NetworksOf(r.services[n]) && NetworksOf(r.services[n])[PUBLIC].aliases == Some(aliases)
      && forall m :: m in c.services && m != n ==> r.services[m] == c.services[m]
  {
  }

  lemma RemovedFromCompose(w: World, id: Id, write: bool, order: KeyOrder)
    ensures var (next, written) := RemoveFromCompose(w, id, write, order);
      && OnlyJoins(w, next, id) && (written ==> !Joined(next, id)) && (!written ==> next == w)
  {
    hide Environment.Enumerates;
    hide Saved;
    hide NetworksOf;
    hide WithoutNetwork;
    var (next, written) := RemoveFromCompose(w, id, write, order);
    if written {
      var c0 := w.files[id.dnpName];
      SavedKeepsNetworks(WithoutNetwork(c0, id.serviceName, PUBLIC), order);
      WithoutNetworkRest(c0, id.serviceName, PUBLIC);
      LeftKeys(c0, id.serviceName, PUBLIC);
    }
  }

  // ----- entries and containers -----

  /** Aliases tell the containers apart and contain no colon. */
  predicate ApartAliases(ids: seq<Id>)
  {
    && (forall i, j :: 0 <= i < |ids| && 0 <= j < |ids| && ExternalAlias(ids[i]) == ExternalAlias(ids[j]) ==>
      ids[i] == ids[j])
    && (forall i :: 0 <= i < |ids| ==> ':' !in ExternalAlias(ids[i]))
  }

  lemma NewEntryTarget(m: Mapping)
    requires ':' !in ExternalAlias(m.id)
    ensures Target(NewEntry(m)) == ExternalAlias(m.id)
  {
    hide ExternalAlias;
    hide Split;
    var alias, port := ExternalAlias(m.id), Numbers.Print(m.port);
    assert alias + ":" + port == alias + [':'] + port;
    SplitFirst(alias, ':', port);
  }

  lemma {:induction false} OwnerIs(ids: seq<Id>, alias: string)
    ensures Owner(ids, alias).Some? ==>
      Owner(ids, alias).value in ids && ExternalAlias(Owner(ids, alias).value) == alias
    ensures Owner(ids, alias).None? ==> forall i :: 0 <= i < |ids| ==> ExternalAlias(ids[i]) != alias
  {
    hide ExternalAlias;
    if ids != [] { OwnerIs(ids[..|ids| - 1], alias); }
  }

  /** What `getMappings` says about a container is what its entries say. */
  lemma {:induction false} MappedIsEntry(entries: seq<Entry>, ids: seq<Id>, id: Id)
    requires ApartAliases(ids) && id in ids
    ensures Mapped(MappingsOf(entries, ids), id)
      <==> exists i :: 0 <= i < |entries| && Target(entries[i]) == ExternalAlias(id)
  {
    hide ExternalAlias;
    hide Target;
    hide Owner;
    if entries != [] {
      var shorter, e := entries[..|entries| - 1], entries[|entries| - 1];
      MappedIsEntry(shorter, ids, id);
      OwnerIs(ids, Target(e));
      var i :| 0 <= i < |ids| && ids[i] == id;
      assert (exists j :: 0 <= j < |entries| && Target(entries[j]) == ExternalAlias(id))
        <==> ((exists j :: 0 <= j < |shorter| && Target(shorter[j]) == ExternalAlias(id))
              || Target(e) == ExternalAlias(id)) by {
        EntriesSplit(entries, ExternalAlias(id));
      }
      var owner := Owner(ids, Target(e));
      MappedLast(MappingsOf(shorter, ids), MappingOf(e, if owner.Some? then owner.value else id), id);
    }
  }

  lemma EntriesSplit(entries: seq<Entry>, alias: string)
    requires entries != []
    ensures var shorter := entries[..|entries| - 1];
      (exists j :: 0 <= j < |entries| && Target(entries[j]) == alias)
      <==> (exists j :: 0 <= j < |shorter| && Target(shorter[j]) == alias) || Target(entries[|entries| - 1]) == alias
  {
    hide Target;
    var shorter := entries[..|entries| - 1];
    if exists j :: 0 <= j < |shorter| && Target(shorter[j]) == alias {
      var j :| 0 <= j < |shorter| && Target(shorter[j]) == alias;
      assert entries[j] == shorter[j];
    }
    if exists j :: 0 <= j < |entries| && Target(entries[j]) == alias {
      var j :| 0 <= j < |entries| && Target(entries[j]) == alias;
      if j < |shorter| { assert shorter[j] == entries[j]; }
    }
  }

  lemma MappedLast(mappings: seq<Mapping>, m: Mapping, id: Id)
    ensures Mapped(mappings + [m], id) <==> Mapped(mappings, id) || m.id == id
  {
    var more := mappings + [m];
    if Mapped(mappings, id) {
      var i :| 0 <= i < |mappings| && mappings[i].id == id;
      assert more[i].id == id;
    }
    if m.id == id { assert more[|mappings|].id == id; }
  }

  // ----- what an operation changes -----

  /** The three places that say whether a container is exposed. */
  predicate Exposed(w: World, id: Id)
  {
    HasEntry(w, id) && id in w.connected && HasComposeAlias(w, id)
  }

  ghost predicate SameFor(w: World, next: World, other: Id)
  {
    && (HasEntry(next, other) <==> HasEntry(w, other)) && (other in next.connected <==> other in w.connected)
    && (Joined(next, other) <==> Joined(w, other))
  }

  /** An entry only points to a container that is on the network. */
  predicate Reachable(w: World, id: Id)
  {
    HasEntry(w, id) ==> id in w.connected
  }

  /** What `ensureExternalNetworkConfig` sets up. */
  predicate PortalReady(w: World, ids: seq<Id>)
  {
    && w.network && PortalOf(ids).Some? && PortalOf(ids).value in w.connected
    && PORTAL in w.files && Declares(w.files[PORTAL])
  }

  lemma PortalFound(ids: seq<Id>)
    requires PortalOf(ids).Some?
    ensures PortalOf(ids).value.dnpName == PORTAL && PortalOf(ids).value in ids
  {
  }

  lemma EnsuredPortal(w: World, ids: seq<Id>, luck: Luck)
    ensures var d := Ensured(w, ids, luck);
      && d.world.entries == w.entries && w.connected <= d.world.connected && (d.ok ==> PortalReady(d.world, ids))
      && (forall other: Id :: other.dnpName != PORTAL ==> (other in d.world.connected <==> other in w.connected))
      && (forall p :: p in w.files && Declares(w.files[p]) ==> p in d.world.files && Declares(d.world.files[p]))
      && d.world.files.Keys == w.files.Keys
      && (forall p :: p in w.files && p != PORTAL ==> d.world.files[p] == w.files[p])
      && (PortalReady(w, ids) ==> d == Done(w, true))
  {
    hide AddToCompose;
    hide Declares;
    hide HasComposeAlias;
    hide Joined;
    hide Target;
    hide ExternalAlias;
    hide HasEntry;
    hide Environment.Enumerates;
    if PortalOf(ids).Some? {
      PortalFound(ids);
      var portal := PortalOf(ids).value;
      var w2 := w.(network := true, connected := w.connected + {portal});
      AddedToCompose(w2, portal, luck.writePortal, luck.order);
      if portal in w.connected { assert w.connected + {portal} == w.connected; }
    }
  }

  lemma SameFileSameJoined(w: World, next: World, other: Id)
    requires other.dnpName in w.files <==> other.dnpName in next.files
    requires other.dnpName in w.files ==> next.files[other.dnpName] == w.files[other.dnpName]
    ensures Joined(next, other) <==> Joined(w, other)
    ensures HasComposeAlias(next, other) <==> HasComposeAlias(w, other)
  {
    hide NetworksOf;
    hide ExternalAlias;
  }

  lemma SameEntriesSameEntry(w: World, next: World, id: Id)
    requires next.entries == w.entries
    ensures HasEntry(next, id) <==> HasEntry(w, id)
  {
  }

  /** Setting up the portal changes nothing for other packages. */
  lemma EnsuredEffect(w: World, ids: seq<Id>, luck: Luck, other: Id)
    requires other.dnpName != PORTAL
    ensures SameFor(w, Ensured(w, ids, luck).world, other)
  {
    hide *;
    var d := Ensured(w, ids, luck);
    EnsuredPortal(w, ids, luck);
    SameFileSameJoined(w, d.world, other);
    SameEntriesSameEntry(w, d.world, other);
    AreSame(w, d.world, other);
  }

  lemma AreSame(w: World, next: World, other: Id)
    requires HasEntry(next, other) <==> HasEntry(w, other)
    requires other in next.connected <==> other in w.connected
    requires Joined(next, other) <==> Joined(w, other)
    ensures SameFor(w, next, other)
  {
  }

  lemma RegisteredEffect(w: World, m: Mapping, luck: Luck, other: Id)
    requires ':' !in ExternalAlias(m.id)
    ensures var d := Registered(w, m, luck);
      && d.world == w.(entries := d.world.entries) && (d.ok ==> HasEntry(d.world, m.id))
      && (ExternalAlias(other) != ExternalAlias(m.id) ==> (HasEntry(d.world, other) <==> HasEntry(w, other)))
      && (HasEntry(w, m.id) && luck.list ==> d == Done(w, true))
      && (HasEntry(w, other) ==> HasEntry(d.world, other))
  {
    hide ExternalAlias;
    hide Target;
    hide NewEntry;
    NewEntryTarget(m);
    var d := Registered(w, m, luck);
    if d.world != w {
      assert d.world.entries == w.entries + [NewEntry(m)];
      assert d.world.entries[|w.entries|] == NewEntry(m);
      forall i | 0 <= i < |w.entries| ensures d.world.entries[i] == w.entries[i] { }
    }
  }

  lemma PersistedEffect(w: World, id: Id, luck: Luck)
    ensures var d := Persisted(w, id, luck);
      && OnlyJoins(w, d.world, id) && (d.ok ==> HasComposeAlias(d.world, id))
      && (HasComposeAlias(w, id) ==> d == Done(w, true))
      && (forall p :: p in w.files && Declares(w.files[p]) ==> Declares(d.world.files[p]))
  {
    hide AddToCompose;
    hide Declares;
    hide NetworksOf;
    hide ExternalAlias;
    hide Environment.Enumerates;
    AddedToCompose(w, id, luck.write, luck.order);
  }

  lemma JoinsSameFor(w: World, next: World, id: Id, other: Id)
    requires OnlyJoins(w, next, id) && other != id
    ensures SameFor(w, next, other)
  {
    hide Joined;
    SameEntriesSameEntry(w, next, other);
  }

  lemma SameForThrough(a: World, b: World, c: World, other: Id)
    requires SameFor(a, b, other) && SameFor(b, c, other)
    ensures SameFor(a, c, other)
  {
  }

  /** Adding a mapping changes nothing for any other container, whether it completes or not. */
  lemma AddIsLocal(w: World, ids: seq<Id>, m: Mapping, luck: Luck, other: Id)
    requires ApartAliases(ids) && other in ids && other != m.id && other.dnpName != PORTAL
    ensures SameFor(w, Added(w, ids, m, luck).world, other)
  {
    hide Ensured;
    hide Registered;
    hide Persisted;
    hide SameFor;
    hide ExternalAlias;
    SameForSelf(w, other);
    if luck.running && m.id in ids {
      AliasesApart(ids, other, m.id);
      EnsuredEffect(w, ids, luck, other);
      var d1 := Ensured(w, ids, luck);
      var d2 := Connected(d1.world, w.connected, m.id, luck);
      ConnectedSameFor(d1.world, w.connected, m.id, luck, other);
      SameForThrough(w, d1.world, d2.world, other);
      var d3 := Registered(d2.world, m, luck);
      RegisteredSameFor(d2.world, m, luck, other);
      SameForThrough(w, d2.world, d3.world, other);
      var d4 := Persisted(d3.world, m.id, luck);
      PersistedEffect(d3.world, m.id, luck);
      JoinsSameFor(d3.world, d4.world, m.id, other);
      SameForThrough(w, d3.world, d4.world, other);
    }
  }

  lemma SameForSelf(w: World, other: Id)
    ensures SameFor(w, w, other)
  {
  }

  lemma AliasesApart(ids: seq<Id>, a: Id, b: Id)
    requires ApartAliases(ids) && a in ids && b in ids
    ensures ':' !in ExternalAlias(b) && (a != b ==> ExternalAlias(a) != ExternalAlias(b))
  {
    hide ExternalAlias;
    var i, j :| 0 <= i < |ids| && 0 <= j < |ids| && ids[i] == a && ids[j] == b;
  }

  lemma ConnectedSameFor(w: World, seen: set<Id>, id: Id, luck: Luck, other: Id)
    requires other != id
    ensures SameFor(w, Connected(w, seen, id, luck).world, other)
  {
    hide Joined;
    hide HasEntry;
    var d := Connected(w, seen, id, luck);
    SameFileSameJoined(w, d.world, other);
    SameEntriesSameEntry(w, d.world, other);
  }

  lemma RegisteredSameFor(w: World, m: Mapping, luck: Luck, other: Id)
    requires ':' !in ExternalAlias(m.id) && ExternalAlias(other) != ExternalAlias(m.id)
    ensures SameFor(w, Registered(w, m, luck).world, other)
  {
    hide Registered;
    hide Joined;
    hide HasEntry;
    hide ExternalAlias;
    var d := Registered(w, m, luck);
    RegisteredEffect(w, m, luck, other);
    SameFileSameJoined(w, d.world, other);
  }

  /** A completed add exposes the container in all three places, whatever the state was before. */
  lemma AddExposes(w: World, ids: seq<Id>, m: Mapping, luck: Luck)
    requires ApartAliases(ids) && luck.running && Added(w, ids, m, luck).ok
    ensures var d := Added(w, ids, m, luck);
      Exposed(d.world, m.id) && PortalReady(d.world, ids)
  {
    hide Environment.Enumerates;
    hide ApartAliases;
    hide Joined;
    hide NetworksOf;
    hide Ensured;
    hide Registered;
    hide Persisted;
    hide ExternalAlias;
    hide HasComposeAlias;
    hide HasEntry;
    hide Declares;
    AliasesApart(ids, m.id, m.id);
    EnsuredPortal(w, ids, luck);
    var d1 := Ensured(w, ids, luck);
    var d2 := Connected(d1.world, w.connected, m.id, luck);
    var d3 := Registered(d2.world, m, luck);
    RegisteredEffect(d2.world, m, luck, m.id);
    var d4 := Persisted(d3.world, m.id, luck);
    PersistedEffect(d3.world, m.id, luck);
    SameEntriesSameEntry(d3.world, d4.world, m.id);
  }

  /** Adding a mapping for a container that is exposed completes and changes nothing, so a second
      subdomain of the same container is not added. */
  lemma AddAgain(w: World, ids: seq<Id>, m: Mapping, luck: Luck)
    requires m.id in ids && luck.running && luck.list && Exposed(w, m.id) && PortalReady(w, ids)
    ensures Added(w, ids, m, luck) == Done(w, true)
  {
    hide Ensured;
    hide ExternalAlias;
    hide HasEntry;
    hide Declares;
    hide NetworksOf;
    EnsuredPortal(w, ids, luck);
  }

  // ----- which mappings are registered -----

  /** The container is reached under the subdomain of the mapping. */
  predicate HasMapping(w: World, m: Mapping)
  {
    exists i :: 0 <= i < |w.entries| && w.entries[i].fromSubdomain == m.fromSubdomain
      && Target(w.entries[i]) == ExternalAlias(m.id)
  }

  lemma RegisteredEntries(w: World, m: Mapping, luck: Luck)
    requires Registered(w, m, luck).ok
    ensures Registered(w, m, luck).world.entries == if HasEntry(w, m.id) then w.entries else w.entries + [NewEntry(m)]
  {
    hide HasEntry;
    hide NewEntry;
  }

  /** The entries after a completed add: one more exactly if the container had none. */
  lemma AddedEntries(w: World, ids: seq<Id>, m: Mapping, luck: Luck)
    requires luck.running && Added(w, ids, m, luck).ok
    ensures Added(w, ids, m, luck).world.entries == if HasEntry(w, m.id) then w.entries else w.entries + [NewEntry(m)]
  {
    hide Ensured;
    hide Registered;
    hide Persisted;
    hide HasEntry;
    hide NewEntry;
    hide ExternalAlias;
    EnsuredPortal(w, ids, luck);
    var d1 := Ensured(w, ids, luck);
    var d2 := Connected(d1.world, w.connected, m.id, luck);
    SameEntriesSameEntry(w, d2.world, m.id);
    RegisteredEntries(d2.world, m, luck);
    PersistedEffect(Registered(d2.world, m, luck).world, m.id, luck);
  }

  /** A completed add leaves the container reachable under the requested subdomain exactly when it
      was before or had no entry at all: a second subdomain of a container is not added. */
  lemma AddRegisters(w: World, ids: seq<Id>, m: Mapping, luck: Luck)
    requires ApartAliases(ids) && luck.running && Added(w, ids, m, luck).ok
    ensures HasMapping(Added(w, ids, m, luck).world, m) <==> HasMapping(w, m) || !HasEntry(w, m.id)
  {
    hide Added;
    hide Target;
    hide ExternalAlias;
    hide NewEntry;
    hide ApartAliases;
    AddedNeedsListed(w, ids, m, luck);
    AliasesApart(ids, m.id, m.id);
    NewEntryTarget(m);
    NewEntrySubdomain(m);
    AddedEntries(w, ids, m, luck);
    var more := Added(w, ids, m, luck).world.entries;
    if !HasEntry(w, m.id) { assert more[|w.entries|] == NewEntry(m); }
  }

  lemma AddedNeedsListed(w: World, ids: seq<Id>, m: Mapping, luck: Luck)
    requires luck.running && Added(w, ids, m, luck).ok
    ensures m.id in ids
  {
    hide Ensured;
    hide Registered;
    hide Persisted;
  }

  lemma NewEntrySubdomain(m: Mapping)
    ensures NewEntry(m).fromSubdomain == m.fromSubdomain
  {
  }

  const GETH := Id("geth", "geth")

  /** A portal, and a package exposed under the subdomain `one`. */
  function OneSubdomain(): World
  {
    var net := map[PUBLIC := Network(Some(true), map[])];
    var geth := map[PUBLIC := ServiceNetwork(None, Some([ExternalAlias(GETH)]))];
    World(true, [NewEntry(Mapping("one", GETH, Numbers.Num(80), None, true))], {Id(PORTAL, PORTAL), GETH},
      map[PORTAL := Compose("3.5", map[], None, Some(net)),
          "geth" := Compose("3.5", map["geth" := Service(None, None, None, Some(NetworkObject(geth)), None, map[])],
                            None, Some(net))])
  }

  lemma {:induction false} RemoveUnderscoresWithin(s: string)
    ensures forall c :: c in NetworkAlias.RemoveUnderscores(s) ==> c in s
  {
    if s != "" {
      RemoveUnderscoresWithin(s[1..]);
      assert s == [s[0]] + s[1..];
    }
  }

  lemma DropSuffixWithin(s: string, suffix: string)
    ensures NetworkAlias.DropSuffix(s, suffix) <= s
  {
  }

  /** An alias has no colon if the names have none. */
  lemma AliasWithoutColon(id: Id)
    requires ':' !in ContainerDomain(id)
    ensures ':' !in ExternalAlias(id)
  {
    var a := ContainerDomain(id);
    var b := NetworkAlias.DropSuffix(a, ".dnp.dappnode.eth");
    var c := NetworkAlias.DropSuffix(b, ".dappnode.eth");
    var d := NetworkAlias.DropSuffix(c, ".eth");
    DropSuffixWithin(a, ".dnp.dappnode.eth");
    DropSuffixWithin(b, ".dappnode.eth");
    DropSuffixWithin(c, ".eth");
    RemoveUnderscoresWithin(d);
    assert d <= a;
    assert ExternalAlias(id) == NetworkAlias.RemoveUnderscores(d) + ".external";
    hide *;
  }

  lemma OneSubdomainIs()
    ensures Exposed(OneSubdomain(), GETH) && PortalReady(OneSubdomain(), [Id(PORTAL, PORTAL), GETH])
    ensures OneSubdomain().entries == [NewEntry(Mapping("one", GETH, Numbers.Num(80), None, true))]
  {
    var w := OneSubdomain();
    AliasWithoutColon(GETH);
    hide ExternalAlias;
    NewEntryTarget(Mapping("one", GETH, Numbers.Num(80), None, true));
    assert HasEntry(w, GETH) by { assert Target(w.entries[0]) == ExternalAlias(GETH); }
    assert HasComposeAlias(w, GETH) by { assert [ExternalAlias(GETH)][0] == ExternalAlias(GETH); }
  }

  /** The concrete second subdomain: the call completes, changes nothing, and `two` leads nowhere. */
  lemma SecondSubdomainIsLost(luck: Luck)
    requires luck.running && luck.list
    ensures var m := Mapping("two", GETH, Numbers.Num(80), None, true);
      && Added(OneSubdomain(), [Id(PORTAL, PORTAL), GETH], m, luck) == Done(OneSubdomain(), true)
      && !HasMapping(OneSubdomain(), m)
  {
    hide ExternalAlias;
    hide Added;
    hide OneSubdomain;
    hide Exposed;
    hide PortalReady;
    var w, ids := OneSubdomain(), [Id(PORTAL, PORTAL), GETH];
    OneSubdomainIs();
    assert ids[1] == GETH;
    AddAgain(w, ids, Mapping("two", GETH, Numbers.Num(80), None, true), luck);
    NewEntrySubdomain(Mapping("one", GETH, Numbers.Num(80), None, true));
  }

  // ----- removing -----

  /** Some entry of the container is not deleted. */
  predicate KeepsEntry(w: World, id: Id, m: Mapping, luck: Luck)
  {
    exists i :: 0 <= i < |w.entries| && !Hit(w.entries[i], m, luck) && Target(w.entries[i]) == ExternalAlias(id)
  }

  lemma EntryRemoved(w: World, m: Mapping, luck: Luck, id: Id)
    ensures HasEntry(w.(entries := Unhit(w.entries, m, luck)), id) <==> KeepsEntry(w, id, m, luck)
  {
    hide Target;
    hide ExternalAlias;
    hide Hit;
    var left := Unhit(w.entries, m, luck);
    if HasEntry(w.(entries := left), id) {
      var i :| 0 <= i < |left| && Target(left[i]) == ExternalAlias(id);
      assert left[i] in w.entries && !Hit(left[i], m, luck);
    }
    if KeepsEntry(w, id, m, luck) {
      var i :| 0 <= i < |w.entries| && !Hit(w.entries[i], m, luck) && Target(w.entries[i]) == ExternalAlias(id);
      assert w.entries[i] in left;
    }
  }

  /** What removing leaves: the entries that match are gone, no other container moves, and a
      completed removal takes the container out of the network and its file exactly when it has no
      entry left. */
  lemma RemoveEffect(w: World, ids: seq<Id>, m: Mapping, luck: Luck, other: Id)
    requires ApartAliases(ids) && luck.running && luck.api && m.id in ids
    ensures var d := Removed(w, ids, m, luck);
      && d.world.entries == Unhit(w.entries, m, luck)
      && (HasEntry(d.world, other) <==> KeepsEntry(w, other, m, luck))
      && (other != m.id ==>
            (other in d.world.connected <==> other in w.connected) && (Joined(d.world, other) <==> Joined(w, other)))
      && (HasEntry(d.world, m.id) ==>
            (m.id in d.world.connected <==> m.id in w.connected) && (Joined(d.world, m.id) <==> Joined(w, m.id)))
      && (d.ok && !HasEntry(d.world, m.id) ==> m.id !in d.world.connected && !Joined(d.world, m.id))
      && (d.ok ==> luck.list)
  {
    hide MappingsOf;
    hide Mapped;
    hide HasEntry;
    hide KeepsEntry;
    hide RemoveFromCompose;
    hide Joined;
    hide ExternalAlias;
    var w1 := w.(entries := Unhit(w.entries, m, luck));
    var d := Removed(w, ids, m, luck);
    EntryRemoved(w, m, luck, other);
    EntryRemoved(w, m, luck, m.id);
    MappedIs(w1, ids, m.id);
    SameFileSameJoined(w, w1, other);
    SameFileSameJoined(w, w1, m.id);
    var w2 := w1.(connected := w1.connected - {m.id});
    RemovedFromCompose(w2, m.id, luck.write, luck.order);
    SameFileSameJoined(w, w2, other);
    SameFileSameJoined(w, w2, m.id);
    SameEntriesSameEntry(w1, d.world, other);
    SameEntriesSameEntry(w1, d.world, m.id);
  }

  lemma MappedIs(w: World, ids: seq<Id>, id: Id)
    requires ApartAliases(ids) && id in ids
    ensures Mapped(MappingsOf(w.entries, ids), id) <==> HasEntry(w, id)
  {
    hide MappingsOf;
    hide Mapped;
    hide Target;
    hide ExternalAlias;
    MappedIsEntry(w.entries, ids, id);
  }

  // ----- over whole runs -----

  datatype Op = Add(m: Mapping, luck: Luck) | Remove(m: Mapping, luck: Luck)

  function Do(w: World, ids: seq<Id>, op: Op): Done
  {
    match op
    case Add(m, luck) => Added(w, ids, m, luck)
    case Remove(m, luck) => Removed(w, ids, m, luck)
  }

  /** A container has an entry exactly if it is on the network exactly if its file says so. */
  predicate Consistent(w: World, id: Id)
  {
    (HasEntry(w, id) <==> id in w.connected) && (id in w.connected <==> Joined(w, id))
  }

  predicate AllConsistent(w: World, ids: seq<Id>)
  {
    forall i :: 0 <= i < |ids| && ids[i].dnpName != PORTAL ==> Consistent(w, ids[i])
  }

  /** The container loses its last entry. */
  predicate LosesLast(w: World, id: Id, m: Mapping, luck: Luck)
  {
    HasEntry(w, id) && !KeepsEntry(w, id, m, luck)
  }

  /** A removal that takes no other container's last entry. */
  predicate Own(w: World, ids: seq<Id>, op: Op)
  {
    op.Remove? ==> forall i :: 0 <= i < |ids| && ids[i].dnpName != PORTAL && ids[i] != op.m.id ==>
      !LosesLast(w, ids[i], op.m, op.luck)
  }

  lemma SameForConsistent(w: World, next: World, id: Id)
    requires SameFor(w, next, id) && Consistent(w, id)
    ensures Consistent(next, id)
  {
    hide HasEntry;
    hide Joined;
  }

  lemma ExposedConsistent(w: World, id: Id)
    requires Exposed(w, id)
    ensures Consistent(w, id)
  {
    hide HasEntry;
    hide Declares;
    hide NetworksOf;
  }

  lemma AddConsistent(w: World, ids: seq<Id>, m: Mapping, luck: Luck, id: Id)
    requires ApartAliases(ids) && Added(w, ids, m, luck).ok && id in ids && id.dnpName != PORTAL && Consistent(w, id)
    ensures Consistent(Added(w, ids, m, luck).world, id)
  {
    hide Consistent;
    hide SameFor;
    hide Exposed;
    hide ApartAliases;
    hide Ensured;
    if luck.running {
      if id == m.id {
        AddExposes(w, ids, m, luck);
        ExposedConsistent(Added(w, ids, m, luck).world, id);
      } else {
        AddIsLocal(w, ids, m, luck, id);
        SameForConsistent(w, Added(w, ids, m, luck).world, id);
      }
    }
  }

  lemma KeptEntryIsEntry(w: World, id: Id, m: Mapping, luck: Luck)
    ensures KeepsEntry(w, id, m, luck) ==> HasEntry(w, id)
  {
    hide Target;
    hide Hit;
    hide ExternalAlias;
  }

  lemma RemoveConsistent(w: World, ids: seq<Id>, m: Mapping, luck: Luck, id: Id)
    requires ApartAliases(ids) && Removed(w, ids, m, luck).ok && luck.running
    requires id in ids && Consistent(w, id)
    ensures Consistent(Removed(w, ids, m, luck).world, id) <==> id == m.id || !LosesLast(w, id, m, luck)
  {
    hide HasEntry;
    hide KeepsEntry;
    hide Joined;
    hide ApartAliases;
    hide Withdrawn;
    hide MappingsOf;
    hide Mapped;
    RemoveEffect(w, ids, m, luck, id);
    RemoveEffect(w, ids, m, luck, m.id);
    KeptEntryIsEntry(w, id, m, luck);
  }

  /** A completed operation keeps every container consistent exactly when it is the container's own
      subdomain that is removed. */
  lemma StepConsistent(w: World, ids: seq<Id>, op: Op)
    requires ApartAliases(ids) && AllConsistent(w, ids) && Do(w, ids, op).ok && op.luck.running
    ensures AllConsistent(Do(w, ids, op).world, ids) <==> Own(w, ids, op)
  {
    hide Consistent;
    hide ApartAliases;
    hide LosesLast;
    hide Added;
    hide Removed;
    forall i | 0 <= i < |ids| && ids[i].dnpName != PORTAL
      ensures Consistent(Do(w, ids, op).world, ids[i])
        <==> op.Add? || ids[i] == op.m.id || !LosesLast(w, ids[i], op.m, op.luck)
    {
      match op {
        case Add(m, luck) => AddConsistent(w, ids, m, luck, ids[i]);
        case Remove(m, luck) => RemoveConsistent(w, ids, m, luck, ids[i]);
      }
    }
  }

  /** What any removal changes of the entries and of the others' connections. */
  lemma RemovedParts(w: World, ids: seq<Id>, m: Mapping, luck: Luck, id: Id)
    requires luck.running && luck.api && m.id in ids && id != m.id
    ensures var next := Removed(w, ids, m, luck).world;
      next.entries == Unhit(w.entries, m, luck) && (id in next.connected <==> id in w.connected)
  {
    hide ExternalAlias;
    hide Unhit;
    hide RemoveFromCompose;
    hide MappingsOf;
    var w1 := w.(entries := Unhit(w.entries, m, luck));
    RemovedFromCompose(w1.(connected := w1.connected - {m.id}), m.id, luck.write, luck.order);
  }

  lemma OneHit(e: Entry, m: Mapping, luck: Luck)
    requires Hit(e, m, luck)
    ensures Unhit([e], m, luck) == []
  {
    assert [e][1..] == [];
  }

  lemma Disconnected(w: World, id: Id)
    requires w.entries == [] && id in w.connected
    ensures !HasEntry(w, id) && !Consistent(w, id)
  {
  }

  /** Concretely, with a portal that deletes by the subdomain alone: removing the subdomain of `geth`
      for another container leaves `geth` on the network without an entry. */
  lemma ForeignRemovalBreaks(other: Id, luck: Luck)
    requires other != GETH && luck.running && luck.api
    requires luck.matches(NewEntry(Mapping("one", GETH, Numbers.Num(80), None, true)).toHost, ExternalAlias(other))
    ensures var w := OneSubdomain();
      var next := Removed(w, [GETH, other], Mapping("one", other, Numbers.Num(80), None, true), luck).world;
      Consistent(w, GETH) && !HasEntry(next, GETH) && !Consistent(next, GETH)
  {
    var w, m := OneSubdomain(), Mapping("one", other, Numbers.Num(80), None, true);
    OneSubdomainIs();
    NewEntrySubdomain(Mapping("one", GETH, Numbers.Num(80), None, true));
    assert Hit(w.entries[0], m, luck);
    assert GETH in w.connected;
    hide *;
    ExposedConsistent(w, GETH);
    OneHit(w.entries[0], m, luck);
    assert [GETH, other][1] == other;
    RemovedParts(w, [GETH, other], m, luck, GETH);
    Disconnected(Removed(w, [GETH, other], m, luck).world, GETH);
  }

  predicate AllCompleted(w: World, ids: seq<Id>, ops: seq<Op>)
    decreases ops
  {
    ops == [] ||
    (Do(w, ids, ops[0]).ok && (ops[0].luck.running ==> Own(w, ids, ops[0]))
      && AllCompleted(Do(w, ids, ops[0]).world, ids, ops[1..]))
  }

  /** The states of a run, the first one left out. */
  function Run(w: World, ids: seq<Id>, ops: seq<Op>): seq<World>
    decreases ops
  {
    if ops == [] then [] else var next := Do(w, ids, ops[0]).world; [next] + Run(next, ids, ops[1..])
  }

  lemma NotRunning(w: World, ids: seq<Id>, op: Op)
    requires !op.luck.running
    ensures Do(w, ids, op) == Done(w, true)
  {
    hide Ensured;
  }

  /** Over every run of completed calls, each container stays consistent. */
  lemma {:induction false} RunConsistent(w: World, ids: seq<Id>, ops: seq<Op>)
    requires ApartAliases(ids) && AllConsistent(w, ids) && AllCompleted(w, ids, ops)
    ensures forall next :: next in Run(w, ids, ops) ==> AllConsistent(next, ids)
    decreases ops
  {
    hide AllConsistent;
    hide ApartAliases;
    hide Own;
    hide Do;
    if ops != [] {
      if ops[0].luck.running { StepConsistent(w, ids, ops[0]); } else { NotRunning(w, ids, ops[0]); }
      RunConsistent(Do(w, ids, ops[0]).world, ids, ops[1..]);
    }
  }

  predicate AllReachable(w: World, ids: seq<Id>)
  {
    forall i :: 0 <= i < |ids| && ids[i].dnpName != PORTAL ==> Reachable(w, ids[i])
  }

  lemma AddReachable(w: World, ids: seq<Id>, m: Mapping, luck: Luck, id: Id)
    requires ApartAliases(ids) && id in ids && id.dnpName != PORTAL && Reachable(w, id)
    ensures Reachable(Added(w, ids, m, luck).world, id)
  {
    hide Ensured;
    hide Registered;
    hide Persisted;
    hide ExternalAlias;
    hide HasEntry;
    hide ApartAliases;
    var next := Added(w, ids, m, luck).world;
    if id != m.id {
      AddIsLocal(w, ids, m, luck, id);
    } else if luck.running {
      AliasesApart(ids, id, id);
      EnsuredPortal(w, ids, luck);
      var d1 := Ensured(w, ids, luck);
      SameEntriesSameEntry(w, d1.world, id);
      var d2 := Connected(d1.world, w.connected, id, luck);
      SameEntriesSameEntry(w, d2.world, id);
      var d3 := Registered(d2.world, m, luck);
      RegisteredEffect(d2.world, m, luck, id);
      PersistedEffect(d3.world, id, luck);
      SameEntriesSameEntry(d3.world, Persisted(d3.world, id, luck).world, id);
    }
  }

  lemma RemoveReachable(w: World, ids: seq<Id>, m: Mapping, luck: Luck, id: Id)
    requires ApartAliases(ids) && id in ids && Reachable(w, id)
    ensures Reachable(Removed(w, ids, m, luck).world, id)
  {
    hide HasEntry;
    hide KeepsEntry;
    hide Joined;
    hide ApartAliases;
    hide Withdrawn;
    hide MappingsOf;
    hide Mapped;
    if luck.running && luck.api && m.id in ids {
      RemoveEffect(w, ids, m, luck, id);
      RemoveEffect(w, ids, m, luck, m.id);
      KeptEntryIsEntry(w, id, m, luck);
    }
  }

  /** Even when calls fail half-way, no entry ever points to a container that is off the network. */
  lemma {:induction false} RunReachable(w: World, ids: seq<Id>, ops: seq<Op>)
    requires ApartAliases(ids) && AllReachable(w, ids)
    ensures forall next :: next in Run(w, ids, ops) ==> AllReachable(next, ids)
    decreases ops
  {
    hide Reachable;
    hide ApartAliases;
    hide Added;
    hide Removed;
    if ops != [] {
      forall i | 0 <= i < |ids| && ids[i].dnpName != PORTAL ensures Reachable(Do(w, ids, ops[0]).world, ids[i]) {
        match ops[0] {
          case Add(m, luck) => AddReachable(w, ids, m, luck, ids[i]);
          case Remove(m, luck) => RemoveReachable(w, ids, m, luck, ids[i]);
        }
      }
      RunReachable(Do(w, ids, ops[0]).world, ids, ops[1..]);
    }
  }

  // ----- services of one package -----

  /** Withdrawing one service also drops the declaration of the network: the file stays consistent
      exactly when no other service of the package is on it. */
  lemma SiblingsLoseDeclaration(w: World, id: Id, order: KeyOrder)
    requires id.dnpName in w.files && id.serviceName in w.files[id.dnpName].services
    requires Declared(w.files[id.dnpName])
    ensures var next := RemoveFromCompose(w, id, true, order).0;
      && id.dnpName in next.files
      && (Declared(next.files[id.dnpName])
          <==> forall n :: n in w.files[id.dnpName].services && n != id.serviceName ==> !Joined(w, Id(id.dnpName, n)))
  {
    hide Environment.Enumerates;
    hide Saved;
    hide NetworksOf;
    hide WithoutNetwork;
    var c0 := w.files[id.dnpName];
    var c := WithoutNetwork(c0, id.serviceName, PUBLIC);
    RemoveKeepsDeclared(c0, id.serviceName, PUBLIC);
    SavedDeclared(c, order);
  }

  /** Two exposed services of one package. */
  function TwoExposed(): World
  {
    var net := map[PUBLIC := Network(Some(true), map[])];
    var joined := Service(None, None, None, Some(NetworkList([PUBLIC])), None, map[]);
    World(true, [], {}, map["p" := Compose("3.5", map["a" := joined, "b" := joined], None, Some(net))])
  }

  /** Concretely: withdrawing `a` takes the declaration away from `b`. */
  lemma SiblingLosesDeclaration(order: KeyOrder)
    ensures var next := RemoveFromCompose(TwoExposed(), Id("p", "a"), true, order).0;
      && Declared(TwoExposed().files["p"]) && Joined(TwoExposed(), Id("p", "b"))
      && "p" in next.files && !Declared(next.files["p"])
  {
    var w := TwoExposed();
    assert [PUBLIC][0] == PUBLIC;
    assert Joined(w, Id("p", "b")) && Declared(w.files["p"]);
    assert "p" in w.files && "a" in w.files["p"].services && "b" in w.files["p"].services;
    hide *;
    SiblingsLoseDeclaration(w, Id("p", "a"), order);
  }

  lemma SavedDeclared(c: Compose, order: KeyOrder)
    ensures Declared(Saved(c, order)) <==> Declared(c)
  {
    hide Environment.Enumerates;
    hide Saved;
    hide NetworksOf;
    SavedKeepsNetworks(c, order);
    if Declared(Saved(c, order)) {
      forall n, k | n in c.services && k in NetworksOf(c.services[n]) ensures k in OrElse(c.networks, map[]) {
        assert n in Saved(c, order).services && k in NetworksOf(Saved(c, order).services[n]);
      }
    }
  }
}
