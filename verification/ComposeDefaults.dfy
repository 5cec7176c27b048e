/** The compose file the system makes of a package's own (packages/dockerCompose/src/setDappnodeComposeDefaults.ts),
    and what that keeps of its validity. */
module ComposeDefaults {
  import opened Wrappers
  import opened Strings
  import opened Compose
  import opened Environment
  import opened ComposeRules
  import ComposeEditor
  import Numbers
  import DevicePath
  import NetworkAlias
  import Ports
  import UserSettings

  const DNCORE := "dncore_network"
  const DNPRIVATE := "dnprivate_network"
  const BIND := "bind.dnp.dappnode.eth"
  const MINIMUM_COMPOSE_VERSION := "3.5"

  /** The naming of containers and images. */
  datatype Naming = Naming(container: string -> string, image: string -> string)

  // ----- the parts -----

  /** `ensureMinimumComposeVersion`, for a readable version. */
  function RaiseVersion(version: string): string
  {
    if ReadVersion(version).Some? && Below(ReadVersion(version).value, (3, 5)) then MINIMUM_COMPOSE_VERSION else version
  }

  function PrivateNetwork(m: Manifest, n: string, main: bool): ServiceNetwork
  {
    ServiceNetwork(None, Some(NetworkAlias.PrivateNetworkAliases(m.name, n, main, NetworkAlias.Private)))
  }

  /** The core network: a fixed address is only left to bind. */
  function CoreNetwork(m: Manifest, n: string, main: bool, given: ServiceNetwork): ServiceNetwork
  {
    ServiceNetwork(if given.ipv4.Some? && given.ipv4.value != "" && m.name != BIND then None else given.ipv4,
                   Some(NetworkAlias.PrivateNetworkAliases(m.name, n, main, NetworkAlias.Core)))
  }

  /** `setServiceNetworksWithAliases`. */
  function JoinedNetworks(m: Manifest, n: string, main: bool, networks: Option<ServiceNetworks>): NetworksObject
  {
    match networks
    case None => map[DNCORE := CoreNetwork(m, n, main, NO_NETWORK), DNPRIVATE := PrivateNetwork(m, n, main)]
    case Some(given) =>
      var nets := ParseNetworks(given);
      nets[DNCORE := CoreNetwork(m, n, main, if DNCORE in nets then nets[DNCORE] else NO_NETWORK)]
          [DNPRIVATE := PrivateNetwork(m, n, main)]
  }

  predicate HasNetwork(root: map<string, Network>, k: string)
  {
    k in root && root[k].Network?
  }

  const EXTERNAL := Network(Some(true), map[])

  /** What `setNetworks` declares: the given networks, with the two private ones external. */
  function DeclaredNetworks(networks: Option<map<string, Network>>): map<string, Network>
  {
    var root := OrElse(networks, map[]);
    root[DNPRIVATE := if HasNetwork(root, DNPRIVATE) then root[DNPRIVATE] else EXTERNAL]
        [DNCORE := if HasNetwork(root, DNCORE) then root[DNCORE].(external := Some(true)) else EXTERNAL]
  }

  /** `setNetworks`, step by step. */
  method SetNetworks(given: Option<map<string, Network>>) returns (networks: map<string, Network>)
    ensures networks == DeclaredNetworks(given)
  {
    networks := OrElse(given, map[]);
    var external := Network(Some(true), map[]);
    var core := if DNCORE in networks then networks[DNCORE] else NullNetwork;
    if core.NullNetwork? { networks := networks[DNCORE := external]; }
    if DNPRIVATE !in networks || networks[DNPRIVATE].NullNetwork? { networks := networks[DNPRIVATE := external]; }
    if core.NullNetwork? || core.external != Some(true) {
      networks := networks[DNCORE := if core.NullNetwork? then external else core.(external := Some(true))];
    }
  }

  function Logging(): Json
  {
    Json.Object(map["driver" := Text("json-file"),
                    "options" := Json.Object(map["max-size" := Text("10m"), "max-file" := Text("3")])])
  }

  /** The allowed keys that a package may set itself. */
  predicate Picked(key: string)
  {
    key in SAFE_KEYS && key != "build" && key != "logging" && key != "dns" && key != "container_name" && key != "image"
  }

  function DefaultRest(rest: map<string, Json>, container: string, image: string): map<string, Json>
  {
    map["restart" := Text("unless-stopped")]
    + (map k | k in rest && Picked(k) :: rest[k])
    + map["logging" := Logging(), "container_name" := Text(container), "image" := Text(image)]
  }

  function DefaultService(m: Manifest, naming: Naming, n: string, main: bool, s: Service): Service
  {
    Service(Some(EnvField.Object(EnvsOf(s))), s.ports, s.volumes,
      Some(NetworkObject(JoinedNetworks(m, n, main, s.networks))),
            s.labels, DefaultRest(s.rest, naming.container(n), naming.image(n)))
  }

  /** The service that also gets the package's own name: the main one, or the only one. */
  predicate Main(c: Compose, m: Manifest, n: string)
  {
    |c.services| == 1 || m.mainService == Some(n)
  }

  /** The names an image tag needs. */
  predicate Named(c: Compose, m: Manifest)
  {
    c.services == map[] || (m.version != "" && m.name != "" && "" !in c.services)
  }

  function Defaulted(c: Compose, m: Manifest, naming: Naming): Compose
  {
    CleanCompose(Compose(RaiseVersion(c.version),
      map n | n in c.services :: DefaultService(m, naming, n, Main(c, m, n), c.services[n]),
      Some(OrElse(c.volumes, map[])),
      Some(DeclaredNetworks(c.networks))))
  }

  /** `setDappnodeComposeDefaults`; an error for an unreadable version or a missing name. */
  function SetDefaults(c: Compose, m: Manifest, naming: Naming): Result<Compose, string>
  {
    if ReadVersion(c.version).None? then Err("invalid version")
    else if !Named(c, m) then Err("a name is required")
    else Ok(Defaulted(c, m, naming))
  }

  // ----- reading the result -----

  lemma DefaultedServices(c: Compose, m: Manifest, naming: Naming, n: string)
    requires n in c.services
    ensures var r := Defaulted(c, m, naming);
      r.services.Keys == c.services.Keys && |r.services| == |c.services|
      && r.services[n] == CleanService(DefaultService(m, naming, n, Main(c, m, n), c.services[n]))
  {
    hide DefaultService;
    hide CleanService;
    hide DeclaredNetworks;
    hide RaiseVersion;
    hide Main;
    var r := Defaulted(c, m, naming);
    assert r.services.Keys == c.services.Keys;
    SizeOfKeys(r.services);
    SizeOfKeys(c.services);
  }

  lemma SizeOfKeys<V>(m: map<string, V>)
    ensures |m| == |m.Keys|
  {
  }

  lemma DefaultedSections(c: Compose, m: Manifest, naming: Naming)
    ensures var r := Defaulted(c, m, naming);
      && r.version == RaiseVersion(c.version) && r.services.Keys == c.services.Keys
      && OrElse(r.volumes, map[]) == OrElse(c.volumes, map[]) && r.volumes != Some(map[])
      && r.networks == Some(DeclaredNetworks(c.networks))
  {
    hide DefaultService;
    hide CleanService;
    hide RaiseVersion;
    hide Main;
    UserSettings.CleanMapNone(OrElse(c.volumes, map[]));
    UserSettings.CleanMapNone(DeclaredNetworks(c.networks));
    assert DNCORE in DeclaredNetworks(c.networks);
  }

  lemma CleanDefault(m: Manifest, naming: Naming, n: string, main: bool, s: Service)
    ensures var r := CleanService(DefaultService(m, naming, n, main, s));
      && EnvsOf(r) == EnvsOf(s) && r.environment == CleanEnvironment(Some(EnvField.Object(EnvsOf(s))))
      && r.ports == CleanSeq(s.ports) && r.volumes == CleanSeq(s.volumes) && r.labels == CleanMap(s.labels)
      && r.networks == Some(NetworkObject(JoinedNetworks(m, n, main, s.networks)))
      && r.rest == CleanRest(DefaultRest(s.rest, naming.container(n), naming.image(n)))
  {
    hide DefaultRest;
    hide CoreNetwork;
    hide PrivateNetwork;
    hide CleanRest;
    assert DNCORE in JoinedNetworks(m, n, main, s.networks);
  }

  function DefaultField(rest: map<string, Json>, container: string, image: string, k: string): Json
  {
    if k == "logging" then Logging()
    else if k == "container_name" then Text(container)
    else if k == "image" then Text(image)
    else if k in rest && Picked(k) then rest[k]
    else Text("unless-stopped")
  }

  lemma DefaultRestAt(rest: map<string, Json>, container: string, image: string, k: string)
    ensures var r := DefaultRest(rest, container, image);
      && (k in r <==> k in ["restart", "logging", "container_name", "image"] || (k in rest && Picked(k)))
      && (k in r ==> r[k] == DefaultField(rest, container, image, k))
  {
    hide SAFE_KEYS;
    hide Logging;
  }

  /** What is left of a service's other fields. */
  lemma CleanDefaultRest(rest: map<string, Json>, container: string, image: string, k: string)
    ensures var r := CleanRest(DefaultRest(rest, container, image));
      && (k in r <==>
            k in ["logging", "container_name", "image"]
            || (k == "restart" && k !in rest) || (k in rest && Picked(k) && !Omitable(rest[k])))
      && (k in r ==> r[k] == DefaultField(rest, container, image, k))
  {
    LoggingKept();
    hide Logging;
    hide DefaultRest;
    hide Picked;
    DefaultRestAt(rest, container, image, k);
    RestartPicked();
  }

  lemma LoggingKept()
    ensures !Omitable(Logging())
  {
    assert "driver" in map["driver" := Text("json-file"),
      "options" := Json.Object(map["max-size" := Text("10m"), "max-file" := Text("3")])];
  }

  lemma RestartPicked()
    ensures Picked("restart")
  {
    assert SAFE_KEYS[12] == "restart";
  }

  lemma JoinedNetworksAre(m: Manifest, n: string, main: bool, networks: Option<ServiceNetworks>)
    ensures var before := ParseNetworks(OrElse(networks, NetworkObject(map[])));
      var after := JoinedNetworks(m, n, main, networks);
      && after.Keys == before.Keys + {DNCORE, DNPRIVATE}
      && (forall k :: k in before && k != DNCORE && k != DNPRIVATE ==> after[k] == before[k])
      && after[DNCORE] == CoreNetwork(m, n, main, if DNCORE in before then before[DNCORE] else NO_NETWORK)
      && after[DNPRIVATE] == PrivateNetwork(m, n, main)
  {
    hide CoreNetwork;
    hide PrivateNetwork;
  }

  // ----- applying the defaults twice -----

  /** The restart policy is empty: present, but dropped when the file is cleaned. */
  predicate EmptyRestart(s: Service)
  {
    "restart" in s.rest && Omitable(s.rest["restart"])
  }

  lemma RaiseTwice(version: string)
    requires ReadVersion(version).Some?
    ensures ReadVersion(RaiseVersion(version)).Some? && RaiseVersion(RaiseVersion(version)) == RaiseVersion(version)
    ensures !Below(ReadVersion(RaiseVersion(version)).value, (3, 5))
  {
    ReadMinimum();
  }

  lemma ReadMinimum()
    ensures ReadVersion(MINIMUM_COMPOSE_VERSION) == Some((3, 5))
  {
    var s := MINIMUM_COMPOSE_VERSION;
    assert s == "3" + ['.'] + "5";
    SplitFirst("3", '.', "5");
    SplitWithout("5", '.');
    assert Split(s, '.') == ["3", "5"];
    assert Numeric("3") && Numeric("5");
  }

  lemma DeclaredTwice(networks: Option<map<string, Network>>)
    ensures DeclaredNetworks(Some(DeclaredNetworks(networks))) == DeclaredNetworks(networks)
  {
  }

  lemma JoinedTwice(m: Manifest, n: string, main: bool, networks: Option<ServiceNetworks>)
    ensures var once := JoinedNetworks(m, n, main, networks);
      JoinedNetworks(m, n, main, Some(NetworkObject(once))) == once
  {
    hide JoinedNetworks;
    hide PrivateNetwork;
    hide NetworkAlias.PrivateNetworkAliases;
    var once := JoinedNetworks(m, n, main, networks);
    JoinedNetworksAre(m, n, main, networks);
    JoinedNetworksAre(m, n, main, Some(NetworkObject(once)));
    var twice := JoinedNetworks(m, n, main, Some(NetworkObject(once)));
    assert twice.Keys == once.Keys;
    assert forall k :: k in once ==> twice[k] == once[k];
  }

  lemma RestTwice(rest: map<string, Json>, container: string, image: string)
    ensures var once := CleanRest(DefaultRest(rest, container, image));
      CleanRest(DefaultRest(once, container, image)) == once
      <==> !("restart" in rest && Omitable(rest["restart"]))
  {
    hide CleanRest;
    hide DefaultRest;
    hide Picked;
    hide Logging;
    RestartPicked();
    var once := CleanRest(DefaultRest(rest, container, image));
    var twice := CleanRest(DefaultRest(once, container, image));
    forall k ensures k != "restart" ==> (k in twice <==> k in once) && (k in once ==> twice[k] == once[k]) {
      CleanDefaultRest(rest, container, image, k);
      CleanDefaultRest(once, container, image, k);
    }
    CleanDefaultRest(rest, container, image, "restart");
    CleanDefaultRest(once, container, image, "restart");
    if !("restart" in rest && Omitable(rest["restart"])) {
      assert twice.Keys == once.Keys;
    }
  }

  lemma ServiceTwice(m: Manifest, naming: Naming, n: string, main: bool, s: Service)
    ensures var once := CleanService(DefaultService(m, naming, n, main, s));
      CleanService(DefaultService(m, naming, n, main, once)) == once <==> !EmptyRestart(s)
  {
    hide *;
    var once := CleanService(DefaultService(m, naming, n, main, s));
    var twice := CleanService(DefaultService(m, naming, n, main, once));
    CleanDefault(m, naming, n, main, s);
    CleanDefault(m, naming, n, main, once);
    JoinedTwice(m, n, main, s.networks);
    RestTwice(s.rest, naming.container(n), naming.image(n));
    CleanSeqTwice(s.ports);
    CleanSeqTwice(s.volumes);
    CleanMapTwice(s.labels);
    EmptyRestartIs(s);
    SameService(once, twice);
  }

  lemma EmptyRestartIs(s: Service)
    ensures EmptyRestart(s) <==> "restart" in s.rest && Omitable(s.rest["restart"])
  {
  }

  lemma SameService(a: Service, b: Service)
    requires a.environment == b.environment && a.ports == b.ports && a.volumes == b.volumes
    requires a.networks == b.networks && a.labels == b.labels
    ensures a == b <==> a.rest == b.rest
  {
  }

  lemma CleanSeqTwice(rows: Option<seq<string>>)
    ensures CleanSeq(CleanSeq(rows)) == CleanSeq(rows)
  {
  }

  lemma CleanMapTwice(labels: Option<map<string, Label>>)
    ensures CleanMap(CleanMap(labels)) == CleanMap(labels)
  {
  }

  /** Applying the defaults again changes nothing, unless a service has an empty restart policy: that
      one loses the policy the first time and gets the default the second time. */
  lemma DefaultsTwice(c: Compose, m: Manifest, naming: Naming)
    requires SetDefaults(c, m, naming).Ok?
    ensures var once := SetDefaults(c, m, naming).value;
      SetDefaults(once, m, naming) == Ok(once) <==> forall n :: n in c.services ==> !EmptyRestart(c.services[n])
  {
    hide *;
    var once := Defaulted(c, m, naming);
    var twice := Defaulted(once, m, naming);
    DefaultsOk(c, m, naming);
    RaiseTwice(c.version);
    DefaultedSections(c, m, naming);
    DefaultedSections(once, m, naming);
    DeclaredTwice(c.networks);
    NamedAgain(c, once, m);
    DefaultsOk(once, m, naming);
    forall n | n in c.services ensures twice.services[n] == once.services[n] <==> !EmptyRestart(c.services[n]) {
      ServiceAgain(c, m, naming, n);
    }
    SameVolumes(once.volumes, twice.volumes);
    assert twice.services.Keys == once.services.Keys;
    if forall n :: n in c.services ==> !EmptyRestart(c.services[n]) {
      assert forall n :: n in once.services ==> twice.services[n] == once.services[n];
      assert twice.services == once.services;
    }
  }

  lemma ServiceAgain(c: Compose, m: Manifest, naming: Naming, n: string)
    requires n in c.services
    ensures var once := Defaulted(c, m, naming);
      n in once.services && n in Defaulted(once, m, naming).services
      && (Defaulted(once, m, naming).services[n] == once.services[n] <==> !EmptyRestart(c.services[n]))
  {
    hide *;
    var once := Defaulted(c, m, naming);
    DefaultedServices(c, m, naming, n);
    DefaultedServices(once, m, naming, n);
    MainAgain(c, once, m, n);
    ServiceTwice(m, naming, n, Main(c, m, n), c.services[n]);
  }

  lemma MainAgain(c: Compose, d: Compose, m: Manifest, n: string)
    requires |c.services| == |d.services|
    ensures Main(c, m, n) <==> Main(d, m, n)
  {
  }

  lemma NamedAgain(c: Compose, d: Compose, m: Manifest)
    requires c.services.Keys == d.services.Keys
    ensures Named(c, m) <==> Named(d, m)
  {
    assert c.services == map[] <==> c.services.Keys == {};
    assert d.services == map[] <==> d.services.Keys == {};
  }

  lemma SameVolumes(a: Option<map<string, Volume>>, b: Option<map<string, Volume>>)
    requires a != Some(map[]) && b != Some(map[]) && OrElse(a, map[]) == OrElse(b, map[])
    ensures a == b
  {
  }

  lemma DefaultsOk(c: Compose, m: Manifest, naming: Naming)
    ensures SetDefaults(c, m, naming).Ok? <==> ReadVersion(c.version).Some? && Named(c, m)
    ensures SetDefaults(c, m, naming).Ok? ==> SetDefaults(c, m, naming).value == Defaulted(c, m, naming)
  {
    hide Defaulted;
    hide Named;
    hide ReadVersion;
  }

  /** A package whose only service has the given restart policy. */
  function OneRestart(policy: Json): Compose
  {
    Compose("3.5", map["geth" := Service(None, None, None, None, None, map["restart" := policy])], None, None)
  }

  /** Concretely: a restart policy of `null`. */
  lemma EmptyRestartChanges(naming: Naming)
    ensures var m := Manifest("geth", "1.0.0", false, None);
      && SetDefaults(OneRestart(Null), m, naming).Ok?
      && var once := SetDefaults(OneRestart(Null), m, naming).value; SetDefaults(once, m, naming) != Ok(once)
  {
    var c, m := OneRestart(Null), Manifest("geth", "1.0.0", false, None);
    ReadMinimum();
    assert "geth" in c.services && EmptyRestart(c.services["geth"]);
    assert Named(c, m) by { assert c.services.Keys == {"geth"} && |"geth"| == 4; }
    assert c.version == MINIMUM_COMPOSE_VERSION;
    hide *;
    DefaultsOk(c, m, naming);
    DefaultsTwice(c, m, naming);
  }

  // ----- the defaults keep a valid file valid -----

  /** A service to which the defaults give an alias kept for core packages. */
  predicate TakesReserved(c: Compose, m: Manifest, n: string)
  {
    !m.core && ((Main(c, m, n) && NetworkAlias.Short(m.name) in NetworkAlias.RESERVED)
      || m.name == NetworkAlias.DAPPMANAGER)
  }

  lemma SafeKeys()
    ensures "logging" in SAFE_KEYS && "container_name" in SAFE_KEYS && "image" in SAFE_KEYS && "restart" in SAFE_KEYS
  {
    assert SAFE_KEYS[9] == "logging" && SAFE_KEYS[21] == "container_name" && SAFE_KEYS[18] == "image"
      && SAFE_KEYS[12] == "restart";
  }

  lemma OnlySafeKeys(rest: map<string, Json>, container: string, image: string)
    ensures forall k :: k in CleanRest(DefaultRest(rest, container, image)) ==> k in SAFE_KEYS
  {
    hide CleanRest;
    hide DefaultRest;
    hide SAFE_KEYS;
    SafeKeys();
    forall k | k in CleanRest(DefaultRest(rest, container, image)) ensures k in SAFE_KEYS {
      CleanDefaultRest(rest, container, image, k);
    }
  }

  /** A picked field keeps its value or is dropped; the DNS server is dropped. */
  lemma FieldKept(rest: map<string, Json>, container: string, image: string, k: string)
    requires k in ["pid", "privileged", "network_mode"]
    ensures Field(CleanRest(DefaultRest(rest, container, image)), k) in [Field(rest, k), Null]
    ensures Field(CleanRest(DefaultRest(rest, container, image)), "dns") == Null
  {
    hide CleanRest;
    hide DefaultRest;
    hide SAFE_KEYS;
    CleanDefaultRest(rest, container, image, k);
    CleanDefaultRest(rest, container, image, "dns");
  }

  lemma FieldsValid(m: Manifest, s: Service, r: Service, container: string, image: string)
    requires r.rest == CleanRest(DefaultRest(s.rest, container, image))
    requires !ForeignPidOf(s) && !PrivilegedOf(m, s) && !HostNetworkModeOf(m, s)
    ensures forall key :: key in r.rest ==> key in SAFE_KEYS
    ensures !ForeignDnsOf(m, r) && !ForeignPidOf(r) && !PrivilegedOf(m, r) && !HostNetworkModeOf(m, r)
  {
    hide CleanRest;
    hide DefaultRest;
    hide SAFE_KEYS;
    hide Field;
    hide Contains;
    OnlySafeKeys(s.rest, container, image);
    FieldKept(s.rest, container, image, "pid");
    FieldKept(s.rest, container, image, "privileged");
    FieldKept(s.rest, container, image, "network_mode");
  }

  lemma PrivateNetworksListed()
    ensures DNCORE in WHITELIST_NETWORKS && DNPRIVATE in WHITELIST_NETWORKS
  {
    assert WHITELIST_NETWORKS[0] == DNCORE && WHITELIST_NETWORKS[1] == DNPRIVATE;
  }

  /** The service networks stay within the rules, but for a reserved alias on the core network. */
  lemma NetworksValid(c: Compose, m: Manifest, n: string, s: Service, r: Service)
    requires r.networks == Some(NetworkObject(JoinedNetworks(m, n, Main(c, m, n), s.networks)))
    requires forall k :: k in NetworksOf(s) ==> k in WHITELIST_NETWORKS && !ReservedAliasOf(m, s, k)
    ensures (forall k :: k in NetworksOf(r) ==> k in WHITELIST_NETWORKS && !ReservedAliasOf(m, r, k))
      <==> !TakesReserved(c, m, n)
  {
    hide JoinedNetworks;
    hide Main;
    hide WHITELIST_NETWORKS;
    hide NetworkAlias.RESERVED;
    hide NetworkAlias.CoreAlias;
    hide NetworkAlias.Short;
    hide NetworkAlias.PrivateNetworkAliases;
    var main := Main(c, m, n);
    JoinedNetworksAre(m, n, main, s.networks);
    NetworkAlias.ReservedAliases(m.name, n, main, NetworkAlias.Core);
    NetworkAlias.ReservedAliases(m.name, n, main, NetworkAlias.Private);
    PrivateNetworksListed();
    var after := JoinedNetworks(m, n, main, s.networks);
    forall k | k in after ensures ReservedAliasOf(m, r, k) <==> k == DNCORE && TakesReserved(c, m, n) {
      if k != DNCORE && k != DNPRIVATE {
        assert k in NetworksOf(s) && after[k] == NetworksOf(s)[k];
      }
    }
    assert DNCORE in after;
  }

  lemma ServiceStaysValid(c: Compose, m: Manifest, naming: Naming, n: string)
    requires n in c.services && ServiceValid(c, m, n)
    ensures var r := Defaulted(c, m, naming);
      n in r.services && (ServiceValid(r, m, n) <==> !TakesReserved(c, m, n))
  {
    hide *;
    var r := Defaulted(c, m, naming);
    var s := c.services[n];
    DefaultedServices(c, m, naming, n);
    DefaultedSections(c, m, naming);
    CleanDefault(m, naming, n, Main(c, m, n), s);
    ServiceRules(c, m, n);
    ServiceRules(r, m, n);
    FieldsValid(m, s, r.services[n], naming.container(n), naming.image(n));
    NetworksValid(c, m, n, s, r.services[n]);
    RowsStayAllowed(c, r, s.volumes);
  }

  /** The rules for a service, in the form the proofs above use. */
  lemma ServiceRules(c: Compose, m: Manifest, n: string)
    requires n in c.services
    ensures var s := c.services[n];
      ServiceValid(c, m, n) <==>
      (&& (forall key :: key in s.rest ==> key in SAFE_KEYS)
       && !ForeignDnsOf(m, s) && !ForeignPidOf(s) && !PrivilegedOf(m, s) && !HostNetworkModeOf(m, s)
       && (forall k :: k in NetworksOf(s) ==> k in WHITELIST_NETWORKS && !ReservedAliasOf(m, s, k))
       && (MustDeclareVolumes(m) ==> forall row :: row in OrElse(s.volumes, []) ==> RowAllowed(c, row)))
  {
    hide SAFE_KEYS;
    hide ForeignDnsOf;
    hide ForeignPidOf;
    hide NetworksOf;
    hide RowAllowed;
  }

  lemma RowsStayAllowed(c: Compose, r: Compose, rows: Option<seq<string>>)
    requires OrElse(r.volumes, map[]) == OrElse(c.volumes, map[])
    ensures (forall row :: row in OrElse(rows, []) ==> RowAllowed(c, row))
      <==> (forall row :: row in OrElse(CleanSeq(rows), []) ==> RowAllowed(r, row))
  {
    hide RowVolume;
    hide RowTarget;
    hide NameChar;
    forall row ensures RowAllowed(c, row) <==> RowAllowed(r, row) { }
    assert OrElse(CleanSeq(rows), []) == OrElse(rows, []);
  }

  lemma RootStaysValid(networks: Option<map<string, Network>>)
    requires forall k :: k in OrElse(networks, map[]) ==>
      k in WHITELIST_NETWORKS && !NetworkBreaks(OrElse(networks, map[])[k])
    ensures forall k :: k in DeclaredNetworks(networks) ==>
      k in WHITELIST_NETWORKS && !NetworkBreaks(DeclaredNetworks(networks)[k])
  {
    hide WHITELIST_NETWORKS;
    PrivateNetworksListed();
  }

  /** The file the system makes of a valid one is valid too, unless the package takes an alias kept
      for core packages. */
  lemma DefaultsStayValid(c: Compose, m: Manifest, naming: Naming)
    requires SetDefaults(c, m, naming).Ok? && Valid(c, m)
    ensures Valid(SetDefaults(c, m, naming).value, m) <==> forall n :: n in c.services ==> !TakesReserved(c, m, n)
  {
    hide *;
    var r := Defaulted(c, m, naming);
    DefaultsOk(c, m, naming);
    DefaultedSections(c, m, naming);
    RaisedVersionValid(c.version);
    ValidRules(c, m);
    ValidRules(r, m);
    RootStaysValid(c.networks);
    SomeOrElse(DeclaredNetworks(c.networks));
    forall n | n in c.services ensures ServiceValid(r, m, n) <==> !TakesReserved(c, m, n) {
      ServiceStaysValid(c, m, naming, n);
    }
  }

  lemma SomeOrElse<V>(m: map<string, V>)
    ensures OrElse(Some(m), map[]) == m
  {
  }

  predicate VersionValid(version: string)
  {
    ReadVersion(version).Some? && !Below(ReadVersion(version).value, MINIMUM_FILE_VERSION)
  }

  lemma RaisedVersionValid(version: string)
    ensures VersionValid(version) ==> VersionValid(RaiseVersion(version))
  {
    hide ReadVersion;
    ReadMinimum();
  }

  lemma ValidRules(c: Compose, m: Manifest)
    ensures Valid(c, m) <==>
      (&& VersionValid(c.version)
       && (forall k :: k in OrElse(c.networks, map[]) ==>
             k in WHITELIST_NETWORKS && !NetworkBreaks(OrElse(c.networks, map[])[k]))
       && (forall n :: n in c.services ==> ServiceValid(c, m, n)))
  {
    hide ReadVersion;
    hide ServiceValid;
    hide WHITELIST_NETWORKS;
    hide NetworkBreaks;
  }

  // ----- what the defaults guarantee for any package -----

  /** Whatever the package asks for: names, logging and the two private networks are the system's, no
      DNS server is left, only allowed keys remain, and only bind keeps a fixed address. */
  lemma Enforced(c: Compose, m: Manifest, naming: Naming, n: string)
    requires n in c.services
    ensures var r := Defaulted(c, m, naming);
      n in r.services
      && var s := r.services[n];
         && s.rest.Keys >= {"container_name", "image", "logging"}
         && s.rest["container_name"] == Text(naming.container(n)) && s.rest["image"] == Text(naming.image(n))
         && s.rest["logging"] == Logging() && "dns" !in s.rest && "build" !in s.rest
         && (forall k :: k in s.rest ==> k in SAFE_KEYS)
         && NetworksOf(s).Keys == NetworksOf(c.services[n]).Keys + {DNCORE, DNPRIVATE}
         && (NetworksOf(s)[DNCORE].ipv4.Some? && NetworksOf(s)[DNCORE].ipv4.value != "" ==> m.name == BIND)
         && NetworksOf(s)[DNPRIVATE].ipv4 == None
         && EnvsOf(s) == EnvsOf(c.services[n])
  {
    hide CleanService;
    hide DefaultService;
    hide Defaulted;
    hide DefaultRest;
    hide CleanRest;
    hide EnvsOf;
    hide SAFE_KEYS;
    hide Main;
    hide NetworkAlias.PrivateNetworkAliases;
    hide JoinedNetworks;
    hide Logging;
    var s := c.services[n];
    DefaultedServices(c, m, naming, n);
    CleanDefault(m, naming, n, Main(c, m, n), s);
    JoinedNetworksAre(m, n, Main(c, m, n), s.networks);
    OnlySafeKeys(s.rest, naming.container(n), naming.image(n));
    CleanDefaultRest(s.rest, naming.container(n), naming.image(n), "container_name");
    CleanDefaultRest(s.rest, naming.container(n), naming.image(n), "image");
    CleanDefaultRest(s.rest, naming.container(n), naming.image(n), "logging");
    CleanDefaultRest(s.rest, naming.container(n), naming.image(n), "dns");
    CleanDefaultRest(s.rest, naming.container(n), naming.image(n), "build");
  }

  // ----- the settings of an installed package -----

  /** The package's own part of a tidy file: the private networks are up to the defaults. */
  predicate TidyPackage(c: Compose)
  {
    && (forall n :: n in c.services ==>
          && Ports.DistinctIds(Ports.ParseAll(OrElse(c.services[n].ports, [])))
          && (forall p :: p in Ports.ParseAll(OrElse(c.services[n].ports, [])) ==> Numbers.Truthy(p.container))
          && (forall k :: k in NetworksOf(c.services[n]) && k != DNCORE && k != DNPRIVATE ==>
                UserSettings.NoRepeats(UserSettings.Aliases(NetworksOf(c.services[n])[k]))))
    && (forall v :: v in OrElse(c.volumes, map[]) ==>
          UserSettings.VolumeWritten(c, v) && UserSettings.Device(OrElse(c.volumes, map[])[v]) == "")
  }

  lemma PrivateAliasesOnce(m: Manifest, n: string, main: bool, domain: NetworkAlias.Domain)
    ensures UserSettings.NoRepeats(NetworkAlias.PrivateNetworkAliases(m.name, n, main, domain))
  {
    hide UserSettings.Unique;
    UserSettings.UniqueMeaning([NetworkAlias.Alias(m.name, n, false, domain)]
      + (if main then [NetworkAlias.Alias(m.name, n, true, domain)] else [])
      + (if m.name == NetworkAlias.DAPPMANAGER then NetworkAlias.AdminAliases(domain) else []));
  }

  lemma ServiceTidy(c: Compose, m: Manifest, naming: Naming, n: string)
    requires n in c.services
    requires forall k :: k in NetworksOf(c.services[n]) && k != DNCORE && k != DNPRIVATE ==>
      UserSettings.NoRepeats(UserSettings.Aliases(NetworksOf(c.services[n])[k]))
    ensures var d := Defaulted(c, m, naming);
      && n in d.services && OrElse(d.services[n].ports, []) == OrElse(c.services[n].ports, [])
      && OrElse(d.services[n].volumes, []) == OrElse(c.services[n].volumes, [])
      && forall k :: k in NetworksOf(d.services[n]) ==>
        UserSettings.NoRepeats(UserSettings.Aliases(NetworksOf(d.services[n])[k]))
  {
    hide CleanService;
    hide DefaultService;
    hide Defaulted;
    hide JoinedNetworks;
    hide CleanRest;
    hide DefaultRest;
    hide EnvsOf;
    hide Main;
    hide UserSettings.NoRepeats;
    hide NetworkAlias.PrivateNetworkAliases;
    var main, s := Main(c, m, n), c.services[n];
    DefaultedServices(c, m, naming, n);
    CleanDefault(m, naming, n, main, s);
    JoinedNetworksAre(m, n, main, s.networks);
    PrivateAliasesOnce(m, n, main, NetworkAlias.Core);
    PrivateAliasesOnce(m, n, main, NetworkAlias.Private);
    var after := JoinedNetworks(m, n, main, s.networks);
    forall k | k in after ensures UserSettings.NoRepeats(UserSettings.Aliases(after[k])) {
      if k != DNCORE && k != DNPRIVATE { assert k in NetworksOf(s) && after[k] == NetworksOf(s)[k]; }
    }
    assert NetworksOf(Defaulted(c, m, naming).services[n]) == after;
  }

  lemma ServiceStaysTidy(c: Compose, m: Manifest, naming: Naming, n: string)
    requires TidyPackage(c) && n in c.services
    ensures n in Defaulted(c, m, naming).services && UserSettings.TidyService(Defaulted(c, m, naming).services[n])
  {
    hide Defaulted;
    hide NetworksOf;
    hide Ports.DistinctIds;
    hide Ports.ParseAll;
    hide Numbers.Truthy;
    hide UserSettings.NoRepeats;
    hide UserSettings.Device;
    hide UserSettings.VolumeWritten;
    ServiceTidy(c, m, naming, n);
  }

  lemma VolumesStayWritten(c: Compose, m: Manifest, naming: Naming, v: string)
    requires TidyPackage(c) && UserSettings.VolumeWritten(c, v)
    ensures UserSettings.VolumeWritten(Defaulted(c, m, naming), v)
  {
    hide Defaulted;
    hide UserSettings.StartsSome;
    hide UserSettings.ReprintVolumes;
    hide Ports.DistinctIds;
    hide Ports.ParseAll;
    hide UserSettings.NoRepeats;
    hide UserSettings.Device;
    var n :| n in c.services
      && UserSettings.StartsSome(UserSettings.ReprintVolumes(OrElse(c.services[n].volumes, [])), v);
    ServiceTidy(c, m, naming, n);
  }

  lemma DefaultsTidy(c: Compose, m: Manifest, naming: Naming)
    requires TidyPackage(c)
    ensures UserSettings.Tidy(Defaulted(c, m, naming))
  {
    hide Defaulted;
    hide NetworksOf;
    hide Ports.DistinctIds;
    hide Ports.ParseAll;
    hide UserSettings.NoRepeats;
    hide UserSettings.Device;
    hide UserSettings.TidyService;
    hide UserSettings.VolumeWritten;
    DefaultedSections(c, m, naming);
    forall n | n in c.services ensures UserSettings.TidyService(Defaulted(c, m, naming).services[n]) {
      ServiceStaysTidy(c, m, naming, n);
    }
    forall v | UserSettings.VolumeWritten(c, v) ensures UserSettings.VolumeWritten(Defaulted(c, m, naming), v) {
      VolumesStayWritten(c, m, naming, v);
    }
  }

  /** From the package to the file on disk and back: on a package completed with the defaults, the
      settings read from the written file reproduce it exactly when the variables survive, whatever
      settings were applied. */
  lemma InstalledFixpoint(c: Compose, m: Manifest, naming: Naming, s: UserSettings.UserSettings,
                          orders: map<string, seq<string>>)
    requires SetDefaults(c, m, naming).Ok? && TidyPackage(c)
    requires var d := SetDefaults(c, m, naming).value;
      && UserSettings.MountpointsAbsolute(d, s)
      && (forall v :: v in OrElse(d.volumes, map[]) && UserSettings.Mountpoint(s, v) != "" ==>
            DevicePath.Readable(UserSettings.Mountpoint(s, v), m.name, v))
      && ComposeEditor.Orders(orders, UserSettings.Applied(d, s, m.name))
    ensures var d := SetDefaults(c, m, naming).value;
      forall n :: n in d.services ==> n in orders && Enumerates(orders[n], ComposeEditor.WrittenEnvs(d, s, n).Keys)
    ensures var d := SetDefaults(c, m, naming).value;
      var r := UserSettings.Applied(d, s, m.name);
      UserSettings.Apply(d, UserSettings.Parse(ComposeEditor.OutputOf(r, orders)), m.name) == Ok(r)
      <==> forall n :: n in d.services ==>
             ComposeEditor.EnvsSurvive(EnvsOf(d.services[n]), ComposeEditor.WrittenEnvs(d, s, n), orders[n])
  {
    hide *;
    var d := Defaulted(c, m, naming);
    DefaultsOk(c, m, naming);
    DefaultsTidy(c, m, naming);
    DeclaresCore(c, m, naming, s);
    UserSettings.ApplyOk(d, s, m.name);
    UserSettings.TidyStable(d, s, m.name);
    ComposeEditor.FixpointThroughFile(d, s, m.name, orders);
  }

  /** The same value by value, when all names are usable: each written value is one line without a
      trailing blank, or is read as empty and is the package's own. */
  lemma NamedInstalledFixpoint(c: Compose, m: Manifest, naming: Naming, s: UserSettings.UserSettings,
                               orders: map<string, seq<string>>)
    requires SetDefaults(c, m, naming).Ok? && TidyPackage(c)
    requires var d := SetDefaults(c, m, naming).value;
      && UserSettings.MountpointsAbsolute(d, s) && ComposeEditor.Named(d, s)
      && (forall v :: v in OrElse(d.volumes, map[]) && UserSettings.Mountpoint(s, v) != "" ==>
            DevicePath.Readable(UserSettings.Mountpoint(s, v), m.name, v))
      && ComposeEditor.Orders(orders, UserSettings.Applied(d, s, m.name))
    ensures var d := SetDefaults(c, m, naming).value;
      forall n :: n in d.services ==> ComposeEditor.WrittenEnvs(d, s, n).Keys == EnvsOf(d.services[n]).Keys
    ensures var d := SetDefaults(c, m, naming).value;
      var r := UserSettings.Applied(d, s, m.name);
      UserSettings.Apply(d, UserSettings.Parse(ComposeEditor.OutputOf(r, orders)), m.name) == Ok(r)
      <==> forall n, k :: n in d.services && k in EnvsOf(d.services[n]) ==>
             ComposeEditor.ValueSurvives(EnvsOf(d.services[n])[k], ComposeEditor.WrittenEnvs(d, s, n)[k])
  {
    hide *;
    var d := Defaulted(c, m, naming);
    DefaultsOk(c, m, naming);
    DefaultsTidy(c, m, naming);
    DeclaresCore(c, m, naming, s);
    UserSettings.ApplyOk(d, s, m.name);
    UserSettings.TidyStable(d, s, m.name);
    ComposeEditor.NamedFixpointThroughFile(d, s, m.name, orders);
  }

  lemma DeclaresCore(c: Compose, m: Manifest, naming: Naming, s: UserSettings.UserSettings)
    ensures UserSettings.RootNetworks(Defaulted(c, m, naming), s) != map[]
  {
    hide Defaulted;
    DefaultedSections(c, m, naming);
    assert DNCORE in UserSettings.RootNetworks(Defaulted(c, m, naming), s);
  }
}
