/** The rules a package's compose file must meet (packages/schemas/src/validateDappnodeCompose.ts). */
module ComposeRules {
  import opened Wrappers
  import opened Strings
  import opened Compose
  import opened ComposeEditor
  import Environment
  import Numbers
  import NetworkAlias

  const WHITELIST_NETWORKS := ["dncore_network", "dnprivate_network", "dnpublic_network"]
  const WHITELIST_BIND_VOLUMES := ["portainer.dnp.dappnode.eth", "dappmanager.dnp.dappnode.eth",
    "wifi.dnp.dappnode.eth",
    "vpn.dnp.dappnode.eth", "wireguard.dnp.dappnode.eth", "core.dnp.dappnode.eth", "dappnode-exporter.dnp.dappnode.eth",
    "dms.dnp.dappnode.eth", "tailscale.dnp.dappnode.eth"]
  const EXPORTER := "dappnode-exporter.dnp.dappnode.eth"
  const DNS_SERVICE := "172.33.1.2"
  const MINIMUM_FILE_VERSION := (3, 4)

  /** The keys of a service outside the modelled fields that are allowed. */
  const SAFE_KEYS := ["cap_add", "cap_drop", "command", "depends_on", "devices", "entrypoint", "expose", "extra_hosts",
    "healthcheck", "logging", "network_mode", "privileged", "restart", "stop_grace_period", "stop_signal", "user",
    "working_dir", "security_opt", "image", "build", "pid", "container_name", "dns", "ulimits", "deploy", "shm_size"]

  datatype Manifest = Manifest(name: string, version: string, core: bool, mainService: Option<string>)

  /** One complaint of the validator. */
  datatype Issue =
    | OldVersion
    | UnreadableVersion
    | NetworkNotListed(network: string)
    | InternalNetwork(network: string)
    | UnsafeKey(service: string, key: string)
    | ForeignDns(service: string)
    | ForeignPid(service: string)
    | Privileged(service: string)
    | HostNetworkMode(service: string)
    | ServiceNetworkNotListed(service: string, network: string)
    | ReservedAlias(service: string, network: string)
    | UnnamedVolume(service: string, row: string)
    | BindMount(service: string, row: string)
    | VolumeName(service: string, row: string)
    | UndeclaredVolume(service: string, volume: string)
    | ExternalVolume(service: string, volume: string)
    | VolumeProperties(service: string, volume: string)

  // ----- values -----

  /** JavaScript's view of a value as a condition. */
  predicate Truthy(v: Json)
  {
    match v
    case Null => false
    case Bool(b) => b
    case Text(t) => t != ""
    case _ => true
  }

  function Field(rest: map<string, Json>, key: string): Json
  {
    if key in rest then rest[key] else Null
  }

  /** `String(v)`. */
  function Show(v: Json): string
  {
    match v
    case Null => "null"
    case Bool(b) => if b then "true" else "false"
    case Text(t) => t
    case Array(items) => ShowItems(items)
    case Object(_) => "[object Object]"
  }

  function ShowItems(items: seq<Json>): string
  {
    if items == [] then ""
    else (if items[0].Null? then "" else Show(items[0])) + (if |items| == 1 then "" else "," + ShowItems(items[1..]))
  }

  /** A decimal number without leading zeros. */
  predicate Numeric(s: string)
  {
    s != "" && (s == "0" || s[0] != '0') && forall i :: 0 <= i < |s| ==> '0' <= s[i] <= '9'
  }

  /** A file version MAJOR.MINOR. */
  function ReadVersion(version: string): Option<(nat, nat)>
  {
    var parts := Split(version, '.');
    if |parts| == 2 && Numeric(parts[0]) && Numeric(parts[1])
    then Some((Numbers.DigitsValue(parts[0], 10), Numbers.DigitsValue(parts[1], 10)))
    else None
  }

  predicate Below(a: (nat, nat), b: (nat, nat))
  {
    a.0 < b.0 || (a.0 == b.0 && a.1 < b.1)
  }

  predicate NameChar(c: char)
  {
    'a' <= c <= 'z' || 'A' <= c <= 'Z' || '0' <= c <= '9' || c == '_' || c == '.' || c == '-'
  }

  /** The volume named in front of the first colon of a row, and what follows up to the next one. */
  function RowVolume(row: string): string
  {
    Split(row, ':')[0]
  }

  function RowTarget(row: string): string
  {
    var parts := Split(row, ':');
    if |parts| > 1 then parts[1] else ""
  }

  // ----- the rules -----

  predicate NetworkBreaks(network: Network)
  {
    network.Network? && network.external == Some(false)
  }

  predicate ForeignDnsOf(m: Manifest, s: Service)
  {
    !m.core && Truthy(Field(s.rest, "dns")) && !Contains(DNS_SERVICE, Show(Field(s.rest, "dns")))
  }

  predicate ForeignPidOf(s: Service)
  {
    var pid := Field(s.rest, "pid");
    Truthy(pid) && match pid case Text(t) => !("service:" <= t) case _ => true
  }

  predicate PrivilegedOf(m: Manifest, s: Service)
  {
    m.name != EXPORTER && !m.core && Field(s.rest, "privileged") == Bool(true)
  }

  predicate HostNetworkModeOf(m: Manifest, s: Service)
  {
    !m.core && Field(s.rest, "network_mode") == Text("host")
  }

  /** A service network in the object form whose aliases include a reserved one. */
  predicate ReservedAliasOf(m: Manifest, s: Service, network: string)
  {
    && !m.core && s.networks.Some? && s.networks.value.NetworkObject? && network in s.networks.value.networks
    && exists a :: a in OrElse(s.networks.value.networks[network].aliases, []) && NetworkAlias.CoreAlias(a)
  }

  /** The complaints about one volume row; the first three end the inspection of the row. */
  function RowIssues(c: Compose, n: string, row: string): seq<Issue>
  {
    var volume := RowVolume(row);
    var declared := OrElse(c.volumes, map[]);
    if volume == "" || RowTarget(row) == "" then [UnnamedVolume(n, row)]
    else if '/' in volume then [BindMount(n, row)]
    else if exists i :: 0 <= i < |volume| && !NameChar(volume[i]) then [VolumeName(n, row)]
    else if volume !in declared || declared[volume].NullVolume? then [UndeclaredVolume(n, volume)]
    else
      (if Truthy(Field(declared[volume].rest, "external")) then [ExternalVolume(n, volume)] else [])
      + (if declared[volume].driverOpts.Some? || declared[volume].rest != map[] then [VolumeProperties(n, volume)]
        else [])
  }

  /** A row that names a volume declared without properties. */
  predicate RowAllowed(c: Compose, row: string)
  {
    var volume, declared := RowVolume(row), OrElse(c.volumes, map[]);
    && volume != "" && RowTarget(row) != "" && (forall i :: 0 <= i < |volume| ==> NameChar(volume[i]))
    && volume in declared && declared[volume] == Volume(None, map[])
  }

  lemma RowIssuesNone(c: Compose, n: string, row: string)
    ensures RowIssues(c, n, row) == [] <==> RowAllowed(c, row)
  {
  }

  predicate MustDeclareVolumes(m: Manifest)
  {
    m.name !in WHITELIST_BIND_VOLUMES
  }

  /** Which complaints are justified. */
  predicate Justified(c: Compose, m: Manifest, issue: Issue)
  {
    match issue
    case OldVersion => ReadVersion(c.version).Some? && Below(ReadVersion(c.version).value, MINIMUM_FILE_VERSION)
    case UnreadableVersion => ReadVersion(c.version).None?
    case NetworkNotListed(k) => k in OrElse(c.networks, map[]) && k !in WHITELIST_NETWORKS
    case InternalNetwork(k) => k in OrElse(c.networks, map[]) && NetworkBreaks(OrElse(c.networks, map[])[k])
    case UnsafeKey(n, key) => n in c.services && key in c.services[n].rest && key !in SAFE_KEYS
    case ForeignDns(n) => n in c.services && ForeignDnsOf(m, c.services[n])
    case ForeignPid(n) => n in c.services && ForeignPidOf(c.services[n])
    case Privileged(n) => n in c.services && PrivilegedOf(m, c.services[n])
    case HostNetworkMode(n) => n in c.services && HostNetworkModeOf(m, c.services[n])
    case ServiceNetworkNotListed(n, k) => n in c.services && k in NetworksOf(c.services[n]) && k !in WHITELIST_NETWORKS
    case ReservedAlias(n, k) => n in c.services && ReservedAliasOf(m, c.services[n], k)
    case _ =>
      issue.service in c.services && MustDeclareVolumes(m)
      && exists row :: row in OrElse(c.services[issue.service].volumes, []) && issue in RowIssues(c, issue.service, row)
  }

  /** The rules as one condition. */
  predicate ServiceValid(c: Compose, m: Manifest, n: string)
    requires n in c.services
  {
    var s := c.services[n];
    && (forall key :: key in s.rest ==> key in SAFE_KEYS)
    && !ForeignDnsOf(m, s) && !ForeignPidOf(s) && !PrivilegedOf(m, s) && !HostNetworkModeOf(m, s)
    && (forall k :: k in NetworksOf(s) ==> k in WHITELIST_NETWORKS && !ReservedAliasOf(m, s, k))
    && (MustDeclareVolumes(m) ==> forall row :: row in OrElse(s.volumes, []) ==> RowAllowed(c, row))
  }

  predicate Valid(c: Compose, m: Manifest)
  {
    && ReadVersion(c.version).Some? && !Below(ReadVersion(c.version).value, MINIMUM_FILE_VERSION)
    && (forall k :: k in OrElse(c.networks, map[]) ==>
          k in WHITELIST_NETWORKS && !NetworkBreaks(OrElse(c.networks, map[])[k]))
    && forall n :: n in c.services ==> ServiceValid(c, m, n)
  }

  // ----- the validator -----

  /** `validateComposeNetworks`. */
  method NetworkIssues(c: Compose, m: Manifest, order: KeyOrder) returns (errors: seq<Issue>)
    ensures forall i :: i in errors <==> (i.NetworkNotListed? || i.InternalNetwork?) && Justified(c, m, i)
  {
    hide ReadVersion;
    hide RowIssues;
    hide WHITELIST_NETWORKS;
    hide NetworksOf;
    hide ReservedAliasOf;
    hide Environment.Enumerates;
    errors := [];
    if c.networks.None? { return; }
    var networks := c.networks.value;
    var names := order(networks.Keys);
    KeysListed(order, networks.Keys);
    for j := 0 to |names|
      invariant forall i :: i in errors <==>
        ((i.NetworkNotListed? || i.InternalNetwork?) && i.network in names[..j] && Justified(c, m, i))
    {
      if names[j] !in WHITELIST_NETWORKS { errors := errors + [NetworkNotListed(names[j])]; }
      if NetworkBreaks(networks[names[j]]) { errors := errors + [InternalNetwork(names[j])]; }
    }
  }

  predicate ServiceNetworkIssue(i: Issue, n: string, names: seq<string>)
  {
    (i.ServiceNetworkNotListed? || i.ReservedAlias?) && i.service == n && i.network in names
  }

  /** `validateComposeServiceNetworks`, a list of networks. */
  method ListedNetworkIssues(c: Compose, m: Manifest, n: string, names: seq<string>) returns (errors: seq<Issue>)
    requires n in c.services && c.services[n].networks == Some(NetworkList(names))
    ensures forall i :: i in errors <==> ServiceNetworkIssue(i, n, names) && Justified(c, m, i)
  {
    hide ReadVersion;
    hide RowIssues;
    hide NetworkAlias.CoreAlias;
    errors := [];
    for j := 0 to |names|
      invariant forall i :: i in errors <==> ServiceNetworkIssue(i, n, names[..j]) && Justified(c, m, i)
    {
      if names[j] !in WHITELIST_NETWORKS { errors := errors + [ServiceNetworkNotListed(n, names[j])]; }
    }
  }

  /** `validateComposeServiceNetworks`, the object form. */
  method NetworkObjectIssues(c: Compose, m: Manifest, n: string, names: seq<string>) returns (errors: seq<Issue>)
    requires n in c.services && c.services[n].networks.Some? && c.services[n].networks.value.NetworkObject?
    requires forall i :: 0 <= i < |names| ==> names[i] in c.services[n].networks.value.networks
    ensures forall i :: i in errors <==> ServiceNetworkIssue(i, n, names) && Justified(c, m, i)
  {
    hide ReadVersion;
    hide RowIssues;
    hide NetworkAlias.CoreAlias;
    hide ReservedAliasOf;
    errors := [];
    for j := 0 to |names|
      invariant forall i :: i in errors <==> ServiceNetworkIssue(i, n, names[..j]) && Justified(c, m, i)
    {
      if names[j] !in WHITELIST_NETWORKS { errors := errors + [ServiceNetworkNotListed(n, names[j])]; }
      if ReservedAliasOf(m, c.services[n], names[j]) { errors := errors + [ReservedAlias(n, names[j])]; }
    }
  }

  predicate VolumeIssue(i: Issue)
  {
    i.UnnamedVolume? || i.BindMount? || i.VolumeName? || i.UndeclaredVolume? || i.ExternalVolume? || i.VolumeProperties?
  }

  lemma RowIssuesAre(c: Compose, n: string, row: string)
    ensures forall i :: i in RowIssues(c, n, row) ==> VolumeIssue(i) && i.service == n
  {
  }

  /** `validateComposeServiceVolumes` for every row of a service. */
  method VolumeIssues(c: Compose, n: string) returns (errors: seq<Issue>)
    requires n in c.services
    ensures forall i :: i in errors <==>
      exists row :: row in OrElse(c.services[n].volumes, []) && i in RowIssues(c, n, row)
  {
    hide RowIssues;
    var rows := OrElse(c.services[n].volumes, []);
    errors := [];
    for j := 0 to |rows|
      invariant forall i :: i in errors <==> exists row :: row in rows[..j] && i in RowIssues(c, n, row)
    {
      assert rows[..j + 1] == rows[..j] + [rows[j]];
      errors := errors + RowIssues(c, n, rows[j]);
    }
    assert rows[..|rows|] == rows;
  }

  /** What the validator looks at in one service. */
  predicate OfService(i: Issue)
  {
    !(i.OldVersion? || i.UnreadableVersion? || i.NetworkNotListed? || i.InternalNetwork?)
  }

  predicate FieldIssue(i: Issue)
  {
    i.UnsafeKey? || i.ForeignDns? || i.ForeignPid? || i.Privileged? || i.HostNetworkMode?
  }

  /** `validateComposeService`, up to the networks. */
  method FieldIssues(c: Compose, m: Manifest, n: string, order: KeyOrder) returns (errors: seq<Issue>)
    requires n in c.services
    ensures forall i :: i in errors <==> FieldIssue(i) && i.service == n && Justified(c, m, i)
  {
    hide ReadVersion;
    hide RowIssues;
    hide ReservedAliasOf;
    hide ForeignDnsOf;
    hide ForeignPidOf;
    hide SAFE_KEYS;
    hide NetworksOf;
    hide PrivilegedOf;
    hide HostNetworkModeOf;
    hide Environment.Enumerates;
    var s := c.services[n];
    var keys := order(s.rest.Keys);
    KeysListed(order, s.rest.Keys);
    errors := [];
    for j := 0 to |keys|
      invariant forall i :: i in errors <==> i.UnsafeKey? && i.service == n && i.key in keys[..j] && i.key !in SAFE_KEYS
    {
      if keys[j] !in SAFE_KEYS { errors := errors + [UnsafeKey(n, keys[j])]; }
    }
    if ForeignDnsOf(m, s) { errors := errors + [ForeignDns(n)]; }
    if ForeignPidOf(s) { errors := errors + [ForeignPid(n)]; }
    if PrivilegedOf(m, s) { errors := errors + [Issue.Privileged(n)]; }
    if HostNetworkModeOf(m, s) { errors := errors + [HostNetworkMode(n)]; }
  }

  /** `validateComposeServiceNetworks`. */
  method ServiceNetworkIssues(c: Compose, m: Manifest, n: string, order: KeyOrder) returns (errors: seq<Issue>)
    requires n in c.services
    ensures forall i :: i in errors <==>
      ((i.ServiceNetworkNotListed? || i.ReservedAlias?) && i.service == n && Justified(c, m, i))
  {
    hide ReadVersion;
    hide RowIssues;
    hide NetworkAlias.CoreAlias;
    var s := c.services[n];
    if s.networks.None? { return []; }
    match s.networks.value {
      case NetworkList(names) =>
        errors := ListedNetworkIssues(c, m, n, names);
      case NetworkObject(networks) =>
        errors := NetworkObjectIssues(c, m, n, order(networks.Keys));
    }
  }

  /** `validateComposeService`. */
  method ServiceIssues(c: Compose, m: Manifest, n: string, order: KeyOrder) returns (errors: seq<Issue>)
    requires n in c.services
    ensures forall i :: i in errors <==> OfService(i) && i.service == n && Justified(c, m, i)
  {
    hide ReadVersion;
    hide RowIssues;
    hide ReservedAliasOf;
    hide ForeignDnsOf;
    hide ForeignPidOf;
    hide PrivilegedOf;
    hide HostNetworkModeOf;
    hide NetworksOf;
    var fields := FieldIssues(c, m, n, order);
    var networks := ServiceNetworkIssues(c, m, n, order);
    var volumes := [];
    if MustDeclareVolumes(m) {
      volumes := VolumeIssues(c, n);
      forall i | i in volumes ensures VolumeIssue(i) && i.service == n {
        var row :| row in OrElse(c.services[n].volumes, []) && i in RowIssues(c, n, row);
        RowIssuesAre(c, n, row);
      }
    }
    errors := fields + networks + volumes;
  }

  /** `validateDappnodeCompose`: reports every justified complaint and no other, and nothing exactly
      for a valid file. An unreadable version is reported at once. */
  method Validate(c: Compose, m: Manifest, order: KeyOrder) returns (errors: seq<Issue>)
    ensures ReadVersion(c.version).None? ==> errors == [UnreadableVersion]
    ensures ReadVersion(c.version).Some? ==> forall i :: i in errors <==> Justified(c, m, i)
    ensures errors == [] <==> Valid(c, m)
  {
    hide Valid;
    hide ReadVersion;
    hide RowIssues;
    hide ReservedAliasOf;
    hide ForeignDnsOf;
    hide ForeignPidOf;
    hide PrivilegedOf;
    hide HostNetworkModeOf;
    hide NetworksOf;
    hide NetworkBreaks;
    NothingJustified(c, m);
    if ReadVersion(c.version).None? {
      assert Justified(c, m, UnreadableVersion);
      return [UnreadableVersion];
    }
    var version := if Below(ReadVersion(c.version).value, MINIMUM_FILE_VERSION) then [OldVersion] else [];
    var networks := NetworkIssues(c, m, order);
    var services := [];
    var names := order(c.services.Keys);
    for j := 0 to |names|
      invariant forall i :: i in services <==> OfService(i) && i.service in names[..j] && Justified(c, m, i)
    {
      var more := ServiceIssues(c, m, names[j], order);
      services := services + more;
    }
    errors := version + networks + services;
    assert errors != [] ==> errors[0] in errors;
  }

  // ----- the rules as one condition -----

  lemma RowComplaint(c: Compose, m: Manifest, n: string, row: string) returns (i: Issue)
    requires n in c.services && MustDeclareVolumes(m) && row in OrElse(c.services[n].volumes, [])
    requires RowIssues(c, n, row) != []
    ensures OfService(i) && i.service == n && Justified(c, m, i)
  {
    i := RowIssues(c, n, row)[0];
    hide *;
    RowIssuesAre(c, n, row);
    assert i in RowIssues(c, n, row);
    RowJustified(c, m, n, row, i);
  }

  lemma RowJustified(c: Compose, m: Manifest, n: string, row: string, i: Issue)
    requires n in c.services && MustDeclareVolumes(m) && row in OrElse(c.services[n].volumes, [])
    requires i in RowIssues(c, n, row) && VolumeIssue(i) && i.service == n
    ensures OfService(i) && Justified(c, m, i)
  {
    hide RowIssues;
    hide MustDeclareVolumes;
  }

  lemma ValidNothingJustified(c: Compose, m: Manifest, n: string, i: Issue)
    requires n in c.services && ServiceValid(c, m, n) && OfService(i) && i.service == n
    ensures !Justified(c, m, i)
  {
    hide RowIssues;
    hide RowAllowed;
    hide ReadVersion;
    hide ForeignDnsOf;
    hide ForeignPidOf;
    hide PrivilegedOf;
    hide HostNetworkModeOf;
    hide NetworkAlias.CoreAlias;
    hide SAFE_KEYS;
    hide WHITELIST_NETWORKS;
    forall row ensures RowIssues(c, n, row) == [] <==> RowAllowed(c, row) { RowIssuesNone(c, n, row); }
  }

  lemma UnobjectedFields(c: Compose, m: Manifest, n: string)
    requires n in c.services && forall i :: OfService(i) && i.service == n ==> !Justified(c, m, i)
    ensures var s := c.services[n];
      && (forall key :: key in s.rest ==> key in SAFE_KEYS)
      && !ForeignDnsOf(m, s) && !ForeignPidOf(s) && !PrivilegedOf(m, s) && !HostNetworkModeOf(m, s)
  {
    hide RowIssues;
    hide ReadVersion;
    hide ForeignDnsOf;
    hide ForeignPidOf;
    hide PrivilegedOf;
    hide HostNetworkModeOf;
    hide ReservedAliasOf;
    hide SAFE_KEYS;
    hide WHITELIST_NETWORKS;
    hide NetworksOf;
    hide MustDeclareVolumes;
    forall key | key in c.services[n].rest ensures key in SAFE_KEYS { assert !Justified(c, m, UnsafeKey(n, key)); }
    assert !Justified(c, m, ForeignDns(n)) && !Justified(c, m, ForeignPid(n)) && !Justified(c, m, Issue.Privileged(n))
      && !Justified(c, m, HostNetworkMode(n));
  }

  lemma UnobjectedNetworks(c: Compose, m: Manifest, n: string)
    requires n in c.services && forall i :: OfService(i) && i.service == n ==> !Justified(c, m, i)
    ensures forall k :: k in NetworksOf(c.services[n]) ==>
      k in WHITELIST_NETWORKS && !ReservedAliasOf(m, c.services[n], k)
  {
    hide RowIssues;
    hide ReadVersion;
    hide ForeignDnsOf;
    hide ForeignPidOf;
    hide PrivilegedOf;
    hide HostNetworkModeOf;
    hide ReservedAliasOf;
    hide SAFE_KEYS;
    hide WHITELIST_NETWORKS;
    hide NetworksOf;
    hide MustDeclareVolumes;
    forall k | k in NetworksOf(c.services[n]) ensures k in WHITELIST_NETWORKS && !ReservedAliasOf(m, c.services[n], k) {
      assert !Justified(c, m, ServiceNetworkNotListed(n, k)) && !Justified(c, m, ReservedAlias(n, k));
    }
  }

  lemma UnobjectedRows(c: Compose, m: Manifest, n: string, row: string)
    requires n in c.services && forall i :: OfService(i) && i.service == n ==> !Justified(c, m, i)
    requires MustDeclareVolumes(m) && row in OrElse(c.services[n].volumes, [])
    ensures RowAllowed(c, row)
  {
    hide Justified;
    hide RowIssues;
    hide RowAllowed;
    RowIssuesNone(c, n, row);
    if RowIssues(c, n, row) != [] { var i := RowComplaint(c, m, n, row); }
  }

  lemma NothingJustifiedValid(c: Compose, m: Manifest, n: string)
    requires n in c.services && forall i :: OfService(i) && i.service == n ==> !Justified(c, m, i)
    ensures ServiceValid(c, m, n)
  {
    hide Justified;
    hide RowAllowed;
    hide ForeignDnsOf;
    hide ForeignPidOf;
    hide PrivilegedOf;
    hide HostNetworkModeOf;
    hide ReservedAliasOf;
    hide SAFE_KEYS;
    hide WHITELIST_NETWORKS;
    hide NetworksOf;
    hide MustDeclareVolumes;
    UnobjectedFields(c, m, n);
    UnobjectedNetworks(c, m, n);
    forall row | MustDeclareVolumes(m) && row in OrElse(c.services[n].volumes, []) ensures RowAllowed(c, row) {
      UnobjectedRows(c, m, n, row);
    }
  }

  lemma ServiceNothingJustified(c: Compose, m: Manifest, n: string)
    requires n in c.services
    ensures ServiceValid(c, m, n) <==> forall i :: OfService(i) && i.service == n ==> !Justified(c, m, i)
  {
    hide ServiceValid;
    hide Justified;
    if ServiceValid(c, m, n) {
      forall i | OfService(i) && i.service == n ensures !Justified(c, m, i) { ValidNothingJustified(c, m, n, i); }
    }
    if forall i :: OfService(i) && i.service == n ==> !Justified(c, m, i) { NothingJustifiedValid(c, m, n); }
  }

  lemma NothingJustified(c: Compose, m: Manifest)
    ensures Valid(c, m) <==> forall i :: !Justified(c, m, i)
  {
    hide ServiceValid;
    hide ReadVersion;
    hide RowIssues;
    hide ReservedAliasOf;
    hide ForeignDnsOf;
    hide ForeignPidOf;
    hide PrivilegedOf;
    hide HostNetworkModeOf;
    hide NetworksOf;
    hide NetworkBreaks;
    forall n | n in c.services { ServiceNothingJustified(c, m, n); }
    if forall i :: !Justified(c, m, i) {
      assert !Justified(c, m, UnreadableVersion) && !Justified(c, m, OldVersion);
      forall k | k in OrElse(c.networks, map[])
        ensures k in WHITELIST_NETWORKS && !NetworkBreaks(OrElse(c.networks, map[])[k])
      {
        assert !Justified(c, m, NetworkNotListed(k)) && !Justified(c, m, InternalNetwork(k));
      }
    }
  }
}
