/** The rules of the validator, each on its own field (packages/schemas/src/validateDappnodeCompose.ts,
    packages/params). */
module RuleValues {
  import opened Wrappers
  import opened Strings
  import opened Compose
  import opened ComposeRules
  import Environment
  import NetworkAlias

  /** The keys that a service may have besides environment, ports, volumes, networks and labels. */
  predicate AllowedKey(key: string)
  {
    key in {"cap_add", "cap_drop", "command", "depends_on", "devices", "entrypoint", "expose", "extra_hosts",
            "healthcheck", "logging", "network_mode", "privileged", "restart", "stop_grace_period", "stop_signal",
            "user", "working_dir", "security_opt", "image", "build", "pid", "container_name", "dns", "ulimits",
            "deploy", "shm_size"}
  }

  predicate AllowedNetwork(network: string)
  {
    network in {"dncore_network", "dnprivate_network", "dnpublic_network"}
  }

  /** The packages that may mount anything. */
  predicate MayMountAnything(name: string)
  {
    name in {"portainer.dnp.dappnode.eth", "dappmanager.dnp.dappnode.eth", "wifi.dnp.dappnode.eth",
             "vpn.dnp.dappnode.eth", "wireguard.dnp.dappnode.eth", "core.dnp.dappnode.eth",
             "dappnode-exporter.dnp.dappnode.eth", "dms.dnp.dappnode.eth", "tailscale.dnp.dappnode.eth"}
  }

  /** The aliases kept for core packages. */
  predicate KeptAlias(alias: string)
  {
    alias in {"dappmanager.dappnode", "wifi.dappnode", "vpn.dappnode", "wireguard.dappnode", "ipfs.dappnode",
              "bind.dappnode"}
  }

  /** A character of a volume name: a letter, a digit, or one of three signs. */
  predicate VolumeChar(c: char)
  {
    || 97 <= c as int <= 122 || 65 <= c as int <= 90 || 48 <= c as int <= 57
    || c as int == 95 || c as int == 46 || c as int == 45
  }

  /** A value that JavaScript takes for true. */
  predicate Counts(v: Json)
  {
    v != Null && v != Bool(false) && v != Text("")
  }

  /** The row breaks into a volume, a target and more at its colons. */
  ghost predicate Row(row: string, volume: string, target: string)
  {
    exists parts: seq<string> ::
      && parts != [] && Join(parts, ":") == row && (forall i :: 0 <= i < |parts| ==> ':' !in parts[i])
      && volume == parts[0] && target == if |parts| > 1 then parts[1] else ""
  }

  /** When each complaint is justified. */
  ghost predicate Complaint(c: Compose, m: Manifest, issue: Issue)
  {
    var networks, volumes := OrElse(c.networks, map[]), OrElse(c.volumes, map[]);
    match issue
    case OldVersion =>
      ReadVersion(c.version).Some? && var v := ReadVersion(c.version).value; v.0 < 3 || (v.0 == 3 && v.1 < 4)
    case UnreadableVersion => ReadVersion(c.version).None?
    case NetworkNotListed(k) => k in networks && !AllowedNetwork(k)
    case InternalNetwork(k) => k in networks && networks[k].Network? && networks[k].external == Some(false)
    case UnsafeKey(n, key) => n in c.services && key in c.services[n].rest && !AllowedKey(key)
    case ForeignDns(n) =>
      && n in c.services && !m.core && "dns" in c.services[n].rest && Counts(c.services[n].rest["dns"])
      && !Contains("172.33.1.2", Show(c.services[n].rest["dns"]))
    case ForeignPid(n) =>
      && n in c.services && "pid" in c.services[n].rest && Counts(c.services[n].rest["pid"])
      && !(c.services[n].rest["pid"].Text? && "service:" <= Show(c.services[n].rest["pid"]))
    case Privileged(n) =>
      && n in c.services && !m.core && m.name != "dappnode-exporter.dnp.dappnode.eth"
      && "privileged" in c.services[n].rest && c.services[n].rest["privileged"] == Bool(true)
    case HostNetworkMode(n) =>
      && n in c.services && !m.core
      && "network_mode" in c.services[n].rest && c.services[n].rest["network_mode"] == Text("host")
    case ServiceNetworkNotListed(n, k) =>
      && n in c.services && c.services[n].networks.Some? && !AllowedNetwork(k)
      && (match c.services[n].networks.value
          case NetworkList(names) => k in names
          case NetworkObject(nets) => k in nets)
    case ReservedAlias(n, k) =>
      && n in c.services && !m.core && c.services[n].networks.Some? && c.services[n].networks.value.NetworkObject?
      && var nets := c.services[n].networks.value.networks;
         k in nets && nets[k].aliases.Some? && exists a :: a in nets[k].aliases.value && KeptAlias(a)
    case UnnamedVolume(n, row) =>
      && n in c.services && !MayMountAnything(m.name) && row in OrElse(c.services[n].volumes, [])
      && exists volume, target :: Row(row, volume, target) && (volume == "" || target == "")
    case BindMount(n, row) =>
      && n in c.services && !MayMountAnything(m.name) && row in OrElse(c.services[n].volumes, [])
      && exists volume, target :: Row(row, volume, target) && target != "" && '/' in volume
    case VolumeName(n, row) =>
      && n in c.services && !MayMountAnything(m.name) && row in OrElse(c.services[n].volumes, [])
      && exists volume, target :: Row(row, volume, target) && volume != "" && target != "" && '/' !in volume
           && exists i :: 0 <= i < |volume| && !VolumeChar(volume[i])
    case UndeclaredVolume(n, volume) =>
      && MountsNamed(c, m, n, volume) && (volume !in volumes || volumes[volume].NullVolume?)
    case ExternalVolume(n, volume) =>
      && MountsNamed(c, m, n, volume) && volume in volumes && volumes[volume].Volume?
      && "external" in volumes[volume].rest && Counts(volumes[volume].rest["external"])
    case VolumeProperties(n, volume) =>
      && MountsNamed(c, m, n, volume) && volume in volumes && volumes[volume].Volume?
      && (volumes[volume].driverOpts.Some? || volumes[volume].rest != map[])
  }

  /** Some row of the service mounts a volume with a proper name. */
  ghost predicate MountsNamed(c: Compose, m: Manifest, n: string, volume: string)
  {
    && n in c.services && !MayMountAnything(m.name)
    && volume != "" && (forall i :: 0 <= i < |volume| ==> VolumeChar(volume[i]))
    && exists row, target :: row in OrElse(c.services[n].volumes, []) && Row(row, volume, target) && target != ""
  }

  lemma {:induction false} JoinedParts(parts: seq<string>)
    requires parts != [] && forall i :: 0 <= i < |parts| ==> ':' !in parts[i]
    ensures Split(Join(parts, ":"), ':') == parts
  {
    SplitJoin(parts, ':');
  }

  lemma RowIs(row: string, volume: string, target: string)
    ensures Row(row, volume, target) <==> volume == RowVolume(row) && target == RowTarget(row)
  {
    SplitIs(row, ':');
    if Row(row, volume, target) {
      var parts: seq<string> :|
        && parts != [] && Join(parts, ":") == row && (forall i :: 0 <= i < |parts| ==> ':' !in parts[i])
        && volume == parts[0] && target == if |parts| > 1 then parts[1] else "";
      JoinedParts(parts);
    }
  }

  lemma CharsAre(c: char)
    ensures VolumeChar(c) <==> NameChar(c)
  {
  }

  lemma KeysAre(key: string)
    ensures AllowedKey(key) <==> key in SAFE_KEYS
  {
  }

  lemma NetworksAre(network: string)
    ensures AllowedNetwork(network) <==> network in WHITELIST_NETWORKS
  {
  }

  lemma MountersAre(m: Manifest)
    ensures MayMountAnything(m.name) <==> !MustDeclareVolumes(m)
  {
  }

  lemma KeptAliasesAre(alias: string)
    ensures KeptAlias(alias) <==> NetworkAlias.CoreAlias(alias)
  {
    assert NetworkAlias.RESERVED == ["dappmanager", "wifi", "vpn", "wireguard", "ipfs", "bind"];
    assert NetworkAlias.EndDomain(NetworkAlias.Core) == ".dappnode";
    assert "dappmanager" + ".dappnode" == "dappmanager.dappnode" && "wifi" + ".dappnode" == "wifi.dappnode";
    assert "vpn" + ".dappnode" == "vpn.dappnode" && "wireguard" + ".dappnode" == "wireguard.dappnode";
    assert "ipfs" + ".dappnode" == "ipfs.dappnode" && "bind" + ".dappnode" == "bind.dappnode";
    if KeptAlias(alias) {
      var i := if alias == "dappmanager.dappnode" then 0 else if alias == "wifi.dappnode" then 1
        else if alias == "vpn.dappnode" then 2 else if alias == "wireguard.dappnode" then 3
        else if alias == "ipfs.dappnode" then 4 else 5;
      assert alias == NetworkAlias.RESERVED[i] + NetworkAlias.EndDomain(NetworkAlias.Core);
    }
  }

  lemma CountsIs(v: Json)
    ensures Counts(v) <==> Truthy(v)
  {
  }

  lemma FieldComplaint(c: Compose, m: Manifest, issue: Issue)
    requires issue.UnsafeKey? || issue.ForeignDns? || issue.ForeignPid? || issue.Privileged? || issue.HostNetworkMode?
    ensures Justified(c, m, issue) <==> Complaint(c, m, issue)
  {
    hide SAFE_KEYS;
    hide AllowedKey;
    hide Counts;
    hide Truthy;
    hide Contains;
    hide ReadVersion;
    match issue {
      case UnsafeKey(n, key) => KeysAre(key);
      case ForeignDns(n) => if n in c.services { CountsIs(Field(c.services[n].rest, "dns")); NullIsFalse(); }
      case ForeignPid(n) => if n in c.services { CountsIs(Field(c.services[n].rest, "pid")); NullIsFalse(); }
      case _ =>
    }
  }

  /** How a list element is shown. */
  function Shown(item: Json): string
  {
    if item.Null? then "" else Show(item)
  }

  /** How a value is shown as a text: a list by its elements between commas, nothing for `null` in it. */
  lemma {:induction false} ShowIs(items: seq<Json>)
    ensures Show(Null) == "null" && Show(Bool(true)) == "true" && Show(Bool(false)) == "false"
    ensures forall t :: Show(Text(t)) == t
    ensures forall m :: Show(Json.Object(m)) == "[object Object]"
    ensures Show(Array(items)) == Join(seq(|items|, i requires 0 <= i < |items| => Shown(items[i])), ",")
  {
    hide Shown;
    var texts := seq(|items|, i requires 0 <= i < |items| => Shown(items[i]));
    if items != [] {
      var rest := items[1..];
      ShowIs(rest);
      var others := seq(|rest|, i requires 0 <= i < |rest| => Shown(rest[i]));
      assert texts[1..] == others;
      ShowStep(items);
      hide Join;
      hide Show;
      JoinStep(texts, ",");
      assert |items| == 1 ==> others == [];
    }
  }

  lemma ShowStep(items: seq<Json>)
    requires items != []
    ensures Show(Array(items)) ==
      if |items| == 1 then Shown(items[0]) else Shown(items[0]) + "," + Show(Array(items[1..]))
  {
    hide Show;
    ShowItemsOf(items);
    ShowItemsOf(items[1..]);
    assert Shown(items[0]) + "" == Shown(items[0]);
    assert |items| > 1 ==>
      Shown(items[0]) + ("," + ShowItems(items[1..])) == Shown(items[0]) + "," + ShowItems(items[1..]);
  }

  lemma ShowItemsOf(items: seq<Json>)
    ensures Show(Array(items)) == ShowItems(items)
  {
  }

  lemma NullIsFalse()
    ensures !Truthy(Null)
  {
  }

  lemma NetworkComplaint(c: Compose, m: Manifest, issue: Issue)
    requires issue.OldVersion? || issue.UnreadableVersion? || issue.NetworkNotListed? || issue.InternalNetwork?
      || issue.ServiceNetworkNotListed? || issue.ReservedAlias?
    ensures Justified(c, m, issue) <==> Complaint(c, m, issue)
  {
    hide ReadVersion;
    hide WHITELIST_NETWORKS;
    hide AllowedNetwork;
    hide KeptAlias;
    hide NetworkAlias.CoreAlias;
    forall k { NetworksAre(k); }
    forall a { KeptAliasesAre(a); }
    match issue {
      case ReservedAlias(n, k) =>
      case _ =>
    }
  }

  /** A volume name as the rules want it. */
  predicate Plain(volume: string)
  {
    forall i :: 0 <= i < |volume| ==> NameChar(volume[i])
  }

  lemma PlainHasNoSlash(volume: string)
    ensures Plain(volume) ==> '/' !in volume
    ensures Plain(volume) <==> forall i :: 0 <= i < |volume| ==> VolumeChar(volume[i])
  {
    forall ch: char ensures VolumeChar(ch) <==> NameChar(ch) { CharsAre(ch); }
  }

  /** Which complaints one row gives. */
  lemma RowGives(c: Compose, n: string, row: string, issue: Issue)
    requires VolumeIssue(issue)
    ensures var volume, target, declared := RowVolume(row), RowTarget(row), OrElse(c.volumes, map[]);
      issue in RowIssues(c, n, row) <==>
        && issue.service == n
        && match issue
           case UnnamedVolume(_, r) => r == row && (volume == "" || target == "")
           case BindMount(_, r) => r == row && volume != "" && target != "" && '/' in volume
           case VolumeName(_, r) => r == row && volume != "" && target != "" && '/' !in volume && !Plain(volume)
           case UndeclaredVolume(_, v) =>
             v == volume && volume != "" && target != "" && Plain(volume)
             && (volume !in declared || declared[volume].NullVolume?)
           case ExternalVolume(_, v) =>
             v == volume && volume != "" && target != "" && Plain(volume)
             && volume in declared && declared[volume].Volume? && Truthy(Field(declared[volume].rest, "external"))
           case VolumeProperties(_, v) =>
             v == volume && volume != "" && target != "" && Plain(volume)
             && volume in declared && declared[volume].Volume?
             && (declared[volume].driverOpts.Some? || declared[volume].rest != map[])
           case _ => false
  {
    hide RowVolume;
    hide RowTarget;
    hide Truthy;
    hide Field;
    hide NameChar;
    PlainHasNoSlash(RowVolume(row));
  }

  lemma RowOf(row: string)
    ensures forall volume, target :: Row(row, volume, target) <==> volume == RowVolume(row) && target == RowTarget(row)
  {
    hide Row;
    hide RowVolume;
    hide RowTarget;
    forall volume, target ensures Row(row, volume, target) <==> volume == RowVolume(row) && target == RowTarget(row) {
      RowIs(row, volume, target);
    }
  }

  lemma RowComplaint(c: Compose, m: Manifest, issue: Issue)
    requires issue.UnnamedVolume? || issue.BindMount? || issue.VolumeName?
    ensures Justified(c, m, issue) <==> Complaint(c, m, issue)
  {
    hide Row;
    hide RowIssues;
    hide MayMountAnything;
    hide MustDeclareVolumes;
    hide VolumeChar;
    hide RowVolume;
    hide RowTarget;
    hide Plain;
    MountersAre(m);
    forall row ensures issue in RowIssues(c, issue.service, row) ==> row == issue.row {
      RowGives(c, issue.service, row, issue);
    }
    RowGives(c, issue.service, issue.row, issue);
    RowOf(issue.row);
    PlainHasNoSlash(RowVolume(issue.row));
    assert Row(issue.row, RowVolume(issue.row), RowTarget(issue.row));
  }

  lemma MountedBy(c: Compose, m: Manifest, n: string, volume: string)
    ensures MountsNamed(c, m, n, volume) <==>
      && n in c.services && !MayMountAnything(m.name) && volume != "" && Plain(volume)
      && exists row :: row in OrElse(c.services[n].volumes, []) && RowVolume(row) == volume && RowTarget(row) != ""
  {
    hide Row;
    hide RowVolume;
    hide RowTarget;
    hide VolumeChar;
    hide Plain;
    hide MayMountAnything;
    PlainHasNoSlash(volume);
    forall row ensures forall v, target :: Row(row, v, target) <==> v == RowVolume(row) && target == RowTarget(row) {
      RowOf(row);
    }
    if MountsNamed(c, m, n, volume) {
      var row, target :| row in OrElse(c.services[n].volumes, []) && Row(row, volume, target) && target != "";
      assert RowVolume(row) == volume && RowTarget(row) != "";
    }
    if n in c.services {
      if row :| row in OrElse(c.services[n].volumes, []) && RowVolume(row) == volume && RowTarget(row) != "" {
        assert Row(row, volume, RowTarget(row));
      }
    }
  }

  lemma NamedComplaint(c: Compose, m: Manifest, issue: Issue)
    requires issue.UndeclaredVolume? || issue.ExternalVolume? || issue.VolumeProperties?
    ensures Justified(c, m, issue) <==> Complaint(c, m, issue)
  {
    hide Row;
    hide RowIssues;
    hide MayMountAnything;
    hide MustDeclareVolumes;
    hide MountsNamed;
    hide RowVolume;
    hide RowTarget;
    hide Plain;
    hide Truthy;
    hide Counts;
    hide ReadVersion;
    hide Contains;
    hide Show;
    hide AllowedKey;
    hide AllowedNetwork;
    hide KeptAlias;
    hide SAFE_KEYS;
    hide WHITELIST_NETWORKS;
    MountersAre(m);
    MountedBy(c, m, issue.service, issue.volume);
    NullIsFalse();
    var declared := OrElse(c.volumes, map[]);
    if issue.volume in declared && declared[issue.volume].Volume? {
      CountsIs(Field(declared[issue.volume].rest, "external"));
    }
    forall row { RowGives(c, issue.service, row, issue); }
  }

  lemma VolumeComplaint(c: Compose, m: Manifest, issue: Issue)
    requires VolumeIssue(issue)
    ensures Justified(c, m, issue) <==> Complaint(c, m, issue)
  {
    hide Justified;
    hide Complaint;
    if issue.UnnamedVolume? || issue.BindMount? || issue.VolumeName? { RowComplaint(c, m, issue); }
    else { NamedComplaint(c, m, issue); }
  }

  /** Every complaint of the validator, by the fields that justify it. */
  lemma ComplaintsAre(c: Compose, m: Manifest, issue: Issue)
    ensures Justified(c, m, issue) <==> Complaint(c, m, issue)
  {
    hide Justified;
    hide Complaint;
    if VolumeIssue(issue) {
      VolumeComplaint(c, m, issue);
    } else if issue.UnsafeKey? || issue.ForeignDns? || issue.ForeignPid? || issue.Privileged?
        || issue.HostNetworkMode? {
      FieldComplaint(c, m, issue);
    } else {
      NetworkComplaint(c, m, issue);
    }
  }
}
