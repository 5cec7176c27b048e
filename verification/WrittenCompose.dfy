/** What `applyUserSettings` writes, value by value (packages/dockerCompose/src/userSettings.ts). */
module WrittenCompose {
  import opened Wrappers
  import opened Strings
  import opened Compose
  import opened Environment
  import opened UserSettings
  import DevicePath
  import Numbers
  import Ports

  // ----- volume rows -----

  /** What a row mounts: the rest of the line after its first colon. */
  function Target(row: string): string
  {
    var host := Before(row, ':');
    if |host| < |row| then FirstLine(row[|host| + 1..]) else ""
  }

  lemma NormalNotEmpty(path: string)
    ensures NormalizeVolumePath(path) == "" <==> path == ""
  {
    hide DevicePath.Components;
    hide Join;
  }

  /** The rows that are written: one for each row with a container path, in order, the normalised host
      before the colon and the normalised container path after it. */
  lemma {:induction false} RowsWritten(rows: seq<string>)
    ensures var out, kept := ReprintVolumes(rows), Positions(rows, row => Target(row) != "");
      && |out| == |kept|
      && forall i :: 0 <= i < |out| ==>
           out[i] == NormalizeVolumePath(Before(rows[kept[i]], ':')) + ":" + NormalizeVolumePath(Target(rows[kept[i]]))
  {
    hide NormalizeVolumePath;
    hide Before;
    hide FirstLine;
    if rows != [] {
      var shorter, row := rows[..|rows| - 1], rows[|rows| - 1];
      RowsWritten(shorter);
      NormalNotEmpty(Target(row));
      NormalNotEmpty("");
    }
  }

  /** The volume rows of a service in the written compose. */
  lemma VolumeRows(c: Compose, s: UserSettings, dnpName: string, n: string)
    requires MountpointsAbsolute(c, s) && n in c.services
    ensures var rows := OrElse(c.services[n].volumes, []);
      var out := OrElse(Applied(c, s, dnpName).services[n].volumes, []);
      var kept := Positions(rows, row => Target(row) != "");
      && |out| == |kept|
      && forall i :: 0 <= i < |out| ==>
           out[i] == NormalizeVolumePath(Before(rows[kept[i]], ':')) + ":" + NormalizeVolumePath(Target(rows[kept[i]]))
  {
    hide *;
    AppliedService(c, s, dnpName, n);
    ReadCleaned(c.services[n], ChoicesFor(s, n));
    RowsWritten(OrElse(c.services[n].volumes, []));
  }

  /** A row in normal form is written as it is. */
  lemma NormalRow(host: string, target: string)
    requires ':' !in host && target != "" && forall i :: 0 <= i < |target| ==> !IsLineEnd(target[i])
    requires NormalizeVolumePath(host) == host && NormalizeVolumePath(target) == target
    ensures var row := host + ":" + target;
      && Before(row, ':') == host && Target(row) == target
      && NormalizeVolumePath(Before(row, ':')) + ":" + NormalizeVolumePath(Target(row)) == row
  {
    hide NormalizeVolumePath;
    hide FirstLine;
    var row := host + ":" + target;
    assert row == host + [':'] + target;
    BeforeFirst(host, ':', target);
    assert row[|host| + 1..] == target;
    FirstLineAll(target);
  }

  lemma NameHasNoSlash(name: string)
    requires DevicePath.Proper(name)
    ensures name != "" && name[|name| - 1] != '/' && '/' !in name
  {
  }

  /** The names of volumes are in normal form. */
  lemma NameIsNormal(name: string)
    requires DevicePath.Proper(name)
    ensures NormalizeVolumePath(name) == name
  {
    NameHasNoSlash(name);
    assert DropTrailingSlashes(name) == name;
    SplitWithout(name, '/');
    assert name[0] != '/';
    OneComponent(name);
    assert DevicePath.Components(name) == [name];
    assert Join([name], "/") == name;
  }

  lemma OneComponent(name: string)
    requires DevicePath.Proper(name)
    ensures DevicePath.Resolve([name], false) == [name]
  {
    assert [name][..0] == [];
  }

  /** Trailing slashes of a path go. */
  lemma {:induction false} SlashesGo(path: string, slashes: string)
    requires path == "" || path[|path| - 1] != '/'
    requires forall i :: 0 <= i < |slashes| ==> slashes[i] == '/'
    ensures DropTrailingSlashes(path + slashes) == path
  {
    var s := path + slashes;
    if slashes == "" {
      assert s == path;
    } else {
      assert s[..|s| - 1] == path + slashes[..|slashes| - 1];
      SlashesGo(path, slashes[..|slashes| - 1]);
    }
  }

  /** An absolute path of ordinary components is in normal form, and so written even if trailing
      slashes follow it. */
  lemma PathIsNormal(components: seq<string>, slashes: string)
    requires DevicePath.AllProper(components) && components != []
    requires forall i :: 0 <= i < |slashes| ==> slashes[i] == '/'
    ensures NormalizeVolumePath(DevicePath.Slashed(components) + slashes) == DevicePath.Slashed(components)
  {
    var path := DevicePath.Slashed(components);
    DevicePath.SlashedLast(components);
    DevicePath.NormalizeSlashed(components);
    SlashesGo(path, slashes);
    hide DevicePath.Normalize;
    hide DevicePath.Slashed;
  }

  lemma TwoComponents(a: string, b: string)
    ensures DevicePath.Slashed([a, b]) == "/" + a + ("/" + b)
  {
    assert [a, b][1..] == [b] && [b][1..] == [];
    assert DevicePath.Slashed([]) == "";
    assert DevicePath.Slashed([b]) == "/" + b + "";
    assert "/" + b + "" == "/" + b;
  }

  lemma EthereumNames()
    ensures DevicePath.Proper("geth") && DevicePath.AllProper(["root", ".ethereum"])
    ensures "/" + "root" + ("/" + ".ethereum") == "/root/.ethereum"
    ensures "/root/.ethereum" + "/" == "/root/.ethereum/" && "geth" + ":" + "/root/.ethereum" == "geth:/root/.ethereum"
    ensures "/"[0] == '/' && |"/"| == 1
  {
  }

  /** Concretely: the data volume of a package stays mounted where it was. */
  lemma VolumeRowStays()
    ensures NormalizeVolumePath("geth") + ":" + NormalizeVolumePath("/root/.ethereum/") == "geth:/root/.ethereum"
  {
    hide *;
    EthereumNames();
    NameIsNormal("geth");
    TwoComponents("root", ".ethereum");
    PathIsNormal(["root", ".ethereum"], "/");
  }

  // ----- labels -----

  predicate Stored(labels: map<string, Label>, k: string, stored: Label)
  {
    k in labels && labels[k] == stored
  }

  /** What is stored of a service's own variables, ports and volumes, and what stays of its labels. */
  predicate LabelsOf(service: Service, labels: map<string, Label>)
  {
    && (match service.environment
        case None => true
        case Some(Rows(rows)) => Stored(labels, "dappnode.dnp.default.environment", RowsLabel(rows))
        case Some(Object(envs)) => Stored(labels, "dappnode.dnp.default.environment", EnvsLabel(envs)))
    && (service.ports.Some? ==> Stored(labels, "dappnode.dnp.default.ports", RowsLabel(service.ports.value)))
    && (service.volumes.Some? ==> Stored(labels, "dappnode.dnp.default.volumes", RowsLabel(service.volumes.value)))
    && var given := OrElse(service.labels, map[]);
       forall k :: k in labels.Keys + given.Keys && !Replaced(service, k) ==>
         k in labels && k in given && labels[k] == given[k]
  }

  /** The labels that hold a default of the service. */
  predicate Replaced(service: Service, k: string)
  {
    || (k == "dappnode.dnp.default.environment" && service.environment.Some?)
    || (k == "dappnode.dnp.default.ports" && service.ports.Some?)
    || (k == "dappnode.dnp.default.volumes" && service.volumes.Some?)
  }

  lemma LabelNamesDiffer()
    ensures "dappnode.dnp.default.environment" != "dappnode.dnp.default.ports"
    ensures "dappnode.dnp.default.environment" != "dappnode.dnp.default.volumes"
    ensures "dappnode.dnp.default.ports" != "dappnode.dnp.default.volumes"
  {
    assert |"dappnode.dnp.default.environment"| > |"dappnode.dnp.default.volumes"| > |"dappnode.dnp.default.ports"|;
  }

  lemma DefaultsStored(service: Service)
    ensures LabelsOf(service, OrElse(service.labels, map[]) + DefaultLabels(service))
  {
    LabelNamesDiffer();
  }

  /** The labels of a service in the written compose. */
  lemma LabelsWritten(c: Compose, s: UserSettings, dnpName: string, n: string)
    requires MountpointsAbsolute(c, s) && n in c.services
    ensures LabelsOf(c.services[n], OrElse(Applied(c, s, dnpName).services[n].labels, map[]))
  {
    hide *;
    AppliedService(c, s, dnpName, n);
    CleanedLabels(c.services[n], ChoicesFor(s, n));
    DefaultsStored(c.services[n]);
  }

  lemma CleanedLabels(service: Service, u: ServiceChoices)
    ensures OrElse(CleanService(ApplyService(service, u)).labels, map[])
      == OrElse(service.labels, map[]) + DefaultLabels(service)
  {
    hide NextEnvs;
    hide NextPorts;
    hide ReprintVolumes;
    hide NextNetworks;
    hide DefaultLabels;
    hide CleanRest;
  }

  // ----- variables -----

  /** The user's value for a variable, if one was entered. */
  predicate Entered(s: UserSettings, n: string, k: string)
  {
    s.environment.Some? && n in s.environment.value && k in s.environment.value[n] && s.environment.value[n][k] != ""
  }

  /** Every variable of the package, with the value that was entered for it, else its own. */
  lemma EnvsWritten(c: Compose, s: UserSettings, dnpName: string, n: string)
    requires MountpointsAbsolute(c, s) && n in c.services
    ensures var given, envs := EnvsOf(c.services[n]), EnvsOf(Applied(c, s, dnpName).services[n]);
      && envs.Keys == given.Keys
      && forall k :: k in given ==> envs[k] == if Entered(s, n, k) then s.environment.value[n][k] else given[k]
  {
    hide Applied;
    hide MountpointsAbsolute;
    hide EnvsOf;
    hide CleanService;
    hide ApplyService;
    hide NextPorts;
    hide NextNetworks;
    hide ReprintVolumes;
    hide NetworksOf;
    AppliedService(c, s, dnpName, n);
    ReadCleaned(c.services[n], ChoicesFor(s, n));
  }

  // ----- ports -----

  /** The user's setting for a container port and protocol. */
  predicate PortListed(s: UserSettings, n: string, id: string)
  {
    s.portMappings.Some? && n in s.portMappings.value && id in s.portMappings.value[n]
  }

  /** Each row is printed again for its own container port and protocol, with the host that was entered
      for them, none if that is no number or 0, else with its own host. */
  lemma PortsWritten(c: Compose, s: UserSettings, dnpName: string, n: string)
    requires MountpointsAbsolute(c, s) && n in c.services
    ensures var rows, out := OrElse(c.services[n].ports, []), OrElse(Applied(c, s, dnpName).services[n].ports, []);
      && |out| == |rows|
      && forall i :: 0 <= i < |rows| ==>
           var m := Ports.Parse(rows[i]);
           out[i] == Ports.Print(
             if !PortListed(s, n, Ports.Id(m)) then m
             else
               var host := Numbers.ParseInt(s.portMappings.value[n][Ports.Id(m)]);
               Ports.PortMapping(if host == Numbers.NaN || host == Numbers.Num(0) then None else Some(host),
                                 m.container, m.protocol))
  {
    hide Applied;
    hide MountpointsAbsolute;
    hide CleanService;
    hide ApplyService;
    hide NextEnvs;
    hide EnvsOf;
    hide NextNetworks;
    hide ReprintVolumes;
    hide NetworksOf;
    hide Ports.Parse;
    hide Ports.Print;
    hide Ports.Id;
    hide Numbers.ParseInt;
    AppliedService(c, s, dnpName, n);
    ReadCleaned(c.services[n], ChoicesFor(s, n));
  }

  // ----- networks -----

  /** What the settings say about a service's networks. */
  function GivenNetworks(s: UserSettings, n: string): NetworksObject
  {
    if s.networks.Some? && n in s.networks.value.serviceNetworks
    then NetworksIn(s.networks.value.serviceNetworks[n]) else map[]
  }

  /** Both forms of a service's networks: a listed one has neither address nor aliases. */
  function NetworksIn(networks: ServiceNetworks): (r: NetworksObject)
    ensures networks.NetworkList? ==>
      r.Keys == (set x | x in networks.names) && forall x :: x in r ==> r[x] == ServiceNetwork(None, None)
    ensures networks.NetworkObject? ==> r == networks.networks
  {
    ParseNetworks(networks)
  }

  /** One network of a service: the address is the package's, if that has the network, and is left out
      when it is empty; the aliases are the package's and the user's, each of them once if the user has
      some, else as they were. */
  ghost predicate NetworkWritten(base: Option<ServiceNetwork>, user: Option<ServiceNetwork>, out: ServiceNetwork)
  {
    && out.ipv4 == (var given := if base.Some? then base.value.ipv4 else if user.Some? then user.value.ipv4 else None;
                    if given == Some("") then None else given)
    && out.aliases != Some([])
    && (base.Some? && user.Some? && user.value.aliases.Some? ==>
          && NoRepeats(OrElse(out.aliases, []))
          && forall a :: a in OrElse(out.aliases, [])
               <==> a in OrElse(base.value.aliases, []) || a in user.value.aliases.value)
    && (base.Some? && (user.None? || user.value.aliases.None?) ==>
          OrElse(out.aliases, []) == OrElse(base.value.aliases, []))
    && (base.None? && user.Some? ==> OrElse(out.aliases, []) == OrElse(user.value.aliases, []))
  }

  function In(nets: NetworksObject, k: string): Option<ServiceNetwork>
  {
    if k in nets then Some(nets[k]) else None
  }

  lemma NextNetworkWritten(base: NetworksObject, user: NetworksObject, k: string)
    requires k in base || k in user
    ensures k in NextNetworks(base, user) && NetworkWritten(In(base, k), In(user, k), NextNetworks(base, user)[k])
  {
    hide Unique;
    hide NoRepeats;
    hide NextNetworks;
    NextNetworkIs(base, user, k);
    if k in base && k in user && user[k].aliases.Some? {
      UniqueMeaning(Aliases(base[k]) + user[k].aliases.value);
      UniqueEmpty(Aliases(base[k]) + user[k].aliases.value);
    }
  }

  /** The networks of a service in the written compose. */
  lemma NetworksWritten(c: Compose, s: UserSettings, dnpName: string, n: string)
    requires MountpointsAbsolute(c, s) && n in c.services
    ensures var base, user := NetworksIn(OrElse(c.services[n].networks, NetworkObject(map[]))), GivenNetworks(s, n);
      var out := NetworksOf(Applied(c, s, dnpName).services[n]);
      && out.Keys == base.Keys + user.Keys
      && forall k :: k in out ==> NetworkWritten(In(base, k), In(user, k), out[k])
  {
    hide Applied;
    hide MountpointsAbsolute;
    hide CleanService;
    hide ApplyService;
    hide NextEnvs;
    hide EnvsOf;
    hide NextNetworks;
    hide NextPorts;
    hide ReprintVolumes;
    hide NetworkWritten;
    AppliedService(c, s, dnpName, n);
    ReadCleaned(c.services[n], ChoicesFor(s, n));
    var base, user := NetworksIn(OrElse(c.services[n].networks, NetworkObject(map[]))), GivenNetworks(s, n);
    assert base == NetworksOf(c.services[n]) && user == ChoicesFor(s, n).networks;
    NextNetworksKeys(base, user);
    forall k | k in base.Keys + user.Keys
      ensures NetworkWritten(In(base, k), In(user, k), NextNetworks(base, user)[k])
    {
      NextNetworkWritten(base, user, k);
    }
  }

  // ----- the other fields and sections -----

  /** The fields that the settings do not touch: dropped if they are null or an empty list or object,
      but for the names of container and image. */
  lemma FieldsWritten(c: Compose, s: UserSettings, dnpName: string, n: string)
    requires MountpointsAbsolute(c, s) && n in c.services
    ensures var given, out := c.services[n].rest, Applied(c, s, dnpName).services[n].rest;
      forall k ::
        && (k in out <==>
              && k in given
              && (k == "container_name" || k == "image"
                  || (given[k] != Null && given[k] != Array([]) && given[k] != Json.Object(map[]))))
        && (k in out ==> out[k] == given[k])
  {
    hide Applied;
    hide MountpointsAbsolute;
    hide ChoicesFor;
    hide NextEnvs;
    hide NextPorts;
    hide ReprintVolumes;
    hide NextNetworks;
    hide DefaultLabels;
    AppliedService(c, s, dnpName, n);
  }

  /** The mountpoint that was entered for a volume: its own, else the one for all; "" for none. */
  function MountpointEntered(s: UserSettings, v: string): (m: string)
    ensures var named := OrElse(s.namedVolumeMountpoints, map[]);
      m == if v in named && named[v] != "" then named[v]
           else if s.allNamedVolumeMountpoint.Some? then s.allNamedVolumeMountpoint.value
           else ""
  {
    Mountpoint(s, v)
  }

  /** The declared volumes: one with a mountpoint is bound to its device path and loses all else, the
      others stay as they are. */
  lemma VolumesWritten(c: Compose, s: UserSettings, dnpName: string)
    requires MountpointsAbsolute(c, s)
    ensures var given, out := OrElse(c.volumes, map[]), OrElse(Applied(c, s, dnpName).volumes, map[]);
      && out.Keys == given.Keys && Applied(c, s, dnpName).volumes != Some(map[])
      && forall v :: v in given ==>
           var m := MountpointEntered(s, v);
           if m == "" then out[v] == given[v]
           else
             DevicePath.Get(m, dnpName, v).Ok? && Bound(out[v], DevicePath.Get(m, dnpName, v).value)
  {
    hide Applied;
    hide DevicePath.Get;
    hide DeviceVolume;
    hide Mountpoint;
    AppliedSections(c, s, dnpName);
    forall v | v in OrElse(c.volumes, map[]) && Mountpoint(s, v) != ""
      ensures DevicePath.Get(Mountpoint(s, v), dnpName, v).Ok?
      ensures var device := DevicePath.Get(Mountpoint(s, v), dnpName, v).value; Bound(DeviceVolume(device), device)
    {
      GetOnlyAbsolute(Mountpoint(s, v), dnpName, v);
      BoundTo(DevicePath.Get(Mountpoint(s, v), dnpName, v).value);
    }
  }

  /** A volume bound to a directory of the host, with nothing else said about it. */
  predicate Bound(v: Volume, device: string)
  {
    && v.Volume? && v.rest == map[] && v.driverOpts.Some? && v.driverOpts.value.Keys == {"type", "device", "o"}
    && v.driverOpts.value["type"] == "none" && v.driverOpts.value["o"] == "bind"
    && v.driverOpts.value["device"] == device
  }

  lemma BoundTo(device: string)
    ensures Bound(DeviceVolume(device), device)
  {
  }

  /** The declared networks: the package's, and the user's instead where both declare one. */
  lemma RootNetworksWritten(c: Compose, s: UserSettings, dnpName: string)
    requires MountpointsAbsolute(c, s)
    ensures var r := Applied(c, s, dnpName);
      var given := OrElse(c.networks, map[]);
      var user := if s.networks.Some? then s.networks.value.rootNetworks else map[];
      && r.version == c.version && r.services.Keys == c.services.Keys && r.networks != Some(map[])
      && OrElse(r.networks, map[]).Keys == given.Keys + user.Keys
      && forall k :: k in OrElse(r.networks, map[]) ==>
           OrElse(r.networks, map[])[k] == if k in user then user[k] else given[k]
  {
    hide Applied;
    AppliedSections(c, s, dnpName);
  }
}
