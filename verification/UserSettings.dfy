/** The user's choices inside a compose file: reading them and applying them again
    (packages/dockerCompose/src/userSettings.ts). */
module UserSettings {
  import opened Wrappers
  import opened Strings
  import opened Compose
  import opened Environment
  import DevicePath
  import Numbers
  import Ports

  type StringMap = map<string, string>

  datatype NetworkSettings = NetworkSettings(
    serviceNetworks: map<string, ServiceNetworks>,
    rootNetworks: map<string, Network>)

  datatype UserSettings = UserSettings(
    environment: Option<map<string, StringMap>>,
    portMappings: Option<map<string, StringMap>>,
    namedVolumeMountpoints: Option<StringMap>,
    allNamedVolumeMountpoint: Option<string>,
    networks: Option<NetworkSettings>)

  // ----- applying: environment -----

  /** A value the user left empty keeps the value of the package. */
  function ChooseEnv(user: StringMap, name: string, value: string): string
  {
    if name in user && user[name] != "" then user[name] else value
  }

  function NextEnvs(envs: Envs, user: StringMap): Envs
  {
    map k | k in envs :: ChooseEnv(user, k, envs[k])
  }

  // ----- applying: ports -----

  /** `parseInt(hostString) || undefined`. */
  function HostFrom(text: string): Option<Numbers.JsNumber>
  {
    var n := Numbers.ParseInt(text);
    if Numbers.Truthy(n) then Some(n) else None
  }

  /** A listed port takes the user's host, the empty one included. */
  function NextPort(m: Ports.PortMapping, user: StringMap): Ports.PortMapping
  {
    if Ports.Id(m) in user then m.(host := HostFrom(user[Ports.Id(m)])) else m
  }

  function NextPorts(rows: seq<string>, user: StringMap): (next: seq<string>)
    ensures |next| == |rows|
  {
    seq(|rows|, i requires 0 <= i < |rows| => Ports.Print(NextPort(Ports.Parse(rows[i]), user)))
  }

  // ----- applying: networks -----

  /** `Array.from(new Set([...acc, ...xs]))` for an `acc` without repeats. */
  function AppendNew(acc: seq<string>, xs: seq<string>): seq<string>
    decreases xs
  {
    if xs == [] then acc
    else AppendNew(if xs[0] in acc then acc else acc + [xs[0]], xs[1..])
  }

  function Unique(xs: seq<string>): seq<string>
  {
    AppendNew([], xs)
  }

  function Aliases(n: ServiceNetwork): seq<string>
  {
    OrElse(n.aliases, [])
  }

  /** A network of the package that the user has settings for: the address stays, the aliases
      are united. */
  function MergeNetwork(base: ServiceNetwork, user: ServiceNetwork): ServiceNetwork
  {
    if user.aliases.Some? then base.(aliases := Some(Unique(Aliases(base) + user.aliases.value))) else base
  }

  function MergeNetworks(base: NetworksObject, user: NetworksObject): NetworksObject
  {
    map n | n in base.Keys + user.Keys ::
      if n !in base then user[n]
      else if n in user then MergeNetwork(base[n], user[n])
      else base[n]
  }

  /** Keeps the aliases if there are any and the address if it is not empty. */
  function NormalizeNetwork(n: ServiceNetwork): ServiceNetwork
  {
    ServiceNetwork(if n.ipv4 == Some("") then None else n.ipv4, if n.aliases == Some([]) then None else n.aliases)
  }

  function NextNetworks(base: NetworksObject, user: NetworksObject): NetworksObject
  {
    map n | n in base.Keys + user.Keys :: NormalizeNetwork(MergeNetworks(base, user)[n])
  }

  // ----- applying: service volumes -----

  /** `normalizeVolumePath`. */
  function NormalizeVolumePath(path: string): string
  {
    if path == "" || path == "/" then path else DevicePath.Normalize(DropTrailingSlashes(path))
  }

  /** Reads a volume row and prints it again; rows without a container path are dropped. */
  function ReprintVolumes(rows: seq<string>): seq<string>
  {
    if rows == [] then []
    else
      var before := ReprintVolumes(rows[..|rows| - 1]);
      var row := rows[|rows| - 1];
      var host := Before(row, ':');
      var container := if |host| < |row| then NormalizeVolumePath(FirstLine(row[|host| + 1..])) else "";
      if container == "" then before else before + [NormalizeVolumePath(host) + ":" + container]
  }

  // ----- applying: labels -----

  /** `writeDefaultsToLabels` of the package's own settings. */
  function DefaultLabels(s: Service): map<string, Label>
  {
    (match s.environment
     case None => map[]
     case Some(Rows(rows)) => map["dappnode.dnp.default.environment" := RowsLabel(rows)]
     case Some(Object(envs)) => map["dappnode.dnp.default.environment" := EnvsLabel(envs)])
    + (if s.ports.Some? then map["dappnode.dnp.default.ports" := RowsLabel(s.ports.value)] else map[])
    + (if s.volumes.Some? then map["dappnode.dnp.default.volumes" := RowsLabel(s.volumes.value)] else map[])
  }

  // ----- applying: the compose -----

  /** What the settings say about one service. */
  datatype ServiceChoices = ServiceChoices(envs: StringMap, ports: StringMap, networks: NetworksObject)

  function Lookup(m: Option<map<string, StringMap>>, name: string): StringMap
  {
    if m.Some? && name in m.value then m.value[name] else map[]
  }

  function ChoicesFor(s: UserSettings, name: string): ServiceChoices
  {
    ServiceChoices(Lookup(s.environment, name), Lookup(s.portMappings, name),
      if s.networks.Some? && name in s.networks.value.serviceNetworks
      then ParseNetworks(s.networks.value.serviceNetworks[name]) else map[])
  }

  function ApplyService(service: Service, u: ServiceChoices): Service
  {
    Service(Some(EnvField.Object(NextEnvs(EnvsOf(service), u.envs))),
            Some(NextPorts(OrElse(service.ports, []), u.ports)),
            Some(ReprintVolumes(OrElse(service.volumes, []))),
            Some(NetworkObject(NextNetworks(NetworksOf(service), u.networks))),
            Some(OrElse(service.labels, map[]) + DefaultLabels(service)),
            service.rest)
  }

  /** The mountpoint chosen for a volume; "" when there is none. */
  function Mountpoint(s: UserSettings, name: string): string
  {
    var named := OrElse(s.namedVolumeMountpoints, map[]);
    if name in named && named[name] != "" then named[name] else OrElse(s.allNamedVolumeMountpoint, "")
  }

  function DeviceVolume(device: string): Volume
  {
    Volume(Some(map["type" := "none", "device" := device, "o" := "bind"]), map[])
  }

  function ApplyVolume(volume: Volume, name: string, mountpoint: string, dnpName: string): Result<Volume, string>
  {
    if mountpoint == "" then Ok(volume)
    else
      match DevicePath.Get(mountpoint, dnpName, name)
      case Err(e) => Err(e)
      case Ok(device) => Ok(DeviceVolume(device))
  }

  predicate MountpointsAbsolute(c: Compose, s: UserSettings)
  {
    forall v :: v in OrElse(c.volumes, map[]) ==> Mountpoint(s, v) == "" || DevicePath.IsAbsolute(Mountpoint(s, v))
  }

  function NextVolumes(c: Compose, s: UserSettings, dnpName: string): map<string, Volume>
    requires MountpointsAbsolute(c, s)
  {
    map v | v in OrElse(c.volumes, map[]) ::
      ApplyVolume(OrElse(c.volumes, map[])[v], v, Mountpoint(s, v), dnpName).value
  }

  function RootNetworks(c: Compose, s: UserSettings): map<string, Network>
  {
    OrElse(c.networks, map[]) + (if s.networks.Some? then s.networks.value.rootNetworks else map[])
  }

  function Applied(c: Compose, s: UserSettings, dnpName: string): Compose
    requires MountpointsAbsolute(c, s)
  {
    CleanCompose(Compose(c.version,
      map n | n in c.services :: ApplyService(c.services[n], ChoicesFor(s, n)),
      Some(NextVolumes(c, s, dnpName)),
      Some(RootNetworks(c, s))))
  }

  /** `applyUserSettings`; an error when a mountpoint is not absolute. */
  function Apply(c: Compose, s: UserSettings, dnpName: string): Result<Compose, string>
  {
    if MountpointsAbsolute(c, s) then Ok(Applied(c, s, dnpName)) else Err("mountpoint must be an absolute path")
  }

  // ----- reading -----

  /** The host port of each mapping, by id; a later mapping overrides an earlier one. */
  function HostsById(ms: seq<Ports.PortMapping>): StringMap
  {
    if ms == [] then map[]
    else
      var m := ms[|ms| - 1];
      HostsById(ms[..|ms| - 1])[Ports.Id(m) :=
        if Ports.HostShown(m).Some? then Numbers.Print(m.host.value) else ""]
  }

  predicate StartsSome(rows: seq<string>, name: string)
  {
    exists i :: 0 <= i < |rows| && name <= rows[i]
  }

  /** Some service has a volume row that starts with the name. */
  predicate VolumeUsed(c: Compose, name: string)
  {
    exists n :: n in c.services && StartsSome(OrElse(c.services[n].volumes, []), name)
  }

  /** The device of a volume's driver options; "" when there is none. */
  function Device(v: Volume): string
  {
    if v.Volume? && v.driverOpts.Some? && "device" in v.driverOpts.value then v.driverOpts.value["device"] else ""
  }

  /** The setting of one volume: none when it is unused or its device is not one of ours. */
  function MountpointSetting(c: Compose, name: string, v: Volume): Option<string>
  {
    if !VolumeUsed(c, name) then None
    else if Device(v) == "" then Some("")
    else
      match DevicePath.ParseMountpoint(Device(v))
      case None => None
      case Some(m) => if m == "" then None else Some(m)
  }

  function Mountpoints(c: Compose): StringMap
  {
    var volumes := OrElse(c.volumes, map[]);
    map v | v in volumes && MountpointSetting(c, v, volumes[v]).Some? ::
      MountpointSetting(c, v, volumes[v]).value
  }

  /** Settings whose parts are all empty are left out. */
  function OmitEmpty(m: map<string, StringMap>): Option<map<string, StringMap>>
  {
    if forall n :: n in m ==> m[n] == map[] then None else Some(m)
  }

  function NetworkSettingsOf(c: Compose): Option<NetworkSettings>
  {
    if c.networks.None? || (c.services == map[] && c.networks == Some(map[])) then None
    else Some(NetworkSettings(map n | n in c.services :: NetworkObject(NetworksOf(c.services[n])), c.networks.value))
  }

  /** `parseUserSettings`. */
  function Parse(c: Compose): UserSettings
  {
    UserSettings(
      OmitEmpty(map n | n in c.services :: EnvsOf(c.services[n])),
      OmitEmpty(map n | n in c.services :: HostsById(Ports.ParseAll(OrElse(c.services[n].ports, [])))),
      if Mountpoints(c) == map[] then None else Some(Mountpoints(c)),
      None,
      NetworkSettingsOf(c))
  }

  // ----- what is stable, part by part -----

  /** The environment is always stable: an empty choice keeps the package's value. */
  lemma EnvsStable(envs: Envs, user: StringMap)
    ensures NextEnvs(envs, NextEnvs(envs, user)) == NextEnvs(envs, user)
  {
  }

  /** Ports that can be applied again: a host is only shown before a usable container port, and
      rows for one container port and protocol show one host. */
  predicate PortsStable(rows: seq<string>, user: StringMap)
  {
    && (forall i :: 0 <= i < |rows| && Ports.HostShown(NextPort(Ports.Parse(rows[i]), user)).Some?
          ==> Numbers.Truthy(Ports.Parse(rows[i]).container))
    && (forall i, j :: 0 <= i < j < |rows| && Ports.Id(Ports.Parse(rows[i])) == Ports.Id(Ports.Parse(rows[j]))
          ==> (Ports.HostShown(NextPort(Ports.Parse(rows[i]), user))
               == Ports.HostShown(NextPort(Ports.Parse(rows[j]), user))))
  }

  predicate NoRepeats(xs: seq<string>)
  {
    forall i, j :: 0 <= i < j < |xs| ==> xs[i] != xs[j]
  }

  /** Service networks that can be applied again while the file declares networks: a package
      network either gets aliases from the user or lists each alias once. */
  predicate NetworksStable(base: NetworksObject, user: NetworksObject)
  {
    forall n :: n in base && !(n in user && user[n].aliases.Some?) ==> NoRepeats(Aliases(base[n]))
  }

  /** Service networks that survive without the user's settings, which are not read back from a
      file that declares no networks: the user adds nothing. */
  predicate NetworksPlain(base: NetworksObject, user: NetworksObject)
  {
    && user.Keys <= base.Keys
    && forall n :: n in user && user[n].aliases.Some? ==>
         NoRepeats(Aliases(base[n])) && forall a :: a in user[n].aliases.value ==> a in Aliases(base[n])
  }

  /** Whether the volume rows that are written start with the name. */
  predicate VolumeWritten(c: Compose, name: string)
  {
    exists n :: n in c.services && StartsSome(ReprintVolumes(OrElse(c.services[n].volumes, [])), name)
  }

  /** A volume that can be applied again. With a mountpoint: its device path is read back, if it
      is read at all, as a readable one. Without: the package's own device, if it is read as a
      mountpoint, is the one this package would get there. */
  predicate VolumeStable(c: Compose, s: UserSettings, dnpName: string, name: string)
    requires name in OrElse(c.volumes, map[])
    requires MountpointsAbsolute(c, s)
  {
    var volume, mountpoint := OrElse(c.volumes, map[])[name], Mountpoint(s, name);
    if mountpoint != "" then
      var device := DevicePath.Get(mountpoint, dnpName, name).value;
      if VolumeWritten(c, name) && DevicePath.ParseMountpoint(device).Some?
      then DevicePath.Readable(mountpoint, dnpName, name)
      else volume == DeviceVolume(device)
    else if !VolumeWritten(c, name) || Device(volume) == "" then true
    else
      match DevicePath.ParseMountpoint(Device(volume))
      case None => true
      case Some(m) => DevicePath.IsAbsolute(m) && volume == DeviceVolume(DevicePath.Get(m, dnpName, name).value)
  }

  /** When applying the settings read from a written compose changes nothing. */
  predicate Stable(c: Compose, s: UserSettings, dnpName: string)
    requires MountpointsAbsolute(c, s)
  {
    && (forall n :: n in c.services ==>
          && PortsStable(OrElse(c.services[n].ports, []), ChoicesFor(s, n).ports)
          && (if RootNetworks(c, s) == map[] then NetworksPlain(NetworksOf(c.services[n]), ChoicesFor(s, n).networks)
              else NetworksStable(NetworksOf(c.services[n]), ChoicesFor(s, n).networks)))
    && (forall v :: v in OrElse(c.volumes, map[]) ==> VolumeStable(c, s, dnpName, v))
  }

  // ----- ports -----

  lemma HostsByIdStep(ms: seq<Ports.PortMapping>)
    requires ms != []
    ensures HostsById(ms) == HostsById(ms[..|ms| - 1])[Ports.Id(ms[|ms| - 1]) := HostText(ms[|ms| - 1])]
  {
  }

  lemma {:induction false} HostListed(ms: seq<Ports.PortMapping>, j: nat)
    requires j < |ms|
    ensures Ports.Id(ms[j]) in HostsById(ms)
  {
    hide Ports.Id;
    if j < |ms| - 1 { HostListed(ms[..|ms| - 1], j); }
  }

  function HostText(m: Ports.PortMapping): string
  {
    if Ports.HostShown(m).Some? then Numbers.Print(m.host.value) else ""
  }

  /** Reading a printed host gives the host that was shown. */
  lemma HostTextRead(m: Ports.PortMapping)
    ensures HostFrom(HostText(m)) == Ports.HostShown(m)
  {
    hide Numbers.ParseInt;
    hide Numbers.Print;
    if Ports.HostShown(m).Some? {
      Numbers.ParsePrint(m.host.value);
    } else {
      EmptyIsNoNumber();
    }
  }

  lemma EmptyIsNoNumber()
    ensures Numbers.ParseInt("") == Numbers.NaN
  {
  }

  /** The hosts read back from the written rows. */
  function HostsWritten(rows: seq<string>, user: StringMap): StringMap
  {
    HostsById(Ports.ParseAll(NextPorts(rows, user)))
  }

  /** What reading a written row gives. */
  lemma WrittenPort(rows: seq<string>, user: StringMap, i: nat)
    requires i < |rows|
    ensures Ports.ParseAll(NextPorts(rows, user))[i] == Ports.Reread(NextPort(Ports.Parse(rows[i]), user))
  {
    hide Ports.Reread;
    hide Ports.Parse;
    hide Ports.Print;
    hide NextPort;
    Ports.ParseAfterPrint(NextPort(Ports.Parse(rows[i]), user));
  }

  /** The row whose host is read back under an id. */
  lemma HostSource(rows: seq<string>, user: StringMap, id: string) returns (j: nat)
    requires id in HostsWritten(rows, user)
    ensures j < |rows|
    ensures var m := Ports.Reread(NextPort(Ports.Parse(rows[j]), user));
      Ports.Id(m) == id && HostFrom(HostsWritten(rows, user)[id]) == Ports.HostShown(m)
  {
    assert |Ports.ParseAll(NextPorts(rows, user))| == |rows|;
    hide *;
    var ms := Ports.ParseAll(NextPorts(rows, user));
    assert HostsWritten(rows, user) == HostsById(ms) by { HostsWrittenIs(rows, user); }
    LastWithIs(ms, id);
    j := LastWith(ms, id).value;
    WrittenPort(rows, user, j);
    HostTextRead(ms[j]);
  }

  lemma HostsWrittenIs(rows: seq<string>, user: StringMap)
    ensures HostsWritten(rows, user) == HostsById(Ports.ParseAll(NextPorts(rows, user)))
  {
  }

  /** The container port and protocol of a mapping do not depend on the choice. */
  lemma SameId(m: Ports.PortMapping, user: StringMap)
    ensures Ports.Id(NextPort(m, user)) == Ports.Id(m)
    ensures NextPort(m, user).container == m.container && NextPort(m, user).protocol == m.protocol
  {
  }

  /** A row that shows a host only before a usable container is read back as it is. */
  lemma RereadShown(m: Ports.PortMapping)
    ensures Ports.HostShown(m).None? || Numbers.Truthy(m.container) ==>
      (Ports.HostShown(Ports.Reread(m)) == Ports.HostShown(m) && Ports.Reread(m).container == m.container
       && Ports.Id(Ports.Reread(m)) == Ports.Id(m))
    ensures Ports.HostShown(m).Some? && !Numbers.Truthy(m.container) ==>
      Ports.Reread(m).host.None? && Numbers.Truthy(Ports.Reread(m).container)
    ensures Ports.HostShown(m).None? ==> Ports.Reread(m).container == m.container
  {
    hide Numbers.Print;
  }

  lemma ParsedHost(row: string)
    ensures !Numbers.Truthy(Ports.Parse(row).container) ==> Ports.Parse(row).host.None?
  {
    hide Strings.Split;
    hide Numbers.ParseInt;
  }

  lemma PortsStableReapplied(rows: seq<string>, user: StringMap, i: nat)
    requires PortsStable(rows, user) && i < |rows|
    ensures Ports.Print(NextPort(Ports.Parse(rows[i]), HostsWritten(rows, user)))
      == Ports.Print(NextPort(Ports.Parse(rows[i]), user))
  {
    hide Ports.Parse;
    hide Ports.Print;
    hide Ports.Id;
    hide Ports.Reread;
    hide Ports.HostShown;
    hide HostFrom;
    hide HostsWritten;
    var m, back := Ports.Parse(rows[i]), HostsWritten(rows, user);
    var id := Ports.Id(m);
    SameId(m, user);
    RereadShown(NextPort(m, user));
    IdWritten(rows, user, i);
    var j := HostSource(rows, user, id);
    var n := Ports.Parse(rows[j]);
    SameId(n, user);
    RereadShown(NextPort(n, user));
    assert Ports.HostShown(NextPort(n, user)) == Ports.HostShown(NextPort(m, user));
    HostFromShown(back[id]);
    SameId(m, back);
    ShownAgain(m, back);
    Ports.PrintShowsHost(NextPort(m, back), NextPort(m, user));
  }

  lemma IdWritten(rows: seq<string>, user: StringMap, i: nat)
    requires i < |rows|
    ensures Ports.Id(Ports.Reread(NextPort(Ports.Parse(rows[i]), user))) in HostsWritten(rows, user)
  {
    hide *;
    WrittenPort(rows, user, i);
    HostsWrittenIs(rows, user);
    WrittenLength(rows, user);
    HostListed(Ports.ParseAll(NextPorts(rows, user)), i);
  }

  lemma WrittenLength(rows: seq<string>, user: StringMap)
    ensures |Ports.ParseAll(NextPorts(rows, user))| == |rows|
  {
  }

  lemma HostFromShown(text: string)
    ensures HostFrom(text).Some? ==> Numbers.Truthy(HostFrom(text).value)
  {
    hide Numbers.ParseInt;
  }

  /** A listed mapping shows exactly the host of its setting. */
  lemma ShownAgain(m: Ports.PortMapping, user: StringMap)
    requires Ports.Id(m) in user
    ensures Ports.HostShown(NextPort(m, user)) == HostFrom(user[Ports.Id(m)])
  {
    hide Ports.Id;
    hide Numbers.ParseInt;
  }

  /** A host before an unusable container port is lost on the second application. */
  lemma HostNeedsContainer(rows: seq<string>, user: StringMap, i: nat)
    requires i < |rows|
    requires Ports.Print(NextPort(Ports.Parse(rows[i]), HostsWritten(rows, user)))
      == Ports.Print(NextPort(Ports.Parse(rows[i]), user))
    requires Ports.HostShown(NextPort(Ports.Parse(rows[i]), user)).Some?
    ensures Numbers.Truthy(Ports.Parse(rows[i]).container)
  {
    hide *;
    var m, back := Ports.Parse(rows[i]), HostsWritten(rows, user);
    if !Numbers.Truthy(m.container) {
      SameId(m, user);
      SameId(m, back);
      Ports.ParseAfterPrint(NextPort(m, user));
      Ports.ParseAfterPrint(NextPort(m, back));
      RereadShown(NextPort(m, user));
      RereadShown(NextPort(m, back));
      assert Ports.HostShown(NextPort(m, back)).Some?;
      ParsedHost(rows[i]);
      ShownNeedsSetting(m, back);
      var j := HostSource(rows, user, Ports.Id(m));
      var n := Ports.Parse(rows[j]);
      SameId(n, user);
      RereadShown(NextPort(n, user));
      Ports.IdInjective(Ports.Reread(NextPort(n, user)), m);
      NoHostShown(Ports.Reread(NextPort(n, user)));
    }
  }

  lemma ShownNeedsSetting(m: Ports.PortMapping, user: StringMap)
    requires m.host.None? && Ports.HostShown(NextPort(m, user)).Some?
    ensures Ports.Id(m) in user && HostFrom(user[Ports.Id(m)]).Some?
  {
    hide Ports.Id;
    hide HostFrom;
  }

  lemma NoHostShown(m: Ports.PortMapping)
    ensures m.host.None? ==> Ports.HostShown(m).None?
  {
  }

  /** Two rows for one port read back one host. */
  lemma OneHostPerId(rows: seq<string>, user: StringMap, i: nat)
    requires i < |rows|
    requires Ports.HostShown(NextPort(Ports.Parse(rows[i]), user)).Some? ==>
      Numbers.Truthy(Ports.Parse(rows[i]).container)
    requires Ports.Print(NextPort(Ports.Parse(rows[i]), HostsWritten(rows, user)))
      == Ports.Print(NextPort(Ports.Parse(rows[i]), user))
    ensures var id := Ports.Id(Ports.Parse(rows[i]));
      id in HostsWritten(rows, user)
      && (Numbers.Truthy(Ports.Parse(rows[i]).container) ==>
            Ports.HostShown(NextPort(Ports.Parse(rows[i]), user)) == HostFrom(HostsWritten(rows, user)[id]))
  {
    hide *;
    var m, back := Ports.Parse(rows[i]), HostsWritten(rows, user);
    SameId(m, user);
    SameId(m, back);
    RereadShown(NextPort(m, user));
    IdWritten(rows, user, i);
    ShownAgain(m, back);
    if Numbers.Truthy(m.container) {
      Ports.ParseAfterPrint(NextPort(m, user));
      Ports.ParseAfterPrint(NextPort(m, back));
      RereadShown(NextPort(m, back));
    }
  }

  lemma PortsNeedStable(rows: seq<string>, user: StringMap)
    requires forall i :: 0 <= i < |rows| ==>
      Ports.Print(NextPort(Ports.Parse(rows[i]), HostsWritten(rows, user)))
        == Ports.Print(NextPort(Ports.Parse(rows[i]), user))
    ensures PortsStable(rows, user)
  {
    hide Ports.Parse;
    hide Ports.Print;
    hide Ports.Id;
    hide Ports.Reread;
    hide Ports.HostShown;
    hide HostFrom;
    hide HostsWritten;
    hide NextPort;
    hide Numbers.Truthy;
    forall i | 0 <= i < |rows| && Ports.HostShown(NextPort(Ports.Parse(rows[i]), user)).Some?
      ensures Numbers.Truthy(Ports.Parse(rows[i]).container)
    {
      HostNeedsContainer(rows, user, i);
    }
    forall i, j | 0 <= i < j < |rows| && Ports.Id(Ports.Parse(rows[i])) == Ports.Id(Ports.Parse(rows[j]))
      ensures Ports.HostShown(NextPort(Ports.Parse(rows[i]), user))
        == Ports.HostShown(NextPort(Ports.Parse(rows[j]), user))
    {
      OneHostPerId(rows, user, i);
      OneHostPerId(rows, user, j);
      Ports.IdInjective(Ports.Parse(rows[i]), Ports.Parse(rows[j]));
    }
  }

  lemma PortsFixpoint(rows: seq<string>, user: StringMap)
    ensures NextPorts(rows, HostsWritten(rows, user)) == NextPorts(rows, user) <==> PortsStable(rows, user)
  {
    hide Ports.Parse;
    hide Ports.Print;
    hide HostsWritten;
    hide NextPort;
    hide PortsStable;
    var again, once := NextPorts(rows, HostsWritten(rows, user)), NextPorts(rows, user);
    if PortsStable(rows, user) {
      forall i | 0 <= i < |rows| ensures again[i] == once[i] { PortsStableReapplied(rows, user, i); }
    } else if again == once {
      forall i | 0 <= i < |rows|
        ensures Ports.Print(NextPort(Ports.Parse(rows[i]), HostsWritten(rows, user)))
          == Ports.Print(NextPort(Ports.Parse(rows[i]), user))
      {
        assert again[i] == once[i];
      }
      PortsNeedStable(rows, user);
    }
  }

  // ----- networks -----

  lemma {:induction false} AppendNewConcat(acc: seq<string>, xs: seq<string>, ys: seq<string>)
    ensures AppendNew(acc, xs + ys) == AppendNew(AppendNew(acc, xs), ys)
    decreases xs
  {
    if xs == [] {
      assert xs + ys == ys;
    } else {
      assert (xs + ys)[1..] == xs[1..] + ys;
      AppendNewConcat(if xs[0] in acc then acc else acc + [xs[0]], xs[1..], ys);
    }
  }

  lemma NoRepeatsAppend(acc: seq<string>, x: string)
    requires NoRepeats(acc) && x !in acc
    ensures NoRepeats(acc + [x])
  {
  }

  lemma AppendNewStep(acc: seq<string>, xs: seq<string>)
    requires xs != []
    ensures AppendNew(acc, xs) == AppendNew(if xs[0] in acc then acc else acc + [xs[0]], xs[1..])
    ensures forall x :: x in xs <==> x == xs[0] || x in xs[1..]
  {
    assert xs == [xs[0]] + xs[1..];
  }

  lemma {:induction false} AppendNewShape(acc: seq<string>, xs: seq<string>)
    requires NoRepeats(acc)
    ensures NoRepeats(AppendNew(acc, xs)) && acc <= AppendNew(acc, xs)
    ensures forall x :: x in AppendNew(acc, xs) <==> x in acc || x in xs
    decreases xs
  {
    if xs != [] {
      hide *;
      AppendNewStep(acc, xs);
      var next := if xs[0] in acc then acc else acc + [xs[0]];
      if xs[0] !in acc { NoRepeatsAppend(acc, xs[0]); }
      assert acc <= next;
      AppendNewShape(next, xs[1..]);
    }
  }

  lemma {:induction false} AppendNewKnown(acc: seq<string>, xs: seq<string>)
    requires forall x :: x in xs ==> x in acc
    ensures AppendNew(acc, xs) == acc
    decreases xs
  {
    if xs != [] {
      assert xs == [xs[0]] + xs[1..];
      AppendNewKnown(acc, xs[1..]);
    }
  }

  lemma {:induction false} AppendNewFresh(acc: seq<string>, xs: seq<string>)
    requires NoRepeats(acc + xs)
    ensures AppendNew(acc, xs) == acc + xs
    decreases xs
  {
    if xs == [] {
      assert acc + xs == acc;
    } else {
      forall i | 0 <= i < |acc| ensures acc[i] != xs[0] {
        assert (acc + xs)[i] == acc[i] && (acc + xs)[|acc|] == xs[0];
      }
      assert (acc + [xs[0]]) + xs[1..] == acc + xs;
      AppendNewFresh(acc + [xs[0]], xs[1..]);
    }
  }

  /** Uniting the package's aliases with the united list gives the united list. */
  lemma UniqueAgain(base: seq<string>, user: seq<string>)
    ensures Unique(base + Unique(base + user)) == Unique(base + user)
  {
    hide AppendNew;
    var a := Unique(base);
    AppendNewShape([], base);
    AppendNewConcat([], base, user);
    AppendNewShape(a, user);
    var d := AppendNew(a, user);
    var added := d[|a|..];
    assert d == a + added;
    AppendNewConcat([], base, d);
    AppendNewConcat(a, a, added);
    AppendNewKnown(a, a);
    AppendNewFresh(a, added);
  }

  lemma UniqueMeaning(xs: seq<string>)
    ensures Unique(xs) == xs <==> NoRepeats(xs)
    ensures Unique(xs + xs) == Unique(xs)
    ensures NoRepeats(Unique(xs)) && forall x :: x in Unique(xs) <==> x in xs
  {
    AppendNewShape([], xs);
    if NoRepeats(xs) {
      assert [] + xs == xs;
      AppendNewFresh([], xs);
    }
    AppendNewConcat([], xs, xs);
    AppendNewKnown(Unique(xs), xs);
  }

  /** The user's aliases add nothing exactly when the package lists each alias once and has them all. */
  lemma UniqueAddsNothing(base: seq<string>, user: seq<string>)
    ensures Unique(base + user) == base <==> NoRepeats(base) && forall a :: a in user ==> a in base
  {
    hide AppendNew;
    UniqueMeaning(base + user);
    UniqueMeaning(base);
    AppendNewConcat([], base, user);
    if NoRepeats(base) && forall a :: a in user ==> a in base { AppendNewKnown(base, user); }
    if Unique(base + user) == base {
      forall a | a in user ensures a in base { assert a in base + user; }
    }
  }

  /** One network after the merge, `n` in the package or in the settings. */
  lemma NextNetworkIs(base: NetworksObject, user: NetworksObject, n: string)
    requires n in base || n in user
    ensures n in NextNetworks(base, user)
    ensures NextNetworks(base, user)[n] == NormalizeNetwork(
      if n !in base then user[n] else if n in user then MergeNetwork(base[n], user[n]) else base[n])
  {
  }

  /** One network applied again. */
  lemma NetworkAgain(base: ServiceNetwork, user: Option<ServiceNetwork>)
    ensures var once := NormalizeNetwork(if user.Some? then MergeNetwork(base, user.value) else base);
      NormalizeNetwork(MergeNetwork(base, once)) == once
      <==> (user.Some? && user.value.aliases.Some?) || NoRepeats(Aliases(base))
  {
    hide Unique;
    var b := Aliases(base);
    UniqueMeaning(b);
    if user.Some? && user.value.aliases.Some? {
      UniqueAgain(b, user.value.aliases.value);
      var d := Unique(b + user.value.aliases.value);
      if d == [] {
        UniqueEmpty(b + user.value.aliases.value);
        assert |b + user.value.aliases.value| == 0;
      }
    } else if b == [] {
      assert NoRepeats(b);
    }
  }

  lemma UniqueEmpty(xs: seq<string>)
    ensures Unique(xs) == [] <==> xs == []
  {
    UniqueMeaning(xs);
    if xs != [] { assert xs[0] in Unique(xs); }
  }

  lemma NetworksFixpoint(base: NetworksObject, user: NetworksObject)
    ensures NextNetworks(base, NextNetworks(base, user)) == NextNetworks(base, user) <==> NetworksStable(base, user)
  {
    hide NextNetworks;
    hide NormalizeNetwork;
    hide MergeNetwork;
    hide NoRepeats;
    hide Aliases;
    var once := NextNetworks(base, user);
    NextNetworksKeys(base, user);
    NextNetworksKeys(base, once);
    var again := NextNetworks(base, once);
    assert again.Keys == once.Keys;
    forall n | n in once
      ensures again[n] == once[n] <==>
        (n in base && !(n in user && user[n].aliases.Some?) ==> NoRepeats(Aliases(base[n])))
    {
      NextNetworkIs(base, user, n);
      NextNetworkIs(base, once, n);
      if n in base { NetworkAgain(base[n], if n in user then Some(user[n]) else None); }
      else { NormalizeTwice(user[n]); }
    }
    if NetworksStable(base, user) { assert again == once; }
  }

  lemma NextNetworksKeys(base: NetworksObject, user: NetworksObject)
    ensures NextNetworks(base, user).Keys == base.Keys + user.Keys
  {
  }

  lemma NormalizeTwice(n: ServiceNetwork)
    ensures NormalizeNetwork(NormalizeNetwork(n)) == NormalizeNetwork(n)
  {
  }

  /** One network without the user's settings. */
  lemma NetworkLost(base: ServiceNetwork, user: ServiceNetwork)
    ensures NormalizeNetwork(base) == NormalizeNetwork(MergeNetwork(base, user))
      <==> (user.aliases.Some? ==>
              NoRepeats(Aliases(base)) && forall a :: a in user.aliases.value ==> a in Aliases(base))
  {
    hide Unique;
    if user.aliases.Some? {
      UniqueAddsNothing(Aliases(base), user.aliases.value);
    }
  }

  lemma NetworksLost(base: NetworksObject, user: NetworksObject)
    ensures NextNetworks(base, map[]) == NextNetworks(base, user) <==> NetworksPlain(base, user)
  {
    hide NextNetworks;
    hide NormalizeNetwork;
    hide MergeNetwork;
    hide NoRepeats;
    hide Aliases;
    var none, once := NextNetworks(base, map[]), NextNetworks(base, user);
    NextNetworksKeys(base, map[]);
    NextNetworksKeys(base, user);
    forall n | n in base
      ensures none[n] == once[n] <==> (n in user && user[n].aliases.Some? ==>
        NoRepeats(Aliases(base[n])) && forall a :: a in user[n].aliases.value ==> a in Aliases(base[n]))
    {
      NextNetworkIs(base, map[], n);
      NextNetworkIs(base, user, n);
      if n in user { NetworkLost(base[n], user[n]); }
    }
    if NetworksPlain(base, user) {
      assert base.Keys + user.Keys == base.Keys;
      assert none == once;
    }
  }

  // ----- reading back what was applied -----

  lemma AppliedService(c: Compose, s: UserSettings, dnpName: string, n: string)
    requires MountpointsAbsolute(c, s) && n in c.services
    ensures var r := Applied(c, s, dnpName);
      r.services.Keys == c.services.Keys
      && r.services[n] == CleanService(ApplyService(c.services[n], ChoicesFor(s, n)))
  {
    hide ApplyService;
    hide CleanService;
    hide ChoicesFor;
    hide NextVolumes;
    hide RootNetworks;
  }

  lemma AppliedSections(c: Compose, s: UserSettings, dnpName: string)
    requires MountpointsAbsolute(c, s)
    ensures var r := Applied(c, s, dnpName);
      && r.version == c.version && r.services.Keys == c.services.Keys
      && r.volumes == CleanMap(Some(NextVolumes(c, s, dnpName)))
      && r.networks == CleanMap(Some(RootNetworks(c, s)))
  {
    hide ApplyService;
    hide CleanService;
    hide ChoicesFor;
    hide NextVolumes;
    hide RootNetworks;
  }

  /** Cleaning a service hides nothing that is read back. */
  lemma ReadCleaned(service: Service, u: ServiceChoices)
    ensures var done := CleanService(ApplyService(service, u));
      && EnvsOf(done) == NextEnvs(EnvsOf(service), u.envs)
      && OrElse(done.ports, []) == NextPorts(OrElse(service.ports, []), u.ports)
      && OrElse(done.volumes, []) == ReprintVolumes(OrElse(service.volumes, []))
      && NetworksOf(done) == NextNetworks(NetworksOf(service), u.networks)
  {
    hide NextEnvs;
    hide NextPorts;
    hide ReprintVolumes;
    hide NextNetworks;
    hide DefaultLabels;
    hide CleanRest;
  }

  /** Two applications to one service agree exactly when the parts agree. */
  lemma ServicesAgree(service: Service, u: ServiceChoices, w: ServiceChoices)
    ensures CleanService(ApplyService(service, u)) == CleanService(ApplyService(service, w))
      <==>
      (&& NextEnvs(EnvsOf(service), u.envs) == NextEnvs(EnvsOf(service), w.envs)
       && NextPorts(OrElse(service.ports, []), u.ports) == NextPorts(OrElse(service.ports, []), w.ports)
       && NextNetworks(NetworksOf(service), u.networks) == NextNetworks(NetworksOf(service), w.networks))
  {
    hide CleanService;
    ReadCleaned(service, u);
    ReadCleaned(service, w);
    hide NextEnvs;
    hide NextPorts;
    hide ReprintVolumes;
    hide NextNetworks;
    hide DefaultLabels;
  }

  /** The choices read back from a written service. */
  lemma ChoicesReadBack(c: Compose, s: UserSettings, dnpName: string, n: string)
    requires MountpointsAbsolute(c, s) && n in c.services
    ensures var service, u := c.services[n], ChoicesFor(s, n);
      ChoicesFor(Parse(Applied(c, s, dnpName)), n) == ServiceChoices(
        NextEnvs(EnvsOf(service), u.envs),
        HostsWritten(OrElse(service.ports, []), u.ports),
        if RootNetworks(c, s) == map[] then map[] else NextNetworks(NetworksOf(service), u.networks))
  {
    hide *;
    var r := Applied(c, s, dnpName);
    AppliedService(c, s, dnpName, n);
    AppliedSections(c, s, dnpName);
    ReadCleaned(c.services[n], ChoicesFor(s, n));
    ParsedChoices(r, n);
    CleanMapNone(RootNetworks(c, s));
    HostsWrittenIs(OrElse(c.services[n].ports, []), ChoicesFor(s, n).ports);
  }

  lemma CleanMapNone<V>(m: map<string, V>)
    ensures CleanMap(Some(m)) == if m == map[] then None else Some(m)
  {
  }

  /** What `parseUserSettings` says about one service. */
  lemma ParsedChoices(c: Compose, n: string)
    requires n in c.services
    ensures ChoicesFor(Parse(c), n) == ServiceChoices(EnvsOf(c.services[n]),
      HostsById(Ports.ParseAll(OrElse(c.services[n].ports, []))),
      if c.networks.None? then map[] else NetworksOf(c.services[n]))
  {
    hide EnvsOf;
    hide HostsById;
    hide NetworksOf;
    hide Mountpoints;
    hide OmitEmpty;
    hide Lookup;
    OmitEmptyLookup(map k | k in c.services :: EnvsOf(c.services[k]), n);
    OmitEmptyLookup(map k | k in c.services :: HostsById(Ports.ParseAll(OrElse(c.services[k].ports, []))), n);
    ParsedNetworks(c, n);
  }

  lemma OmitEmptyLookup(m: map<string, StringMap>, n: string)
    requires n in m
    ensures Lookup(OmitEmpty(m), n) == m[n]
  {
  }

  lemma ParsedNetworks(c: Compose, n: string)
    requires n in c.services
    ensures NetworkSettingsOf(c).None? <==> c.networks.None?
    ensures c.networks.Some? ==>
      NetworkSettingsOf(c).value.serviceNetworks.Keys == c.services.Keys
      && NetworkSettingsOf(c).value.serviceNetworks[n] == NetworkObject(NetworksOf(c.services[n]))
  {
    hide NetworksOf;
    assert c.services != map[];
  }

  lemma VolumeUsedWritten(c: Compose, s: UserSettings, dnpName: string, v: string)
    requires MountpointsAbsolute(c, s)
    ensures VolumeUsed(Applied(c, s, dnpName), v) <==> VolumeWritten(c, v)
  {
    hide Applied;
    hide StartsSome;
    hide ReprintVolumes;
    hide CleanService;
    hide ApplyService;
    hide ChoicesFor;
    var r := Applied(c, s, dnpName);
    AppliedSections(c, s, dnpName);
    forall n | n in c.services
      ensures OrElse(r.services[n].volumes, []) == ReprintVolumes(OrElse(c.services[n].volumes, []))
    {
      AppliedService(c, s, dnpName, n);
      ReadCleaned(c.services[n], ChoicesFor(s, n));
    }
  }

  /** The mountpoint read back for a volume. */
  lemma MountpointReadBack(c: Compose, s: UserSettings, dnpName: string, v: string)
    requires MountpointsAbsolute(c, s) && v in OrElse(c.volumes, map[])
    ensures var r := Applied(c, s, dnpName);
      Mountpoint(Parse(r), v) == OrElse(MountpointSetting(r, v, NextVolumes(c, s, dnpName)[v]), "")
  {
    hide *;
    var r := Applied(c, s, dnpName);
    AppliedSections(c, s, dnpName);
    CleanMapNone(NextVolumes(c, s, dnpName));
    NextVolumesKeys(c, s, dnpName);
    OrElseSome(r.volumes, NextVolumes(c, s, dnpName));
    ParsedMountpoint(r, v);
  }

  lemma OrElseSome<V>(o: Option<map<string, V>>, m: map<string, V>)
    requires o == if m == map[] then None else Some(m)
    ensures OrElse(o, map[]) == m
  {
  }

  lemma NextVolumesKeys(c: Compose, s: UserSettings, dnpName: string)
    requires MountpointsAbsolute(c, s)
    ensures NextVolumes(c, s, dnpName).Keys == OrElse(c.volumes, map[]).Keys
  {
  }

  lemma ParsedMountpoint(c: Compose, v: string)
    requires v in OrElse(c.volumes, map[])
    ensures Mountpoint(Parse(c), v) == OrElse(MountpointSetting(c, v, OrElse(c.volumes, map[])[v]), "")
  {
    hide MountpointSetting;
    hide OmitEmpty;
    hide NetworkSettingsOf;
  }

  /** One volume applied again. */
  lemma VolumeFixpoint(c: Compose, s: UserSettings, dnpName: string, v: string)
    requires MountpointsAbsolute(c, s) && v in OrElse(c.volumes, map[])
    ensures var r := Applied(c, s, dnpName);
      ApplyVolume(OrElse(c.volumes, map[])[v], v, Mountpoint(Parse(r), v), dnpName)
        == Ok(NextVolumes(c, s, dnpName)[v])
      <==> VolumeStable(c, s, dnpName, v)
  {
    hide Applied;
    hide Parse;
    hide VolumeUsed;
    hide VolumeWritten;
    hide Mountpoint;
    hide DevicePath.ParseMountpoint;
    hide DevicePath.Readable;
    hide DevicePath.Get;
    var r := Applied(c, s, dnpName);
    MountpointReadBack(c, s, dnpName, v);
    VolumeUsedWritten(c, s, dnpName, v);
    var volume, m := OrElse(c.volumes, map[])[v], Mountpoint(s, v);
    if m != "" {
      DevicePath.Rebuild(m, dnpName, v);
      GetAbsolute(m, dnpName, v);
      DeviceNotEmpty(m, dnpName, v);
      var device := DevicePath.Get(m, dnpName, v).value;
      MountpointNotEmpty(device);
      DeviceOfDeviceVolume(device);
      DeviceVolumeInjective(device);
    } else {
      MountpointNotEmpty(Device(volume));
      GetOnlyAbsolute(OrElse(DevicePath.ParseMountpoint(Device(volume)), ""), dnpName, v);
    }
  }

  lemma GetAbsolute(m: string, dnpName: string, v: string)
    requires DevicePath.IsAbsolute(m)
    ensures DevicePath.Get(m, dnpName, v).Ok?
  {
  }

  lemma GetOnlyAbsolute(m: string, dnpName: string, v: string)
    ensures DevicePath.Get(m, dnpName, v).Ok? <==> DevicePath.IsAbsolute(m)
  {
  }

  lemma DeviceNotEmpty(m: string, dnpName: string, v: string)
    requires DevicePath.IsAbsolute(m)
    ensures DevicePath.Get(m, dnpName, v).Ok? && DevicePath.Get(m, dnpName, v).value != ""
  {
    hide DevicePath.Get;
    DevicePath.GetIsSlashed(m, dnpName, v);
    DevicePath.KeptNames(DevicePath.StripCharacters(dnpName), DevicePath.StripCharacters(v));
  }

  lemma MountpointNotEmpty(device: string)
    ensures DevicePath.ParseMountpoint(device) != Some("")
  {
    hide DevicePath.SplitOnce;
    hide DevicePath.JoinPaths;
    hide Strings.Split;
  }

  lemma DeviceOfDeviceVolume(device: string)
    ensures Device(DeviceVolume(device)) == device
  {
  }

  lemma DeviceVolumeInjective(device: string)
    ensures forall d :: DeviceVolume(d) == DeviceVolume(device) <==> d == device
  {
    forall d ensures DeviceVolume(d) == DeviceVolume(device) <==> d == device {
      DeviceOfDeviceVolume(d);
      DeviceOfDeviceVolume(device);
    }
  }

  // ----- the fixpoint -----

  /** The root networks are stable: what the file declares already includes them. */
  lemma RootNetworksReadBack(c: Compose, s: UserSettings, dnpName: string)
    requires MountpointsAbsolute(c, s)
    ensures RootNetworks(c, Parse(Applied(c, s, dnpName))) == RootNetworks(c, s)
  {
    hide Applied;
    hide Mountpoints;
    hide HostsById;
    hide EnvsOf;
    AppliedSections(c, s, dnpName);
  }

  /** Two applications to one compose agree exactly when they agree on every service and volume. */
  lemma ComposesAgree(c: Compose, s: UserSettings, w: UserSettings, dnpName: string)
    requires MountpointsAbsolute(c, s)
    requires RootNetworks(c, w) == RootNetworks(c, s)
    ensures Apply(c, w, dnpName) == Ok(Applied(c, s, dnpName)) <==>
      && (forall n :: n in c.services ==>
            CleanService(ApplyService(c.services[n], ChoicesFor(w, n)))
              == CleanService(ApplyService(c.services[n], ChoicesFor(s, n))))
      && (forall v :: v in OrElse(c.volumes, map[]) ==>
            ApplyVolume(OrElse(c.volumes, map[])[v], v, Mountpoint(w, v), dnpName) == Ok(NextVolumes(c, s, dnpName)[v]))
  {
    hide Mountpoint;
    hide ChoicesFor;
    hide CleanService;
    hide ApplyService;
    hide RootNetworks;
    var a := Applied(c, s, dnpName);
    AbsoluteWhenApplied(c, w, dnpName);
    AppliedSections(c, s, dnpName);
    if MountpointsAbsolute(c, w) {
      var b := Applied(c, w, dnpName);
      AppliedSections(c, w, dnpName);
      forall n | n in c.services
        ensures a.services[n] == CleanService(ApplyService(c.services[n], ChoicesFor(s, n)))
        ensures b.services[n] == CleanService(ApplyService(c.services[n], ChoicesFor(w, n)))
      {
        AppliedService(c, s, dnpName, n);
        AppliedService(c, w, dnpName, n);
      }
      VolumesAgree(c, s, w, dnpName);
      assert a == b <==> a.services == b.services && a.volumes == b.volumes;
    }
  }

  lemma AbsoluteWhenApplied(c: Compose, w: UserSettings, dnpName: string)
    ensures MountpointsAbsolute(c, w) <==>
      forall v :: v in OrElse(c.volumes, map[]) ==>
        ApplyVolume(OrElse(c.volumes, map[])[v], v, Mountpoint(w, v), dnpName).Ok?
  {
    hide Mountpoint;
  }

  lemma VolumesAgree(c: Compose, s: UserSettings, w: UserSettings, dnpName: string)
    requires MountpointsAbsolute(c, s) && MountpointsAbsolute(c, w)
    ensures CleanMap(Some(NextVolumes(c, s, dnpName))) == CleanMap(Some(NextVolumes(c, w, dnpName))) <==>
      forall v :: v in OrElse(c.volumes, map[]) ==>
        ApplyVolume(OrElse(c.volumes, map[])[v], v, Mountpoint(w, v), dnpName) == Ok(NextVolumes(c, s, dnpName)[v])
  {
    hide Mountpoint;
    hide DevicePath.Get;
    var volumes := OrElse(c.volumes, map[]);
    forall v | v in volumes
      ensures ApplyVolume(volumes[v], v, Mountpoint(w, v), dnpName) == Ok(NextVolumes(c, w, dnpName)[v])
    {
      GetOnlyAbsolute(Mountpoint(w, v), dnpName, v);
    }
    NextVolumesKeys(c, s, dnpName);
    NextVolumesKeys(c, w, dnpName);
    hide NextVolumes;
    var a, b := NextVolumes(c, s, dnpName), NextVolumes(c, w, dnpName);
    assert a == b <==> forall v :: v in volumes ==> b[v] == a[v];
  }

  /** A service is written the same again exactly when its ports and networks are stable. */
  lemma ServiceFixpoint(c: Compose, s: UserSettings, dnpName: string, n: string)
    requires MountpointsAbsolute(c, s) && n in c.services
    ensures
      (CleanService(ApplyService(c.services[n], ChoicesFor(Parse(Applied(c, s, dnpName)), n)))
        == CleanService(ApplyService(c.services[n], ChoicesFor(s, n))))
      <==>
      (&& PortsStable(OrElse(c.services[n].ports, []), ChoicesFor(s, n).ports)
       && (if RootNetworks(c, s) == map[] then NetworksPlain(NetworksOf(c.services[n]), ChoicesFor(s, n).networks)
           else NetworksStable(NetworksOf(c.services[n]), ChoicesFor(s, n).networks)))
  {
    hide *;
    var service, u := c.services[n], ChoicesFor(s, n);
    AgreesWithItself(c, Parse(Applied(c, s, dnpName)));
    ServiceReapplied(c, s, Parse(Applied(c, s, dnpName)), dnpName, n);
    ChoicesReadBack(c, s, dnpName, n);
    EnvsStable(EnvsOf(service), u.envs);
  }

  /** Settings that agree on everything but the variables. */
  predicate AgreeButEnvs(c: Compose, w: UserSettings, s: UserSettings)
  {
    && w.namedVolumeMountpoints == s.namedVolumeMountpoints && w.allNamedVolumeMountpoint == s.allNamedVolumeMountpoint
    && w.networks == s.networks
    && forall n :: n in c.services ==> ChoicesFor(w, n).ports == ChoicesFor(s, n).ports
  }

  /** The variables of every service are written the same with both settings. */
  predicate SameEnvs(c: Compose, w: UserSettings, s: UserSettings)
  {
    forall n :: n in c.services ==>
      NextEnvs(EnvsOf(c.services[n]), ChoicesFor(w, n).envs) == NextEnvs(EnvsOf(c.services[n]), ChoicesFor(s, n).envs)
  }

  lemma AgreeingChoices(c: Compose, w: UserSettings, s: UserSettings)
    requires AgreeButEnvs(c, w, s)
    ensures RootNetworks(c, w) == RootNetworks(c, s)
    ensures forall v :: Mountpoint(w, v) == Mountpoint(s, v)
    ensures forall n :: n in c.services ==>
      ChoicesFor(w, n) == ChoicesFor(s, n).(envs := ChoicesFor(w, n).envs)
  {
    hide Lookup;
  }

  /** A service is written the same again, with settings that agree with what was read from the
      written compose on everything but the variables. */
  lemma ServiceReapplied(c: Compose, s: UserSettings, w: UserSettings, dnpName: string, n: string)
    requires MountpointsAbsolute(c, s) && n in c.services
    requires AgreeButEnvs(c, w, Parse(Applied(c, s, dnpName)))
    ensures
      (CleanService(ApplyService(c.services[n], ChoicesFor(w, n)))
        == CleanService(ApplyService(c.services[n], ChoicesFor(s, n))))
      <==>
      (&& NextEnvs(EnvsOf(c.services[n]), ChoicesFor(w, n).envs)
        == NextEnvs(EnvsOf(c.services[n]), ChoicesFor(s, n).envs)
       && PortsStable(OrElse(c.services[n].ports, []), ChoicesFor(s, n).ports)
       && (if RootNetworks(c, s) == map[] then NetworksPlain(NetworksOf(c.services[n]), ChoicesFor(s, n).networks)
           else NetworksStable(NetworksOf(c.services[n]), ChoicesFor(s, n).networks)))
  {
    hide *;
    var service, u := c.services[n], ChoicesFor(s, n);
    ChoicesReadBack(c, s, dnpName, n);
    AgreeingChoices(c, w, Parse(Applied(c, s, dnpName)));
    ServicesAgree(service, ChoicesFor(w, n), u);
    PortsFixpoint(OrElse(service.ports, []), u.ports);
    NetworksFixpoint(NetworksOf(service), u.networks);
    NetworksLost(NetworksOf(service), u.networks);
  }

  /** Applying such settings writes the same compose again exactly when the compose is stable and
      the variables are the same. */
  lemma FixpointWith(c: Compose, s: UserSettings, w: UserSettings, dnpName: string)
    requires MountpointsAbsolute(c, s)
    requires AgreeButEnvs(c, w, Parse(Applied(c, s, dnpName)))
    ensures Apply(c, w, dnpName) == Ok(Applied(c, s, dnpName)) <==> Stable(c, s, dnpName) && SameEnvs(c, w, s)
  {
    hide Applied;
    hide Apply;
    hide Parse;
    hide AgreeButEnvs;
    hide MountpointsAbsolute;
    hide VolumeStable;
    hide ChoicesFor;
    hide CleanService;
    hide ApplyService;
    hide ApplyVolume;
    hide NextEnvs;
    hide NextVolumes;
    hide PortsStable;
    hide NetworksStable;
    hide NetworksPlain;
    hide RootNetworks;
    hide NetworksOf;
    hide EnvsOf;
    hide Mountpoint;
    RootNetworksReadBack(c, s, dnpName);
    AgreeingChoices(c, w, Parse(Applied(c, s, dnpName)));
    ComposesAgree(c, s, w, dnpName);
    forall n | n in c.services { ServiceReapplied(c, s, w, dnpName, n); }
    forall v | v in OrElse(c.volumes, map[]) { VolumeFixpoint(c, s, dnpName, v); }
  }

  /** Applying the settings that were read from the written compose writes the same compose again,
      exactly when the compose and the settings are stable: the variables always survive. */
  lemma Fixpoint(c: Compose, s: UserSettings, dnpName: string)
    requires Apply(c, s, dnpName).Ok?
    ensures MountpointsAbsolute(c, s)
    ensures Apply(c, Parse(Apply(c, s, dnpName).value), dnpName) == Apply(c, s, dnpName) <==> Stable(c, s, dnpName)
  {
    ApplyOk(c, s, dnpName);
    hide *;
    var w := Parse(Applied(c, s, dnpName));
    AgreesWithItself(c, w);
    FixpointWith(c, s, w, dnpName);
    forall n | n in c.services
      ensures NextEnvs(EnvsOf(c.services[n]), ChoicesFor(w, n).envs)
        == NextEnvs(EnvsOf(c.services[n]), ChoicesFor(s, n).envs)
    {
      ChoicesReadBack(c, s, dnpName, n);
      EnvsStable(EnvsOf(c.services[n]), ChoicesFor(s, n).envs);
    }
    SameEnvsIs(c, w, s);
  }

  lemma AgreesWithItself(c: Compose, w: UserSettings)
    ensures AgreeButEnvs(c, w, w)
  {
  }

  lemma SameEnvsIs(c: Compose, w: UserSettings, s: UserSettings)
    ensures SameEnvs(c, w, s) <==> forall n :: n in c.services ==>
      NextEnvs(EnvsOf(c.services[n]), ChoicesFor(w, n).envs) == NextEnvs(EnvsOf(c.services[n]), ChoicesFor(s, n).envs)
  {
  }

  predicate TidyService(s: Service)
  {
    && Ports.DistinctIds(Ports.ParseAll(OrElse(s.ports, [])))
    && (forall m :: m in Ports.ParseAll(OrElse(s.ports, [])) ==> Numbers.Truthy(m.container))
    && (forall k :: k in NetworksOf(s) ==> NoRepeats(Aliases(NetworksOf(s)[k])))
  }

  /** A package compose as developers write it: every port row has its own usable container port,
      every alias is listed once, and volumes are used and have no device of their own. */
  predicate Tidy(c: Compose)
  {
    && (forall n :: n in c.services ==> TidyService(c.services[n]))
    && (forall v :: v in OrElse(c.volumes, map[]) ==>
          VolumeWritten(c, v) && Device(OrElse(c.volumes, map[])[v]) == "")
  }

  /** A tidy package is stable, given readable mountpoints and a file that declares some network. */
  lemma TidyStable(c: Compose, s: UserSettings, dnpName: string)
    requires Tidy(c) && Apply(c, s, dnpName).Ok? && RootNetworks(c, s) != map[]
    requires forall v :: v in OrElse(c.volumes, map[]) && Mountpoint(s, v) != "" ==>
      DevicePath.Readable(Mountpoint(s, v), dnpName, v)
    ensures MountpointsAbsolute(c, s) && Stable(c, s, dnpName)
  {
    hide Applied;
    hide DevicePath.Readable;
    hide DevicePath.Get;
    hide DevicePath.ParseMountpoint;
    hide VolumeWritten;
    hide Mountpoint;
    hide ChoicesFor;
    hide NetworksOf;
    hide NoRepeats;
    forall n | n in c.services ensures PortsStable(OrElse(c.services[n].ports, []), ChoicesFor(s, n).ports) {
      DistinctPortsStable(OrElse(c.services[n].ports, []), ChoicesFor(s, n).ports);
    }
    hide PortsStable;
    hide Ports.DistinctIds;
    hide Ports.ParseAll;
    forall v | v in OrElse(c.volumes, map[]) ensures VolumeStable(c, s, dnpName, v) {
      if Mountpoint(s, v) != "" { DevicePath.Rebuild(Mountpoint(s, v), dnpName, v); }
    }
  }

  /** So for a tidy package the settings always survive. */
  lemma TidyFixpoint(c: Compose, s: UserSettings, dnpName: string)
    requires Tidy(c) && Apply(c, s, dnpName).Ok? && RootNetworks(c, s) != map[]
    requires forall v :: v in OrElse(c.volumes, map[]) && Mountpoint(s, v) != "" ==>
      DevicePath.Readable(Mountpoint(s, v), dnpName, v)
    ensures Apply(c, Parse(Apply(c, s, dnpName).value), dnpName) == Apply(c, s, dnpName)
  {
    hide *;
    Fixpoint(c, s, dnpName);
    TidyStable(c, s, dnpName);
  }

  lemma DistinctPortsStable(rows: seq<string>, user: StringMap)
    requires Ports.DistinctIds(Ports.ParseAll(rows))
    requires forall m :: m in Ports.ParseAll(rows) ==> Numbers.Truthy(m.container)
    ensures PortsStable(rows, user)
  {
    hide Ports.Id;
    hide Ports.Parse;
    hide NextPort;
    hide Numbers.Truthy;
    hide Ports.HostShown;
    var ms := Ports.ParseAll(rows);
    assert forall i :: 0 <= i < |rows| ==> ms[i] == Ports.Parse(rows[i]) && ms[i] in ms;
  }

  /** Without tidiness the settings can drift: an alias listed twice is listed once after an update. */
  lemma RepeatedAliasDrifts()
    ensures var c := Compose("3.5", map["geth" := Service(None, None, None,
        Some(NetworkObject(map["net" := ServiceNetwork(None, Some(["a", "a"]))])), None, map[])],
        None, Some(map["net" := Network(Some(true), map[])]));
      var s := UserSettings(None, None, None, None, None);
      Apply(c, s, "geth").Ok? && Apply(c, Parse(Apply(c, s, "geth").value), "geth") != Apply(c, s, "geth")
  {
    var nets := map["net" := ServiceNetwork(None, Some(["a", "a"]))];
    var c := Compose("3.5", map["geth" := Service(None, None, None, Some(NetworkObject(nets)), None, map[])],
      None, Some(map["net" := Network(Some(true), map[])]));
    var s := UserSettings(None, None, None, None, None);
    assert "net" in RootNetworks(c, s);
    assert NetworksOf(c.services["geth"]) == nets && ChoicesFor(s, "geth").networks == map[];
    assert !NoRepeats(Aliases(nets["net"])) by { assert ["a", "a"][0] == ["a", "a"][1]; }
    assert !NetworksStable(nets, map[]);
    assert MountpointsAbsolute(c, s);
    hide *;
    assert !Stable(c, s, "geth") by { UnstableNetworks(c, s, "geth", "geth"); }
    ApplyOk(c, s, "geth");
    Fixpoint(c, s, "geth");
  }

  lemma UnstableNetworks(c: Compose, s: UserSettings, dnpName: string, n: string)
    requires MountpointsAbsolute(c, s) && n in c.services && RootNetworks(c, s) != map[]
    requires !NetworksStable(NetworksOf(c.services[n]), ChoicesFor(s, n).networks)
    ensures !Stable(c, s, dnpName)
  {
  }

  lemma ApplyOk(c: Compose, s: UserSettings, dnpName: string)
    ensures Apply(c, s, dnpName).Ok? <==> MountpointsAbsolute(c, s)
    ensures Apply(c, s, dnpName).Ok? ==> Apply(c, s, dnpName) == Ok(Applied(c, s, dnpName))
  {
  }

  // ----- carrying the choices over an update -----

  /** A value the user chose stays for every name that the new version still has. */
  lemma UpdateKeepsEnvs(prior: Compose, s: UserSettings, next: Compose, dnpName: string, n: string, k: string)
    requires MountpointsAbsolute(prior, s) && n in prior.services && n in next.services
    requires k in EnvsOf(prior.services[n]) && k in EnvsOf(next.services[n])
    requires Apply(next, Parse(Applied(prior, s, dnpName)), dnpName).Ok?
    ensures var before := EnvsOf(Applied(prior, s, dnpName).services[n]);
      var after := EnvsOf(Apply(next, Parse(Applied(prior, s, dnpName)), dnpName).value.services[n]);
      && k in before && k in after
      && after[k] == if before[k] != "" then before[k] else EnvsOf(next.services[n])[k]
  {
    hide Applied;
    hide Parse;
    hide MountpointsAbsolute;
    hide EnvsOf;
    hide ChoicesFor;
    hide CleanService;
    hide ApplyService;
    hide HostsWritten;
    hide NextNetworks;
    hide RootNetworks;
    hide NetworksOf;
    var w := Parse(Applied(prior, s, dnpName));
    AppliedService(prior, s, dnpName, n);
    ReadCleaned(prior.services[n], ChoicesFor(s, n));
    ChoicesReadBack(prior, s, dnpName, n);
    ApplyOk(next, w, dnpName);
    AppliedService(next, w, dnpName, n);
    ReadCleaned(next.services[n], ChoicesFor(w, n));
  }

  /** What is read back of the written rows. */
  function ReadRows(rows: seq<string>, user: StringMap): (ms: seq<Ports.PortMapping>)
    ensures |ms| == |rows|
  {
    seq(|rows|, i requires 0 <= i < |rows| => Ports.Reread(NextPort(Ports.Parse(rows[i]), user)))
  }

  /** The last mapping with an id. */
  function LastWith(ms: seq<Ports.PortMapping>, id: string): (r: Option<nat>)
    ensures r.Some? ==> r.value < |ms|
  {
    if ms == [] then None
    else if Ports.Id(ms[|ms| - 1]) == id then Some(|ms| - 1)
    else LastWith(ms[..|ms| - 1], id)
  }

  lemma {:induction false} LastWithIs(ms: seq<Ports.PortMapping>, id: string)
    ensures id in HostsById(ms) <==> LastWith(ms, id).Some?
    ensures LastWith(ms, id).Some? ==>
      HostsById(ms)[id] == HostText(ms[LastWith(ms, id).value]) && Ports.Id(ms[LastWith(ms, id).value]) == id
  {
    hide Ports.Id;
    hide HostText;
    if ms != [] {
      HostsByIdStep(ms);
      LastWithIs(ms[..|ms| - 1], id);
    }
  }

  lemma ReadRowsAre(rows: seq<string>, user: StringMap)
    ensures Ports.ParseAll(NextPorts(rows, user)) == ReadRows(rows, user)
  {
    hide Ports.Reread;
    hide Ports.Parse;
    hide Ports.Print;
    hide NextPort;
    forall i | 0 <= i < |rows| ensures Ports.ParseAll(NextPorts(rows, user))[i] == ReadRows(rows, user)[i] {
      WrittenPort(rows, user, i);
    }
  }

  /** The host that a mapping `m` of another version shows with the settings read back: that of the
      last row that is read back under its container port and protocol, else its own. */
  function HostAfter(rows: seq<string>, user: StringMap, m: Ports.PortMapping): Option<Numbers.JsNumber>
  {
    match LastWith(ReadRows(rows, user), Ports.Id(m))
    case Some(l) => Ports.HostShown(ReadRows(rows, user)[l])
    case None => Ports.HostShown(m)
  }

  lemma HostAfterIs(rows: seq<string>, user: StringMap, m: Ports.PortMapping)
    ensures Ports.HostShown(NextPort(m, HostsWritten(rows, user))) == HostAfter(rows, user, m)
  {
    hide *;
    var ms, id, back := ReadRows(rows, user), Ports.Id(m), HostsWritten(rows, user);
    HostsWrittenIs(rows, user);
    ReadRowsAre(rows, user);
    LastWithIs(ms, id);
    HostAfterMeans(rows, user, m);
    if LastWith(ms, id).Some? {
      ShownAgain(m, back);
      HostTextRead(ms[LastWith(ms, id).value]);
    } else {
      NotListed(m, back);
    }
  }

  lemma HostAfterMeans(rows: seq<string>, user: StringMap, m: Ports.PortMapping)
    ensures var last := LastWith(ReadRows(rows, user), Ports.Id(m));
      HostAfter(rows, user, m) == if last.Some? then Ports.HostShown(ReadRows(rows, user)[last.value])
        else Ports.HostShown(m)
  {
    hide ReadRows;
    hide LastWith;
    hide Ports.HostShown;
  }

  lemma NotListed(m: Ports.PortMapping, user: StringMap)
    requires Ports.Id(m) !in user
    ensures NextPort(m, user) == m
  {
  }

  /** Among stable ports that is the host that every row for the container port and protocol shows. */
  lemma StableHostAfter(rows: seq<string>, user: StringMap, i: nat, m: Ports.PortMapping)
    requires PortsStable(rows, user) && i < |rows| && Ports.Id(m) == Ports.Id(Ports.Parse(rows[i]))
    ensures HostAfter(rows, user, m) == Ports.HostShown(NextPort(Ports.Parse(rows[i]), user))
  {
    hide *;
    HostAfterIs(rows, user, m);
    PortsStableReapplied(rows, user, i);
    var was := Ports.Parse(rows[i]);
    var back := HostsWritten(rows, user);
    Ports.IdInjective(m, was);
    SameId(was, user);
    SameId(was, back);
    Ports.PrintShowsHost(NextPort(was, back), NextPort(was, user));
    IdInBack(rows, user, i);
    ShownAgain(was, back);
    ShownAgain(m, back);
  }

  lemma IdInBack(rows: seq<string>, user: StringMap, i: nat)
    requires PortsStable(rows, user) && i < |rows|
    ensures Ports.Id(Ports.Parse(rows[i])) in HostsWritten(rows, user)
  {
    hide Ports.Parse;
    hide Ports.Id;
    hide Ports.Reread;
    hide Ports.HostShown;
    hide HostsWritten;
    hide NextPort;
    hide Numbers.Truthy;
    SameId(Ports.Parse(rows[i]), user);
    RereadShown(NextPort(Ports.Parse(rows[i]), user));
    IdWritten(rows, user, i);
  }

  /** The rows of a service in the written compose. */
  function WrittenPorts(c: Compose, s: UserSettings, dnpName: string, n: string): seq<string>
    requires MountpointsAbsolute(c, s) && n in c.services
  {
    OrElse(Applied(c, s, dnpName).services[n].ports, [])
  }

  lemma WrittenPortsAre(c: Compose, s: UserSettings, dnpName: string, n: string)
    requires MountpointsAbsolute(c, s) && n in c.services
    ensures WrittenPorts(c, s, dnpName, n) == NextPorts(OrElse(c.services[n].ports, []), ChoicesFor(s, n).ports)
  {
    hide Applied;
    hide MountpointsAbsolute;
    hide ChoicesFor;
    hide CleanService;
    hide ApplyService;
    AppliedService(c, s, dnpName, n);
    ReadCleaned(c.services[n], ChoicesFor(s, n));
  }

  /** A row of the new version is written as the old version's row for the same container port and
      protocol was, exactly when the host read back for them is the one that the old row shows,
      whatever host the new version asks for. */
  lemma UpdateKeepsHosts(prior: Compose, s: UserSettings, next: Compose, dnpName: string, n: string, i: nat, j: nat)
    requires MountpointsAbsolute(prior, s) && n in prior.services && n in next.services
    requires i < |OrElse(prior.services[n].ports, [])| && j < |OrElse(next.services[n].ports, [])|
    requires Ports.Id(Ports.Parse(OrElse(next.services[n].ports, [])[j]))
      == Ports.Id(Ports.Parse(OrElse(prior.services[n].ports, [])[i]))
    requires MountpointsAbsolute(next, Parse(Applied(prior, s, dnpName)))
    ensures var rows, user := OrElse(prior.services[n].ports, []), ChoicesFor(s, n).ports;
      var before := WrittenPorts(prior, s, dnpName, n);
      var after := WrittenPorts(next, Parse(Applied(prior, s, dnpName)), dnpName, n);
      && |before| == |rows| && |after| == |OrElse(next.services[n].ports, [])|
      && (after[j] == before[i] <==>
            HostAfter(rows, user, Ports.Parse(OrElse(next.services[n].ports, [])[j]))
              == Ports.HostShown(NextPort(Ports.Parse(rows[i]), user)))
  {
    hide *;
    var rows, user, w := OrElse(prior.services[n].ports, []), ChoicesFor(s, n).ports, Parse(Applied(prior, s, dnpName));
    WrittenPortsAre(prior, s, dnpName, n);
    WrittenPortsAre(next, w, dnpName, n);
    ChoicesReadBack(prior, s, dnpName, n);
    SameRow(rows, user, i, OrElse(next.services[n].ports, []), j);
  }

  lemma SameRow(rows: seq<string>, user: StringMap, i: nat, next: seq<string>, j: nat)
    requires i < |rows| && j < |next| && Ports.Id(Ports.Parse(next[j])) == Ports.Id(Ports.Parse(rows[i]))
    ensures NextPorts(next, HostsWritten(rows, user))[j] == NextPorts(rows, user)[i]
      <==> HostAfter(rows, user, Ports.Parse(next[j])) == Ports.HostShown(NextPort(Ports.Parse(rows[i]), user))
  {
    var m, was, back := Ports.Parse(next[j]), Ports.Parse(rows[i]), HostsWritten(rows, user);
    assert NextPorts(next, back)[j] == Ports.Print(NextPort(m, back));
    assert NextPorts(rows, user)[i] == Ports.Print(NextPort(was, user));
    hide *;
    Ports.IdInjective(m, was);
    SameId(m, back);
    SameId(was, user);
    HostAfterIs(rows, user, m);
    Ports.PrintShowsHost(NextPort(m, back), NextPort(was, user));
  }

  /** A volume with a readable mountpoint keeps its device. */
  lemma UpdateKeepsMountpoints(prior: Compose, s: UserSettings, next: Compose, dnpName: string, v: string)
    requires MountpointsAbsolute(prior, s) && v in OrElse(prior.volumes, map[]) && v in OrElse(next.volumes, map[])
    requires Mountpoint(s, v) != "" && VolumeWritten(prior, v) && DevicePath.Readable(Mountpoint(s, v), dnpName, v)
    requires MountpointsAbsolute(next, Parse(Applied(prior, s, dnpName)))
    ensures NextVolumes(next, Parse(Applied(prior, s, dnpName)), dnpName)[v] == NextVolumes(prior, s, dnpName)[v]
  {
    hide Applied;
    hide Parse;
    hide VolumeUsed;
    hide VolumeWritten;
    hide Mountpoint;
    hide DevicePath.ParseMountpoint;
    hide DevicePath.Readable;
    hide DevicePath.Get;
    var m := Mountpoint(s, v);
    MountpointReadBack(prior, s, dnpName, v);
    VolumeUsedWritten(prior, s, dnpName, v);
    DevicePath.Rebuild(m, dnpName, v);
    DeviceNotEmpty(m, dnpName, v);
    var device := DevicePath.Get(m, dnpName, v).value;
    MountpointNotEmpty(device);
    DeviceOfDeviceVolume(device);
  }

  // ----- the loops -----

  /** The loop that reads the host of each port mapping. */
  method CollectHosts(ms: seq<Ports.PortMapping>) returns (hosts: StringMap)
    ensures hosts == HostsById(ms)
  {
    hosts := map[];
    for i := 0 to |ms|
      invariant hosts == HostsById(ms[..i])
    {
      var m := ms[i];
      hosts := hosts[Ports.Id(m) := if Ports.HostShown(m).Some? then Numbers.Print(m.host.value) else ""];
      assert ms[..i + 1][..i] == ms[..i];
    }
    assert ms[..|ms|] == ms;
  }

  /** The loop that reads the mountpoint of each volume. */
  method CollectMountpoints(c: Compose) returns (mountpoints: StringMap)
    ensures mountpoints == Mountpoints(c)
  {
    hide MountpointSetting;
    var volumes := OrElse(c.volumes, map[]);
    var left := volumes.Keys;
    mountpoints := map[];
    while left != {}
      invariant left <= volumes.Keys
      invariant mountpoints == map v | v in volumes.Keys - left && MountpointSetting(c, v, volumes[v]).Some? ::
        MountpointSetting(c, v, volumes[v]).value
      decreases left
    {
      var v :| v in left;
      var setting := MountpointSetting(c, v, volumes[v]);
      if setting.Some? { mountpoints := mountpoints[v := setting.value]; }
      left := left - {v};
    }
  }

  /** One network of the merge. */
  function MergedAt(base: NetworksObject, user: NetworksObject, n: string): ServiceNetwork
    requires n in base || n in user
  {
    if n !in base then user[n] else if n in user then MergeNetwork(base[n], user[n]) else base[n]
  }

  /** The networks of some names. */
  function MergedFor(base: NetworksObject, user: NetworksObject, names: set<string>): NetworksObject
    requires names <= base.Keys + user.Keys
  {
    map n | n in names :: MergedAt(base, user, n)
  }

  lemma MergedMore(base: NetworksObject, user: NetworksObject, names: set<string>, n: string)
    requires names <= base.Keys + user.Keys && (n in base || n in user)
    ensures MergedFor(base, user, names + {n}) == MergedFor(base, user, names)[n := MergedAt(base, user, n)]
  {
    hide MergedAt;
  }

  lemma MergedAll(base: NetworksObject, user: NetworksObject)
    ensures MergedFor(base, user, base.Keys + user.Keys) == MergeNetworks(base, user)
    ensures MergedFor(base, user, {}) == map[]
  {
    hide MergeNetwork;
  }

  /** The two loops of `mergeNetworks`: first the package's networks, then the user's others. */
  method UniteNetworks(base: NetworksObject, user: NetworksObject) returns (merged: NetworksObject)
    ensures merged == MergeNetworks(base, user)
  {
    hide MergeNetwork;
    hide MergedFor;
    hide MergeNetworks;
    MergedAll(base, user);
    merged := map[];
    ghost var names: set<string> := {};
    var left := base.Keys;
    while left != {}
      invariant left <= base.Keys && names == base.Keys - left
      invariant merged == MergedFor(base, user, names)
      decreases left
    {
      var n :| n in left;
      MergedMore(base, user, names, n);
      merged := merged[n := if n in user then MergeNetwork(base[n], user[n]) else base[n]];
      left, names := left - {n}, names + {n};
    }
    left := user.Keys - base.Keys;
    while left != {}
      invariant left <= user.Keys - base.Keys && names == base.Keys + user.Keys - left
      invariant merged == MergedFor(base, user, names)
      decreases left
    {
      var n :| n in left;
      MergedMore(base, user, names, n);
      merged := merged[n := user[n]];
      left, names := left - {n}, names + {n};
    }
    assert names == base.Keys + user.Keys;
  }
}
