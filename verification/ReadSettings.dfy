/** What is read from a compose file as the user's settings, value by value
    (packages/dockerCompose/src/userSettings.ts). */
module ReadSettings {
  import opened Wrappers
  import opened Compose
  import opened Environment
  import UserSettings
  import DevicePath
  import Numbers
  import Ports

  type Table = UserSettings.StringMap

  /** One table for each service, or none at all when all tables are empty. */
  ghost predicate Tables(c: Compose, read: Option<map<string, Table>>, table: string -> Table)
  {
    match read
    case None => forall n :: n in c.services ==> table(n) == map[]
    case Some(tables) =>
      && tables.Keys == c.services.Keys && (forall n :: n in c.services ==> tables[n] == table(n))
      && exists n :: n in c.services && table(n) != map[]
  }

  lemma OmitEmptyIs(c: Compose, tables: map<string, Table>, table: string -> Table)
    requires tables.Keys == c.services.Keys && forall n :: n in c.services ==> tables[n] == table(n)
    ensures Tables(c, UserSettings.OmitEmpty(tables), table)
  {
  }

  /** The variables of every service. */
  lemma EnvsRead(c: Compose)
    ensures Tables(c, UserSettings.Parse(c).environment, n => if n in c.services then EnvsOf(c.services[n]) else map[])
  {
    hide EnvsOf;
    hide UserSettings.OmitEmpty;
    hide Tables;
    OmitEmptyIs(c, map n | n in c.services :: EnvsOf(c.services[n]),
      n => if n in c.services then EnvsOf(c.services[n]) else map[]);
  }

  /** The host of a mapping as it is shown to the user. */
  function HostText(m: Ports.PortMapping): string
  {
    match m.host
    case Some(Num(h)) => if h == 0 then "" else Numbers.Print(Numbers.Num(h))
    case _ => ""
  }

  /** A table of host ports: one entry for each key, with the host of the last mapping that has it. */
  ghost predicate Hosts(ms: seq<Ports.PortMapping>, hosts: Table)
  {
    && (forall id :: id in hosts <==> exists i :: 0 <= i < |ms| && Ports.Id(ms[i]) == id)
    && (forall i :: 0 <= i < |ms| && (forall j :: i < j < |ms| ==> Ports.Id(ms[j]) != Ports.Id(ms[i])) ==>
          Ports.Id(ms[i]) in hosts && hosts[Ports.Id(ms[i])] == HostText(ms[i]))
  }

  lemma HostTextIs(m: Ports.PortMapping)
    ensures HostText(m) == if Ports.HostShown(m).Some? then Numbers.Print(m.host.value) else ""
  {
    hide Numbers.Print;
  }

  lemma HostsMore(ms: seq<Ports.PortMapping>, hosts: Table, m: Ports.PortMapping)
    requires Hosts(ms, hosts)
    ensures Hosts(ms + [m], hosts[Ports.Id(m) := HostText(m)])
  {
    hide Ports.Id;
    hide HostText;
    var more, next := ms + [m], hosts[Ports.Id(m) := HostText(m)];
    assert more[|ms|] == m;
    forall id ensures id in next <==> exists i :: 0 <= i < |more| && Ports.Id(more[i]) == id {
      if id in hosts {
        var i :| 0 <= i < |ms| && Ports.Id(ms[i]) == id;
        assert more[i] == ms[i];
      }
    }
    forall i | 0 <= i < |more| && forall j :: i < j < |more| ==> Ports.Id(more[j]) != Ports.Id(more[i])
      ensures Ports.Id(more[i]) in next && next[Ports.Id(more[i])] == HostText(more[i])
    {
      if i < |ms| {
        assert more[|ms|] == m && forall j :: i < j < |ms| ==> ms[j] == more[j];
      }
    }
  }

  lemma NoHosts()
    ensures Hosts([], map[])
  {
  }

  lemma {:induction false} HostsAre(ms: seq<Ports.PortMapping>)
    ensures Hosts(ms, UserSettings.HostsById(ms))
  {
    hide Hosts;
    hide Ports.Id;
    if ms == [] {
      NoHosts();
    } else {
      var front, last := ms[..|ms| - 1], ms[|ms| - 1];
      assert ms == front + [last];
      HostsAre(front);
      HostTextIs(last);
      HostsMore(front, UserSettings.HostsById(front), last);
    }
  }

  /** The host ports of every service, by container port and protocol. */
  lemma PortsRead(c: Compose) returns (table: string -> Table)
    ensures Tables(c, UserSettings.Parse(c).portMappings, table)
    ensures forall n :: n in c.services ==> Hosts(Ports.ParseAll(OrElse(c.services[n].ports, [])), table(n))
  {
    hide UserSettings.HostsById;
    hide Hosts;
    hide UserSettings.OmitEmpty;
    hide Tables;
    hide Ports.ParseAll;
    table := n =>
      if n in c.services then UserSettings.HostsById(Ports.ParseAll(OrElse(c.services[n].ports, []))) else map[];
    OmitEmptyIs(c,
      map n | n in c.services :: UserSettings.HostsById(Ports.ParseAll(OrElse(c.services[n].ports, []))), table);
    forall n | n in c.services ensures Hosts(Ports.ParseAll(OrElse(c.services[n].ports, [])), table(n)) {
      HostsAre(Ports.ParseAll(OrElse(c.services[n].ports, [])));
    }
  }

  /** The driver options name a device. */
  predicate On(v: Volume, device: string)
  {
    v.Volume? && v.driverOpts.Some? && "device" in v.driverOpts.value && v.driverOpts.value["device"] == device
      && device != ""
  }

  /** The setting of a volume: empty without a device, and else the mountpoint that is read of the device. */
  ghost predicate Setting(v: Volume, setting: string)
  {
    || (setting == "" && forall device :: !On(v, device))
    || (setting != "" && exists device ::
          On(v, device) && DevicePath.Parse(device).Some? && DevicePath.Parse(device).value.mountpoint == setting)
  }

  /** Some row of some service starts with the volume's name. */
  ghost predicate Used(c: Compose, name: string)
  {
    exists n, i :: n in c.services && 0 <= i < |OrElse(c.services[n].volumes, [])|
      && name <= OrElse(c.services[n].volumes, [])[i]
  }

  lemma UsedIs(c: Compose, name: string)
    ensures UserSettings.VolumeUsed(c, name) <==> Used(c, name)
  {
    if UserSettings.VolumeUsed(c, name) {
      var n :| n in c.services && UserSettings.StartsSome(OrElse(c.services[n].volumes, []), name);
      var i :| 0 <= i < |OrElse(c.services[n].volumes, [])| && name <= OrElse(c.services[n].volumes, [])[i];
      assert Used(c, name);
    }
    if Used(c, name) {
      var n, i :| n in c.services && 0 <= i < |OrElse(c.services[n].volumes, [])|
        && name <= OrElse(c.services[n].volumes, [])[i];
      assert UserSettings.StartsSome(OrElse(c.services[n].volumes, []), name);
    }
  }

  lemma OnIs(v: Volume, device: string)
    ensures On(v, device) <==> UserSettings.Device(v) == device && device != ""
  {
  }

  lemma SettingIs(c: Compose, name: string, v: Volume, setting: string)
    ensures UserSettings.MountpointSetting(c, name, v) == Some(setting) <==> Used(c, name) && Setting(v, setting)
  {
    hide UserSettings.VolumeUsed;
    hide Used;
    hide DevicePath.Parse;
    UsedIs(c, name);
    hide UserSettings.Device;
    hide On;
    var device := UserSettings.Device(v);
    forall d { OnIs(v, d); }
    if device != "" { assert On(v, device); }
  }

  /** The mountpoints: of the volumes that some row starts with, those without a device or with one that is
      readable. */
  lemma MountpointsRead(c: Compose)
    ensures var read, volumes := OrElse(UserSettings.Parse(c).namedVolumeMountpoints, map[]), OrElse(c.volumes, map[]);
      && (forall v :: v in read ==> v in volumes && Used(c, v) && Setting(volumes[v], read[v]))
      && (forall v :: v in volumes && Used(c, v) ==> forall setting :: Setting(volumes[v], setting) ==>
            v in read && read[v] == setting)
    ensures UserSettings.Parse(c).namedVolumeMountpoints != Some(map[])
    ensures UserSettings.Parse(c).allNamedVolumeMountpoint == None
  {
    hide UserSettings.MountpointSetting;
    hide Used;
    hide Setting;
    hide UserSettings.OmitEmpty;
    hide UserSettings.NetworkSettingsOf;
    var volumes, read := OrElse(c.volumes, map[]), OrElse(UserSettings.Parse(c).namedVolumeMountpoints, map[]);
    assert read == UserSettings.Mountpoints(c);
    forall v | v in read ensures v in volumes && Used(c, v) && Setting(volumes[v], read[v]) {
      SettingIs(c, v, volumes[v], read[v]);
    }
    forall v, setting | v in volumes && Used(c, v) && Setting(volumes[v], setting)
      ensures v in read && read[v] == setting
    {
      SettingIs(c, v, volumes[v], setting);
    }
  }

  /** The networks: every service's and the declared ones; none when the file declares none. */
  lemma NetworksRead(c: Compose)
    ensures UserSettings.Parse(c).networks.None?
      <==> c.networks.None? || (c.services == map[] && c.networks == Some(map[]))
    ensures UserSettings.Parse(c).networks.Some? ==>
      var read := UserSettings.Parse(c).networks.value;
      && c.networks == Some(read.rootNetworks) && read.serviceNetworks.Keys == c.services.Keys
      && forall n :: n in c.services ==> read.serviceNetworks[n] == NetworkObject(NetworksOf(c.services[n]))
  {
    hide UserSettings.OmitEmpty;
    hide UserSettings.Mountpoints;
    hide NetworksOf;
  }
}
