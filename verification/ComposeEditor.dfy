/** The editor of a compose file and what it writes (packages/dockerCompose/src/editor.ts). */
module ComposeEditor {
  import opened Wrappers
  import opened Strings
  import opened Compose
  import opened Environment
  import Numbers
  import Ports
  import NetworkAlias
  import UserSettings

  const MAX_PORT := 65535

  // ----- what the edits mean -----

  /** `{ ...a, ...b }` of two service networks. */
  function Overlay(a: ServiceNetwork, b: ServiceNetwork): ServiceNetwork
  {
    ServiceNetwork(if b.ipv4.Some? then b.ipv4 else a.ipv4, if b.aliases.Some? then b.aliases else a.aliases)
  }

  function WithService(c: Compose, n: string, service: Service): Compose
  {
    c.(services := c.services[n := service])
  }

  /** `addNetwork`: joins one service to a network and declares the network if it is not. */
  function WithNetwork(c: Compose, n: string, network: string, settings: ServiceNetwork, config: Network): Compose
    requires n in c.services
  {
    var nets := NetworksOf(c.services[n]);
    var joined := Overlay(if network in nets then nets[network] else NO_NETWORK, settings);
    var root := OrElse(c.networks, map[]);
    WithService(c, n, c.services[n].(networks := Some(NetworkObject(nets[network := joined]))))
      .(networks := Some(if network in root && root[network].Network? then root else root[network := config]))
  }

  /** `removeNetwork`: takes one service off a network and removes the network's declaration. */
  function WithoutNetwork(c: Compose, n: string, network: string): Compose
    requires n in c.services
  {
    WithService(c, n, c.services[n].(networks := Some(NetworkObject(NetworksOf(c.services[n]) - {network}))))
      .(networks := match c.networks case None => None case Some(root) => Some(root - {network}))
  }

  /** `mergeEnvs`: the new values first, printed as rows in the order the object lists them. */
  function WithEnvs(c: Compose, n: string, envs: Envs, order: seq<string>): Compose
    requires n in c.services
    requires Enumerates(order, Merge(envs, EnvsOf(c.services[n])).Keys)
  {
    WithService(c, n, c.services[n].(environment := Some(Rows(Print(Merge(envs, EnvsOf(c.services[n])), order)))))
  }

  /** `mergePortMapping`: the new mappings first. */
  function WithPorts(c: Compose, n: string, ports: seq<Ports.PortMapping>): Compose
    requires n in c.services
  {
    var merged := Ports.Merge(ports, Ports.ParseAll(OrElse(c.services[n].ports, [])));
    WithService(c, n, c.services[n].(ports := Some(Ports.PrintAll(merged))))
  }

  // ----- what is checked -----

  predicate VolumeRowValid(row: string)
  {
    var host := Before(row, ':');
    host != "" && |host| < |row| && FirstLine(row[|host| + 1..]) != ""
  }

  predicate PortInRange(n: Numbers.JsNumber)
  {
    n.NaN? || n.value <= MAX_PORT
  }

  /** The checks of `verifyCompose` on volumes and ports. */
  predicate Verified(c: Compose)
  {
    forall n :: n in c.services ==>
      && (forall row :: row in OrElse(c.services[n].volumes, []) ==> VolumeRowValid(row))
      && (forall row :: row in OrElse(c.services[n].ports, []) ==>
            var m := Ports.Parse(row);
            PortInRange(m.container) && (m.host.Some? ==> PortInRange(m.host.value)))
  }

  // ----- variable substitution -----

  const SUBSTITUTION := "${"

  /** Some value under a key, at any depth, asks for variable substitution. Texts that are the items
      of a list are not looked at. */
  predicate JsonSubstituted(value: Json)
  {
    match value
    case Text(text) => Contains(text, SUBSTITUTION)
    case Array(items) => exists i :: 0 <= i < |items| && !items[i].Text? && JsonSubstituted(items[i])
    case Object(fields) => exists k :: k in fields && JsonSubstituted(fields[k])
    case _ => false
  }

  predicate TextsSubstituted(texts: map<string, string>)
  {
    exists k :: k in texts && Contains(texts[k], SUBSTITUTION)
  }

  predicate FieldsSubstituted(fields: map<string, Json>)
  {
    exists k :: k in fields && JsonSubstituted(fields[k])
  }

  /** A stored default is text: the listing of its rows. */
  predicate LabelSubstituted(stored: Label)
  {
    match stored
    case PlainLabel(text) => Contains(text, SUBSTITUTION)
    case RowsLabel(rows) => exists i :: 0 <= i < |rows| && Contains(rows[i], SUBSTITUTION)
    case EnvsLabel(envs) => exists k :: k in envs && k != "" && Contains(PrintRow(k, envs[k]), SUBSTITUTION)
  }

  predicate ServiceSubstituted(s: Service)
  {
    || (s.environment.Some? && s.environment.value.Object? && TextsSubstituted(s.environment.value.envs))
    || (exists n :: n in NetworksOf(s) && var ipv4 := NetworksOf(s)[n].ipv4;
          ipv4.Some? && Contains(ipv4.value, SUBSTITUTION))
    || (exists k :: k in OrElse(s.labels, map[]) && LabelSubstituted(OrElse(s.labels, map[])[k]))
    || FieldsSubstituted(s.rest)
  }

  /** What `assertNoSubstitution` rejects. */
  predicate Substituted(c: Compose)
  {
    || Contains(c.version, SUBSTITUTION)
    || (exists n :: n in c.services && ServiceSubstituted(c.services[n]))
    || (exists v :: v in OrElse(c.volumes, map[]) && var volume := OrElse(c.volumes, map[])[v];
          volume.Volume? && (TextsSubstituted(OrElse(volume.driverOpts, map[])) || FieldsSubstituted(volume.rest)))
    || (exists k :: k in OrElse(c.networks, map[]) && var network := OrElse(c.networks, map[])[k];
          network.Network? && FieldsSubstituted(network.rest))
  }

  // ----- what is written -----

  /** One service as it is written: variables as rows, no DNS, no empty lists or objects. */
  function OutputService(s: Service, order: seq<string>): Service
    requires Enumerates(order, EnvsOf(s).Keys)
  {
    var rows := if s.environment.Some? && s.environment.value.Object? then Some(Rows(Print(EnvsOf(s), order)))
                else s.environment;
    Service(CleanEnvironment(rows), CleanSeq(s.ports), CleanSeq(s.volumes), CleanNetworks(s.networks),
            CleanMap(s.labels),
            map k | k in s.rest && (k in ["container_name", "image"]
              || (k != "dns" && s.rest[k] != Array([]) && s.rest[k] != Json.Object(map[]))) :: s.rest[k])
  }

  /** The orders in which the environments of a compose are listed. */
  predicate Orders(orders: map<string, seq<string>>, c: Compose)
  {
    forall n :: n in c.services ==> n in orders && Enumerates(orders[n], EnvsOf(c.services[n]).Keys)
  }

  /** A fixed order in which the keys of an object are listed. */
  type KeyOrder = f: set<string> -> seq<string> | forall keys: set<string> :: Enumerates(f(keys), keys)
    ghost witness keys => ListKeys(keys)

  /** Every key is listed, once. */
  lemma KeysListed(order: KeyOrder, keys: set<string>)
    ensures forall i :: 0 <= i < |order(keys)| ==> order(keys)[i] in keys && order(keys)[i] !in order(keys)[..i]
    ensures forall k :: k in keys ==> k in order(keys)
  {
    assert Enumerates(order(keys), keys);
  }

  ghost function ListKeys(keys: set<string>): (order: seq<string>)
    ensures Enumerates(order, keys)
  {
    if keys == {} then []
    else
      var k :| k in keys;
      var rest := ListKeys(keys - {k});
      assert forall i :: 0 <= i < |rest| ==> rest[i] in keys - {k};
      rest + [k]
  }

  /** What a compose is after it was written and read again. */
  function Saved(c: Compose, order: KeyOrder): Compose
  {
    OutputOf(c, map n | n in c.services :: order(EnvsOf(c.services[n]).Keys))
  }

  function OutputOf(c: Compose, orders: map<string, seq<string>>): Compose
    requires Orders(orders, c)
  {
    c.(services := map n | n in c.services :: OutputService(c.services[n], orders[n]))
  }

  /** An open compose file. */
  class ComposeEditor {
    var compose: Compose
    var allowSubstitution: bool

    /** Only the admin package may use variable substitution, unless the caller decides. */
    constructor (c: Compose, dnpName: Option<string>, allow: Option<bool>)
      ensures compose == c
      ensures allowSubstitution == OrElse(allow, dnpName == Some(NetworkAlias.DAPPMANAGER))
    {
      compose := c;
      allowSubstitution := OrElse(allow, dnpName == Some(NetworkAlias.DAPPMANAGER));
    }

    method MergeEnvs(n: string, envs: Envs, order: seq<string>)
      requires n in compose.services
      requires Enumerates(order, Merge(envs, EnvsOf(compose.services[n])).Keys)
      modifies this`compose
      ensures compose == WithEnvs(old(compose), n, envs, order)
    {
      var service := compose.services[n];
      var rows := Print(Merge(envs, EnvsOf(service)), order);
      Edit(n, service.(environment := Some(Rows(rows))));
    }

    method MergePortMapping(n: string, ports: seq<Ports.PortMapping>)
      requires n in compose.services
      modifies this`compose
      ensures compose == WithPorts(old(compose), n, ports)
    {
      var service := compose.services[n];
      var merged := Ports.Merge(ports, Ports.ParseAll(OrElse(service.ports, [])));
      Edit(n, service.(ports := Some(Ports.PrintAll(merged))));
    }

    /** Replaces the fields of one service. */
    method Edit(n: string, service: Service)
      modifies this`compose
      ensures compose == WithService(old(compose), n, service)
    {
      compose := compose.(services := compose.services[n := service]);
    }

    method AddNetwork(n: string, network: string, settings: ServiceNetwork, config: Network)
      requires n in compose.services
      modifies this`compose
      ensures compose == WithNetwork(old(compose), n, network, settings, config)
    {
      var service := compose.services[n];
      var nets := NetworksOf(service);
      var joined := Overlay(if network in nets then nets[network] else NO_NETWORK, settings);
      Edit(n, service.(networks := Some(NetworkObject(nets[network := joined]))));
      if compose.networks.None? { compose := compose.(networks := Some(map[])); }
      var root := compose.networks.value;
      if network !in root || root[network].NullNetwork? {
        compose := compose.(networks := Some(root[network := config]));
      }
    }

    method RemoveNetwork(n: string, network: string)
      requires n in compose.services
      modifies this`compose
      ensures compose == WithoutNetwork(old(compose), n, network)
    {
      var service := compose.services[n];
      Edit(n, service.(networks := Some(NetworkObject(NetworksOf(service) - {network}))));
      if compose.networks.Some? {
        compose := compose.(networks := Some(compose.networks.value - {network}));
      }
    }

    /** `output`: checks first; a compose that fails a check is not changed. */
    method Output(orders: map<string, seq<string>>) returns (r: Result<Compose, string>)
      requires Orders(orders, compose)
      modifies this`compose
      ensures r.Ok? <==> Verified(old(compose)) && (allowSubstitution || !Substituted(old(compose)))
      ensures r.Ok? ==> compose == OutputOf(old(compose), orders) && r.value == compose
      ensures r.Err? ==> compose == old(compose)
    {
      if !Verified(compose) { return Err("compose validation"); }
      if !allowSubstitution && Substituted(compose) { return Err("variable substitution not allowed"); }
      compose := compose.(services := map n | n in compose.services :: OutputService(compose.services[n], orders[n]));
      r := Ok(compose);
    }
  }

  // ----- what is written, value by value -----

  /** A field that a service keeps when it is written. */
  predicate KeptField(k: string, value: Json)
  {
    k == "container_name" || k == "image" || (k != "dns" && value != Array([]) && value != Json.Object(map[]))
  }

  /** The fields of a service outside the modelled ones. */
  predicate FieldsKept(before: map<string, Json>, after: map<string, Json>)
  {
    forall k :: k in before.Keys + after.Keys ==>
      (k in after <==> k in before && KeptField(k, before[k])) && (k in after ==> after[k] == before[k])
  }

  /** A list or object that is kept, unless it is empty. */
  predicate Unless<T(==)>(before: Option<T>, empty: T, after: Option<T>)
  {
    after == if before == Some(empty) then None else before
  }

  predicate NetworksKept(before: Option<ServiceNetworks>, after: Option<ServiceNetworks>)
  {
    match before
    case None => after == None
    case Some(NetworkList(names)) => after == if names == [] then None else Some(NetworkList(names))
    case Some(NetworkObject(nets)) => after == if nets == map[] then None else Some(NetworkObject(nets))
  }

  ghost predicate VariablesWritten(before: Option<EnvField>, order: seq<string>, after: Option<EnvField>)
  {
    match before
    case None => after == None
    case Some(Rows(rows)) => after == if rows == [] then None else Some(Rows(rows))
    case Some(Object(envs)) => RowsOf(envs, order, after)
  }

  /** One service before and after it was written. */
  ghost predicate ServiceWritten(s: Service, o: Service, order: seq<string>)
  {
    && FieldsKept(s.rest, o.rest)
    && Unless(s.labels, map[], o.labels) && Unless(s.ports, [], o.ports) && Unless(s.volumes, [], o.volumes)
    && NetworksKept(s.networks, o.networks)
    && VariablesWritten(s.environment, order, o.environment)
  }

  /** Variables as rows in the listed order, `NAME=value`, or just the name for an empty value; nothing
      when there are none. */
  ghost predicate RowsOf(envs: Envs, order: seq<string>, written: Option<EnvField>)
  {
    var named := Positions(order, k => k != "");
    if named == [] then written == None
    else
      && written.Some? && written.value.Rows? && |written.value.rows| == |named|
      && forall i :: 0 <= i < |named| ==>
           RowIs(envs, order[named[i]], written.value.rows[i])
  }

  /** The row of one variable. */
  predicate RowIs(envs: Envs, k: string, row: string)
  {
    k in envs && row == if envs[k] == "" then k else k + "=" + envs[k]
  }

  lemma {:induction false} PrintedRows(envs: Envs, order: seq<string>)
    requires forall i :: 0 <= i < |order| ==> order[i] in envs
    ensures var rows, named := Environment.Print(envs, order), Positions(order, k => k != "");
      && |rows| == |named|
      && forall i :: 0 <= i < |named| ==> RowIs(envs, order[named[i]], rows[i])
  {
    hide RowIs;
    hide PrintRow;
    if order != [] {
      PrintedRows(envs, order[..|order| - 1]);
      PrintedRow(envs, order[|order| - 1]);
    }
  }

  lemma PrintedRow(envs: Envs, k: string)
    requires k in envs
    ensures RowIs(envs, k, PrintRow(k, envs[k]))
  {
  }

  lemma FieldsAreKept(s: Service, order: seq<string>)
    requires Enumerates(order, EnvsOf(s).Keys)
    ensures FieldsKept(s.rest, OutputService(s, order).rest)
  {
    hide Enumerates;
    hide EnvsOf;
    hide Environment.Print;
  }

  lemma ListsAreKept(s: Service, order: seq<string>)
    requires Enumerates(order, EnvsOf(s).Keys)
    ensures var o := OutputService(s, order);
      && Unless(s.labels, map[], o.labels) && Unless(s.ports, [], o.ports) && Unless(s.volumes, [], o.volumes)
      && NetworksKept(s.networks, o.networks)
  {
    hide Enumerates;
    hide EnvsOf;
    hide Environment.Print;
  }

  lemma VariablesAreWritten(s: Service, order: seq<string>)
    requires Enumerates(order, EnvsOf(s).Keys)
    ensures VariablesWritten(s.environment, order, OutputService(s, order).environment)
  {
    ListedKeys(order, EnvsOf(s).Keys);
    hide Enumerates;
    OutputEnvironment(s, order);
    PrintedRows(EnvsOf(s), order);
    hide Environment.Print;
    hide OutputService;
    hide RowIs;
    hide Positions;
  }

  lemma OutputEnvironment(s: Service, order: seq<string>)
    requires Enumerates(order, EnvsOf(s).Keys)
    ensures var rows := Environment.Print(EnvsOf(s), order);
      OutputService(s, order).environment ==
        match s.environment
        case None => None
        case Some(Rows(given)) => if given == [] then None else Some(Rows(given))
        case Some(Object(_)) => if rows == [] then None else Some(Rows(rows))
  {
    hide Enumerates;
    hide Environment.Print;
  }

  lemma ServiceIsWritten(s: Service, order: seq<string>)
    requires Enumerates(order, EnvsOf(s).Keys)
    ensures ServiceWritten(s, OutputService(s, order), order)
  {
    hide *;
    FieldsAreKept(s, order);
    ListsAreKept(s, order);
    VariablesAreWritten(s, order);
    PartsWritten(s, OutputService(s, order), order);
  }

  lemma PartsWritten(s: Service, o: Service, order: seq<string>)
    requires FieldsKept(s.rest, o.rest) && NetworksKept(s.networks, o.networks)
    requires Unless(s.labels, map[], o.labels) && Unless(s.ports, [], o.ports) && Unless(s.volumes, [], o.volumes)
    requires VariablesWritten(s.environment, order, o.environment)
    ensures ServiceWritten(s, o, order)
  {
    hide FieldsKept;
    hide NetworksKept;
    hide VariablesWritten;
  }

  /** The file that is written: version, volumes and networks as they are, and every service. */
  lemma FileWritten(c: Compose, orders: map<string, seq<string>>)
    requires Orders(orders, c)
    ensures var o := OutputOf(c, orders);
      && o.version == c.version && o.volumes == c.volumes && o.networks == c.networks
      && o.services.Keys == c.services.Keys
      && forall n :: n in c.services ==> ServiceWritten(c.services[n], o.services[n], orders[n])
  {
    hide ServiceWritten;
    hide OutputService;
    hide Enumerates;
    hide EnvsOf;
    forall n | n in c.services
      ensures ServiceWritten(c.services[n], OutputService(c.services[n], orders[n]), orders[n])
    {
      OrdersAt(c, orders, n);
      ServiceIsWritten(c.services[n], orders[n]);
    }
  }

  // ----- writing loses no user setting -----

  /** The variables are written anew: they are not a list of rows yet. */
  predicate Reprinted(s: Service)
  {
    s.environment.Some? && s.environment.value.Object?
  }

  lemma OutputEnvs(s: Service, order: seq<string>)
    requires Enumerates(order, EnvsOf(s).Keys)
    ensures EnvsOf(OutputService(s, order)) == if Reprinted(s) then ParseRows(Print(EnvsOf(s), order)) else EnvsOf(s)
  {
    hide Environment.Print;
    hide Environment.ParseRows;
    hide Enumerates;
    NoRows();
  }

  lemma OutputFields(s: Service, order: seq<string>)
    requires Enumerates(order, EnvsOf(s).Keys)
    ensures var o := OutputService(s, order);
      && OrElse(o.ports, []) == OrElse(s.ports, []) && OrElse(o.volumes, []) == OrElse(s.volumes, [])
  {
    hide Environment.Print;
    hide Enumerates;
    hide EnvsOf;
  }

  /** A service is read back as it was exactly when it had rows or every variable is printable. */
  lemma ReadOutputService(s: Service, order: seq<string>)
    requires Enumerates(order, EnvsOf(s).Keys)
    ensures EnvsOf(OutputService(s, order)) == EnvsOf(s) <==> (Reprinted(s) ==> Printable(EnvsOf(s)))
  {
    hide *;
    OutputEnvs(s, order);
    RoundTrip(EnvsOf(s), order);
  }

  lemma OutputNetworks(s: Service, order: seq<string>)
    requires Enumerates(order, EnvsOf(s).Keys)
    ensures NetworksOf(OutputService(s, order)) == NetworksOf(s)
  {
    hide Environment.Print;
    hide Enumerates;
    hide EnvsOf;
  }

  /** Writing and reading again changes no network. */
  lemma SavedKeepsNetworks(c: Compose, order: KeyOrder)
    ensures Saved(c, order).networks == c.networks && Saved(c, order).services.Keys == c.services.Keys
    ensures forall n :: n in c.services ==> NetworksOf(Saved(c, order).services[n]) == NetworksOf(c.services[n])
  {
    hide Enumerates;
    hide OutputService;
    hide NetworksOf;
    hide EnvsOf;
    forall n | n in c.services { OutputNetworks(c.services[n], order(EnvsOf(c.services[n]).Keys)); }
  }

  lemma NoRows()
    ensures ParseRows([]) == map[]
  {
  }

  lemma OutputServices(c: Compose, orders: map<string, seq<string>>)
    requires Orders(orders, c)
    ensures var o := OutputOf(c, orders);
      && o.services.Keys == c.services.Keys && o.volumes == c.volumes && o.networks == c.networks
      && forall n :: n in c.services ==> o.services[n] == OutputService(c.services[n], orders[n])
  {
    hide OutputService;
    hide Enumerates;
    hide EnvsOf;
  }

  /** Writing a file keeps all settings but the variables. */
  lemma OutputAgrees(c: Compose, orders: map<string, seq<string>>)
    requires Orders(orders, c)
    ensures var (w, s) := (UserSettings.Parse(OutputOf(c, orders)), UserSettings.Parse(c));
      w == s.(environment := w.environment)
  {
    hide *;
    var o := OutputOf(c, orders);
    OutputServices(c, orders);
    forall n | n in c.services
      ensures NetworksOf(o.services[n]) == NetworksOf(c.services[n])
      ensures OrElse(o.services[n].ports, []) == OrElse(c.services[n].ports, [])
      ensures OrElse(o.services[n].volumes, []) == OrElse(c.services[n].volumes, [])
    {
      OrdersAt(c, orders, n);
      OutputFields(c.services[n], orders[n]);
      OutputNetworks(c.services[n], orders[n]);
    }
    VolumesUsed(c, o);
    MountpointsOf(c, o);
    NetworkSettingsSame(c, o);
    PortSettingsSame(c, o);
    ParsedParts(c);
    ParsedParts(o);
  }

  lemma OrdersAt(c: Compose, orders: map<string, seq<string>>, n: string)
    requires Orders(orders, c) && n in c.services
    ensures n in orders && Enumerates(orders[n], EnvsOf(c.services[n]).Keys)
  {
  }

  lemma VolumesUsed(c: Compose, o: Compose)
    requires o.services.Keys == c.services.Keys
    requires forall n :: n in c.services ==> OrElse(o.services[n].volumes, []) == OrElse(c.services[n].volumes, [])
    ensures forall v :: UserSettings.VolumeUsed(o, v) <==> UserSettings.VolumeUsed(c, v)
  {
    hide UserSettings.StartsSome;
  }

  /** The ports that are read. */
  function PortSettings(c: Compose): map<string, UserSettings.StringMap>
  {
    map n | n in c.services :: UserSettings.HostsById(Ports.ParseAll(OrElse(c.services[n].ports, [])))
  }

  lemma PortSettingsSame(c: Compose, o: Compose)
    requires o.services.Keys == c.services.Keys
    requires forall n :: n in c.services ==> OrElse(o.services[n].ports, []) == OrElse(c.services[n].ports, [])
    ensures PortSettings(o) == PortSettings(c)
  {
    hide UserSettings.HostsById;
    hide Ports.ParseAll;
  }

  lemma ParsedParts(c: Compose)
    ensures var s := UserSettings.Parse(c);
      && s.environment == UserSettings.OmitEmpty(map n | n in c.services :: EnvsOf(c.services[n]))
      && s.portMappings == UserSettings.OmitEmpty(PortSettings(c))
      && s.namedVolumeMountpoints
           == (if UserSettings.Mountpoints(c) == map[] then None else Some(UserSettings.Mountpoints(c)))
      && s.allNamedVolumeMountpoint == None && s.networks == UserSettings.NetworkSettingsOf(c)
  {
    hide UserSettings.OmitEmpty;
    hide UserSettings.Mountpoints;
    hide UserSettings.NetworkSettingsOf;
    hide UserSettings.HostsById;
    hide Ports.ParseAll;
    hide EnvsOf;
  }

  /** The user settings read from the written file are the ones read before writing exactly when
      every variable that is not written as a row yet is printable. */
  lemma OutputKeepsSettings(c: Compose, orders: map<string, seq<string>>)
    requires Orders(orders, c)
    ensures UserSettings.Parse(OutputOf(c, orders)) == UserSettings.Parse(c)
      <==> forall n :: n in c.services && Reprinted(c.services[n]) ==> Printable(EnvsOf(c.services[n]))
  {
    hide *;
    var o := OutputOf(c, orders);
    OutputServices(c, orders);
    OutputAgrees(c, orders);
    forall n | n in c.services
      ensures EnvsOf(o.services[n]) == EnvsOf(c.services[n])
        <==> (Reprinted(c.services[n]) ==> Printable(EnvsOf(c.services[n])))
    {
      OrdersAt(c, orders, n);
      ReadOutputService(c.services[n], orders[n]);
    }
    if UserSettings.Parse(o) == UserSettings.Parse(c) {
      forall n | n in c.services ensures EnvsOf(o.services[n]) == EnvsOf(c.services[n]) {
        UserSettings.ParsedChoices(c, n);
        UserSettings.ParsedChoices(o, n);
      }
    }
    if forall n :: n in c.services ==> EnvsOf(o.services[n]) == EnvsOf(c.services[n]) {
      ParsedParts(c);
      ParsedParts(o);
      assert (map n | n in o.services :: EnvsOf(o.services[n])) == (map n | n in c.services :: EnvsOf(c.services[n]));
    }
  }

  lemma MountpointsOf(c: Compose, o: Compose)
    requires c.volumes == o.volumes
    requires forall v :: UserSettings.VolumeUsed(o, v) <==> UserSettings.VolumeUsed(c, v)
    ensures UserSettings.Mountpoints(c) == UserSettings.Mountpoints(o)
  {
    hide UserSettings.VolumeUsed;
    hide UserSettings.Device;
    var volumes := OrElse(c.volumes, map[]);
    forall v | v in volumes
      ensures UserSettings.MountpointSetting(c, v, volumes[v]) == UserSettings.MountpointSetting(o, v, volumes[v])
    {
    }
  }

  lemma NetworkSettingsSame(c: Compose, o: Compose)
    requires c.networks == o.networks && c.services.Keys == o.services.Keys
    requires forall n :: n in c.services ==> NetworksOf(o.services[n]) == NetworksOf(c.services[n])
    ensures UserSettings.NetworkSettingsOf(c) == UserSettings.NetworkSettingsOf(o)
  {
    hide NetworksOf;
    assert c.services == map[] <==> c.services.Keys == {};
    assert o.services == map[] <==> o.services.Keys == {};
    assert (map n | n in c.services :: NetworkObject(NetworksOf(c.services[n])))
      == (map n | n in o.services :: NetworkObject(NetworksOf(o.services[n])));
  }

  /** What is left of written variables after the file was read and they were applied to the package
      again: a variable read as empty falls back to the package's value. */
  predicate EnvsSurvive(base: Envs, written: Envs, order: seq<string>)
    requires Enumerates(order, written.Keys)
  {
    UserSettings.NextEnvs(base, ParseRows(Print(written, order))) == written
  }

  /** The variables written for one service. */
  function WrittenEnvs(c: Compose, s: UserSettings.UserSettings, n: string): Envs
    requires n in c.services
  {
    UserSettings.NextEnvs(EnvsOf(c.services[n]), UserSettings.ChoicesFor(s, n).envs)
  }

  /** The written compose, variable by variable. */
  lemma AppliedEnvs(c: Compose, s: UserSettings.UserSettings, dnpName: string, orders: map<string, seq<string>>,
                    n: string)
    requires UserSettings.MountpointsAbsolute(c, s) && n in c.services
    requires Orders(orders, UserSettings.Applied(c, s, dnpName))
    ensures n in orders && Enumerates(orders[n], WrittenEnvs(c, s, n).Keys)
    ensures UserSettings.ChoicesFor(UserSettings.Parse(OutputOf(UserSettings.Applied(c, s, dnpName), orders)), n).envs
      == ParseRows(Print(WrittenEnvs(c, s, n), orders[n]))
  {
    hide *;
    var r := UserSettings.Applied(c, s, dnpName);
    UserSettings.AppliedService(c, s, dnpName, n);
    UserSettings.ReadCleaned(c.services[n], UserSettings.ChoicesFor(s, n));
    assert EnvsOf(r.services[n]) == WrittenEnvs(c, s, n) by { WrittenEnvsIs(c, s, n); }
    OrdersAt(r, orders, n);
    OutputServices(r, orders);
    UserSettings.ParsedChoices(OutputOf(r, orders), n);
    OutputEnvs(r.services[n], orders[n]);
    if !Reprinted(r.services[n]) {
      CleanedEnvs(c.services[n], UserSettings.ChoicesFor(s, n));
      PrintNothing(WrittenEnvs(c, s, n), orders[n]);
      NoRows();
    }
  }

  lemma WrittenEnvsIs(c: Compose, s: UserSettings.UserSettings, n: string)
    requires n in c.services
    ensures WrittenEnvs(c, s, n) == UserSettings.NextEnvs(EnvsOf(c.services[n]), UserSettings.ChoicesFor(s, n).envs)
  {
  }

  /** Applied settings leave an object, or nothing. */
  lemma CleanedEnvs(service: Service, u: UserSettings.ServiceChoices)
    ensures var done := CleanService(UserSettings.ApplyService(service, u));
      !Reprinted(done) ==> EnvsOf(done) == map[]
  {
    hide UserSettings.NextEnvs;
    hide UserSettings.NextPorts;
    hide UserSettings.ReprintVolumes;
    hide UserSettings.NextNetworks;
    hide UserSettings.DefaultLabels;
    hide CleanRest;
  }

  lemma PrintNothing(envs: Envs, order: seq<string>)
    requires envs == map[] && Enumerates(order, envs.Keys)
    ensures Environment.Print(envs, order) == []
  {
    assert |order| == 0;
  }

  /** The fixpoint of the user settings, with the file written and read in between: the settings
      reproduce the file exactly when it is stable and the variables of every service survive. */
  lemma FixpointThroughFile(c: Compose, s: UserSettings.UserSettings, dnpName: string,
                            orders: map<string, seq<string>>)
    requires UserSettings.MountpointsAbsolute(c, s)
    requires Orders(orders, UserSettings.Applied(c, s, dnpName))
    ensures forall n :: n in c.services ==> n in orders && Enumerates(orders[n], WrittenEnvs(c, s, n).Keys)
    ensures var r := UserSettings.Applied(c, s, dnpName);
      UserSettings.Apply(c, UserSettings.Parse(OutputOf(r, orders)), dnpName) == Ok(r)
      <==> (UserSettings.Stable(c, s, dnpName)
            && forall n :: n in c.services ==> EnvsSurvive(EnvsOf(c.services[n]), WrittenEnvs(c, s, n), orders[n]))
  {
    hide *;
    var r := UserSettings.Applied(c, s, dnpName);
    var w := UserSettings.Parse(OutputOf(r, orders));
    OutputAgrees(r, orders);
    OnlyEnvsDiffer(c, w, UserSettings.Parse(r));
    UserSettings.FixpointWith(c, s, w, dnpName);
    UserSettings.SameEnvsIs(c, w, s);
    forall n | n in c.services
      ensures n in orders && Enumerates(orders[n], WrittenEnvs(c, s, n).Keys)
      ensures EnvsSurvive(EnvsOf(c.services[n]), WrittenEnvs(c, s, n), orders[n]) <==>
        UserSettings.NextEnvs(EnvsOf(c.services[n]), UserSettings.ChoicesFor(w, n).envs)
          == UserSettings.NextEnvs(EnvsOf(c.services[n]), UserSettings.ChoicesFor(s, n).envs)
    {
      AppliedEnvs(c, s, dnpName, orders, n);
      WrittenEnvsIs(c, s, n);
      SurviveIs(EnvsOf(c.services[n]), WrittenEnvs(c, s, n), orders[n]);
    }
  }

  lemma OnlyEnvsDiffer(c: Compose, w: UserSettings.UserSettings, s: UserSettings.UserSettings)
    requires w == s.(environment := w.environment)
    ensures UserSettings.AgreeButEnvs(c, w, s)
  {
    hide UserSettings.Lookup;
  }

  lemma SurviveIs(base: Envs, written: Envs, order: seq<string>)
    requires Enumerates(order, written.Keys)
    ensures EnvsSurvive(base, written, order)
      <==> UserSettings.NextEnvs(base, ParseRows(Print(written, order))) == written
  {
    hide Enumerates;
    hide UserSettings.NextEnvs;
    hide ParseRows;
    hide Print;
  }

  /** What decides for one variable, with the package's value and the one that was written: it is
      read as it is, or as empty while the package has the same value. */
  predicate ValueSurvives(base: string, written: string)
  {
    ReadValue(written) == written || (ReadValue(written) == "" && written == base)
  }

  /** Under usable names the variables of a service survive exactly when each value does. */
  lemma EnvsSurviveIs(base: Envs, user: UserSettings.StringMap, order: seq<string>)
    requires var written := UserSettings.NextEnvs(base, user);
      Enumerates(order, written.Keys) && forall k :: k in written ==> Nameable(k, written[k])
    ensures var written := UserSettings.NextEnvs(base, user);
      EnvsSurvive(base, written, order) <==> forall k :: k in base ==> ValueSurvives(base[k], written[k])
  {
    hide *;
    var written := UserSettings.NextEnvs(base, user);
    ListedKeys(order, written.Keys);
    var read := ParseRows(Print(written, order));
    ReadBackNamed(written, order);
    NextEnvsAt(base, user);
    NextEnvsAt(base, read);
    var again := UserSettings.NextEnvs(base, read);
    SurviveIs(base, written, order);
    forall k | k in base ensures again[k] == written[k] <==> ValueSurvives(base[k], written[k]) {
      ReadAgain(base, user, read, k);
    }
    assert again == written <==> forall k :: k in base ==> again[k] == written[k];
  }

  lemma ListedKeys(order: seq<string>, keys: set<string>)
    requires Enumerates(order, keys)
    ensures forall i :: 0 <= i < |order| ==> order[i] in keys
  {
  }

  lemma NextEnvsAt(base: Envs, user: UserSettings.StringMap)
    ensures UserSettings.NextEnvs(base, user).Keys == base.Keys
  {
  }

  lemma ReadAgain(base: Envs, user: UserSettings.StringMap, read: Envs, k: string)
    requires k in base && k in read && read[k] == ReadValue(UserSettings.NextEnvs(base, user)[k])
    ensures UserSettings.NextEnvs(base, read)[k] == UserSettings.NextEnvs(base, user)[k]
      <==> ValueSurvives(base[k], UserSettings.NextEnvs(base, user)[k])
  {
    hide ReadValue;
    ReadValueIs(base[k]);
  }

  /** The names of all written variables are usable. */
  predicate Named(c: Compose, s: UserSettings.UserSettings)
  {
    forall n, k :: n in c.services && k in WrittenEnvs(c, s, n) ==> Nameable(k, WrittenEnvs(c, s, n)[k])
  }

  /** The same law value by value: the settings reproduce the written file exactly when it is stable
      and every value is one line without trailing blanks, or is empty once read and the package's own. */
  lemma NamedFixpointThroughFile(c: Compose, s: UserSettings.UserSettings, dnpName: string,
                                 orders: map<string, seq<string>>)
    requires UserSettings.MountpointsAbsolute(c, s) && Named(c, s)
    requires Orders(orders, UserSettings.Applied(c, s, dnpName))
    ensures forall n :: n in c.services ==> WrittenEnvs(c, s, n).Keys == EnvsOf(c.services[n]).Keys
    ensures var r := UserSettings.Applied(c, s, dnpName);
      UserSettings.Apply(c, UserSettings.Parse(OutputOf(r, orders)), dnpName) == Ok(r)
      <==> (UserSettings.Stable(c, s, dnpName)
            && forall n, k :: n in c.services && k in EnvsOf(c.services[n]) ==>
                 ValueSurvives(EnvsOf(c.services[n])[k], WrittenEnvs(c, s, n)[k]))
  {
    FixpointThroughFile(c, s, dnpName, orders);
    forall n | n in c.services
      ensures WrittenEnvs(c, s, n).Keys == EnvsOf(c.services[n]).Keys
      ensures EnvsSurvive(EnvsOf(c.services[n]), WrittenEnvs(c, s, n), orders[n]) <==>
        forall k :: k in EnvsOf(c.services[n]) ==> ValueSurvives(EnvsOf(c.services[n])[k], WrittenEnvs(c, s, n)[k])
    {
      hide Enumerates;
      hide Nameable;
      hide UserSettings.NextEnvs;
      var base, user := EnvsOf(c.services[n]), UserSettings.ChoicesFor(s, n).envs;
      NextEnvsAt(base, user);
      EnvsSurviveIs(base, user, orders[n]);
    }
    hide *;
  }

  /** A package with one variable. */
  function OneVariable(value: string): Compose
  {
    Compose("3.5", map["geth" := Service(Some(EnvField.Object(map["A" := value])), None, None, None, None, map[])],
      None, None)
  }

  /** The user's choice for that variable. */
  function Choice(value: string): UserSettings.UserSettings
  {
    UserSettings.UserSettings(Some(map["geth" := map["A" := value]]), None, None, None, None)
  }

  lemma ChoiceApplies(base: string, value: string)
    ensures UserSettings.MountpointsAbsolute(OneVariable(base), Choice(value))
  {
  }

  lemma OneVariableIs(base: string, value: string)
    requires value != ""
    ensures var (c, s) := (OneVariable(base), Choice(value));
      && c.services.Keys == {"geth"} && EnvsOf(c.services["geth"]) == map["A" := base]
      && WrittenEnvs(c, s, "geth") == map["A" := value]
  {
    var c, s := OneVariable(base), Choice(value);
    assert "geth" in c.services && EnvsOf(c.services["geth"]) == map["A" := base];
    assert UserSettings.ChoicesFor(s, "geth").envs == map["A" := value];
  }

  /** Without that the law fails: a value chosen with a trailing blank is read back without it. */
  lemma TrailingBlankIsLost(orders: map<string, seq<string>>)
    requires UserSettings.MountpointsAbsolute(OneVariable("x"), Choice("a ")) ==>
      Orders(orders, UserSettings.Applied(OneVariable("x"), Choice("a "), "geth"))
    ensures UserSettings.MountpointsAbsolute(OneVariable("x"), Choice("a "))
    ensures var r := UserSettings.Applied(OneVariable("x"), Choice("a "), "geth");
      UserSettings.Apply(OneVariable("x"), UserSettings.Parse(OutputOf(r, orders)), "geth") != Ok(r)
  {
    hide *;
    var c, s, k := OneVariable("x"), Choice("a "), "A";
    ChoiceApplies("x", "a ");
    OneVariableIs("x", "a ");
    NamedOne(c, s, "a ");
    NamedFixpointThroughFile(c, s, "geth", orders);
    BlankDoesNotSurvive();
    assert k in EnvsOf(c.services["geth"]);
  }

  lemma NamedOne(c: Compose, s: UserSettings.UserSettings, value: string)
    requires c.services.Keys == {"geth"} && WrittenEnvs(c, s, "geth") == map["A" := value]
    ensures Named(c, s)
  {
    hide WrittenEnvs;
    assert "A"[0] == 'A' && Nameable("A", value);
  }

  lemma BlankDoesNotSurvive()
    ensures !ValueSurvives("x", "a ")
  {
    BlankRead();
    hide ReadValue;
    assert |"a "| != |"a"|;
  }

  lemma BlankRead()
    ensures ReadValue("a ") == "a"
  {
    var a := "a";
    assert "a " == a + " ";
    TrimEndAppend(a, " ");
    assert TrimEnd(" ") == "" by { assert " "[..0] == ""; }
    assert TrimEnd("a ") == a;
    FirstLineAll(a);
  }

  // ----- adding and removing a network -----

  /** Every network that a service joins is declared. */
  predicate Declared(c: Compose)
  {
    forall n, k :: n in c.services && k in NetworksOf(c.services[n]) ==> k in OrElse(c.networks, map[])
  }

  /** Removing a network right after adding it leaves the other networks as they were. */
  lemma RemoveUndoesAdd(c: Compose, n: string, network: string, settings: ServiceNetwork, config: Network)
    requires n in c.services
    requires network !in NetworksOf(c.services[n]) && network !in OrElse(c.networks, map[])
    ensures var r := WithoutNetwork(WithNetwork(c, n, network, settings, config), n, network);
      && r.services == c.services[n := c.services[n].(networks := Some(NetworkObject(NetworksOf(c.services[n]))))]
      && r.networks == Some(OrElse(c.networks, map[]))
      && r.volumes == c.volumes && r.version == c.version
  {
    var nets, root := NetworksOf(c.services[n]), OrElse(c.networks, map[]);
    assert nets[network := Overlay(NO_NETWORK, settings)] - {network} == nets;
    assert root[network := config] - {network} == root;
  }

  /** Adding keeps every joined network declared. */
  lemma AddKeepsDeclared(c: Compose, n: string, network: string, settings: ServiceNetwork, config: Network)
    requires n in c.services && Declared(c)
    ensures Declared(WithNetwork(c, n, network, settings, config))
  {
    hide NetworksOf;
    var r := WithNetwork(c, n, network, settings, config);
    JoinedKeys(c, n, network, settings, config);
  }

  lemma JoinedKeys(c: Compose, n: string, network: string, settings: ServiceNetwork, config: Network)
    requires n in c.services
    ensures NetworksOf(WithNetwork(c, n, network, settings, config).services[n]).Keys
      == NetworksOf(c.services[n]).Keys + {network}
  {
  }

  /** Removing does not: the declaration goes away even if another service still joins the network.
      The file stays consistent exactly when no other service does. */
  lemma RemoveKeepsDeclared(c: Compose, n: string, network: string)
    requires n in c.services && Declared(c)
    ensures Declared(WithoutNetwork(c, n, network))
      <==> forall m :: m in c.services && m != n ==> network !in NetworksOf(c.services[m])
  {
    hide NetworksOf;
    var r := WithoutNetwork(c, n, network);
    assert NetworksOf(r.services[n]).Keys == NetworksOf(c.services[n]).Keys - {network} by { LeftKeys(c, n, network); }
    hide WithoutNetwork;
    WithoutNetworkRest(c, n, network);
    if Declared(r) {
      forall m | m in c.services && m != n ensures network !in NetworksOf(c.services[m]) {
        assert m in r.services && r.services[m] == c.services[m];
      }
    }
  }

  /** Concretely: two services on one network, and the first leaves. */
  lemma SharedNetworkIsUndeclared()
    ensures var joined := Service(None, None, None, Some(NetworkList(["net"])), None, map[]);
      var c := Compose("3.5", map["a" := joined, "b" := joined], None, Some(map["net" := Network(Some(true), map[])]));
      Declared(c) && !Declared(WithoutNetwork(c, "a", "net"))
  {
    var joined := Service(None, None, None, Some(NetworkList(["net"])), None, map[]);
    var c := Compose("3.5", map["a" := joined, "b" := joined], None, Some(map["net" := Network(Some(true), map[])]));
    assert ["net"][0] == "net" && "net" in NetworksOf(c.services["b"]);
    assert Declared(c);
    hide WithoutNetwork;
    RemoveKeepsDeclared(c, "a", "net");
  }

  lemma WithoutNetworkRest(c: Compose, n: string, network: string)
    requires n in c.services
    ensures var r := WithoutNetwork(c, n, network);
      && r.services.Keys == c.services.Keys
      && (forall m :: m in c.services && m != n ==> r.services[m] == c.services[m])
      && OrElse(r.networks, map[]) == OrElse(c.networks, map[]) - {network}
  {
  }

  lemma LeftKeys(c: Compose, n: string, network: string)
    requires n in c.services
    ensures NetworksOf(WithoutNetwork(c, n, network).services[n]).Keys == NetworksOf(c.services[n]).Keys - {network}
  {
  }
}
