/** What the editor's merges leave in the file, value by value (packages/dockerCompose/src/editor.ts, ports.ts,
    packages/utils/src/environment.ts). */
module EditorValues {
  import opened Wrappers
  import opened Strings
  import opened Compose
  import opened Environment
  import opened ComposeEditor
  import Numbers
  import Ports

  // ----- ports -----

  /** The key under which port mappings are told apart. */
  lemma IdText(m: Ports.PortMapping)
    ensures Ports.Id(m) == Numbers.Print(m.container) + if m.protocol == Ports.UDP then "/UDP" else "/TCP"
  {
    hide Numbers.Print;
    assert "/" + "UDP" == "/UDP" && "/" + "TCP" == "/TCP";
    var c := Numbers.Print(m.container);
    assert c + "/" + "UDP" == c + ("/" + "UDP") && c + "/" + "TCP" == c + ("/" + "TCP");
  }

  /** A suffix names UDP in any case; everything else is TCP. */
  lemma ProtocolRead(row: string)
    ensures var parts := Split(row, '/');
      Ports.Parse(row).protocol ==
        if |parts| > 1 && |parts[1]| == 3
             && parts[1][0] in {'u', 'U'} && parts[1][1] in {'d', 'D'} && parts[1][2] in {'p', 'P'}
        then Ports.UDP else Ports.TCP
  {
    hide Split;
    hide Numbers.ParseInt;
    var parts := Split(row, '/');
    if |parts| > 1 { UdpLetters(parts[1]); }
  }

  lemma UdpLetters(s: string)
    ensures Ports.IsUdp(s) <==> |s| == 3 && s[0] in {'u', 'U'} && s[1] in {'d', 'D'} && s[2] in {'p', 'P'}
  {
  }

  /** The numbers of a row: after a colon the container, before it the host; the only one is the container. */
  lemma NumbersRead(a: string, b: string)
    requires ':' !in a && '/' !in a && ':' !in b && '/' !in b
    ensures Numbers.Truthy(Numbers.ParseInt(b)) ==>
      Ports.Parse(a + ":" + b) == Ports.PortMapping(Some(Numbers.ParseInt(a)), Numbers.ParseInt(b), Ports.TCP)
    ensures Ports.Parse(a) == Ports.PortMapping(None, Numbers.ParseInt(a), Ports.TCP)
  {
    hide Numbers.ParseInt;
    hide Numbers.Truthy;
    var row := a + ":" + b;
    assert row == a + [':'] + b;
    NoSlashIn(a, b);
    SplitWithout(row, '/');
    SplitWithout(a, '/');
    SplitWithout(a, ':');
    SplitFirst(a, ':', b);
    SplitWithout(b, ':');
    NothingIsNaN();
    assert [a] + [b] == [a, b];
    hide Split;
  }

  lemma NoSlashIn(a: string, b: string)
    requires '/' !in a && '/' !in b
    ensures '/' !in a + ":" + b
  {
    assert forall c :: c in a + ":" + b <==> c in a || c == ':' || c in b;
  }

  lemma NothingIsNaN()
    ensures !Numbers.Truthy(Numbers.NaN)
  {
  }

  /** The first mapping of its id in a list. */
  predicate FirstOfItsId(ms: seq<Ports.PortMapping>, k: nat)
    requires k < |ms|
  {
    forall j :: 0 <= j < k ==> Ports.Id(ms[j]) != Ports.Id(ms[k])
  }

  /** No mapping of the list has the same id. */
  predicate Unnamed(ms: seq<Ports.PortMapping>, m: Ports.PortMapping) {
    forall i :: 0 <= i < |ms| ==> Ports.Id(ms[i]) != Ports.Id(m)
  }

  lemma {:induction false} LookupFirst(ms: seq<Ports.PortMapping>, k: nat)
    requires k < |ms| && FirstOfItsId(ms, k)
    ensures Ports.Lookup(ms, Ports.Id(ms[k])) == Some(ms[k])
  {
    hide Ports.Id;
    if k > 0 {
      assert forall j :: 0 <= j < k - 1 ==> ms[1..][j] == ms[j + 1];
      assert ms[1..][k - 1] == ms[k];
      LookupFirst(ms[1..], k - 1);
    }
  }

  lemma {:induction false} LookupIn(ms: seq<Ports.PortMapping>, id: string)
    requires Ports.Lookup(ms, id).Some?
    ensures Ports.Lookup(ms, id).value in ms && Ports.Id(Ports.Lookup(ms, id).value) == id
  {
    hide Ports.Id;
    if ms != [] && Ports.Id(ms[0]) != id { LookupIn(ms[1..], id); }
  }

  lemma {:induction false} IdsAre(ms: seq<Ports.PortMapping>, id: string)
    ensures id in Ports.Ids(ms) <==> exists i :: 0 <= i < |ms| && Ports.Id(ms[i]) == id
  {
    hide Ports.Id;
  }

  /** Merging port mappings into a service: the new ones are written, the old ones that they do not
      replace stay, and there are no others and none twice. */
  lemma PortsMerged(c: Compose, n: string, ports: seq<Ports.PortMapping>) returns (merged: seq<Ports.PortMapping>)
    requires n in c.services
    ensures WithPorts(c, n, ports)
      == c.(services := c.services[n := c.services[n].(ports := Some(Ports.PrintAll(merged)))])
    ensures var before := Ports.ParseAll(OrElse(c.services[n].ports, []));
      && (forall k :: 0 <= k < |ports| && FirstOfItsId(ports, k) ==> ports[k] in merged)
      && (forall k :: 0 <= k < |before| && FirstOfItsId(before, k) && Unnamed(ports, before[k]) ==> before[k] in merged)
      && (forall m :: m in merged ==> m in ports || (m in before && Unnamed(ports, m)))
      && forall i, j :: 0 <= i < j < |merged| ==> Ports.Id(merged[i]) != Ports.Id(merged[j])
  {
    var before := Ports.ParseAll(OrElse(c.services[n].ports, []));
    merged := Ports.Merge(ports, before);
    Ports.MergeMeaning(ports, before);
    hide Ports.Merge;
    hide Ports.Id;
    hide Ports.ParseAll;
    forall id ensures id in Ports.Ids(ports) <==> exists i :: 0 <= i < |ports| && Ports.Id(ports[i]) == id {
      IdsAre(ports, id);
    }
    forall k | 0 <= k < |ports| && FirstOfItsId(ports, k) ensures ports[k] in merged {
      LookupFirst(ports, k);
      LookupIn(merged, Ports.Id(ports[k]));
    }
    forall k | 0 <= k < |before| && FirstOfItsId(before, k) && Unnamed(ports, before[k])
      ensures before[k] in merged
    {
      LookupFirst(before, k);
      LookupIn(merged, Ports.Id(before[k]));
    }
    forall i | 0 <= i < |merged|
      ensures merged[i] in ports || (merged[i] in before && Unnamed(ports, merged[i]))
    {
      assert FirstOfItsId(merged, i);
      LookupFirst(merged, i);
      var id := Ports.Id(merged[i]);
      if id in Ports.Ids(ports) { LookupIn(ports, id); } else { LookupIn(before, id); }
    }
  }

  // ----- variables -----

  /** Merging variables into a service: a row for each name, in the listed order, with the new value if
      there is one, else the old one. */
  lemma EnvsMerged(c: Compose, n: string, envs: Envs, order: seq<string>)
    requires n in c.services
    requires Enumerates(order, Merge(envs, EnvsOf(c.services[n])).Keys)
    ensures var after := WithEnvs(c, n, envs, order).services[n].environment;
      WithEnvs(c, n, envs, order) == c.(services := c.services[n := c.services[n].(environment := after)])
    ensures var before, after := EnvsOf(c.services[n]), WithEnvs(c, n, envs, order).services[n].environment;
      && after.Some? && after.value.Rows? && |after.value.rows| == |order|
      && (forall k :: k in order <==> k != "" && (k in envs || k in before))
      && forall i :: 0 <= i < |order| ==>
           var k := order[i];
           var value := if k in envs then envs[k] else before[k];
           after.value.rows[i] == if value == "" then k else k + "=" + value
  {
    var merged := Merge(envs, EnvsOf(c.services[n]));
    MergeLaws(envs, EnvsOf(c.services[n]), map[]);
    ListedKeys(order, merged.Keys);
    AllListed(order, merged.Keys);
    hide Enumerates;
    hide Merge;
    hide EnvsOf;
    RowsInOrder(merged, order);
    hide Environment.Print;
  }

  lemma AllListed(order: seq<string>, keys: set<string>)
    requires Enumerates(order, keys)
    ensures forall k :: k in order <==> k in keys
  {
  }

  lemma {:induction false} RowsInOrder(envs: Envs, order: seq<string>)
    requires forall i :: 0 <= i < |order| ==> order[i] in envs && order[i] != ""
    ensures |Environment.Print(envs, order)| == |order|
    ensures forall i :: 0 <= i < |order| ==>
      Environment.Print(envs, order)[i] == if envs[order[i]] == "" then order[i] else order[i] + "=" + envs[order[i]]
  {
    if order != [] { RowsInOrder(envs, order[..|order| - 1]); }
  }

  // ----- networks -----

  /** Joining a network: the service gets the given address and aliases, or keeps what it had of them;
      the network is declared as given unless it was declared. */
  lemma NetworkAdded(c: Compose, n: string, network: string, settings: ServiceNetwork, config: Network)
    requires n in c.services
    ensures var r := WithNetwork(c, n, network, settings, config);
      var before, after := NetworksOf(c.services[n]), NetworksOf(r.services[n]);
      && r == c.(services := c.services[n := c.services[n].(networks := Some(NetworkObject(after)))],
                 networks := r.networks)
      && after.Keys == before.Keys + {network} && (forall k :: k in before && k != network ==> after[k] == before[k])
      && after[network].ipv4 ==
           (if settings.ipv4.Some? then settings.ipv4 else if network in before then before[network].ipv4 else None)
      && after[network].aliases ==
           (if settings.aliases.Some? then settings.aliases
            else if network in before then before[network].aliases else None)
      && var given := OrElse(c.networks, map[]);
         && r.networks.Some? && r.networks.value.Keys == given.Keys + {network}
         && (forall k :: k in given && k != network ==> r.networks.value[k] == given[k])
         && r.networks.value[network]
              == if network in given && given[network] != NullNetwork then given[network] else config
  {
  }

  /** Leaving a network: it goes from the service and from the declarations, and nothing else does. */
  lemma NetworkRemoved(c: Compose, n: string, network: string)
    requires n in c.services
    ensures var r := WithoutNetwork(c, n, network);
      var before, after := NetworksOf(c.services[n]), NetworksOf(r.services[n]);
      && r == c.(services := c.services[n := c.services[n].(networks := Some(NetworkObject(after)))],
                 networks := r.networks)
      && after.Keys == before.Keys - {network} && (forall k :: k in after ==> after[k] == before[k])
      && (c.networks.None? ==> r.networks.None?)
      && (c.networks.Some? ==>
            && r.networks.Some? && r.networks.value.Keys == c.networks.value.Keys - {network}
            && forall k :: k in r.networks.value ==> r.networks.value[k] == c.networks.value[k])
  {
  }

  // ----- what is checked before a file is written -----

  /** A character that ends a line. */
  predicate EndsLine(c: char)
  {
    c as int in {10, 13, 8232, 8233}
  }

  lemma EndsLineIs(c: char)
    ensures EndsLine(c) <==> IsLineEnd(c)
  {
  }

  /** A volume row passes: a host and a target in one line, with a colon in between. */
  ghost predicate RowPasses(row: string)
  {
    exists host, target :: row == host + ":" + target
      && host != "" && ':' !in host && target != "" && !EndsLine(target[0])
  }

  lemma RowChecked(row: string)
    ensures VolumeRowValid(row) <==> RowPasses(row)
  {
    hide IsLineEnd;
    hide EndsLine;
    forall c: char { EndsLineIs(c); }
    var host := Before(row, ':');
    if VolumeRowValid(row) {
      assert row == host + ":" + row[|host| + 1..];
      assert row[|host| + 1..] != "" && !IsLineEnd(row[|host| + 1..][0]);
    }
    forall h, t | row == h + ":" + t && h != "" && ':' !in h && t != "" && !EndsLine(t[0])
      ensures VolumeRowValid(row)
    {
      assert row == h + [':'] + t;
      BeforeFirst(h, ':', t);
      assert row[|h| + 1..] == t;
    }
  }

  /** The ports of a row are at most 65535. */
  predicate PortsPass(row: string)
  {
    var m := Ports.Parse(row);
    && (m.container.Num? ==> m.container.value <= 65535)
    && (match m.host case None => true case Some(NaN) => true case Some(Num(n)) => n <= 65535)
  }

  lemma PortsChecked(row: string)
    ensures PortsPass(row) <==>
      var m := Ports.Parse(row); PortInRange(m.container) && (m.host.Some? ==> PortInRange(m.host.value))
  {
    hide Ports.Parse;
  }

  /** A file passes when every row of every service does. */
  lemma ChecksAre(c: Compose)
    ensures Verified(c) <==> forall n :: n in c.services ==>
      && (forall row :: row in OrElse(c.services[n].volumes, []) ==> RowPasses(row))
      && (forall row :: row in OrElse(c.services[n].ports, []) ==> PortsPass(row))
  {
    hide VolumeRowValid;
    hide RowPasses;
    hide PortsPass;
    hide PortInRange;
    hide Ports.Parse;
    forall row { RowChecked(row); }
    forall row { PortsChecked(row); }
  }

  /** A text that asks for variable substitution. */
  ghost predicate Asks(text: string)
  {
    exists before, after :: text == before + "${" + after
  }

  /** A text stands under some key of a value; the texts of a list do not. */
  ghost predicate Under(value: Json, text: string)
  {
    match value
    case Text(t) => t == text
    case Array(items) => exists i :: 0 <= i < |items| && !items[i].Text? && Under(items[i], text)
    case Object(fields) => exists k :: k in fields && Under(fields[k], text)
    case _ => false
  }

  lemma AsksIs(text: string)
    ensures Contains(text, SUBSTITUTION) <==> Asks(text)
  {
    assert SUBSTITUTION == "${";
    ContainsIs(text, "${");
  }

  lemma {:induction false} ValueAsks(value: Json)
    ensures JsonSubstituted(value) <==> exists text :: Under(value, text) && Asks(text)
    decreases value
  {
    hide Asks;
    hide Contains;
    match value {
      case Text(t) =>
        AsksIs(t);
        assert forall text :: Under(value, text) <==> t == text;
        if Asks(t) { assert Under(value, t); }
      case Array(items) =>
        forall i | 0 <= i < |items| ensures JsonSubstituted(items[i]) <==> exists t :: Under(items[i], t) && Asks(t) {
          ValueAsks(items[i]);
        }
        ListAsks(items);
      case Object(fields) =>
        forall k | k in fields ensures JsonSubstituted(fields[k]) <==> exists t :: Under(fields[k], t) && Asks(t) {
          ValueAsks(fields[k]);
        }
        FieldsAsk(fields);
      case _ =>
    }
  }

  lemma ListAsks(items: seq<Json>)
    requires forall i :: 0 <= i < |items| ==>
      (JsonSubstituted(items[i]) <==> exists t :: Under(items[i], t) && Asks(t))
    ensures JsonSubstituted(Array(items)) <==> exists t :: Under(Array(items), t) && Asks(t)
  {
    hide Asks;
    if i :| 0 <= i < |items| && !items[i].Text? && JsonSubstituted(items[i]) {
      var t :| Under(items[i], t) && Asks(t);
      assert Under(Array(items), t);
    }
    if t :| Under(Array(items), t) && Asks(t) {
      var i :| 0 <= i < |items| && !items[i].Text? && Under(items[i], t);
      assert JsonSubstituted(items[i]);
    }
  }

  lemma FieldsAsk(fields: map<string, Json>)
    requires forall k :: k in fields ==> (JsonSubstituted(fields[k]) <==> exists t :: Under(fields[k], t) && Asks(t))
    ensures JsonSubstituted(Json.Object(fields)) <==> exists t :: Under(Json.Object(fields), t) && Asks(t)
  {
    hide Asks;
    if k :| k in fields && JsonSubstituted(fields[k]) {
      var t :| Under(fields[k], t) && Asks(t);
      assert Under(Json.Object(fields), t);
    }
    if t :| Under(Json.Object(fields), t) && Asks(t) {
      var k :| k in fields && Under(fields[k], t);
      assert JsonSubstituted(fields[k]);
    }
  }

  /** A stored default holds its rows as texts. */
  ghost predicate LabelHolds(stored: Label, text: string)
  {
    match stored
    case PlainLabel(t) => t == text
    case RowsLabel(rows) => text in rows
    case EnvsLabel(envs) => exists k :: k in envs && k != "" && text == if envs[k] == "" then k else k + "=" + envs[k]
  }

  /** A text of a service that is looked at: the value of a variable, unless they are rows, a fixed address, a
      stored default, or what stands under any other key. */
  ghost predicate ServiceHolds(s: Service, text: string)
  {
    || (s.environment.Some? && s.environment.value.Object? && text in s.environment.value.envs.Values)
    || (exists n :: n in NetworksOf(s) && NetworksOf(s)[n].ipv4 == Some(text))
    || (exists k :: k in OrElse(s.labels, map[]) && LabelHolds(OrElse(s.labels, map[])[k], text))
    || FieldsHold(s.rest, text)
  }

  ghost predicate FieldsHold(fields: map<string, Json>, text: string)
  {
    exists k :: k in fields && Under(fields[k], text)
  }

  /** A text of a file that is looked at. */
  ghost predicate Holds(c: Compose, text: string)
  {
    || c.version == text
    || (exists n :: n in c.services && ServiceHolds(c.services[n], text))
    || (exists v :: v in OrElse(c.volumes, map[]) && VolumeHolds(OrElse(c.volumes, map[])[v], text))
    || (exists k :: k in OrElse(c.networks, map[]) && NetworkHolds(OrElse(c.networks, map[])[k], text))
  }

  ghost predicate VolumeHolds(volume: Volume, text: string)
  {
    volume.Volume? && (text in OrElse(volume.driverOpts, map[]).Values || FieldsHold(volume.rest, text))
  }

  ghost predicate NetworkHolds(network: Network, text: string)
  {
    network.Network? && FieldsHold(network.rest, text)
  }

  lemma FieldsAre(fields: map<string, Json>)
    ensures FieldsSubstituted(fields) <==> exists t :: FieldsHold(fields, t) && Asks(t)
  {
    hide Asks;
    hide Under;
    hide JsonSubstituted;
    forall k | k in fields { ValueAsks(fields[k]); }
    if k :| k in fields && JsonSubstituted(fields[k]) {
      var t :| Under(fields[k], t) && Asks(t);
      assert FieldsHold(fields, t);
    }
    if t :| FieldsHold(fields, t) && Asks(t) {
      var k :| k in fields && Under(fields[k], t);
      assert JsonSubstituted(fields[k]);
    }
  }

  lemma TextsAre(texts: map<string, string>)
    ensures TextsSubstituted(texts) <==> exists t :: t in texts.Values && Asks(t)
  {
    hide Asks;
    hide Contains;
    forall k | k in texts ensures texts[k] in texts.Values { AsksIs(texts[k]); }
    if k :| k in texts && Contains(texts[k], SUBSTITUTION) {
      AsksIs(texts[k]);
      assert texts[k] in texts.Values && Asks(texts[k]);
    }
    forall t { AsksIs(t); }
  }

  lemma LabelIs(stored: Label)
    ensures LabelSubstituted(stored) <==> exists t :: LabelHolds(stored, t) && Asks(t)
  {
    hide Asks;
    hide Contains;
    forall t { AsksIs(t); }
    match stored {
      case PlainLabel(text) => assert LabelHolds(stored, text);
      case RowsLabel(rows) => assert forall i :: 0 <= i < |rows| ==> LabelHolds(stored, rows[i]);
      case EnvsLabel(envs) =>
        assert forall k :: k in envs && k != "" ==> LabelHolds(stored, PrintRow(k, envs[k]));
    }
  }

  lemma AddressesAre(nets: NetworksObject)
    ensures (exists n :: n in nets && nets[n].ipv4.Some? && Contains(nets[n].ipv4.value, SUBSTITUTION))
      <==> exists t :: (exists n :: n in nets && nets[n].ipv4 == Some(t)) && Asks(t)
  {
    hide Asks;
    hide Contains;
    forall t { AsksIs(t); }
  }

  lemma LabelsAre(labels: map<string, Label>)
    ensures (exists k :: k in labels && LabelSubstituted(labels[k]))
      <==> exists t :: (exists k :: k in labels && LabelHolds(labels[k], t)) && Asks(t)
  {
    hide Asks;
    hide LabelHolds;
    hide LabelSubstituted;
    forall k | k in labels { LabelIs(labels[k]); }
  }

  lemma ServiceAsks(s: Service)
    ensures ServiceSubstituted(s) <==> exists t :: ServiceHolds(s, t) && Asks(t)
  {
    hide Asks;
    hide Contains;
    hide LabelHolds;
    hide LabelSubstituted;
    hide FieldsHold;
    hide FieldsSubstituted;
    hide TextsSubstituted;
    hide NetworksOf;
    if s.environment.Some? && s.environment.value.Object? { TextsAre(s.environment.value.envs); }
    AddressesAre(NetworksOf(s));
    LabelsAre(OrElse(s.labels, map[]));
    FieldsAre(s.rest);
  }

  lemma VolumeAsks(volume: Volume)
    ensures volume.Volume? && (TextsSubstituted(OrElse(volume.driverOpts, map[])) || FieldsSubstituted(volume.rest))
      <==> exists t :: VolumeHolds(volume, t) && Asks(t)
  {
    hide Asks;
    hide FieldsHold;
    hide FieldsSubstituted;
    hide TextsSubstituted;
    if volume.Volume? {
      TextsAre(OrElse(volume.driverOpts, map[]));
      FieldsAre(volume.rest);
    }
  }

  lemma NetworkAsks(network: Network)
    ensures network.Network? && FieldsSubstituted(network.rest) <==> exists t :: NetworkHolds(network, t) && Asks(t)
  {
    hide Asks;
    hide FieldsHold;
    hide FieldsSubstituted;
    if network.Network? { FieldsAre(network.rest); }
  }

  /** A file asks for variable substitution exactly when a text that is looked at holds `${`. */
  lemma SubstitutionIs(c: Compose)
    ensures Substituted(c) <==> exists t :: Holds(c, t) && Asks(t)
  {
    hide Asks;
    hide Contains;
    hide ServiceHolds;
    hide ServiceSubstituted;
    hide VolumeHolds;
    hide NetworkHolds;
    hide FieldsSubstituted;
    hide TextsSubstituted;
    AsksIs(c.version);
    forall n | n in c.services { ServiceAsks(c.services[n]); }
    forall v | v in OrElse(c.volumes, map[]) { VolumeAsks(OrElse(c.volumes, map[])[v]); }
    forall k | k in OrElse(c.networks, map[]) { NetworkAsks(OrElse(c.networks, map[])[k]); }
    VersionHeld(c);
  }

  lemma VersionHeld(c: Compose)
    ensures Holds(c, c.version)
  {
  }
}
