/** What the defaults make of a package, field by field (packages/dockerCompose/src/setDappnodeComposeDefaults.ts,
    packages/utils/src/getPrivateNetworkAliases.ts, packages/params). */
module DefaultsValues {
  import opened Wrappers
  import opened Strings
  import opened Compose
  import opened ComposeRules
  import opened ComposeDefaults
  import Numbers
  import NetworkAlias
  import RuleValues
  import UserSettings

  // ----- the file version -----

  lemma {:induction false} DigitsAreNumeric(n: nat)
    ensures Numeric(Numbers.Digits(n)) && (Numbers.Digits(n)[0] == '0' ==> n == 0)
  {
    hide Numbers.DigitPrefix;
    if n >= 10 {
      DigitsAreNumeric(n / 10);
      assert Numbers.Digits(n)[0] == Numbers.Digits(n / 10)[0];
      assert n / 10 != 0;
    }
  }

  lemma {:induction false} NumericIsDigits(s: string)
    requires Numeric(s)
    ensures Numbers.Digits(Numbers.DigitsValue(s, 10)) == s
    ensures s != "0" ==> Numbers.DigitsValue(s, 10) > 0
  {
    var front, last := s[..|s| - 1], s[|s| - 1];
    assert s == front + [last];
    assert Numbers.DigitChar(Numbers.DigitValue(last)) == last;
    if front == "" {
      assert Numbers.DigitsValue(s, 10) == Numbers.DigitValue(last);
    } else {
      assert front[0] == s[0] && front != "0" && Numeric(front);
      NumericIsDigits(front);
      var n := Numbers.DigitsValue(s, 10);
      assert n / 10 == Numbers.DigitsValue(front, 10) && n % 10 == Numbers.DigitValue(last);
    }
  }

  lemma NoDotInDigits(n: nat)
    ensures '.' !in Numbers.Digits(n)
  {
  }

  lemma VersionPrinted(a: nat, b: nat)
    ensures ReadVersion(Numbers.Digits(a) + "." + Numbers.Digits(b)) == Some((a, b))
  {
    hide Numbers.Digits;
    hide Numbers.DigitsValue;
    hide Numeric;
    var version := Numbers.Digits(a) + "." + Numbers.Digits(b);
    NoDotInDigits(a);
    NoDotInDigits(b);
    SplitFirst(Numbers.Digits(a), '.', Numbers.Digits(b));
    SplitWithout(Numbers.Digits(b), '.');
    DigitsAreNumeric(a);
    DigitsAreNumeric(b);
    Numbers.DigitsValueInverse(a);
    Numbers.DigitsValueInverse(b);
    assert Split(version, '.') == [Numbers.Digits(a), Numbers.Digits(b)];
  }

  lemma VersionReadBack(version: string)
    requires ReadVersion(version).Some?
    ensures var v := ReadVersion(version).value; version == Numbers.Digits(v.0) + "." + Numbers.Digits(v.1)
  {
    hide Numbers.Digits;
    hide Numbers.DigitsValue;
    hide Numeric;
    var parts := Split(version, '.');
    SplitIs(version, '.');
    NumericIsDigits(parts[0]);
    NumericIsDigits(parts[1]);
    assert parts == [parts[0], parts[1]];
    assert Join(parts, ".") == parts[0] + "." + parts[1];
  }

  /** A readable version is two plain decimal numbers with a dot in between. */
  lemma VersionIs(version: string, a: nat, b: nat)
    ensures ReadVersion(version) == Some((a, b)) <==> version == Numbers.Digits(a) + "." + Numbers.Digits(b)
  {
    hide *;
    VersionPrinted(a, b);
    if ReadVersion(version) == Some((a, b)) { VersionReadBack(version); }
  }

  // ----- a package's short name -----

  /** An underscore anywhere makes no difference. */
  lemma {:induction false} UnderscoreGoes(a: string, b: string)
    ensures NetworkAlias.RemoveUnderscores(a + "_" + b) == NetworkAlias.RemoveUnderscores(a + b)
  {
    if a == "" {
      assert a + "_" + b == "_" + b && a + b == b;
    } else {
      UnderscoreGoes(a[1..], b);
      assert (a + "_" + b)[1..] == a[1..] + "_" + b && (a + b)[1..] == a[1..] + b;
    }
  }

  lemma {:induction false} NoUnderscores(s: string)
    requires '_' !in s
    ensures NetworkAlias.RemoveUnderscores(s) == s
  {
    if s != "" { NoUnderscores(s[1..]); }
  }

  lemma Dropped(s: string, suffix: string)
    ensures NetworkAlias.DropSuffix(s + suffix, suffix) == s
  {
    assert (s + suffix)[|s|..] == suffix;
  }

  lemma NotDropped(s: string, suffix: string, i: nat)
    requires i < |suffix| && (|suffix| <= |s| ==> s[|s| - |suffix| + i] != suffix[i])
    ensures NetworkAlias.DropSuffix(s, suffix) == s
  {
    if |suffix| <= |s| { assert s[|s| - |suffix|..][i] == s[|s| - |suffix| + i]; }
  }

  lemma NoDots(s: string)
    requires '.' !in s
    ensures NetworkAlias.DropSuffix(s, ".dnp.dappnode.eth") == s
      && NetworkAlias.DropSuffix(s, ".dappnode.eth") == s && NetworkAlias.DropSuffix(s, ".eth") == s
  {
    NotDropped(s, ".dnp.dappnode.eth", 0);
    NotDropped(s, ".dappnode.eth", 0);
    NotDropped(s, ".eth", 0);
  }

  /** The registry's ending goes and nothing else of a name without dots, underscores aside. */
  lemma ShortOf(name: string)
    requires '.' !in name && '_' !in name
    ensures NetworkAlias.Short(name) == name && NetworkAlias.Short(name + ".eth") == name
    ensures NetworkAlias.Short(name + ".dappnode.eth") == name
    ensures NetworkAlias.Short(name + ".dnp.dappnode.eth") == name
    ensures NetworkAlias.Short(name + ".public.dappnode.eth") == name + ".public"
  {
    hide NetworkAlias.DropSuffix;
    hide NetworkAlias.RemoveUnderscores;
    PublicName(name);
    NoDots(name);
    NoUnderscores(name);
    Dropped(name, ".dnp.dappnode.eth");
    Dropped(name, ".dappnode.eth");
    Dropped(name, ".eth");
    NotDropped(name + ".eth", ".dnp.dappnode.eth", 0);
    NotDropped(name + ".eth", ".dappnode.eth", 0);
    NotDropped(name + ".dappnode.eth", ".dnp.dappnode.eth", 0);
  }

  lemma PublicName(name: string)
    requires '_' !in name
    ensures NetworkAlias.Short(name + ".public.dappnode.eth") == name + ".public"
  {
    hide NetworkAlias.DropSuffix;
    hide NetworkAlias.RemoveUnderscores;
    var full := name + ".public.dappnode.eth";
    assert full == (name + ".public") + ".dappnode.eth";
    NotDropped(full, ".dnp.dappnode.eth", 0);
    Dropped(name + ".public", ".dappnode.eth");
    NotDropped(name + ".public", ".eth", 0);
    NoUnderscores(name + ".public");
  }

  /** A name that does not end in `.eth`, by one of its last four characters, loses the registry's ending
      and nothing else. */
  lemma ShortOfPackage(name: string, j: nat)
    requires '_' !in name && j < 4 && (|name| >= 4 ==> name[|name| - 4 + j] != ".eth"[j])
    ensures NetworkAlias.Short(name + ".dnp.dappnode.eth") == name
  {
    hide NetworkAlias.RemoveUnderscores;
    NoUnderscores(name);
    Dropped(name, ".dnp.dappnode.eth");
    NotDropped(name, ".eth", j);
    assert ".dappnode.eth"[9 + j] == ".eth"[j];
    NotDropped(name, ".dappnode.eth", 9 + j);
  }

  // ----- the networks of a service -----

  /** The only service of the file, or the one that the manifest names. */
  predicate Leads(c: Compose, m: Manifest, n: string)
  {
    (forall k :: k in c.services ==> k == n) || m.mainService == Some(n)
  }

  lemma LeadsIsMain(c: Compose, m: Manifest, n: string)
    requires n in c.services
    ensures Leads(c, m, n) <==> Main(c, m, n)
  {
    SizeOfKeys(c.services);
    var rest := c.services.Keys - {n};
    assert c.services.Keys == rest + {n};
    assert |c.services| == |rest| + 1;
    assert (forall k :: k in c.services ==> k == n) <==> rest == {};
  }

  /** The names a service gets on a network of the system, each once. */
  ghost predicate Names(aliases: Option<seq<string>>, m: Manifest, n: string, leads: bool, ending: string)
  {
    var short := NetworkAlias.Short(m.name);
    && aliases.Some? && (forall i, j :: 0 <= i < j < |aliases.value| ==> aliases.value[i] != aliases.value[j])
    && forall a :: a in aliases.value <==>
         || a == n + "." + short + ending || (leads && a == short + ending)
         || (m.name == "dappmanager.dnp.dappnode.eth" && a in ["dappmanager" + ending, "my" + ending, "dappnode.local"])
  }

  function Ending(domain: NetworkAlias.Domain): string
    requires domain != NetworkAlias.External
  {
    if domain == NetworkAlias.Core then ".dappnode" else ".dappnode.private"
  }

  lemma AliasIs(name: string, n: string, domain: NetworkAlias.Domain)
    requires domain != NetworkAlias.External
    ensures NetworkAlias.Alias(name, n, true, domain) == NetworkAlias.Short(name) + Ending(domain)
    ensures NetworkAlias.Alias(name, n, false, domain) == n + "." + NetworkAlias.Short(name) + Ending(domain)
    ensures NetworkAlias.Alias(name, n, true, NetworkAlias.External) == NetworkAlias.Short(name) + ".dappnode.external"
    ensures NetworkAlias.AdminAliases(domain)
      == ["dappmanager" + Ending(domain), "my" + Ending(domain), "dappnode.local"]
  {
    hide NetworkAlias.Short;
  }

  lemma NamesAre(m: Manifest, n: string, main: bool, domain: NetworkAlias.Domain)
    requires domain != NetworkAlias.External
    ensures Names(Some(NetworkAlias.PrivateNetworkAliases(m.name, n, main, domain)), m, n, main, Ending(domain))
  {
    hide NetworkAlias.PrivateNetworkAliases;
    hide NetworkAlias.Short;
    hide NetworkAlias.Alias;
    hide NetworkAlias.AdminAliases;
    hide Ending;
    AliasIs(m.name, n, domain);
    PrivateAliasesOnce(m, n, main, domain);
    var aliases := NetworkAlias.PrivateNetworkAliases(m.name, n, main, domain);
    forall a { NetworkAlias.GeneratedAliases(m.name, n, main, domain, a); }
  }

  /** The networks that a package gives its service, in either form: a list says nothing more of them. */
  predicate Given(networks: Option<ServiceNetworks>, before: NetworksObject)
  {
    match networks
    case None => before == map[]
    case Some(NetworkList(names)) =>
      && (forall k :: k in before ==> k in names && before[k] == ServiceNetwork(None, None))
      && (forall k :: k in names ==> k in before)
    case Some(NetworkObject(nets)) => before == nets
  }

  lemma GivenIs(s: Service)
    ensures Given(s.networks, NetworksOf(s))
  {
  }

  /** The networks of a service after the defaults: its own, and the two of the system with their names;
      a fixed address on the core network stays for bind alone. */
  ghost predicate Joins(m: Manifest, n: string, leads: bool, before: NetworksObject, after: NetworksObject)
  {
    && after.Keys == before.Keys + {"dncore_network", "dnprivate_network"}
    && (forall k :: k in before && k != "dncore_network" && k != "dnprivate_network" ==> after[k] == before[k])
    && Names(after["dncore_network"].aliases, m, n, leads, ".dappnode")
    && Names(after["dnprivate_network"].aliases, m, n, leads, ".dappnode.private")
    && after["dnprivate_network"].ipv4 == None
    && (forall address :: after["dncore_network"].ipv4 == Some(address) <==>
          && "dncore_network" in before && before["dncore_network"].ipv4 == Some(address)
          && (address == "" || m.name == "bind.dnp.dappnode.eth"))
  }

  lemma CoreNetworkIs(m: Manifest, n: string, main: bool, given: ServiceNetwork)
    ensures var r := CoreNetwork(m, n, main, given);
      && Names(r.aliases, m, n, main, ".dappnode")
      && forall address :: r.ipv4 == Some(address) <==>
           given.ipv4 == Some(address) && (address == "" || m.name == "bind.dnp.dappnode.eth")
  {
    hide Names;
    hide NetworkAlias.PrivateNetworkAliases;
    NamesAre(m, n, main, NetworkAlias.Core);
  }

  lemma PrivateNetworkIs(m: Manifest, n: string, main: bool)
    ensures var r := PrivateNetwork(m, n, main);
      r.ipv4 == None && Names(r.aliases, m, n, main, ".dappnode.private")
  {
    hide Names;
    hide NetworkAlias.PrivateNetworkAliases;
    NamesAre(m, n, main, NetworkAlias.Private);
  }

  lemma JoinsThem(m: Manifest, n: string, main: bool, networks: Option<ServiceNetworks>)
    ensures Joins(m, n, main, ParseNetworks(OrElse(networks, NetworkObject(map[]))),
                  JoinedNetworks(m, n, main, networks))
  {
    hide Names;
    hide CoreNetwork;
    hide PrivateNetwork;
    hide JoinedNetworks;
    var before := ParseNetworks(OrElse(networks, NetworkObject(map[])));
    JoinedNetworksAre(m, n, main, networks);
    CoreNetworkIs(m, n, main, if DNCORE in before then before[DNCORE] else NO_NETWORK);
    PrivateNetworkIs(m, n, main);
  }

  /** After the defaults every service is on its own networks and the system's. */
  lemma ServiceJoins(c: Compose, m: Manifest, naming: Naming, n: string)
    requires n in c.services && SetDefaults(c, m, naming).Ok?
    ensures var r := SetDefaults(c, m, naming).value;
      && n in r.services && r.services[n].networks.Some? && r.services[n].networks.value.NetworkObject?
      && Given(c.services[n].networks, NetworksOf(c.services[n]))
      && Joins(m, n, Leads(c, m, n), NetworksOf(c.services[n]), r.services[n].networks.value.networks)
  {
    hide *;
    GivenIs(c.services[n]);
    DefaultsOk(c, m, naming);
    DefaultedServices(c, m, naming, n);
    CleanDefault(m, naming, n, Main(c, m, n), c.services[n]);
    LeadsIsMain(c, m, n);
    JoinsThem(m, n, Main(c, m, n), c.services[n].networks);
    NetworksOfIs(c.services[n]);
  }

  lemma NetworksOfIs(s: Service)
    ensures NetworksOf(s) == ParseNetworks(OrElse(s.networks, NetworkObject(map[])))
  {
  }

  // ----- the other fields -----

  /** A field of the package's own that the defaults leave alone. */
  predicate Own(k: string, value: Json)
  {
    && RuleValues.AllowedKey(k) && k !in {"build", "dns", "logging", "container_name", "image"}
    && value != Null && value != Array([]) && value != Json.Object(map[])
  }

  /** The fields of a service after the defaults. */
  ghost predicate FieldsSet(before: map<string, Json>, after: map<string, Json>, container: string, image: string)
  {
    && {"logging", "container_name", "image"} <= after.Keys
    && after["container_name"] == Text(container) && after["image"] == Text(image)
    && after["logging"] == Json.Object(map["driver" := Text("json-file"),
         "options" := Json.Object(map["max-size" := Text("10m"), "max-file" := Text("3")])])
    && ("restart" !in before ==> "restart" in after && after["restart"] == Text("unless-stopped"))
    && (forall k :: k in before && Own(k, before[k]) ==> k in after && after[k] == before[k])
    && (forall k :: k in after ==>
          k in {"logging", "container_name", "image"} || (k == "restart" && k !in before)
          || (k in before && Own(k, before[k])))
  }

  lemma PickedIs(k: string, value: Json)
    ensures Own(k, value) <==> Picked(k) && !Omitable(value)
  {
    hide SAFE_KEYS;
    hide RuleValues.AllowedKey;
    RuleValues.KeysAre(k);
  }

  lemma LoggingIs()
    ensures Logging() == Json.Object(map["driver" := Text("json-file"),
      "options" := Json.Object(map["max-size" := Text("10m"), "max-file" := Text("3")])])
  {
  }

  lemma DefaultFieldIs(rest: map<string, Json>, container: string, image: string, k: string)
    ensures DefaultField(rest, container, image, "logging") == Logging()
    ensures DefaultField(rest, container, image, "container_name") == Text(container)
    ensures DefaultField(rest, container, image, "image") == Text(image)
    ensures "restart" !in rest ==> DefaultField(rest, container, image, "restart") == Text("unless-stopped")
    ensures k in rest && Own(k, rest[k]) ==> DefaultField(rest, container, image, k) == rest[k]
  {
    hide SAFE_KEYS;
    hide Own;
    hide Logging;
    if k in rest { PickedIs(k, rest[k]); }
  }

  lemma FieldsAreSet(rest: map<string, Json>, container: string, image: string)
    ensures FieldsSet(rest, CleanRest(DefaultRest(rest, container, image)), container, image)
  {
    hide Own;
    hide Picked;
    hide Logging;
    hide DefaultRest;
    hide DefaultField;
    hide CleanRest;
    LoggingIs();
    var after := CleanRest(DefaultRest(rest, container, image));
    CleanDefaultRest(rest, container, image, "logging");
    CleanDefaultRest(rest, container, image, "container_name");
    CleanDefaultRest(rest, container, image, "image");
    CleanDefaultRest(rest, container, image, "restart");
    DefaultFieldIs(rest, container, image, "image");
    forall k | k in rest && Own(k, rest[k]) ensures k in after && after[k] == rest[k] {
      PickedIs(k, rest[k]);
      CleanDefaultRest(rest, container, image, k);
      DefaultFieldIs(rest, container, image, k);
    }
    forall k | k in after
      ensures k in {"logging", "container_name", "image"} || (k == "restart" && k !in rest)
        || (k in rest && Own(k, rest[k]))
    {
      if k in rest { PickedIs(k, rest[k]); }
      CleanDefaultRest(rest, container, image, k);
    }
  }

  /** After the defaults a service has the system's names and logging, a restart policy, and its own
      allowed fields; environment, ports, volumes and labels stay. */
  lemma ServiceFields(c: Compose, m: Manifest, naming: Naming, n: string)
    requires n in c.services && SetDefaults(c, m, naming).Ok?
    ensures var r := SetDefaults(c, m, naming).value;
      && n in r.services && FieldsSet(c.services[n].rest, r.services[n].rest, naming.container(n), naming.image(n))
      && EnvsOf(r.services[n]) == EnvsOf(c.services[n])
      && ComposeEditor.Unless(c.services[n].ports, [], r.services[n].ports)
      && ComposeEditor.Unless(c.services[n].volumes, [], r.services[n].volumes)
      && ComposeEditor.Unless(c.services[n].labels, map[], r.services[n].labels)
  {
    hide *;
    DefaultsOk(c, m, naming);
    DefaultedServices(c, m, naming, n);
    CleanDefault(m, naming, n, Main(c, m, n), c.services[n]);
    FieldsAreSet(c.services[n].rest, naming.container(n), naming.image(n));
    CleanedIs(c.services[n].ports);
    CleanedIs(c.services[n].volumes);
    CleanedLabels(c.services[n].labels);
  }

  lemma CleanedIs(rows: Option<seq<string>>)
    ensures ComposeEditor.Unless(rows, [], CleanSeq(rows))
  {
  }

  lemma CleanedLabels(labels: Option<map<string, Label>>)
    ensures ComposeEditor.Unless(labels, map[], CleanMap(labels))
  {
  }

  // ----- the sections -----

  /** The two private networks are external, the other declarations stay. */
  ghost predicate Declares(before: map<string, Network>, after: map<string, Network>)
  {
    && after.Keys == before.Keys + {"dncore_network", "dnprivate_network"}
    && (forall k :: k in before && k != "dncore_network" && k != "dnprivate_network" ==> after[k] == before[k])
    && (forall k :: k in ["dncore_network", "dnprivate_network"] ==>
          if k in before && before[k].Network?
          then after[k].Network? && after[k].rest == before[k].rest
            && after[k].external == if k == "dncore_network" then Some(true) else before[k].external
          else after[k] == Network(Some(true), map[]))
  }

  lemma DeclaresThem(networks: Option<map<string, Network>>)
    ensures Declares(OrElse(networks, map[]), DeclaredNetworks(networks))
  {
  }

  /** Which file the defaults accept, and what they make of its sections: the version is raised to 3.5. */
  lemma SectionsSet(c: Compose, m: Manifest, naming: Naming)
    ensures SetDefaults(c, m, naming).Ok? <==>
      && (exists a, b: nat :: c.version == Numbers.Digits(a) + "." + Numbers.Digits(b))
      && (c.services == map[] || (m.version != "" && m.name != "" && "" !in c.services))
    ensures SetDefaults(c, m, naming).Ok? ==> var r := SetDefaults(c, m, naming).value;
      && (forall a, b: nat :: c.version == Numbers.Digits(a) + "." + Numbers.Digits(b) ==>
            r.version == if a < 3 || (a == 3 && b < 5) then "3.5" else c.version)
      && r.services.Keys == c.services.Keys && r.volumes == (if c.volumes == Some(map[]) then None else c.volumes)
      && r.networks.Some? && Declares(OrElse(c.networks, map[]), r.networks.value)
  {
    hide *;
    DefaultsOk(c, m, naming);
    NamedIs(c, m);
    ReadableIs(c.version);
    DeclaresThem(c.networks);
    DefaultedSections(c, m, naming);
    VolumesStay(c.volumes, Defaulted(c, m, naming).volumes);
  }

  lemma NamedIs(c: Compose, m: Manifest)
    ensures Named(c, m) <==> c.services == map[] || (m.version != "" && m.name != "" && "" !in c.services)
  {
  }

  lemma VolumesStay(before: Option<map<string, Volume>>, after: Option<map<string, Volume>>)
    requires OrElse(after, map[]) == OrElse(before, map[]) && after != Some(map[])
    ensures after == if before == Some(map[]) then None else before
  {
  }

  lemma ReadableIs(version: string)
    ensures ReadVersion(version).Some?
      <==> exists a, b: nat :: version == Numbers.Digits(a) + "." + Numbers.Digits(b)
    ensures forall a, b: nat :: version == Numbers.Digits(a) + "." + Numbers.Digits(b) ==>
      RaiseVersion(version) == if a < 3 || (a == 3 && b < 5) then "3.5" else version
  {
    hide ReadVersion;
    hide Numbers.Digits;
    forall a, b: nat { VersionIs(version, a, b); }
    if ReadVersion(version).Some? {
      var v := ReadVersion(version).value;
      VersionIs(version, v.0, v.1);
    }
  }
}
