/** The names under which a container is reached (packages/utils/src/buildNetworkAlias.ts,
    getShortUniqueDnp.ts, getPrivateNetworkAliases.ts). */
module NetworkAlias {
  import opened Strings
  import UserSettings

  const DAPPMANAGER := "dappmanager.dnp.dappnode.eth"

  /** The short names whose alias on the core network is kept for core packages. */
  const RESERVED := ["dappmanager", "wifi", "vpn", "wireguard", "ipfs", "bind"]

  function DropSuffix(s: string, suffix: string): string
  {
    if |suffix| <= |s| && s[|s| - |suffix|..] == suffix then s[..|s| - |suffix|] else s
  }

  function RemoveUnderscores(s: string): string
  {
    if s == "" then ""
    else if s[0] == '_' then RemoveUnderscores(s[1..])
    else [s[0]] + RemoveUnderscores(s[1..])
  }

  /** `getShortUniqueDnp`: drops the endings one after the other, then the underscores. */
  function Short(dnpName: string): string
  {
    RemoveUnderscores(DropSuffix(DropSuffix(DropSuffix(dnpName, ".dnp.dappnode.eth"), ".dappnode.eth"), ".eth"))
  }

  datatype Domain = Core | Private | External

  function EndDomain(domain: Domain): string
  {
    match domain
    case Core => ".dappnode"
    case Private => ".dappnode.private"
    case External => ".dappnode.external"
  }

  /** `buildNetworkAlias`: the package's own name for a main service, else the service's. */
  function Alias(dnpName: string, service: string, main: bool, domain: Domain): string
  {
    if main then Short(dnpName) + EndDomain(domain)
    else service + "." + Short(dnpName) + EndDomain(domain)
  }

  function AdminAliases(domain: Domain): seq<string>
  {
    match domain
    case Private => ["dappmanager" + EndDomain(Private), "my" + EndDomain(Private), "dappnode.local"]
    case _ => ["dappmanager" + EndDomain(Core), "my" + EndDomain(Core), "dappnode.local"]
  }

  /** `getPrivateNetworkAliases`. */
  function PrivateNetworkAliases(dnpName: string, service: string, main: bool, domain: Domain): seq<string>
  {
    UserSettings.Unique([Alias(dnpName, service, false, domain)]
      + (if main then [Alias(dnpName, service, true, domain)] else [])
      + (if dnpName == DAPPMANAGER then AdminAliases(domain) else []))
  }

  /** An alias kept for core packages (`DOCKER_CORE_ALIASES`). */
  predicate CoreAlias(alias: string)
  {
    exists i :: 0 <= i < |RESERVED| && alias == RESERVED[i] + EndDomain(Core)
  }

  // ----- which generated aliases are reserved -----

  lemma CoreAliasOf(name: string)
    ensures CoreAlias(name + EndDomain(Core)) <==> name in RESERVED
  {
    forall i | 0 <= i < |RESERVED| && name + EndDomain(Core) == RESERVED[i] + EndDomain(Core)
      ensures name == RESERVED[i] {
      SameEnding(name, RESERVED[i], EndDomain(Core));
    }
  }

  lemma ReservedHasNoDot(i: nat, name: string)
    requires i < |RESERVED| && '.' in name
    ensures RESERVED[i] != name
  {
    forall j | 0 <= j < |RESERVED[i]| ensures RESERVED[i][j] != '.' { }
  }

  /** Not an ending of a core alias: the last but one character is no 'd'. */
  lemma OtherEnding(alias: string)
    requires |alias| >= 2 && alias[|alias| - 2] != 'd'
    ensures !CoreAlias(alias)
  {
    forall i | 0 <= i < |RESERVED| ensures alias != RESERVED[i] + EndDomain(Core) {
      var core := RESERVED[i] + EndDomain(Core);
      assert core[|core| - 2] == EndDomain(Core)[7];
    }
  }

  lemma PrivateEnding(name: string)
    ensures !CoreAlias(name + EndDomain(Private))
  {
    var alias := name + EndDomain(Private);
    assert alias[|alias| - 2] == EndDomain(Private)[15];
    OtherEnding(alias);
  }

  lemma FullAliasNotReserved(dnpName: string, service: string)
    ensures !CoreAlias(Alias(dnpName, service, false, Core))
  {
    hide Short;
    var name := service + "." + Short(dnpName);
    assert name[|service|] == '.';
    if name in RESERVED {
      var i :| 0 <= i < |RESERVED| && RESERVED[i] == name;
      ReservedHasNoDot(i, name);
    }
    CoreAliasOf(name);
  }

  lemma AdminReserved(domain: Domain)
    requires domain != External
    ensures (exists a :: a in AdminAliases(domain) && CoreAlias(a)) <==> domain == Core
  {
    hide CoreAlias;
    if domain == Core {
      CoreAliasOf("dappmanager");
      assert RESERVED[0] == "dappmanager";
      assert "dappmanager" + EndDomain(Core) == AdminAliases(Core)[0];
    } else {
      PrivateEnding("dappmanager");
      PrivateEnding("my");
      OtherEnding("dappnode.local");
    }
  }

  /** The generated aliases of a service include a reserved one exactly for the core network of the
      main service of a package with a reserved short name, and of the admin interface. */
  lemma ReservedAliases(dnpName: string, service: string, main: bool, domain: Domain)
    requires domain != External
    ensures (exists a :: a in PrivateNetworkAliases(dnpName, service, main, domain) && CoreAlias(a))
      <==> domain == Core && ((main && Short(dnpName) in RESERVED) || dnpName == DAPPMANAGER)
  {
    hide CoreAlias;
    hide Short;
    hide UserSettings.Unique;
    hide AdminAliases;
    var all := [Alias(dnpName, service, false, domain)]
      + (if main then [Alias(dnpName, service, true, domain)] else [])
      + (if dnpName == DAPPMANAGER then AdminAliases(domain) else []);
    UserSettings.UniqueMeaning(all);
    AdminReserved(domain);
    FullAliasNotReserved(dnpName, service);
    CoreAliasOf(Short(dnpName));
    PrivateEnding(Short(dnpName));
    PrivateEnding(service + "." + Short(dnpName));
    assert all[0] == Alias(dnpName, service, false, domain);
    if main { assert all[1] == Alias(dnpName, service, true, domain); }
    assert forall a :: a in all <==>
      a == Alias(dnpName, service, false, domain) || (main && a == Alias(dnpName, service, true, domain))
      || (dnpName == DAPPMANAGER && a in AdminAliases(domain));
  }

  // ----- aliases tell services apart -----

  /** Different services of a package never share a generated alias, when at most one of them is the
      main one and the package is not the admin interface. */
  lemma AliasesDisjoint(dnpName: string, s: string, t: string, sMain: bool, tMain: bool, domain: Domain, a: string)
    requires s != t && !(sMain && tMain) && dnpName != DAPPMANAGER
    requires a in PrivateNetworkAliases(dnpName, s, sMain, domain)
    ensures a !in PrivateNetworkAliases(dnpName, t, tMain, domain)
  {
    hide Short;
    hide UserSettings.Unique;
    UserSettings.UniqueMeaning([Alias(dnpName, s, false, domain)]
      + (if sMain then [Alias(dnpName, s, true, domain)] else []) + []);
    UserSettings.UniqueMeaning([Alias(dnpName, t, false, domain)]
      + (if tMain then [Alias(dnpName, t, true, domain)] else []) + []);
    FullAliasesDiffer(dnpName, s, t, domain);
    assert |Alias(dnpName, s, false, domain)| > |Alias(dnpName, s, true, domain)|;
    assert |Alias(dnpName, t, false, domain)| > |Alias(dnpName, t, true, domain)|;
  }

  /** When two services of a package share a generated alias: both are main, or the package is the
      admin interface, whose services all answer to its names. */
  lemma AliasesShared(dnpName: string, s: string, t: string, sMain: bool, tMain: bool, domain: Domain)
    requires s != t
    ensures (exists a ::
        a in PrivateNetworkAliases(dnpName, s, sMain, domain) && a in PrivateNetworkAliases(dnpName, t, tMain, domain))
      <==> (sMain && tMain) || dnpName == DAPPMANAGER
  {
    hide *;
    if dnpName == DAPPMANAGER {
      var a := AdminAlias(domain);
      GeneratedAliases(dnpName, s, sMain, domain, a);
      GeneratedAliases(dnpName, t, tMain, domain, a);
    } else if sMain && tMain {
      var a := Alias(dnpName, s, true, domain);
      MainAlias(dnpName, s, t, domain);
      GeneratedAliases(dnpName, s, sMain, domain, a);
      GeneratedAliases(dnpName, t, tMain, domain, a);
    } else {
      forall a | a in PrivateNetworkAliases(dnpName, s, sMain, domain)
        ensures a !in PrivateNetworkAliases(dnpName, t, tMain, domain)
      {
        AliasesDisjoint(dnpName, s, t, sMain, tMain, domain, a);
      }
    }
  }

  lemma GeneratedAliases(dnpName: string, service: string, main: bool, domain: Domain, a: string)
    ensures a in PrivateNetworkAliases(dnpName, service, main, domain) <==>
      a == Alias(dnpName, service, false, domain) || (main && a == Alias(dnpName, service, true, domain))
      || (dnpName == DAPPMANAGER && a in AdminAliases(domain))
  {
    hide Alias;
    hide AdminAliases;
    hide UserSettings.Unique;
    var all := [Alias(dnpName, service, false, domain)]
      + (if main then [Alias(dnpName, service, true, domain)] else [])
      + (if dnpName == DAPPMANAGER then AdminAliases(domain) else []);
    UserSettings.UniqueMeaning(all);
  }

  lemma AdminAlias(domain: Domain) returns (a: string)
    ensures a in AdminAliases(domain)
  {
    a := AdminAliases(domain)[0];
  }

  lemma MainAlias(dnpName: string, s: string, t: string, domain: Domain)
    ensures Alias(dnpName, s, true, domain) == Alias(dnpName, t, true, domain)
  {
  }

  lemma FullAliasesDiffer(dnpName: string, s: string, t: string, domain: Domain)
    requires s != t
    ensures Alias(dnpName, s, false, domain) != Alias(dnpName, t, false, domain)
  {
    hide *;
    var rest := "." + Short(dnpName) + EndDomain(domain);
    FullAlias(dnpName, s, domain);
    FullAlias(dnpName, t, domain);
    if s + rest == t + rest { SameEnding(s, t, rest); }
  }

  lemma FullAlias(dnpName: string, service: string, domain: Domain)
    ensures Alias(dnpName, service, false, domain) == service + ("." + Short(dnpName) + EndDomain(domain))
  {
    hide Short;
    hide EndDomain;
  }
}
