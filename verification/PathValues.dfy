/** Device paths, letter by letter (packages/dockerCompose/src/devicePath.ts and Node's `path.normalize`). */
module PathValues {
  import opened Wrappers
  import opened Strings
  import opened DevicePath

  // ----- stripping names -----

  /** The characters that go. */
  predicate Forbidden(c: char)
  {
    c in {'`', '~', '!', '@', '#', '$', '%', '^', '&', '*', '(', ')', '|', '+', '=', '?', ';', ':', '\'', '"', ',',
      '<', '>', '{', '}', '[', ']', '\\', '/'}
  }

  lemma StrippedAre(c: char)
    ensures Stripped(c) <==> Forbidden(c)
  {
    assert "`~!@#$%^&*()|+=?;:'\",<>{}[]\\/" ==
      ['`', '~', '!', '@', '#', '$', '%', '^', '&', '*', '(', ')', '|', '+', '=', '?', ';',
       ':', '\'', '"', ',', '<', '>', '{', '}', '[', ']', '\\', '/'];
  }

  lemma {:induction false} RemovedAnywhere(a: string, c: char, b: string)
    requires Stripped(c)
    ensures RemoveStripped(a + [c] + b) == RemoveStripped(a + b)
  {
    hide Stripped;
    if a == "" {
      assert a + [c] + b == [c] + b && a + b == b;
    } else {
      assert (a + [c] + b)[1..] == a[1..] + [c] + b && (a + b)[1..] == a[1..] + b;
      RemovedAnywhere(a[1..], c, b);
    }
  }

  lemma {:induction false} RemovedThenDots(a: string, b: string)
    requires '.' !in a
    ensures CollapseFirstDots(a + ".." + b) == CollapseFirstDots(a + "." + b)
  {
    if a == "" {
      assert a + ".." + b == ".." + b && a + "." + b == "." + b;
      assert (".." + b)[1..] == "." + b && ("." + b)[1..] == b;
    } else {
      assert (a + ".." + b)[1..] == a[1..] + ".." + b && (a + "." + b)[1..] == a[1..] + "." + b;
      RemovedThenDots(a[1..], b);
    }
  }

  lemma {:induction false} DotStays(a: string, b: string)
    requires '.' !in a && (b == "" || b[0] != '.')
    ensures CollapseFirstDots(a + "." + b) == a + "." + b && CollapseFirstDots(a) == a
  {
    if a == "" {
      DropSingleDot(b);
      assert a + "." + b == "." + b;
    } else {
      assert (a + "." + b)[1..] == a[1..] + "." + b;
      DotStays(a[1..], b);
    }
  }

  /** A text of which nothing is stripped. */
  predicate Clean(s: string)
  {
    forall i :: 0 <= i < |s| ==> !Forbidden(s[i])
  }

  lemma CleanIs(s: string)
    ensures Clean(s) <==> forall i :: 0 <= i < |s| ==> !Stripped(s[i])
  {
    hide Stripped;
    hide Forbidden;
    forall c: char { StrippedAre(c); }
  }

  lemma CleanConcat(a: string, b: string)
    requires Clean(a) && Clean(b)
    ensures Clean(a + b)
  {
    hide Forbidden;
  }

  lemma DotIsClean()
    ensures Clean(".") && Clean("..")
  {
  }

  lemma CleanStays(s: string)
    requires Clean(s)
    ensures StripCharacters(s) == CollapseFirstDots(s)
  {
    hide Stripped;
    hide CollapseFirstDots;
    CleanIs(s);
    RemoveNothing(s);
  }

  lemma Stripping(s: string)
    ensures StripCharacters(s) == CollapseFirstDots(RemoveStripped(s))
  {
  }

  /** Stripping, by its laws: such a character goes wherever it stands; of the first dots one stays; and
      nothing else changes. */
  lemma StrippingIs(a: string, c: char, b: string)
    ensures Forbidden(c) ==> StripCharacters(a + [c] + b) == StripCharacters(a + b)
    ensures Clean(a) && '.' !in a ==> StripCharacters(a) == a
    ensures Clean(a) && '.' !in a && Clean(b) ==> StripCharacters(a + ".." + b) == StripCharacters(a + "." + b)
    ensures Clean(a) && '.' !in a && Clean(b) && (b == "" || b[0] != '.') ==>
      StripCharacters(a + "." + b) == a + "." + b
  {
    hide *;
    StrippedAre(c);
    if Forbidden(c) {
      RemovedAnywhere(a, c, b);
      Stripping(a + [c] + b);
      Stripping(a + b);
    }
    if Clean(a) && '.' !in a {
      CleanStays(a);
      DotStays(a, "");
      if Clean(b) {
        DotIsClean();
        CleanConcat(a, ".");
        CleanConcat(a, "..");
        CleanConcat(a + ".", b);
        CleanConcat(a + "..", b);
        CleanStays(a + "." + b);
        CleanStays(a + ".." + b);
        RemovedThenDots(a, b);
        if b == "" || b[0] != '.' { DotStays(a, b); }
      }
    }
  }

  // ----- normal paths -----

  /** One more component. */
  function Step(before: seq<string>, c: string, absolute: bool): seq<string>
  {
    if c == "" || c == "." then before
    else if c != ".." then before + [c]
    else if before != [] && before[|before| - 1] != ".." then before[..|before| - 1]
    else if absolute then before else before + [".."]
  }

  lemma ResolveStep(cs: seq<string>, absolute: bool)
    requires cs != []
    ensures Resolve(cs, absolute) == Step(Resolve(cs[..|cs| - 1], absolute), cs[|cs| - 1], absolute)
  {
    var before, c := Resolve(cs[..|cs| - 1], absolute), cs[|cs| - 1];
    if c == "" || c == "." {
      assert Resolve(cs, absolute) == before;
    } else if c == ".." {
      assert Step(before, c, absolute) == Resolve(cs, absolute);
    } else {
      assert Resolve(cs, absolute) == before + [c];
    }
  }

  lemma ResolveLast(cs: seq<string>, c: string, absolute: bool)
    ensures Resolve(cs + [c], absolute) == Step(Resolve(cs, absolute), c, absolute)
  {
    hide *;
    var more := cs + [c];
    assert more[..|more| - 1] == cs && more[|more| - 1] == c;
    ResolveStep(more, absolute);
  }

  lemma {:induction false} ResolveSame(a: seq<string>, b: seq<string>, rest: seq<string>, absolute: bool)
    requires Resolve(a, absolute) == Resolve(b, absolute)
    ensures Resolve(a + rest, absolute) == Resolve(b + rest, absolute)
  {
    hide Resolve;
    hide Step;
    if rest == [] {
      assert a + rest == a && b + rest == b;
    } else {
      var front, c := rest[..|rest| - 1], rest[|rest| - 1];
      ResolveSame(a, b, front, absolute);
      ResolveLast(a + front, c, absolute);
      ResolveLast(b + front, c, absolute);
      assert rest == front + [c];
      assert a + rest == (a + front) + [c] && b + rest == (b + front) + [c];
    }
  }

  /** Normalising, by its laws on the components: empty ones and dots go, a parent takes the name before it
      along, and above the root of an absolute path it goes; on a relative one it stays. */
  lemma ResolvingIs(a: seq<string>, c: string, rest: seq<string>, absolute: bool)
    ensures c == "" || c == "." ==> Resolve(a + [c] + rest, absolute) == Resolve(a + rest, absolute)
    ensures Proper(c) ==> Resolve(a + [c] + [".."] + rest, absolute) == Resolve(a + rest, absolute)
    ensures Resolve([".."] + rest, true) == Resolve(rest, true) && Resolve([".."], false) == [".."]
  {
    hide Resolve;
    ResolveLast(a, c, absolute);
    ResolveLast(a + [c], "..", absolute);
    if c == "" || c == "." { ResolveSame(a + [c], a, rest, absolute); }
    if Proper(c) {
      assert (Resolve(a, absolute) + [c])[..|Resolve(a, absolute)|] == Resolve(a, absolute);
      ResolveSame(a + [c] + [".."], a, rest, absolute);
    }
    ResolveNothing();
    assert [] + [".."] == [".."] && [] + rest == rest;
    ResolveLast([], "..", true);
    ResolveLast([], "..", false);
    ResolveSame([".."], [], rest, true);
  }

  lemma ResolveNothing()
    ensures Resolve([], true) == [] && Resolve([], false) == []
  {
  }

  // ----- device paths -----

  /** A name that is used as it is. */
  predicate Plain(name: string)
  {
    Proper(name) && StripCharacters(name) == name
  }

  /** The path of a volume below a mountpoint, and what is read of it. */
  lemma DeviceIs(components: seq<string>, dnpName: string, volumeName: string)
    requires AllProper(components) && components != [] && "dappnode-volumes" !in components
    requires Plain(dnpName) && Plain(volumeName)
    ensures var mountpoint := Slashed(components);
      var device := mountpoint + "/dappnode-volumes/" + dnpName + "/" + volumeName;
      && Get(mountpoint, dnpName, volumeName) == Ok(device)
      && Parse(device) == Some(Parts(mountpoint, dnpName, volumeName, dnpName + "/" + volumeName,
           mountpoint + "/dappnode-volumes"))
  {
    var mountpoint := Slashed(components);
    assert IsAbsolute(mountpoint);
    NormalizeSlashed(components);
    assert Prefix() == "dappnode-volumes";
    assert Kept(dnpName) == [dnpName] && Kept(volumeName) == [volumeName];
    hide *;
    DevicePathShape(mountpoint, dnpName, volumeName);
    DeviceText(components, dnpName, volumeName);
    IsReadable(mountpoint, components, dnpName, volumeName);
    RoundTrip(mountpoint, dnpName, volumeName);
  }

  lemma DeviceText(components: seq<string>, dnpName: string, volumeName: string)
    requires components != []
    ensures Slashed(components + ["dappnode-volumes"] + ([dnpName] + [volumeName]))
      == Slashed(components) + "/dappnode-volumes/" + dnpName + "/" + volumeName
    ensures "/" + Join(components, "/") == Slashed(components)
    ensures "/" + Join(components + ["dappnode-volumes"], "/") == Slashed(components) + "/dappnode-volumes"
  {
    hide *;
    var p := "dappnode-volumes";
    SlashedAppend(components + [p], [dnpName] + [volumeName]);
    SlashedAppend(components, [p]);
    SlashedIsJoin(components);
    SlashedIsJoin(components + [p]);
    OneSlashed(p);
    TwoSlashed(dnpName, volumeName);
    assert "/" + p == "/dappnode-volumes";
    FourParts(Slashed(components), dnpName, volumeName);
  }

  lemma FourParts(s: string, a: string, b: string)
    ensures s + "/dappnode-volumes" + ("/" + a + ("/" + b)) == s + "/dappnode-volumes/" + a + "/" + b
  {
    assert "/dappnode-volumes/" == "/dappnode-volumes" + "/";
  }

  lemma OneSlashed(a: string)
    ensures Slashed([a]) == "/" + a
  {
    assert [a][1..] == [];
    assert "/" + a + "" == "/" + a;
  }

  lemma TwoSlashed(a: string, b: string)
    ensures Slashed([a] + [b]) == "/" + a + ("/" + b)
  {
    assert ([a] + [b])[1..] == [b];
    OneSlashed(b);
  }

  lemma IsReadable(mountpoint: string, components: seq<string>, dnpName: string, volumeName: string)
    requires Components(mountpoint) == components != [] && "dappnode-volumes" !in components
    requires Plain(dnpName) && Plain(volumeName)
    ensures Readable(mountpoint, dnpName, volumeName)
    ensures Expected(mountpoint, dnpName, volumeName) == Parts("/" + Join(components, "/"), dnpName, volumeName,
      dnpName + "/" + volumeName, "/" + Join(components + ["dappnode-volumes"], "/"))
    ensures StripCharacters(dnpName) == dnpName && StripCharacters(volumeName) == volumeName
  {
    hide Components;
    hide StripCharacters;
  }
}
