/** Device paths of bind-mounted volumes (packages/dockerCompose/src/devicePath.ts). */
module DevicePath {
  import opened Wrappers
  import opened Strings

  /** `MOUNTPOINT_DEVICE_PREFIX`, a function so that proofs can hide its text. */
  function Prefix(): string
  {
    "dappnode-volumes"
  }

  /** The result of `parseDevicePath`. */
  datatype Parts = Parts(mountpoint: string, dnpName: string, volumeName: string, volumePath: string,
                         mountpointPath: string)

  // ----- POSIX paths -----

  /** Drops empty and "." components and lets ".." remove the component before it; above the
      root of an absolute path ".." vanishes. */
  function Resolve(components: seq<string>, absolute: bool): seq<string>
  {
    if components == [] then []
    else
      var before := Resolve(components[..|components| - 1], absolute);
      var c := components[|components| - 1];
      if c == "" || c == "." then before
      else if c == ".." then
        if before != [] && before[|before| - 1] != ".." then before[..|before| - 1]
        else if absolute then before
        else before + [".."]
      else before + [c]
  }

  predicate IsAbsolute(path: string)
  {
    path != "" && path[0] == '/'
  }

  /** The resolved components of a path. */
  function Components(path: string): seq<string>
  {
    Resolve(Split(path, '/'), IsAbsolute(path))
  }

  /** `path.normalize`. */
  function Normalize(path: string): string
  {
    if path == "" then "."
    else
      var body := Join(Components(path), "/");
      var trailing := path[|path| - 1] == '/';
      if IsAbsolute(path) then
        if body == "" then "/" else "/" + body + (if trailing then "/" else "")
      else if body == "" then
        if trailing then "./" else "."
      else body + (if trailing then "/" else "")
  }

  /** `path.join`. */
  function JoinPaths(paths: seq<string>): string
  {
    var some := NonEmpty(paths);
    if some == [] then "." else Normalize(Join(some, "/"))
  }

  function NonEmpty(paths: seq<string>): (r: seq<string>)
    ensures forall p :: p in r ==> p != ""
  {
    if paths == [] then []
    else if paths[0] == "" then NonEmpty(paths[1..])
    else [paths[0]] + NonEmpty(paths[1..])
  }

  // ----- names -----

  predicate Stripped(c: char)
  {
    c in "`~!@#$%^&*()|+=?;:'\",<>{}[]\\/"
  }

  function RemoveStripped(s: string): (r: string)
    ensures forall i :: 0 <= i < |r| ==> !Stripped(r[i])
  {
    if s == "" then ""
    else if Stripped(s[0]) then RemoveStripped(s[1..])
    else [s[0]] + RemoveStripped(s[1..])
  }

  function DropDots(s: string): (r: string)
    ensures |r| <= |s| && r == s[|s| - |r|..] && (r == "" || r[0] != '.')
  {
    if s != "" && s[0] == '.' then DropDots(s[1..]) else s
  }

  /** Replaces the first run of dots by one dot. */
  function CollapseFirstDots(s: string): string
  {
    if s == "" then ""
    else if s[0] == '.' then "." + DropDots(s)
    else [s[0]] + CollapseFirstDots(s[1..])
  }

  function StripCharacters(s: string): string
  {
    CollapseFirstDots(RemoveStripped(s))
  }

  /** `getDevicePath`; an error when the mountpoint is not absolute. */
  function Get(mountpoint: string, dnpName: string, volumeName: string): Result<string, string>
  {
    if !IsAbsolute(mountpoint) then Err("mountpoint must be an absolute path")
    else Ok(JoinPaths([mountpoint, Prefix(), StripCharacters(dnpName), StripCharacters(volumeName)]))
  }

  /** `s.split(sub)`, first two parts: the second is absent when `sub` does not occur. */
  function SplitOnce(s: string, sub: string): (string, Option<string>)
    requires sub != ""
  {
    match IndexOf(s, sub)
    case None => (s, None)
    case Some(i) =>
      var rest := s[i + |sub|..];
      (s[..i], Some(match IndexOf(rest, sub) case None => rest case Some(j) => rest[..j]))
  }

  /** The text that `parseDevicePath` splits at. */
  function Mark(): string
  {
    "/" + Prefix() + "/"
  }

  /** `parseDevicePath`. */
  function Parse(devicePath: string): Option<Parts>
  {
    match SplitOnce(devicePath, Mark())
    case (_, None) => None
    case (mountpoint, Some(names)) =>
      var parts := Split(names, '/');
      if names == "" || |parts| < 2 || parts[1] == "" then None
      else Some(Parts(Normalize(mountpoint), parts[0], parts[1], names, JoinPaths([mountpoint, Prefix()])))
  }

  // ----- properties of names -----

  lemma {:induction false} CollapseTwice(s: string)
    ensures CollapseFirstDots(CollapseFirstDots(s)) == CollapseFirstDots(s)
  {
    if s != "" {
      if s[0] == '.' {
        var d := DropDots(s);
        hide DropDots;
        DropSingleDot(d);
      } else {
        hide DropDots;
        CollapseTwice(s[1..]);
        var r := [s[0]] + CollapseFirstDots(s[1..]);
        assert r[1..] == CollapseFirstDots(s[1..]);
      }
    }
  }

  lemma DropSingleDot(d: string)
    requires d == "" || d[0] != '.'
    ensures DropDots("." + d) == d
  {
    assert ("." + d)[1..] == d;
  }

  lemma {:induction false} RemoveNothing(s: string)
    requires forall i :: 0 <= i < |s| ==> !Stripped(s[i])
    ensures RemoveStripped(s) == s
  {
    if s != "" { RemoveNothing(s[1..]); }
  }

  lemma {:induction false} CollapseKeepsChars(s: string)
    ensures forall c :: c in CollapseFirstDots(s) ==> c in s
    ensures CollapseFirstDots(s) != ".."
  {
    if s != "" {
      if s[0] == '.' {
        var r := "." + DropDots(s);
        assert forall c :: c in r ==> c in s;
        assert |r| == 2 ==> r[1] == DropDots(s)[0];
      } else {
        CollapseKeepsChars(s[1..]);
        var r := [s[0]] + CollapseFirstDots(s[1..]);
        assert r[0] != '.';
      }
    }
  }

  /** Stripping twice is stripping once; a stripped name has no separator and is never "..". */
  lemma StripLaws(s: string)
    ensures StripCharacters(StripCharacters(s)) == StripCharacters(s)
    ensures '/' !in StripCharacters(s)
    ensures StripCharacters(s) != ".."
  {
    var r := RemoveStripped(s);
    CollapseKeepsChars(r);
    CollapseTwice(r);
    var t := CollapseFirstDots(r);
    forall i | 0 <= i < |t| ensures !Stripped(t[i]) { assert t[i] in t; assert t[i] in r; }
    RemoveNothing(t);
  }

  // ----- paths as component lists -----

  /** An ordinary component: it names a directory. */
  predicate Proper(c: string)
  {
    c != "" && c != "." && c != ".." && '/' !in c
  }

  predicate AllProper(cs: seq<string>)
  {
    forall i :: 0 <= i < |cs| ==> Proper(cs[i])
  }

  /** "/a/b" for ["a", "b"]. */
  function Slashed(cs: seq<string>): (r: string)
    ensures |r| >= |cs| && (r != "" ==> r[0] == '/')
  {
    if cs == [] then "" else "/" + cs[0] + Slashed(cs[1..])
  }

  lemma AllProperAppend(a: seq<string>, b: seq<string>)
    requires AllProper(a) && AllProper(b)
    ensures AllProper(a + b)
  {
  }

  lemma {:induction false} SlashedAppend(a: seq<string>, b: seq<string>)
    ensures Slashed(a + b) == Slashed(a) + Slashed(b)
  {
    if a == [] {
      assert a + b == b;
    } else {
      assert (a + b)[1..] == a[1..] + b;
      SlashedAppend(a[1..], b);
    }
  }

  lemma {:induction false} SlashedIsJoin(cs: seq<string>)
    requires cs != []
    ensures Slashed(cs) == "/" + Join(cs, "/")
  {
    if |cs| > 1 { SlashedIsJoin(cs[1..]); }
  }

  lemma {:induction false} SplitAppend(x: string, y: string)
    ensures Split(x + "/" + y, '/') == Split(x, '/') + Split(y, '/')
  {
    var s := x + "/" + y;
    if x == "" {
      assert s[1..] == y;
    } else {
      assert s[1..] == x[1..] + "/" + y;
      SplitAppend(x[1..], y);
    }
  }

  lemma {:induction false} ResolveProper(cs: seq<string>)
    requires forall i :: 0 <= i < |cs| ==> '/' !in cs[i]
    ensures AllProper(Resolve(cs, true))
  {
    if cs != [] { ResolveProper(cs[..|cs| - 1]); }
  }

  lemma {:induction false} ResolveIdentity(cs: seq<string>)
    requires AllProper(cs)
    ensures Resolve(cs, true) == cs
  {
    if cs != [] {
      hide Proper;
      ResolveIdentity(cs[..|cs| - 1]);
      ProperKept(cs[|cs| - 1]);
      assert cs == cs[..|cs| - 1] + [cs[|cs| - 1]];
    }
  }

  lemma ProperKept(c: string)
    requires Proper(c)
    ensures c != "" && c != "." && c != ".."
  {
  }

  /** The components of an absolute path are ordinary names. */
  lemma ComponentsProper(path: string)
    requires IsAbsolute(path)
    ensures AllProper(Components(path))
  {
    SplitIs(path, '/');
    ResolveProper(Split(path, '/'));
  }

  lemma {:induction false} SplitSlashed(cs: seq<string>)
    requires AllProper(cs)
    ensures Split(Slashed(cs), '/') == [""] + cs
  {
    hide Proper;
    hide Strings.Split;
    if cs == [] {
      SplitWithout("", '/');
    } else {
      var c, rest := cs[0], Slashed(cs[1..]);
      SplitSlashed(cs[1..]);
      ProperPlain(c);
      assert Slashed(cs) == "/" + c + rest;
      hide Slashed;
      SplitLeadingSlash(c + rest);
      SplitBeforeSlashed(c, rest, cs[1..]);
      assert "/" + c + rest == "/" + (c + rest);
    }
  }

  lemma SplitLeadingSlash(s: string)
    ensures Split("/" + s, '/') == [""] + Split(s, '/')
  {
    SplitFirst("", '/', s);
    assert "" + ['/'] + s == "/" + s;
  }

  lemma SplitBeforeSlashed(c: string, rest: string, cs: seq<string>)
    requires '/' !in c && Split(rest, '/') == [""] + cs && (rest == "" || rest[0] == '/')
    ensures Split(c + rest, '/') == [c] + cs
  {
    hide *;
    if rest == "" {
      SplitWithout("", '/');
      SplitWithout(c, '/');
      TailsOf([""], cs);
      assert c + rest == c && [c] + [] == [c];
    } else {
      var tail := rest[1..];
      SplitFirst(c, '/', tail);
      SplitFirst("", '/', tail);
      assert rest == ['/'] + tail && "" + ['/'] + tail == rest;
      assert c + rest == c + ['/'] + tail;
      TailsOf([""] + Split(tail, '/'), cs);
      assert ([""] + Split(tail, '/'))[1..] == Split(tail, '/');
    }
  }

  lemma TailsOf(a: seq<string>, cs: seq<string>)
    requires a == [""] + cs
    ensures a[1..] == cs && (a == [""] ==> cs == [])
  {
    assert a == [""] ==> |cs| == 0;
  }

  lemma {:induction false} ResolveAppend(cs: seq<string>, c: string)
    requires c != ".."
    ensures Resolve(cs + [c], true) == Resolve(cs, true) + Kept(c)
  {
    assert (cs + [c])[..|cs|] == cs;
  }

  /** The component that a name adds to a path. */
  function Kept(c: string): seq<string>
  {
    if c == "" || c == "." then [] else [c]
  }

  /** A normal absolute path is its own component list. */
  lemma NormalizeSlashed(cs: seq<string>)
    requires AllProper(cs) && cs != []
    ensures Components(Slashed(cs)) == cs
    ensures Normalize(Slashed(cs)) == Slashed(cs)
  {
    SplitSlashed(cs);
    ResolveIdentity(cs);
    ResolveLeadingEmpty(cs);
    SlashedIsJoin(cs);
    SlashedLast(cs);
  }

  lemma {:induction false} ResolveLeadingEmpty(cs: seq<string>)
    ensures Resolve([""] + cs, true) == Resolve(cs, true)
  {
    var l := [""] + cs;
    if cs == [] {
      assert l[..0] == [];
    } else {
      ResolveLeadingEmpty(cs[..|cs| - 1]);
      assert l[..|l| - 1] == [""] + cs[..|cs| - 1];
    }
  }

  lemma {:induction false} SlashedLast(cs: seq<string>)
    requires AllProper(cs) && cs != []
    ensures Slashed(cs)[|Slashed(cs)| - 1] != '/'
  {
    var rest := Slashed(cs[1..]);
    assert Slashed(cs) == "/" + cs[0] + rest;
    if |cs| > 1 { SlashedLast(cs[1..]); }
    else { assert cs[0][|cs[0]| - 1] in cs[0]; }
  }

  function KeptAll(names: seq<string>): seq<string>
  {
    if names == [] then [] else Kept(names[0]) + KeptAll(names[1..])
  }

  /** A name that can be joined to a path without leaving it. */
  predicate Joinable(c: string)
  {
    '/' !in c && c != ".."
  }

  /** Joining the names one by one. */
  function JoinOnto(path: string, names: seq<string>): string
    decreases names
  {
    if names == [] then path
    else JoinOnto(if names[0] == "" then path else path + "/" + names[0], names[1..])
  }

  lemma {:induction false} JoinIsJoinOnto(path: string, names: seq<string>)
    ensures Join([path] + NonEmpty(names), "/") == JoinOnto(path, names)
    decreases names
  {
    if names != [] && names[0] != "" {
      JoinIsJoinOnto(path + "/" + names[0], names[1..]);
      var rest := NonEmpty(names[1..]);
      assert ([path] + NonEmpty(names))[1..] == [names[0]] + rest;
      assert ([names[0]] + rest)[1..] == rest;
      assert ([path + "/" + names[0]] + rest)[1..] == rest;
    } else if names != [] {
      JoinIsJoinOnto(path, names[1..]);
    }
  }

  lemma {:induction false} ComponentsOfJoin(path: string, names: seq<string>)
    requires IsAbsolute(path)
    requires forall i :: 0 <= i < |names| ==> Joinable(names[i])
    ensures var p := JoinOnto(path, names);
      && IsAbsolute(p) && Components(p) == Components(path) + KeptAll(names)
      && (path[|path| - 1] != '/' ==> p[|p| - 1] != '/')
    decreases names
  {
    hide Components;
    hide Kept;
    hide Joinable;
    if names != [] {
      var c := names[0];
      if c == "" {
        ComponentsOfJoin(path, names[1..]);
        KeptNothing(Components(path), KeptAll(names[1..]));
      } else {
        AddComponent(path, c);
        ComponentsOfJoin(path + "/" + c, names[1..]);
        assert Components(path) + Kept(c) + KeptAll(names[1..]) == Components(path) + (Kept(c) + KeptAll(names[1..]));
      }
    }
  }

  lemma KeptNothing(cs: seq<string>, rest: seq<string>)
    ensures cs + rest == cs + (Kept("") + rest)
  {
  }

  lemma AddComponent(path: string, c: string)
    requires IsAbsolute(path) && c != "" && Joinable(c)
    ensures var p := path + "/" + c;
      IsAbsolute(p) && p[|p| - 1] != '/' && Components(p) == Components(path) + Kept(c)
  {
    SplitAppend(path, c);
    SplitWithout(c, '/');
    ResolveAppend(Split(path, '/'), c);
    assert c[|c| - 1] in c;
  }

  lemma {:induction false} KeptProper(names: seq<string>)
    requires forall i :: 0 <= i < |names| ==> Joinable(names[i])
    ensures AllProper(KeptAll(names))
  {
    if names != [] { KeptProper(names[1..]); }
  }

  /** `path.join` of an absolute path and plain names, the first of them a proper one. */
  lemma JoinNormal(path: string, names: seq<string>)
    requires IsAbsolute(path) && names != [] && Proper(names[0])
    requires forall i :: 0 <= i < |names| ==> Joinable(names[i])
    ensures AllProper(Components(path) + KeptAll(names))
    ensures JoinPaths([path] + names) == Slashed(Components(path) + KeptAll(names))
  {
    var before, after := Components(path), KeptAll(names);
    ComponentsProper(path);
    KeptProper(names);
    KeptProperName(names[0]);
    assert after != [];
    JoinedPath(path, names);
    assert path != "";
    hide *;
    AllProperAppend(before, after);
    JoinIsJoinOnto(path, names);
    NormalizeOf(JoinOnto(path, names), before + after);
    JoinPathsOf(path, names);
  }

  lemma JoinPathsOf(path: string, names: seq<string>)
    requires path != ""
    ensures JoinPaths([path] + names) == Normalize(Join([path] + NonEmpty(names), "/"))
  {
    NonEmptyCons(path, names);
  }

  lemma NormalizeOf(p: string, cs: seq<string>)
    requires IsAbsolute(p) && p[|p| - 1] != '/' && Components(p) == cs && cs != [] && AllProper(cs)
    ensures Normalize(p) == Slashed(cs)
  {
    hide Components;
    hide Slashed;
    SlashedIsJoin(cs);
    JoinNonEmpty(cs);
  }

  lemma JoinedPath(path: string, names: seq<string>)
    requires IsAbsolute(path) && names != [] && Proper(names[0])
    requires forall i :: 0 <= i < |names| ==> Joinable(names[i])
    ensures var p := JoinOnto(path, names);
      IsAbsolute(p) && Components(p) == Components(path) + KeptAll(names) && p[|p| - 1] != '/'
  {
    hide Components;
    AddComponent(path, names[0]);
    ComponentsOfJoin(path, names);
    ComponentsOfJoin(path + "/" + names[0], names[1..]);
  }

  lemma NonEmptyCons(path: string, names: seq<string>)
    requires path != ""
    ensures NonEmpty([path] + names) == [path] + NonEmpty(names)
  {
    assert ([path] + names)[1..] == names;
  }

  lemma JoinNonEmpty(cs: seq<string>)
    requires cs != [] && AllProper(cs)
    ensures Join(cs, "/") != ""
  {
  }

  /** The device path as components: mountpoint, prefix and the names that are not empty or ".". */
  function DeviceComponents(mountpoint: string, dnpName: string, volumeName: string): seq<string>
  {
    Components(mountpoint) + KeptAll([Prefix(), StripCharacters(dnpName), StripCharacters(volumeName)])
  }

  lemma GetIsSlashed(mountpoint: string, dnpName: string, volumeName: string)
    requires IsAbsolute(mountpoint)
    ensures AllProper(DeviceComponents(mountpoint, dnpName, volumeName))
    ensures Get(mountpoint, dnpName, volumeName) == Ok(Slashed(DeviceComponents(mountpoint, dnpName, volumeName)))
  {
    hide Components;
    hide KeptAll;
    hide StripCharacters;
    hide JoinPaths;
    hide Slashed;
    hide AllProper;
    var names := [Prefix(), StripCharacters(dnpName), StripCharacters(volumeName)];
    StripLaws(dnpName);
    StripLaws(volumeName);
    JoinNormal(mountpoint, names);
    assert [mountpoint] + names ==
      [mountpoint, Prefix(), StripCharacters(dnpName), StripCharacters(volumeName)];
  }

  lemma PrefixProper()
    ensures Proper(Prefix())
  {
  }

  lemma KeptProperName(c: string)
    requires Proper(c)
    ensures Kept(c) == [c]
  {
  }

  lemma KeptNames(a: string, b: string)
    ensures KeptAll([Prefix(), a, b]) == [Prefix()] + (Kept(a) + Kept(b))
  {
    hide Kept;
    assert [b][1..] == [];
    assert KeptAll([b]) == Kept(b);
    assert [a, b][1..] == [b];
    assert KeptAll([a, b]) == Kept(a) + Kept(b);
    assert [Prefix(), a, b][1..] == [a, b];
    assert Kept(Prefix()) == [Prefix()] by { PrefixProper(); KeptProperName(Prefix()); }
  }

  // ----- finding the prefix again -----

  /** The first component equal to the prefix that is followed by another component. */
  function FirstInner(cs: seq<string>): (r: Option<nat>)
    ensures r.Some? ==> r.value < |cs| - 1 && cs[r.value] == Prefix()
    ensures forall i :: 0 <= i < |cs| - 1 && cs[i] == Prefix() ==> r.Some? && r.value <= i
  {
    if |cs| < 2 then None
    else if cs[0] == Prefix() then Some(0)
    else match FirstInner(cs[1..]) case None => None case Some(i) => Some(i + 1)
  }

  lemma {:induction false} IndexSkips(c: string, t: string)
    requires '/' !in c
    ensures IndexOf(c + t, Mark()) == match IndexOf(t, Mark()) case None => None case Some(i) => Some(|c| + i)
  {
    if c == "" {
      assert c + t == t;
    } else {
      assert (c + t)[1..] == c[1..] + t;
      IndexSkips(c[1..], t);
      assert Mark()[0] == '/' && (c + t)[0] == c[0];
    }
  }

  lemma MarkIsComponent(c: string, t: string)
    requires '/' !in c
    requires t == "" || t[0] == '/'
    ensures Mark() <= "/" + c + t <==> c == Prefix() && t != ""
  {
    assert '/' !in Prefix();
    hide Prefix;
    if c == Prefix() && t != "" {
      assert "/" + c + t == Mark() + t[1..];
    } else if Mark() <= "/" + c + t {
      MarkedName(c, t, Prefix());
    }
  }

  lemma MarkedName(c: string, t: string, p: string)
    requires '/' !in c && '/' !in p
    requires t == "" || t[0] == '/'
    requires "/" + p + "/" <= "/" + c + t
    ensures c == p && t != ""
  {
    hide Strings.Split;
    var s := "/" + c + t;
    var rest := s[|p| + 2..];
    assert s == "/" + p + "/" + rest;
    assert s[1..] == c + t == p + ['/'] + rest;
    SplitFirst(p, '/', rest);
    if t == "" {
      assert c + t == c;
      SplitWithout(c, '/');
    } else {
      assert c + t == c + ['/'] + t[1..];
      SplitFirst(c, '/', t[1..]);
      assert Split(c + t, '/')[0] == c && Split(c + t, '/')[0] == p;
    }
  }

  /** Where the component at `i` starts. */
  function Offset(cs: seq<string>, i: nat): nat
    requires i <= |cs|
  {
    |Slashed(cs[..i])|
  }

  lemma OffsetStep(cs: seq<string>, i: nat)
    requires i < |cs|
    ensures Offset(cs, 0) == 0
    ensures Offset(cs, i + 1) == 1 + |cs[0]| + Offset(cs[1..], i)
  {
    assert cs[..i + 1][1..] == cs[1..][..i];
  }

  /** The first mark in a normal path is before its first inner prefix. */
  lemma {:induction false} IndexSlashed(cs: seq<string>)
    requires AllProper(cs)
    ensures IndexOf(Slashed(cs), Mark()) ==
      match FirstInner(cs) case None => None case Some(i) => Some(Offset(cs, i))
  {
    hide *;
    if cs == [] {
      NothingSlashed();
    } else {
      var c, rest := cs[0], cs[1..];
      AllProperFirst(cs);
      ProperPlain(c);
      MarkIsComponent(c, Slashed(rest));
      SlashedStep(cs);
      OffsetStep(cs, 0);
      if c == Prefix() && |cs| >= 2 {
        StartsWithMark(Slashed(cs), cs);
      } else {
        IndexSlashed(rest);
        FirstInnerStep(cs);
        IndexAfterName(Slashed(cs), c, Slashed(rest));
        if FirstInner(rest).Some? { OffsetStep(cs, FirstInner(rest).value); }
      }
    }
  }

  lemma NothingSlashed()
    ensures IndexOf(Slashed([]), Mark()) == None && FirstInner([]) == None
  {
  }

  lemma AllProperFirst(cs: seq<string>)
    requires AllProper(cs) && cs != []
    ensures Proper(cs[0]) && AllProper(cs[1..])
  {
    hide Proper;
  }

  lemma StartsWithMark(s: string, cs: seq<string>)
    requires |cs| >= 2 && cs[0] == Prefix() && Mark() <= s
    ensures IndexOf(s, Mark()) == Some(0) && FirstInner(cs) == Some(0)
  {
    hide Mark;
    hide Prefix;
  }

  lemma FirstInnerStep(cs: seq<string>)
    requires cs != [] && (cs[0] == Prefix() ==> |cs| < 2)
    ensures FirstInner(cs) == match FirstInner(cs[1..]) case None => None case Some(i) => Some(i + 1)
  {
    hide Prefix;
  }

  lemma SlashedStep(cs: seq<string>)
    requires cs != []
    ensures var t := Slashed(cs[1..]);
      Slashed(cs) == "/" + cs[0] + t && Slashed(cs)[1..] == cs[0] + t && (t == "" || t[0] == '/')
    ensures Slashed(cs[1..]) == "" <==> |cs| == 1
  {
    var rest := cs[1..];
    if |cs| == 1 { SlashedNone(rest); }
    assert |Slashed(rest)| >= |rest|;
    assert Slashed(cs) == "/" + cs[0] + Slashed(rest);
    hide Slashed;
    ConcatTail(cs[0], Slashed(rest));
  }

  lemma ConcatTail(c: string, t: string)
    ensures ("/" + c + t)[1..] == c + t
  {
  }

  lemma SlashedNone(cs: seq<string>)
    requires cs == []
    ensures Slashed(cs) == ""
  {
  }

  lemma IndexAfterName(s: string, c: string, t: string)
    requires s != "" && s[1..] == c + t && '/' !in c && !(Mark() <= s)
    ensures IndexOf(s, Mark()) == match IndexOf(t, Mark()) case None => None case Some(i) => Some(1 + |c| + i)
  {
    IndexSkips(c, t);
    hide Mark;
  }

  lemma ProperPlain(c: string)
    requires Proper(c)
    ensures '/' !in c && c != ""
  {
  }

  /** The parts of a path made of a mountpoint, the prefix and two names. */
  function PartsOf(before: string, a: string, b: string): Parts
  {
    Parts(Normalize(before), a, b, a + "/" + b, JoinPaths([before, Prefix()]))
  }

  /** What `parseDevicePath` makes of a path once the prefix has cut it in two. */
  function ParseCut(before: string, names: string): Option<Parts>
  {
    var parts := Split(names, '/');
    if names == "" || |parts| < 2 || parts[1] == "" then None
    else Some(Parts(Normalize(before), parts[0], parts[1], names, JoinPaths([before, Prefix()])))
  }

  lemma SlashedCut(cs: seq<string>, i: nat)
    requires i + 1 < |cs| && cs[i] == Prefix()
    ensures Slashed(cs) == Slashed(cs[..i]) + Mark() + (cs[i + 1] + Slashed(cs[i + 2..]))
  {
    SlashedAppend(cs[..i], cs[i..]);
    assert cs[..i] + cs[i..] == cs;
    assert cs[i..][1..] == cs[i + 1..];
    assert cs[i + 1..][1..] == cs[i + 2..];
    assert Slashed(cs[i..]) == "/" + cs[i] + Slashed(cs[i + 1..]);
    assert Slashed(cs[i + 1..]) == "/" + cs[i + 1] + Slashed(cs[i + 2..]);
    assert Mark() == "/" + cs[i] + "/";
    hide *;
    ConcatCut(Slashed(cs[..i]), cs[i], cs[i + 1], Slashed(cs[i + 2..]));
  }

  lemma ConcatCut(before: string, c: string, d: string, after: string)
    ensures before + ("/" + c + ("/" + d + after)) == before + ("/" + c + "/") + (d + after)
  {
  }

  lemma ParseAtMark(path: string, before: string, rest: string)
    requires path == before + Mark() + rest && IndexOf(path, Mark()) == Some(|before|)
    ensures Parse(path) ==
      ParseCut(before, match IndexOf(rest, Mark()) case None => rest case Some(j) => rest[..j])
  {
    assert Mark() != "";
    hide Mark;
    hide IndexOf;
    hide Normalize;
    hide JoinPaths;
    hide Strings.Split;
    CutConcat(before, Mark(), rest);
  }

  lemma CutSlashed(cs: seq<string>, i: nat)
    requires AllProper(cs) && FirstInner(cs) == Some(i)
    ensures var before, rest := Slashed(cs[..i]), cs[i + 1] + Slashed(cs[i + 2..]);
      var names := match IndexOf(rest, Mark()) case None => rest case Some(j) => rest[..j];
      Parse(Slashed(cs)) == ParseCut(before, names)
  {
    assert cs[i] == Prefix();
    assert Offset(cs, i) == |Slashed(cs[..i])|;
    hide *;
    IndexSlashed(cs);
    SlashedCut(cs, i);
    ParseAtMark(Slashed(cs), Slashed(cs[..i]), cs[i + 1] + Slashed(cs[i + 2..]));
  }

  lemma CutConcat(a: string, b: string, c: string)
    ensures (a + b + c)[|a| + |b|..] == c && (a + b + c)[..|a|] == a
  {
  }

  /** `parseDevicePath` on a normal path: cut at the first inner prefix, it needs two names after it. */
  lemma ParseSlashed(cs: seq<string>)
    requires AllProper(cs)
    ensures FirstInner(cs).None? ==> Parse(Slashed(cs)) == None
    ensures FirstInner(cs).Some? && Parse(Slashed(cs)).Some? ==>
      Parse(Slashed(cs)).value.mountpoint == Normalize(Slashed(cs[..FirstInner(cs).value]))
    ensures FirstInner(cs) == Some(|cs| - 2) ==> Parse(Slashed(cs)) == None
    ensures |cs| >= 3 && FirstInner(cs) == Some(|cs| - 3) ==>
      var before, a, b := Slashed(cs[..|cs| - 3]), cs[|cs| - 2], cs[|cs| - 1];
      Parse(Slashed(cs)) == Some(PartsOf(before, a, b))
  {
    hide Normalize;
    hide JoinPaths;
    hide Proper;
    hide FirstInner;
    hide IndexOf;
    hide Strings.Split;
    hide Parse;
    if FirstInner(cs).None? {
      ParseNoMark(cs);
    } else {
      var i := FirstInner(cs).value;
      CutSlashed(cs, i);
      ProperPlain(cs[i + 1]);
      if i == |cs| - 2 {
        assert cs[i + 2..] == [];
        OneName(cs[i + 1]);
      } else if i == |cs| - 3 {
        assert cs[i + 2..] == [cs[i + 2]];
        ProperPlain(cs[i + 2]);
        TwoNames(cs[i + 1], cs[i + 2]);
      }
    }
  }

  lemma ParseNoMark(cs: seq<string>)
    requires AllProper(cs) && FirstInner(cs).None?
    ensures Parse(Slashed(cs)) == None
  {
    IndexSlashed(cs);
  }

  lemma OneName(a: string)
    requires '/' !in a
    ensures IndexOf(a + Slashed([]), Mark()) == None && a + Slashed([]) == a && Split(a, '/') == [a]
  {
    IndexSkips(a, "");
    SplitWithout(a, '/');
  }

  lemma TwoNames(a: string, b: string)
    requires '/' !in a && '/' !in b
    ensures IndexOf(a + Slashed([b]), Mark()) == None
    ensures Split(a + Slashed([b]), '/') == [a, b]
    ensures a + Slashed([b]) == a + "/" + b
  {
    hide Strings.Split;
    SlashedStep([b]);
    hide Slashed;
    assert "/" + b + "" == "/" + b;
    assert Slashed([b]) == "/" + b;
    hide IndexOf;
    SlashName(b);
    IndexSkips(a, "/" + b);
    SplitFirst(a, '/', b);
    SplitWithout(b, '/');
    assert a + "/" + b == a + ['/'] + b;
    assert a + Slashed([b]) == a + "/" + b;
  }

  lemma SlashName(b: string)
    requires '/' !in b
    ensures IndexOf("/" + b, Mark()) == None
  {
    MarkIsComponent(b, "");
    IndexSkips(b, "");
    assert "/" + b + "" == "/" + b && ("/" + b)[1..] == b + "";
  }

  /** When the parts of a device path can be read back: the mountpoint is below the root and has
      no component named like the prefix, and stripping leaves two usable names. */
  predicate Readable(mountpoint: string, dnpName: string, volumeName: string)
  {
    && Components(mountpoint) != []
    && Prefix() !in Components(mountpoint)
    && StripCharacters(dnpName) !in ["", "."]
    && StripCharacters(volumeName) !in ["", "."]
  }

  /** The parts that `getDevicePath` put together. */
  function Expected(mountpoint: string, dnpName: string, volumeName: string): Parts
  {
    var a, b := StripCharacters(dnpName), StripCharacters(volumeName);
    Parts("/" + Join(Components(mountpoint), "/"), a, b, a + "/" + b,
          "/" + Join(Components(mountpoint) + [Prefix()], "/"))
  }

  /** Where the first inner prefix of a device path sits. */
  lemma FirstInnerOfDevice(m: seq<string>, names: seq<string>)
    requires forall i :: 0 <= i < |names| ==> names[i] != ""
    ensures var cs := m + [Prefix()] + names;
      && (Prefix() in m ==> FirstInner(cs).Some? && FirstInner(cs).value < |m|)
      && (Prefix() !in m && names != [] ==> FirstInner(cs) == Some(|m|))
      && (Prefix() !in m && names == [] ==> FirstInner(cs) == None)
  {
    var cs := m + [Prefix()] + names;
    if Prefix() in m {
      var i :| 0 <= i < |m| && m[i] == Prefix();
      assert cs[i] == Prefix();
    } else {
      assert forall i :: 0 <= i < |m| ==> cs[i] == m[i];
      assert cs[|m|] == Prefix();
    }
  }

  /** Parsing a built device path gives the normalised mountpoint and the stripped names back
      exactly when it is readable. */
  lemma RoundTrip(mountpoint: string, dnpName: string, volumeName: string)
    requires IsAbsolute(mountpoint)
    ensures Parse(Get(mountpoint, dnpName, volumeName).value) == Some(Expected(mountpoint, dnpName, volumeName))
      <==> Readable(mountpoint, dnpName, volumeName)
  {
    hide StripCharacters;
    hide Components;
    hide Parse;
    hide Slashed;
    hide Normalize;
    hide JoinPaths;
    hide Strings.Join;
    var m := Components(mountpoint);
    var names := Kept(StripCharacters(dnpName)) + Kept(StripCharacters(volumeName));
    DevicePathShape(mountpoint, dnpName, volumeName);
    if Prefix() in m {
      ParseInside(m, names);
      forall i | 0 <= i < |m| ensures Normalize(Slashed(m[..i])) != "/" + Join(m, "/") { PrefixInside(m, i); }
    } else {
      ParseOutside(m, names);
      if m == [] {
        NormalizeEmpty();
        SlashFirst(Join(m, "/"));
      } else {
        NormalizeSlashed(m);
        SlashedIsJoin(m);
        JoinPrefix(m);
      }
    }
  }

  lemma SlashFirst(s: string)
    ensures "/" + s != "."
  {
    assert ("/" + s)[0] == '/';
  }

  /** The mountpoint holds the prefix: parsing cuts inside it, or finds nothing. */
  lemma ParseInside(m: seq<string>, names: seq<string>)
    requires AllProper(m) && AllProper(names) && Prefix() in m
    ensures var r := Parse(Slashed(m + [Prefix()] + names));
      r.Some? ==> exists i :: 0 <= i < |m| && r.value.mountpoint == Normalize(Slashed(m[..i]))
  {
    hide *;
    var cs := m + [Prefix()] + names;
    PrefixProper();
    AllProperAppend(m, [Prefix()]) by { AllProperOne(Prefix()); }
    AllProperAppend(m + [Prefix()], names);
    NamesNonEmpty(names);
    FirstInnerOfDevice(m, names);
    ParseSlashed(cs);
    var i := FirstInner(cs).value;
    TakeAppend(m, Prefix(), names, i);
    assert Parse(Slashed(cs)).Some? ==>
      0 <= i < |m| && Parse(Slashed(cs)).value.mountpoint == Normalize(Slashed(m[..i]));
  }

  lemma TakeAppend(a: seq<string>, c: string, b: seq<string>, i: nat)
    requires i <= |a|
    ensures (a + [c] + b)[..i] == a[..i]
    ensures i == |a| ==> (a + [c] + b)[..i] == a
  {
  }

  lemma NamesNonEmpty(names: seq<string>)
    requires AllProper(names)
    ensures forall i :: 0 <= i < |names| ==> names[i] != ""
  {
  }

  /** The mountpoint does not hold the prefix: parsing finds the two names, or nothing. */
  lemma ParseOutside(m: seq<string>, names: seq<string>)
    requires AllProper(m) && AllProper(names) && Prefix() !in m && |names| <= 2
    ensures var r := Parse(Slashed(m + [Prefix()] + names));
      if |names| < 2 then r == None
      else r == Some(PartsOf(Slashed(m), names[0], names[1]))
  {
    hide *;
    var cs := m + [Prefix()] + names;
    NamesNonEmpty(names);
    FirstInnerOfDevice(m, names);
    PrefixProper();
    AllProperAppend(m, [Prefix()]) by { AllProperOne(Prefix()); }
    AllProperAppend(m + [Prefix()], names);
    ParseSlashed(cs);
    if |names| == 2 { TwoAfter(m, Prefix(), names); }
  }

  lemma AllProperOne(c: string)
    requires Proper(c)
    ensures AllProper([c])
  {
  }

  lemma TwoAfter(m: seq<string>, p: string, names: seq<string>)
    requires |names| == 2
    ensures var cs := m + [p] + names;
      |cs| - 3 == |m| && cs[..|m|] == m && cs[|cs| - 2] == names[0] && cs[|cs| - 1] == names[1]
  {
  }

  /** A built device path, ready for the two lemmas above. */
  lemma DevicePathShape(mountpoint: string, dnpName: string, volumeName: string)
    requires IsAbsolute(mountpoint)
    ensures var m := Components(mountpoint);
      var names := Kept(StripCharacters(dnpName)) + Kept(StripCharacters(volumeName));
      && AllProper(m) && AllProper(names)
      && Get(mountpoint, dnpName, volumeName) == Ok(Slashed(m + [Prefix()] + names))
  {
    var m, a, b := Components(mountpoint), StripCharacters(dnpName), StripCharacters(volumeName);
    hide StripCharacters;
    hide Components;
    hide Slashed;
    GetIsSlashed(mountpoint, dnpName, volumeName);
    ComponentsProper(mountpoint);
    StripLaws(dnpName);
    StripLaws(volumeName);
    KeptNames(a, b);
    assert m + ([Prefix()] + (Kept(a) + Kept(b))) == m + [Prefix()] + (Kept(a) + Kept(b));
  }

  lemma NormalizeEmpty()
    ensures Normalize("") == "." && Slashed([]) == ""
  {
  }

  lemma JoinPrefix(m: seq<string>)
    requires AllProper(m) && m != []
    ensures JoinPaths([Slashed(m), Prefix()]) == "/" + Join(m + [Prefix()], "/")
  {
    var names := [Prefix()];
    assert names[1..] == [];
    assert KeptAll(names) == [Prefix()];
    NormalizeSlashed(m);
    JoinNormal(Slashed(m), names);
    SlashedIsJoin(m + names);
    assert [Slashed(m)] + names == [Slashed(m), Prefix()];
  }

  /** A mountpoint cut at an inner component is not the whole mountpoint. */
  lemma PrefixInside(m: seq<string>, i: nat)
    requires AllProper(m) && i < |m|
    ensures Normalize(Slashed(m[..i])) == if i == 0 then "." else Slashed(m[..i])
    ensures |Slashed(m[..i])| < |Slashed(m)|
    ensures Normalize(Slashed(m[..i])) != "/" + Join(m, "/")
  {
    hide Normalize;
    hide Strings.Join;
    SlashedIsJoin(m);
    NormalizeEmpty();
    if i > 0 { NormalizeSlashed(m[..i]); }
    SlashedAppend(m[..i], m[i..]);
    assert m[..i] + m[i..] == m;
  }

  /** The mountpoint read from a device path, as the user settings store it. */
  function ParseMountpoint(devicePath: string): Option<string>
  {
    match Parse(devicePath) case None => None case Some(parts) => Some(parts.mountpoint)
  }

  /** Reading the mountpoint and building the path again gives the same path exactly when the
      path is readable. */
  lemma Rebuild(mountpoint: string, dnpName: string, volumeName: string)
    requires IsAbsolute(mountpoint)
    ensures var path := Get(mountpoint, dnpName, volumeName).value;
      (ParseMountpoint(path).Some? && Get(ParseMountpoint(path).value, dnpName, volumeName) == Ok(path))
      <==> Readable(mountpoint, dnpName, volumeName)
  {
    hide StripCharacters;
    hide Components;
    hide Parse;
    hide Slashed;
    hide Normalize;
    hide JoinPaths;
    hide Get;
    var m := Components(mountpoint);
    var names := Kept(StripCharacters(dnpName)) + Kept(StripCharacters(volumeName));
    DevicePathShape(mountpoint, dnpName, volumeName);
    var path := Get(mountpoint, dnpName, volumeName).value;
    if Prefix() in m {
      ParseInside(m, names);
      if ParseMountpoint(path).Some? {
        var i :| 0 <= i < |m| && ParseMountpoint(path).value == Normalize(Slashed(m[..i]));
        PrefixInside(m, i);
        if i > 0 { ShorterMountpoint(m, i, dnpName, volumeName); } else { DotIsRelative(dnpName, volumeName); }
      }
    } else {
      ParseOutside(m, names);
      if m == [] {
        NormalizeEmpty();
        DotIsRelative(dnpName, volumeName);
      } else {
        NormalizeSlashed(m);
        SlashedAbsolute(m);
        DevicePathShape(Slashed(m), dnpName, volumeName);
      }
    }
  }

  lemma DotIsRelative(dnpName: string, volumeName: string)
    ensures Get(".", dnpName, volumeName).Err?
  {
  }

  lemma SlashedAbsolute(m: seq<string>)
    requires m != []
    ensures IsAbsolute(Slashed(m))
  {
  }

  lemma ShorterMountpoint(m: seq<string>, i: nat, dnpName: string, volumeName: string)
    requires AllProper(m) && 0 < i < |m|
    ensures Get(Slashed(m[..i]), dnpName, volumeName) !=
      Ok(Slashed(m + [Prefix()] + (Kept(StripCharacters(dnpName)) + Kept(StripCharacters(volumeName)))))
  {
    hide StripCharacters;
    hide Components;
    hide Slashed;
    hide Get;
    hide Normalize;
    var names := Kept(StripCharacters(dnpName)) + Kept(StripCharacters(volumeName));
    NormalizeSlashed(m[..i]);
    SlashedAbsolute(m[..i]);
    DevicePathShape(Slashed(m[..i]), dnpName, volumeName);
    PrefixInside(m, i);
    SlashedThree(m, names);
    SlashedThree(m[..i], names);
  }

  lemma SlashedThree(m: seq<string>, names: seq<string>)
    ensures Slashed(m + [Prefix()] + names) == Slashed(m) + Slashed([Prefix()] + names)
  {
    SlashedAppend(m, [Prefix()] + names);
    assert m + [Prefix()] + names == m + ([Prefix()] + names);
  }

  /** The root is never readable as a mountpoint: its path gives back ".", which cannot be applied. */
  lemma RootMountpointIsLost(dnpName: string, volumeName: string)
    requires StripCharacters(dnpName) !in ["", "."] && StripCharacters(volumeName) !in ["", "."]
    ensures ParseMountpoint(Get("/", dnpName, volumeName).value) == Some(".")
    ensures Get(".", dnpName, volumeName).Err?
  {
    hide StripCharacters;
    hide Parse;
    hide Slashed;
    hide Normalize;
    assert Components("/") == [] by { assert Split("/", '/') == ["", ""]; assert ["", ""][..1] == [""]; }
    DevicePathShape("/", dnpName, volumeName);
    ParseOutside([], Kept(StripCharacters(dnpName)) + Kept(StripCharacters(volumeName)));
    NormalizeEmpty();
  }
}
