/** Links into the documentation lose their `.md` ending (packages/nexus/src/utils.ts). */
module DocsUrls {
  import opened Wrappers
  import opened Strings
  import SseReader

  /** `DOCS_Origin()`. */
  function Origin(): string
  {
    "https://docs.dappnode.io/"
  }

  /** A link starts here. */
  predicate LinkAt(s: string, j: nat)
  {
    j <= |s| && Origin() <= s[j..]
  }

  /** Ends in `.md`, in either case. */
  predicate EndsMd(s: string)
  {
    |s| >= 3 && s[|s| - 3] == '.' && s[|s| - 2] in {'m', 'M'} && s[|s| - 1] in {'d', 'D'}
  }

  /** `canonicalDocUrl`. */
  function Canonical(url: string): (r: string)
    ensures r <= url
  {
    var trimmed := DropTrailingSlashes(url);
    if EndsMd(trimmed) then trimmed[..|trimmed| - 3] else trimmed
  }

  /** `isUrlTerminator`. */
  predicate Terminator(c: char)
  {
    c == ')' || SseReader.IsAsciiSpace(c)
  }

  predicate Unbroken(s: string)
  {
    forall i :: 0 <= i < |s| ==> !Terminator(s[i])
  }

  /** Nothing, or a text that ends the URL before it. */
  predicate Broken(s: string)
  {
    s != "" ==> Terminator(s[0])
  }

  /** The URL at the start of a text. */
  function Url(s: string): (r: string)
    ensures r <= s && Unbroken(r) && Broken(s[|r|..])
  {
    if s == "" || Terminator(s[0]) then "" else [s[0]] + Url(s[1..])
  }

  lemma OriginUnbroken()
    ensures Unbroken(Origin()) && Origin() != ""
  {
  }

  lemma {:induction false} UrlCovers(s: string, p: string)
    requires p <= s && Unbroken(p)
    ensures p <= Url(s)
  {
    if p != "" {
      assert p[0] == s[0] && p[1..] <= s[1..];
      assert Unbroken(p[1..]);
      UrlCovers(s[1..], p[1..]);
      assert p == [p[0]] + p[1..];
    }
  }

  lemma UrlHasOrigin(s: string, i: nat)
    requires LinkAt(s, i)
    ensures Origin() <= Url(s[i..]) && |Url(s[i..])| > 0 && s[i..] == Url(s[i..]) + s[i..][|Url(s[i..])|..]
  {
    OriginUnbroken();
    hide Origin;
    UrlCovers(s[i..], Origin());
  }

  /** What `stripMdFromDocsUrls` makes of a text. */
  function Stripped(body: string): string
    decreases |body|
  {
    match IndexOf(body, Origin())
    case None => body
    case Some(i) =>
      var u := Url(body[i..]);
      FoundAt(body);
      UrlHasOrigin(body, i);
      body[..i] + Canonical(u) + Stripped(body[i..][|u|..])
  }

  /** The links into the documentation, in order. */
  function Urls(body: string): seq<string>
    decreases |body|
  {
    match IndexOf(body, Origin())
    case None => []
    case Some(i) =>
      var u := Url(body[i..]);
      FoundAt(body);
      UrlHasOrigin(body, i);
      [u] + Urls(body[i..][|u|..])
  }

  lemma LinkInTail(s: string, j: nat)
    requires s != ""
    ensures LinkAt(s, j + 1) <==> LinkAt(s[1..], j)
  {
    hide Origin;
    if j + 1 <= |s| { assert s[j + 1..] == s[1..][j..]; }
  }

  lemma LinkAtStart(s: string)
    ensures LinkAt(s, 0) <==> Origin() <= s
  {
    hide Origin;
    assert s[0..] == s;
  }

  lemma NoLinkInNothing()
    ensures forall j: nat :: !LinkAt("", j)
  {
    OriginUnbroken();
    hide Origin;
  }

  lemma IndexOfStep(s: string, sub: string)
    ensures IndexOf(s, sub) ==
      if sub <= s then Some(0)
      else if s == "" then None
      else match IndexOf(s[1..], sub) case None => None case Some(i) => Some(i + 1)
  {
  }

  /** The first link of a text. */
  lemma {:induction false} FoundAt(s: string)
    ensures IndexOf(s, Origin()).Some? ==>
      LinkAt(s, IndexOf(s, Origin()).value) && forall j: nat :: j < IndexOf(s, Origin()).value ==> !LinkAt(s, j)
    ensures IndexOf(s, Origin()).None? ==> forall j: nat :: !LinkAt(s, j)
  {
    hide *;
    IndexOfStep(s, Origin());
    LinkAtStart(s);
    if s == "" {
      NoLinkInNothing();
    } else if !(Origin() <= s) {
      FoundAt(s[1..]);
      forall j: nat ensures LinkAt(s, j) <==> j > 0 && LinkAt(s[1..], j - 1) {
        if j > 0 { LinkInTail(s, j - 1); }
      }
    }
  }

  lemma FoundIs(s: string, i: nat)
    requires LinkAt(s, i) && forall j: nat :: j < i ==> !LinkAt(s, j)
    ensures IndexOf(s, Origin()) == Some(i)
  {
    hide Origin;
    hide IndexOf;
    hide LinkAt;
    FoundAt(s);
  }

  lemma FoundNone(s: string)
    requires forall j: nat :: !LinkAt(s, j)
    ensures IndexOf(s, Origin()) == None
  {
    hide Origin;
    hide IndexOf;
    hide LinkAt;
    FoundAt(s);
  }

  /** `stripMdFromDocsUrls`: one link after the other. */
  method StripMdFromDocsUrls(body: string) returns (output: string)
    ensures output == Stripped(body)
  {
    hide *;
    var rest := body;
    output := "";
    assert output + Stripped(rest) == Stripped(body);
    while IndexOf(rest, Origin()).Some?
      invariant output + Stripped(rest) == Stripped(body)
      decreases |rest|
    {
      var start := IndexOf(rest, Origin()).value;
      var url := Url(rest[start..]);
      StepOf(rest);
      Appended(output, rest[..start], Canonical(url), Stripped(rest[start..][|url|..]));
      output := output + rest[..start] + Canonical(url);
      rest := rest[start..][|url|..];
    }
    NoLinks(rest);
    output := output + rest;
  }

  lemma Appended(a: string, b: string, c: string, d: string)
    ensures (a + b + c) + d == a + (b + c + d)
  {
  }

  // ----- what is left -----

  lemma CutInside(p: string, a: string, x: string)
    requires Unbroken(p) && Broken(x)
    ensures p <= a + x <==> p <= a
  {
    if |p| > |a| && x != "" { assert (a + x)[|a|] == x[0]; }
  }

  /** A link does not reach beyond what ends it. */
  lemma LinkStaysInside(a: string, x: string, j: nat)
    requires j <= |a| && Broken(x)
    ensures LinkAt(a + x, j) <==> LinkAt(a, j)
  {
    OriginUnbroken();
    hide Origin;
    assert (a + x)[j..] == a[j..] + x;
    CutInside(Origin(), a[j..], x);
  }

  /** A text made of a gap in which no link starts, a link or what is left of it, and what ends it. */
  predicate Parts(body: string, gap: string, url: string, x: string)
  {
    && body == gap + url + x && Broken(x) && Unbroken(url)
    && forall j: nat :: j < |gap| ==> !LinkAt(gap + url, j)
  }

  /** What a text begins with. */
  lemma PartsOf(body: string)
    requires IndexOf(body, Origin()).Some?
    ensures var i := IndexOf(body, Origin()).value; var u := Url(body[i..]);
      Origin() <= u && |u| > 0 && Parts(body, body[..i], u, body[i..][|u|..])
  {
    hide *;
    var i := IndexOf(body, Origin()).value;
    FoundAt(body);
    UrlHasOrigin(body, i);
    var u := Url(body[i..]);
    var gap, x := body[..i], body[i..][|u|..];
    SplitAt(body, i, u, x);
    forall j: nat | j < |gap| ensures !LinkAt(gap + u, j) {
      LinkStaysInside(gap + u, x, j);
    }
    ArePart(body, gap, u, x);
  }

  lemma SplitAt(body: string, i: nat, u: string, x: string)
    requires i <= |body| && body[i..] == u + x
    ensures body == (body[..i] + u) + x && |body[..i]| == i
  {
    assert body == body[..i] + body[i..];
  }

  lemma ArePart(body: string, gap: string, u: string, x: string)
    requires body == (gap + u) + x && Broken(x) && Unbroken(u)
    requires forall j: nat :: j < |gap| ==> !LinkAt(gap + u, j)
    ensures Parts(body, gap, u, x)
  {
    hide LinkAt;
  }

  /** Shortening the link and changing what follows keeps the parts apart. */
  lemma PartsShortened(body: string, gap: string, u: string, x: string, c: string, y: string)
    requires Parts(body, gap, u, x) && c <= u && Broken(y)
    ensures Parts(gap + c + y, gap, c, y)
  {
    hide Origin;
    forall j: nat | j < |gap| ensures !LinkAt(gap + c, j) {
      assert !LinkAt(gap + u, j);
      assert (gap + c)[j..] <= (gap + u)[j..];
    }
  }

  lemma UrlOf(c: string, y: string)
    requires Unbroken(c) && Broken(y)
    ensures Url(c + y) == c
  {
    if c == "" {
      assert c + y == y;
    } else {
      assert (c + y)[0] == c[0] && (c + y)[1..] == c[1..] + y;
      UrlOf(c[1..], y);
    }
  }

  /** A link that is still one is found again. */
  lemma FoundAgain(body: string, gap: string, c: string, y: string)
    requires Parts(body, gap, c, y) && Origin() <= c
    ensures IndexOf(body, Origin()) == Some(|gap|) && body[..|gap|] == gap
    ensures Url(body[|gap|..]) == c && body[|gap|..][|c|..] == y
  {
    hide Origin;
    hide IndexOf;
    assert body[|gap|..] == c + y;
    UrlOf(c, y);
    assert LinkAt(body, |gap|);
    hide LinkAt;
    forall j: nat | j < |gap| ensures !LinkAt(body, j) { LinkStaysInside(gap + c, y, j); }
    FoundIs(body, |gap|);
  }

  lemma LinkAfter(a: string, y: string, j: nat)
    ensures LinkAt(a + y, |a| + j) <==> LinkAt(y, j)
  {
    hide Origin;
    if j <= |y| { assert (a + y)[|a| + j..] == y[j..]; }
  }

  lemma TooShort(gap: string, c: string, j: nat)
    requires |c| < |Origin()| && |gap| <= j
    ensures !LinkAt(gap + c, j)
  {
    hide Origin;
  }

  /** A link that is too short to be one is passed over. */
  lemma PassedOver(body: string, gap: string, c: string, y: string)
    requires Parts(body, gap, c, y) && |c| < |Origin()|
    ensures IndexOf(body, Origin())
      == match IndexOf(y, Origin()) case None => None case Some(i) => Some(|gap| + |c| + i)
  {
    hide Origin;
    hide IndexOf;
    hide LinkAt;
    var a := gap + c;
    forall j: nat ensures LinkAt(body, j) <==> j >= |a| && LinkAt(y, j - |a|) {
      if j < |a| {
        LinkStaysInside(a, y, j);
        if j >= |gap| { TooShort(gap, c, j); }
      } else {
        LinkAfter(a, y, j - |a|);
      }
    }
    FoundAt(y);
    if IndexOf(y, Origin()).Some? { FoundIs(body, |a| + IndexOf(y, Origin()).value); } else { FoundNone(body); }
  }

  lemma NoLinkAtStart(x: string)
    requires Broken(x)
    ensures !LinkAt(x, 0)
  {
    OriginUnbroken();
    hide Origin;
    assert x[0..] == x;
  }

  /** Stripping keeps the end of a link where it is. */
  lemma StrippedBroken(x: string)
    requires Broken(x)
    ensures Broken(Stripped(x)) && |Stripped(x)| <= |x|
    decreases |x|
  {
    hide Origin;
    hide Url;
    hide Canonical;
    OriginUnbroken();
    if IndexOf(x, Origin()).Some? {
      var i := IndexOf(x, Origin()).value;
      PartsOf(x);
      FoundAt(x);
      NoLinkAtStart(x);
      var u := Url(x[i..]);
      StrippedBroken(x[i..][|u|..]);
      assert Stripped(x)[0] == x[0];
    }
  }

  lemma {:induction false} StrippedShorter(body: string)
    ensures |Stripped(body)| <= |body|
    decreases |body|
  {
    hide Url;
    hide Canonical;
    hide IndexOf;
    if IndexOf(body, Origin()).Some? {
      PartsOf(body);
      var i := IndexOf(body, Origin()).value;
      StrippedShorter(body[i..][|Url(body[i..])|..]);
    }
  }

  /** The links that are left: each in its canonical form, if that is still a link. */
  function Left(urls: seq<string>): seq<string>
  {
    if urls == [] then []
    else (if Origin() <= Canonical(urls[0]) then [Canonical(urls[0])] else []) + Left(urls[1..])
  }

  /** A link that stays as it is when the text is stripped again. */
  predicate Settled(url: string)
  {
    Origin() <= Canonical(url) ==> Canonical(Canonical(url)) == Canonical(url)
  }

  predicate AllSettled(urls: seq<string>)
  {
    forall i :: 0 <= i < |urls| ==> Settled(urls[i])
  }

  lemma OriginOfPrefix(c: string, u: string)
    requires c <= u && Origin() <= u
    ensures Origin() <= c <==> |c| >= |Origin()|
  {
    hide Origin;
  }

  lemma NoLinks(body: string)
    requires IndexOf(body, Origin()).None?
    ensures Stripped(body) == body && Urls(body) == []
  {
  }

  lemma StepOf(body: string)
    requires IndexOf(body, Origin()).Some?
    ensures var i := IndexOf(body, Origin()).value; var u := Url(body[i..]);
      var x := body[i..][|u|..];
      && |x| < |body| && Stripped(body) == body[..i] + Canonical(u) + Stripped(x) && Urls(body) == [u] + Urls(x)
  {
    hide IndexOf;
    hide Canonical;
    hide Url;
    PartsOf(body);
  }

  lemma PartsBroken(body: string, gap: string, u: string, x: string)
    requires Parts(body, gap, u, x)
    ensures Broken(x) && body == gap + u + x
  {
  }

  lemma TailAt(a: string, y: string, i: nat)
    requires i <= |y|
    ensures (a + y)[|a| + i..] == y[i..] && (a + y)[..|a| + i] == a + y[..i]
  {
  }

  /** What passing over a link means for the rest. */
  lemma PassedStep(a: string, y: string)
    requires IndexOf(a + y, Origin()) == match IndexOf(y, Origin()) case None => None case Some(i) => Some(|a| + i)
    ensures Stripped(a + y) == a + Stripped(y) && Urls(a + y) == Urls(y)
  {
    hide *;
    if IndexOf(y, Origin()).Some? {
      var i := IndexOf(y, Origin()).value;
      TailAt(a, y, i);
      StepOf(a + y);
      StepOf(y);
      var u := Url(y[i..]);
      Regrouped(a, y[..i], Canonical(u), Stripped(y[i..][|u|..]));
    } else {
      NoLinks(y);
      NoLinks(a + y);
    }
  }

  lemma Regrouped(a: string, b: string, c: string, d: string)
    ensures (a + b) + c + d == a + (b + c + d)
  {
  }

  lemma LeftStep(u: string, rest: seq<string>)
    ensures Left([u] + rest) == (if Origin() <= Canonical(u) then [Canonical(u)] else []) + Left(rest)
  {
    hide Canonical;
    assert ([u] + rest)[1..] == rest;
  }

  lemma SettledStep(u: string, rest: seq<string>)
    ensures AllSettled([u] + rest)
      <==> (Origin() <= Canonical(u) ==> Canonical(Canonical(u)) == Canonical(u)) && AllSettled(rest)
  {
    hide Canonical;
    var all := [u] + rest;
    assert all[0] == u && forall i :: 0 <= i < |rest| ==> all[i + 1] == rest[i];
  }

  lemma SameParts(gap: string, a: string, b: string, p: string, q: string)
    requires a <= b && |p| <= |q|
    ensures gap + a + p == gap + b + q <==> a == b && p == q
  {
    if gap + a + p == gap + b + q {
      assert |a| == |b| && |p| == |q|;
      assert p == (gap + a + p)[|gap| + |a|..];
      assert q == (gap + b + q)[|gap| + |b|..];
    }
  }

  /** A stripped text with a link that still is one. */
  lemma AgainFound(s: string, gap: string, c: string, y: string)
    requires Parts(s, gap, c, y) && Origin() <= c
    ensures Urls(s) == [c] + Urls(y)
    ensures Stripped(s) == s <==> Canonical(c) == c && Stripped(y) == y
  {
    hide *;
    FoundAgain(s, gap, c, y);
    StepOf(s);
    PartsBroken(s, gap, c, y);
    StrippedShorter(y);
    SameParts(gap, Canonical(c), c, Stripped(y), y);
  }

  /** A stripped text with a link that no longer is one. */
  lemma AgainPassed(s: string, gap: string, c: string, y: string)
    requires Parts(s, gap, c, y) && |c| < |Origin()|
    ensures Urls(s) == Urls(y)
    ensures Stripped(s) == s <==> Stripped(y) == y
  {
    hide *;
    PassedOver(s, gap, c, y);
    PartsBroken(s, gap, c, y);
    PassedStep(gap + c, y);
    StrippedShorter(y);
    SameParts(gap, c, c, Stripped(y), y);
  }

  /** Stripping leaves exactly the canonical links, and stripping again changes nothing exactly when
      each of them is settled. */
  lemma {:induction false} StripAgain(body: string)
    ensures Urls(Stripped(body)) == Left(Urls(body))
    ensures Stripped(Stripped(body)) == Stripped(body) <==> AllSettled(Urls(body))
    decreases |body|
  {
    hide *;
    if IndexOf(body, Origin()).None? {
      NoLinks(body);
      NothingLeft();
    } else {
      var i := IndexOf(body, Origin()).value;
      var u := Url(body[i..]);
      var gap, x, c := body[..i], body[i..][|u|..], Canonical(u);
      PartsOf(body);
      StepOf(body);
      StripAgain(x);
      PartsBroken(body, gap, u, x);
      StrippedBroken(x);
      PartsShortened(body, gap, u, x, c, Stripped(x));
      OriginOfPrefix(c, u);
      LeftStep(u, Urls(x));
      SettledStep(u, Urls(x));
      if Origin() <= c {
        AgainFound(Stripped(body), gap, c, Stripped(x));
      } else {
        AgainPassed(Stripped(body), gap, c, Stripped(x));
      }
    }
  }

  lemma NothingLeft()
    ensures Left([]) == [] && AllSettled([])
  {
  }

  lemma {:induction false} LeftAre(urls: seq<string>)
    ensures forall r :: r in Left(urls) <==> exists u :: u in urls && r == Canonical(u) && Origin() <= r
  {
    hide Canonical;
    hide Origin;
    if urls != [] {
      LeftAre(urls[1..]);
      assert forall u :: u in urls <==> u == urls[0] || u in urls[1..];
    }
  }

  /** No link that is shown ends in `.md`, exactly when no link did twice. */
  lemma NoEndingShown(body: string)
    ensures (forall u :: u in Urls(Stripped(body)) ==> !EndsMd(u))
      <==> (forall u :: u in Urls(body) && Origin() <= Canonical(u) ==> !EndsMd(Canonical(u)))
  {
    hide *;
    StripAgain(body);
    LeftAre(Urls(body));
  }

  const LINK := "a.md"

  lemma DoubleEnding(u: string, c: string)
    requires c == Origin() + LINK && u == c + ".md"
    ensures Canonical(u) == c && EndsMd(c) && Origin() <= c && Unbroken(u) && |u| > 0
  {
    assert DropTrailingSlashes(u) == u;
  }

  lemma OneLink(u: string)
    requires Origin() <= u && Unbroken(u)
    ensures Urls(u) == [u]
  {
    hide Origin;
    assert u + "" == u && u[0..] == u && u[|u|..] == "";
    UrlOf(u, "");
    assert LinkAt(u, 0);
    FoundIs(u, 0);
    hide *;
    StepOf(u);
    NoLinkInNothing();
    FoundNone("");
    NoLinks("");
  }

  /** Concretely: a link that ends in `.md` twice keeps one of them. */
  lemma DoubleEndingStays()
    ensures var c := Origin() + LINK;
      Urls(c + ".md") == [c + ".md"] && Urls(Stripped(c + ".md")) == [c] && EndsMd(c)
  {
    hide *;
    var c := Origin() + LINK;
    var u := c + ".md";
    DoubleEnding(u, c);
    OneLink(u);
    StripAgain(u);
    LeftStep(u, []);
    NothingLeft();
    assert [u] + [] == [u] && [c] + [] == [c];
  }

  // ----- one link, character by character -----

  /** A character that a link may hold. */
  predicate LinkChar(c: char)
  {
    c != ')' && !SseReader.White(c)
  }

  predicate MdEnding(ending: string)
  {
    ending in [".md", ".MD", ".Md", ".mD"]
  }

  /** No link starts in front. */
  predicate NoLinkBefore(gap: string, url: string)
  {
    forall j :: 0 <= j < |gap| ==> !("https://docs.dappnode.io/" <= (gap + url)[j..])
  }

  lemma LinkCharIs(c: char)
    ensures LinkChar(c) <==> !Terminator(c)
  {
  }

  lemma MdEndingIs(s: string)
    ensures EndsMd(s) <==> |s| >= 3 && MdEnding(s[|s| - 3..])
  {
    if |s| >= 3 {
      var t := s[|s| - 3..];
      assert t == [t[0], t[1], t[2]];
    }
  }

  lemma {:induction false} SlashesDrop(t: string, slashes: string)
    requires t != "" && t[|t| - 1] != '/' && forall i :: 0 <= i < |slashes| ==> slashes[i] == '/'
    ensures DropTrailingSlashes(t + slashes) == t
  {
    if slashes == "" {
      assert t + slashes == t;
    } else {
      SlashesDrop(t, slashes[..|slashes| - 1]);
      assert (t + slashes)[..|t + slashes| - 1] == t + slashes[..|slashes| - 1];
    }
  }

  lemma CanonicalIs(stem: string, ending: string, slashes: string)
    requires stem != "" && stem[|stem| - 1] != '/' && forall i :: 0 <= i < |slashes| ==> slashes[i] == '/'
    requires MdEnding(ending) || (ending == "" && !(|stem| >= 3 && MdEnding(stem[|stem| - 3..])))
    ensures Canonical(stem + ending + slashes) == stem
  {
    hide EndsMd;
    hide DropTrailingSlashes;
    var t := stem + ending;
    SlashesDrop(t, slashes);
    MdEndingIs(t);
    if ending == "" { assert t == stem; } else { assert t[|t| - 3..] == ending && t[..|t| - 3] == stem; }
  }

  lemma LinkParts(gap: string, url: string, rest: string)
    requires "https://docs.dappnode.io/" <= url && (forall i :: 0 <= i < |url| ==> LinkChar(url[i]))
    requires NoLinkBefore(gap, url) && (rest != "" ==> !LinkChar(rest[0]))
    ensures Parts(gap + url + rest, gap, url, rest) && Origin() <= url
  {
    hide Terminator;
    hide LinkChar;
    forall c: char { LinkCharIs(c); }
  }

  /** A link in a text: whatever comes before and after it, its trailing slashes and one `.md` go. */
  lemma LinkStripped(gap: string, page: string, ending: string, slashes: string, rest: string)
    requires page != "" && page[|page| - 1] != '/' && forall i :: 0 <= i < |slashes| ==> slashes[i] == '/'
    requires MdEnding(ending) || (ending == "" && !(|page| >= 3 && MdEnding(page[|page| - 3..])))
    requires (forall i :: 0 <= i < |page| ==> LinkChar(page[i])) && (rest != "" ==> !LinkChar(rest[0]))
    requires NoLinkBefore(gap, "https://docs.dappnode.io/" + page + ending + slashes)
    ensures Stripped(gap + ("https://docs.dappnode.io/" + page + ending + slashes) + rest)
      == gap + ("https://docs.dappnode.io/" + page) + Stripped(rest)
  {
    var stem := "https://docs.dappnode.io/" + page;
    var url := stem + ending + slashes;
    LinkText(page, ending, slashes);
    StemEnds(page);
    CanonicalIs(stem, ending, slashes);
    LinkParts(gap, url, rest);
    hide *;
    FoundAgain(gap + url + rest, gap, url, rest);
    StepOf(gap + url + rest);
  }

  lemma LinkText(page: string, ending: string, slashes: string)
    requires (forall i :: 0 <= i < |page| ==> LinkChar(page[i])) && (MdEnding(ending) || ending == "")
    requires forall i :: 0 <= i < |slashes| ==> slashes[i] == '/'
    ensures var url := "https://docs.dappnode.io/" + page + ending + slashes;
      "https://docs.dappnode.io/" <= url && forall i :: 0 <= i < |url| ==> LinkChar(url[i])
  {
    forall i | 0 <= i < |ending| ensures LinkChar(ending[i]) { }
    forall i | 0 <= i < 25 ensures LinkChar("https://docs.dappnode.io/"[i]) { }
  }

  lemma StemEnds(page: string)
    requires page != ""
    ensures var stem := "https://docs.dappnode.io/" + page;
      && stem != "" && stem[|stem| - 1] == page[|page| - 1]
      && (|stem| >= 3 && MdEnding(stem[|stem| - 3..]) ==> |page| >= 3 && MdEnding(page[|page| - 3..]))
  {
    var stem := "https://docs.dappnode.io/" + page;
    if |page| >= 3 { assert stem[|stem| - 3..] == page[|page| - 3..]; }
    else { assert stem[|stem| - 3..][2 - |page|] == '/'; }
  }

  /** A text without links stays. */
  lemma NothingStripped(body: string)
    requires forall j :: 0 <= j <= |body| ==> !("https://docs.dappnode.io/" <= body[j..])
    ensures Stripped(body) == body
  {
    assert forall j: nat :: !LinkAt(body, j);
    FoundNone(body);
    NoLinks(body);
  }
}
