/** The text of an identifier, character by character (packages/utils/src/coreVersionId.ts). */
module CoreVersionValues {
  import opened Wrappers
  import opened Strings
  import opened CoreVersionId

  // ----- the order of the items -----

  /** `a` comes before `b` or is `b`: it is a beginning of `b`, or smaller where they first differ. */
  ghost predicate NotAfter(a: string, b: string)
  {
    a <= b || exists k :: 0 <= k < |a| && k < |b| && a[..k] == b[..k] && a[k] as int < b[k] as int
  }

  lemma {:induction false} LeIs(a: string, b: string)
    ensures Le(a, b) <==> NotAfter(a, b)
  {
    if a != "" && b != "" {
      if a[0] == b[0] {
        LeIs(a[1..], b[1..]);
        SameStart(a, b);
      } else {
        Different(a, b);
      }
    }
  }

  lemma Different(a: string, b: string)
    requires a != "" && b != "" && a[0] != b[0]
    ensures NotAfter(a, b) <==> a[0] < b[0]
  {
    assert a[..0] == b[..0];
    forall k | 0 < k < |a| && k < |b| ensures a[..k] != b[..k] { assert a[..k][0] != b[..k][0]; }
  }

  lemma SameStart(a: string, b: string)
    requires a != "" && b != "" && a[0] == b[0]
    ensures NotAfter(a, b) <==> NotAfter(a[1..], b[1..])
  {
    assert a == [a[0]] + a[1..] && b == [b[0]] + b[1..];
    assert a <= b <==> a[1..] <= b[1..];
    if k :| 0 <= k < |a| && k < |b| && a[..k] == b[..k] && a[k] as int < b[k] as int {
      assert k > 0;
      assert a[1..][..k - 1] == a[..k][1..] && b[1..][..k - 1] == b[..k][1..];
      assert a[1..][k - 1] == a[k] && b[1..][k - 1] == b[k];
    }
    if k :| 0 <= k < |a| - 1 && k < |b| - 1 && a[1..][..k] == b[1..][..k] && a[1..][k] as int < b[1..][k] as int {
      assert a[..k + 1] == [a[0]] + a[1..][..k] && b[..k + 1] == [b[0]] + b[1..][..k];
      assert a[k + 1] == a[1..][k] && b[k + 1] == b[1..][k];
    }
  }

  // ----- writing -----

  /** The text in front of the first separator, or all of it. */
  predicate Head(text: string, sep: char, head: string)
  {
    sep !in head && (text == head || head + [sep] <= text)
  }

  lemma HeadIs(text: string, sep: char)
    ensures Head(text, sep, Split(text, sep)[0])
  {
    SplitIs(text, sep);
    var parts := Split(text, sep);
    hide Split;
    JoinStep(parts, [sep]);
    if |parts| > 1 { assert text == (parts[0] + [sep]) + Join(parts[1..], [sep]); }
  }

  lemma BeyondHead(text: string, sep: char, head: string, n: nat)
    requires Head(text, sep, head) && |head| < n <= |text|
    ensures sep in text[..n]
  {
    assert text[..n][|head|] == sep;
  }

  lemma HeadIsStart(text: string, sep: char, head: string)
    requires Head(text, sep, head)
    ensures |head| <= |text| && text[..|head|] == head && sep !in text[..|head|]
  {
  }

  lemma HeadUnique(text: string, sep: char, a: string, b: string)
    requires Head(text, sep, a) && Head(text, sep, b)
    ensures a == b
  {
    hide Head;
    HeadIsStart(text, sep, a);
    HeadIsStart(text, sep, b);
    if |a| < |b| { BeyondHead(text, sep, a, |b|); }
    if |b| < |a| { BeyondHead(text, sep, b, |a|); }
  }

  /** A package gives an item: the beginning of its name up to the first dot, an `@`, and its version. */
  predicate Gives(p: Dnp, item: string)
  {
    exists k :: 0 <= k <= |p.dnpName|
      && Head(p.dnpName, '.', p.dnpName[..k]) && item == p.dnpName[..k] + "@" + p.version
  }

  lemma ItemText(p: Dnp)
    ensures Gives(p, Item(p))
  {
    HeadIs(p.dnpName, '.');
    var head := Split(p.dnpName, '.')[0];
    assert head == p.dnpName[..|head|];
    assert Item(p) == head + "@" + p.version by { JoinTwo(head, p.version); }
  }

  lemma JoinTwo(a: string, b: string)
    ensures Join([a, b], "@") == a + "@" + b
  {
    assert [a, b][1..] == [b];
  }

  /** The positions of the packages with a name and a version, in order. */
  ghost function NamedAt(xs: seq<Dnp>): (r: seq<nat>)
    ensures forall i :: 0 <= i < |r| ==> r[i] < |xs| && xs[r[i]].dnpName != "" && xs[r[i]].version != ""
    ensures forall i, j :: 0 <= i < j < |r| ==> r[i] < r[j]
    ensures forall k :: 0 <= k < |xs| && xs[k].dnpName != "" && xs[k].version != "" ==> k in r
  {
    Positions(xs, (p: Dnp) => p.dnpName != "" && p.version != "")
  }

  lemma NamedAtMore(xs: seq<Dnp>, p: Dnp)
    ensures NamedAt(xs + [p]) == NamedAt(xs) + if p.dnpName != "" && p.version != "" then [|xs|] else []
  {
    PositionsMore(xs, p, (p: Dnp) => p.dnpName != "" && p.version != "");
  }

  /** The packages at these positions give these items. */
  ghost predicate GivenAt(xs: seq<Dnp>, at: seq<nat>, items: seq<string>)
  {
    |items| == |at| && forall i :: 0 <= i < |at| ==> at[i] < |xs| && Gives(xs[at[i]], items[i])
  }

  lemma GivenMore(xs: seq<Dnp>, at: seq<nat>, items: seq<string>, p: Dnp, item: string)
    requires GivenAt(xs, at, items) && Gives(p, item)
    ensures GivenAt(xs + [p], at + [], items + []) && GivenAt(xs + [p], at + [|xs|], items + [item])
  {
    hide Gives;
  }

  lemma NothingGiven()
    ensures GivenAt([], NamedAt([]), Items([]))
  {
  }

  lemma ItemsMore(xs: seq<Dnp>, p: Dnp)
    ensures Items(xs + [p]) == Items(xs) + if p.dnpName != "" && p.version != "" then [Item(p)] else []
  {
    hide Item;
    FlatMapConcat(ItemIfAny, xs, [p]);
    assert [p][1..] == [] && FlatMap(ItemIfAny, [p]) == ItemIfAny(p) + FlatMap(ItemIfAny, []);
  }

  /** The items before they are sorted: one for each package with a name and a version, in order. */
  lemma {:induction false} ItemsAre(xs: seq<Dnp>)
    ensures GivenAt(xs, NamedAt(xs), Items(xs))
  {
    hide *;
    if xs == [] {
      NothingGiven();
    } else {
      var front, last := xs[..|xs| - 1], xs[|xs| - 1];
      assert xs == front + [last];
      ItemsAre(front);
      ItemText(last);
      NamedAtMore(front, last);
      ItemsMore(front, last);
      GivenMore(front, NamedAt(front), Items(front), last, Item(last));
    }
  }

  /** The identifier: the items of the packages that have a name and a version, in ascending order of
      their characters, joined by commas. */
  lemma IdentifierIs(xs: seq<Dnp>) returns (items: seq<string>, sorted: seq<string>)
    ensures GivenAt(xs, NamedAt(xs), items)
    ensures multiset(sorted) == multiset(items)
    ensures forall i, j :: 0 <= i < j < |sorted| ==> NotAfter(sorted[i], sorted[j])
    ensures GetCoreVersionId(xs) == Join(sorted, ",")
  {
    hide NotAfter;
    hide Gives;
    hide Items;
    hide Le;
    items := Items(xs);
    sorted := Sort(items);
    ItemsAre(xs);
    SortIs(items);
    forall i, j | 0 <= i < j < |sorted| ensures NotAfter(sorted[i], sorted[j]) { LeIs(sorted[i], sorted[j]); }
  }

  // ----- reading -----

  /** What is read of one item: the name in front of the first `@`, completed, and the version up to the
      next one; no version without an `@`. */
  ghost predicate ReadFrom(item: string, r: Read)
  {
    if '@' !in item then r == Read(item + ".dnp.dappnode.eth", None)
    else exists name, rest, version ::
      && item == name + "@" + rest && '@' !in name && Head(rest, '@', version)
      && r == Read(name + ".dnp.dappnode.eth", Some(version))
  }

  lemma ReadIs(item: string)
    ensures ReadFrom(item, ParseItem(item))
  {
    hide Split;
    if '@' !in item {
      SplitWithout(item, '@');
    } else {
      HeadIs(item, '@');
      var name := Split(item, '@')[0];
      assert item != name;
      var rest := item[|name| + 1..];
      assert item == name + ['@'] + rest;
      SplitFirst(name, '@', rest);
      HeadIs(rest, '@');
      assert Split(item, '@')[1] == Split(rest, '@')[0];
      assert item == name + "@" + rest;
    }
  }

  /** The positions of the pieces that are not empty, in order. */
  ghost function FilledAt(pieces: seq<string>): (r: seq<nat>)
    ensures forall i :: 0 <= i < |r| ==> r[i] < |pieces| && pieces[r[i]] != ""
    ensures forall i, j :: 0 <= i < j < |r| ==> r[i] < r[j]
    ensures forall k :: 0 <= k < |pieces| && pieces[k] != "" ==> k in r
  {
    Positions(pieces, piece => piece != "")
  }

  lemma FilledAtMore(pieces: seq<string>, piece: string)
    ensures FilledAt(pieces + [piece]) == FilledAt(pieces) + if piece != "" then [|pieces|] else []
  {
    PositionsMore(pieces, piece, piece => piece != "");
  }

  /** This is what is read of the pieces at these positions. */
  ghost predicate ReadAt(pieces: seq<string>, at: seq<nat>, found: seq<Read>)
  {
    |found| == |at| && forall i :: 0 <= i < |at| ==> at[i] < |pieces| && ReadFrom(pieces[at[i]], found[i])
  }

  lemma ReadMore(pieces: seq<string>, at: seq<nat>, found: seq<Read>, piece: string, r: Read)
    requires ReadAt(pieces, at, found) && ReadFrom(piece, r)
    ensures ReadAt(pieces + [piece], at + [], found + []) && ReadAt(pieces + [piece], at + [|pieces|], found + [r])
  {
    hide ReadFrom;
  }

  lemma NoPieces()
    ensures ReadAt([], FilledAt([]), FlatMap(ParseIfAny, []))
  {
  }

  lemma PieceMore(pieces: seq<string>, piece: string)
    ensures FlatMap(ParseIfAny, pieces + [piece])
      == FlatMap(ParseIfAny, pieces) + if piece != "" then [ParseItem(piece)] else []
  {
    hide ParseItem;
    FlatMapConcat(ParseIfAny, pieces, [piece]);
    assert [piece][1..] == [] && FlatMap(ParseIfAny, [piece]) == ParseIfAny(piece) + FlatMap(ParseIfAny, []);
  }

  lemma {:induction false} PiecesRead(pieces: seq<string>)
    ensures ReadAt(pieces, FilledAt(pieces), FlatMap(ParseIfAny, pieces))
  {
    hide *;
    if pieces == [] {
      NoPieces();
    } else {
      var front, last := pieces[..|pieces| - 1], pieces[|pieces| - 1];
      assert pieces == front + [last];
      PiecesRead(front);
      ReadIs(last);
      FilledAtMore(front, last);
      PieceMore(front, last);
      ReadMore(front, FilledAt(front), FlatMap(ParseIfAny, front), last, ParseItem(last));
    }
  }

  /** Reading an identifier: one package for each piece between commas that is not empty, in order. */
  lemma IdentifierRead(pieces: seq<string>)
    requires pieces != [] && forall piece :: piece in pieces ==> ',' !in piece
    ensures ReadAt(pieces, FilledAt(pieces), ParseCoreVersionId(Join(pieces, ",")))
  {
    hide ReadAt;
    SplitJoin(pieces, ',');
    PiecesRead(pieces);
  }

  /** A package is recent enough: the last entry of its name has a version, at least as high. */
  lemma CoversIs(gte: (string, Option<string>) -> bool, ys: seq<Dnp>, r: Read)
    ensures Covers(gte, ys, r) <==>
      exists i :: 0 <= i < |ys| && ys[i].dnpName == r.dnpName && ys[i].version != "" && gte(ys[i].version, r.version)
        && forall j :: i < j < |ys| ==> ys[j].dnpName != r.dnpName
  {
    hide CurrentVersion;
    if Covers(gte, ys, r) {
      var i := LastEntry(ys, r.dnpName);
    }
    forall i | 0 <= i < |ys| && ys[i].dnpName == r.dnpName && forall j :: i < j < |ys| ==> ys[j].dnpName != r.dnpName
      ensures CurrentVersion(ys, r.dnpName) == Some(ys[i].version)
    {
      CurrentIsLast(ys, i);
    }
  }

  lemma {:induction false} LastEntry(ys: seq<Dnp>, name: string) returns (i: nat)
    requires CurrentVersion(ys, name).Some?
    ensures i < |ys| && ys[i].dnpName == name && CurrentVersion(ys, name) == Some(ys[i].version)
    ensures forall j :: i < j < |ys| ==> ys[j].dnpName != name
  {
    if ys[|ys| - 1].dnpName == name { i := |ys| - 1; } else { i := LastEntry(ys[..|ys| - 1], name); }
  }
}
