/** The identifier of a set of core package versions (packages/utils/src/coreVersionId.ts). */
module CoreVersionId {
  import opened Wrappers
  import opened Strings

  datatype Dnp = Dnp(dnpName: string, version: string)

  // ----- the order of strings -----

  /** By character code, shorter first. */
  predicate Le(a: string, b: string)
  {
    a == "" || (b != "" && (a[0] < b[0] || (a[0] == b[0] && Le(a[1..], b[1..]))))
  }

  lemma {:induction false} LeTotal(a: string, b: string)
    ensures Le(a, b) || Le(b, a)
  {
    if a != "" && b != "" && a[0] == b[0] { LeTotal(a[1..], b[1..]); }
  }

  lemma {:induction false} LeAntisymmetric(a: string, b: string)
    requires Le(a, b) && Le(b, a)
    ensures a == b
  {
    if a != "" && b != "" {
      LeAntisymmetric(a[1..], b[1..]);
      assert a == [a[0]] + a[1..] && b == [b[0]] + b[1..];
    }
  }

  lemma {:induction false} LeTransitive(a: string, b: string, c: string)
    requires Le(a, b) && Le(b, c)
    ensures Le(a, c)
  {
    if a != "" && a[0] == b[0] && b[0] == c[0] { LeTransitive(a[1..], b[1..], c[1..]); }
  }

  // ----- sorting -----

  predicate Sorted(s: seq<string>)
  {
    forall i, j :: 0 <= i < j < |s| ==> Le(s[i], s[j])
  }

  function Insert(x: string, s: seq<string>): seq<string>
  {
    if s == [] then [x] else if Le(x, s[0]) then [x] + s else [s[0]] + Insert(x, s[1..])
  }

  /** `sort()`. */
  function Sort(s: seq<string>): seq<string>
  {
    if s == [] then [] else Insert(s[0], Sort(s[1..]))
  }

  lemma {:induction false} InsertRearranges(x: string, s: seq<string>)
    ensures multiset(Insert(x, s)) == multiset(s) + multiset{x}
  {
    hide Le;
    if s != [] && !Le(x, s[0]) {
      InsertRearranges(x, s[1..]);
      WithoutFirst(s);
      WithoutFirst([s[0]] + Insert(x, s[1..]));
      assert ([s[0]] + Insert(x, s[1..]))[1..] == Insert(x, s[1..]);
    }
  }

  lemma {:induction false} InsertContains(x: string, s: seq<string>)
    ensures forall y :: y in Insert(x, s) <==> y == x || y in s
  {
    hide Le;
    if s != [] && !Le(x, s[0]) { InsertContains(x, s[1..]); }
  }

  lemma SortedCons(x: string, s: seq<string>)
    requires Sorted(s) && forall y :: y in s ==> Le(x, y)
    ensures Sorted([x] + s)
  {
    hide Le;
  }

  lemma {:induction false} InsertSorted(x: string, s: seq<string>)
    requires Sorted(s)
    ensures Sorted(Insert(x, s))
  {
    hide Le;
    if s == [] {
      SortedCons(x, s);
    } else if Le(x, s[0]) {
      forall y | y in s ensures Le(x, y) {
        FirstIsLeast(s, y);
        LeTransitive(x, s[0], y);
      }
      SortedCons(x, s);
    } else {
      LeTotal(x, s[0]);
      InsertSorted(x, s[1..]);
      InsertContains(x, s[1..]);
      forall y | y in Insert(x, s[1..]) ensures Le(s[0], y) {
        if y != x { FirstIsLeast(s, y); }
      }
      SortedCons(s[0], Insert(x, s[1..]));
    }
  }

  /** Sorting sorts and rearranges. */
  lemma {:induction false} SortIs(s: seq<string>)
    ensures Sorted(Sort(s)) && multiset(Sort(s)) == multiset(s)
  {
    hide Insert;
    hide Le;
    if s != [] {
      SortIs(s[1..]);
      InsertSorted(s[0], Sort(s[1..]));
      InsertRearranges(s[0], Sort(s[1..]));
      WithoutFirst(s);
    }
  }

  lemma WithoutFirst<T>(a: seq<T>)
    requires a != []
    ensures multiset(a) == multiset{a[0]} + multiset(a[1..])
  {
    assert a == [a[0]] + a[1..];
  }

  lemma SameLength<T>(a: seq<T>, b: seq<T>)
    requires multiset(a) == multiset(b)
    ensures |a| == |b|
  {
    assert |multiset(a)| == |a| && |multiset(b)| == |b|;
  }

  lemma SameFirst(a: seq<string>, b: seq<string>)
    requires Sorted(a) && Sorted(b) && multiset(a) == multiset(b) && a != []
    ensures b != [] && a[0] == b[0]
  {
    hide Le;
    assert a[0] in multiset(b);
    assert b[0] in multiset(a);
    FirstIsLeast(a, b[0]);
    FirstIsLeast(b, a[0]);
    LeAntisymmetric(a[0], b[0]);
  }

  lemma TailSorted(a: seq<string>)
    requires Sorted(a) && a != []
    ensures Sorted(a[1..])
  {
    hide Le;
  }

  lemma SameTails<T>(x: multiset<T>, a: multiset<T>, b: multiset<T>)
    requires x + a == x + b
    ensures a == b
  {
    assert (x + a) - x == a && (x + b) - x == b;
  }

  /** Sorted lists of the same strings are equal. */
  lemma {:induction false} SortedUnique(a: seq<string>, b: seq<string>)
    requires Sorted(a) && Sorted(b) && multiset(a) == multiset(b)
    ensures a == b
  {
    SameLength(a, b);
    if a != [] {
      hide *;
      SameFirst(a, b);
      WithoutFirst(a);
      WithoutFirst(b);
      SameTails(multiset{a[0]}, multiset(a[1..]), multiset(b[1..]));
      TailSorted(a);
      TailSorted(b);
      SortedUnique(a[1..], b[1..]);
      assert a == [a[0]] + a[1..] && b == [b[0]] + b[1..];
    }
  }

  lemma FirstIsLeast(s: seq<string>, x: string)
    requires Sorted(s) && x in s
    ensures Le(s[0], x)
  {
    LeTotal(x, x);
  }

  // ----- the identifier -----

  /** `dnpName.split(".")[0]@version`. */
  function Item(p: Dnp): string
  {
    Join([Split(p.dnpName, '.')[0], p.version], "@")
  }

  /** `filter` and `map` in one: what each element gives, in order. */
  function FlatMap<T, U>(f: T -> seq<U>, xs: seq<T>): seq<U>
  {
    if xs == [] then [] else f(xs[0]) + FlatMap(f, xs[1..])
  }

  /** The item of a package with a name and a version. */
  function ItemIfAny(p: Dnp): seq<string>
  {
    if p.dnpName != "" && p.version != "" then [Item(p)] else []
  }

  function Items(dnps: seq<Dnp>): seq<string>
  {
    FlatMap(ItemIfAny, dnps)
  }

  /** `getCoreVersionId`. */
  function GetCoreVersionId(dnps: seq<Dnp>): string
  {
    Join(Sort(Items(dnps)), ",")
  }

  function Suffix(): string
  {
    ".dnp.dappnode.eth"
  }

  /** A package as read: a missing version is `undefined`. */
  datatype Read = Read(dnpName: string, version: Option<string>)

  function ParseItem(item: string): Read
  {
    var parts := Split(item, '@');
    Read(parts[0] + Suffix(), if |parts| > 1 then Some(parts[1]) else None)
  }

  function ParseIfAny(item: string): seq<Read>
  {
    if item != "" then [ParseItem(item)] else []
  }

  /** `parseCoreVersionId`. */
  function ParseCoreVersionId(versionId: string): seq<Read>
  {
    FlatMap(ParseIfAny, Split(versionId, ','))
  }

  // ----- the order of the packages does not matter -----

  lemma {:induction false} FlatMapConcat<T, U>(f: T -> seq<U>, a: seq<T>, b: seq<T>)
    ensures FlatMap(f, a + b) == FlatMap(f, a) + FlatMap(f, b)
  {
    if a == [] {
      assert a + b == b;
    } else {
      assert (a + b)[1..] == a[1..] + b;
      FlatMapConcat(f, a[1..], b);
    }
  }

  lemma OutOf<T>(b: seq<T>, i: nat)
    requires i < |b|
    ensures b == b[..i] + ([b[i]] + b[i + 1..])
    ensures multiset(b) == multiset{b[i]} + multiset(b[..i] + b[i + 1..])
  {
    assert b == b[..i] + ([b[i]] + b[i + 1..]);
  }

  /** Taking one element out of a list takes what it gives out of the result. */
  lemma TakeOut<T, U>(f: T -> seq<U>, b: seq<T>, i: nat)
    requires i < |b|
    ensures multiset(b) == multiset{b[i]} + multiset(b[..i] + b[i + 1..])
    ensures multiset(FlatMap(f, b)) == multiset(FlatMap(f, [b[i]])) + multiset(FlatMap(f, b[..i] + b[i + 1..]))
  {
    hide FlatMap;
    var before, after := b[..i], b[i + 1..];
    OutOf(b, i);
    FlatMapConcat(f, before, [b[i]] + after);
    FlatMapConcat(f, [b[i]], after);
    FlatMapConcat(f, before, after);
  }

  /** Rearranging a list rearranges what it gives. */
  lemma {:induction false} Rearranged<T, U>(f: T -> seq<U>, a: seq<T>, b: seq<T>)
    requires multiset(a) == multiset(b)
    ensures multiset(FlatMap(f, a)) == multiset(FlatMap(f, b))
    decreases |a|
  {
    hide *;
    SameLength(a, b);
    if a != [] {
      assert a[0] in multiset(b);
      var i :| 0 <= i < |b| && b[i] == a[0];
      TakeOut(f, a, 0);
      TakeOut(f, b, i);
      assert a[..0] + a[0 + 1..] == a[1..];
      var rest := b[..i] + b[i + 1..];
      SameTails(multiset{a[0]}, multiset(a[1..]), multiset(rest));
      Rearranged(f, a[1..], rest);
    }
  }

  /** The identifier is the same for every order in which the packages are listed. */
  lemma OrderDoesNotMatter(a: seq<Dnp>, b: seq<Dnp>)
    requires multiset(a) == multiset(b)
    ensures GetCoreVersionId(a) == GetCoreVersionId(b)
  {
    Rearranged(ItemIfAny, a, b);
    SortIs(Items(a));
    SortIs(Items(b));
    SortedUnique(Sort(Items(a)), Sort(Items(b)));
  }

  // ----- reading the identifier back -----

  /** A package whose name and version survive: `<short>.dnp.dappnode.eth`, with no separator inside. */
  predicate Wellformed(p: Dnp)
  {
    var short := Split(p.dnpName, '.')[0];
    && p.dnpName == short + Suffix() && ',' !in short && '@' !in short
    && p.version != "" && ',' !in p.version && '@' !in p.version
  }

  function ReadOf(p: Dnp): seq<Read>
  {
    [Read(p.dnpName, Some(p.version))]
  }

  lemma ItemIs(p: Dnp)
    requires Wellformed(p)
    ensures ItemIfAny(p) == [Item(p)] && Item(p) != "" && ',' !in Item(p)
    ensures ParseIfAny(Item(p)) == ReadOf(p)
  {
    hide Split;
    var short := Split(p.dnpName, '.')[0];
    assert |p.dnpName| >= |Suffix()|;
    assert Join([short, p.version], "@") == short + "@" + p.version;
    SplitJoin([short, p.version], '@');
  }

  predicate AllWellformed(xs: seq<Dnp>)
  {
    forall i :: 0 <= i < |xs| ==> Wellformed(xs[i])
  }

  lemma {:induction false} ItemsRead(xs: seq<Dnp>)
    requires AllWellformed(xs)
    ensures forall s :: s in Items(xs) ==> ',' !in s
    ensures FlatMap(ParseIfAny, Items(xs)) == FlatMap(ReadOf, xs)
  {
    hide Item;
    hide ItemIfAny;
    hide ParseIfAny;
    hide Wellformed;
    if xs != [] {
      ItemIs(xs[0]);
      ItemsRead(xs[1..]);
      assert Items(xs) == [Item(xs[0])] + Items(xs[1..]);
      assert Items(xs)[1..] == Items(xs[1..]);
    }
  }

  lemma {:induction false} ReadsAre(xs: seq<Dnp>)
    ensures |FlatMap(ReadOf, xs)| == |xs|
    ensures forall i :: 0 <= i < |xs| ==> FlatMap(ReadOf, xs)[i] == Read(xs[i].dnpName, Some(xs[i].version))
  {
    if xs != [] {
      ReadsAre(xs[1..]);
      assert FlatMap(ReadOf, xs) == ReadOf(xs[0]) + FlatMap(ReadOf, xs[1..]);
    }
  }

  /** The identifier of items without a comma is read item by item. */
  lemma ReadItems(xs: seq<Dnp>)
    requires forall s :: s in Items(xs) ==> ',' !in s
    ensures multiset(ParseCoreVersionId(GetCoreVersionId(xs))) == multiset(FlatMap(ParseIfAny, Items(xs)))
  {
    hide Le;
    hide Split;
    hide Item;
    hide FlatMap;
    hide ItemIfAny;
    hide ParseIfAny;
    var items := Items(xs);
    SortIs(items);
    var sorted := Sort(items);
    Rearranged(ParseIfAny, sorted, items);
    if sorted == [] {
      assert |multiset(sorted)| == |multiset(items)|;
      NothingRead();
    } else {
      forall s | s in sorted ensures ',' !in s {
        assert s in multiset(items);
        assert s in items;
      }
      SplitJoin(sorted, ',');
    }
  }

  lemma NothingRead()
    ensures ParseCoreVersionId("") == [] && FlatMap(ParseIfAny, []) == []
  {
    assert Split("", ',') == [""];
    assert FlatMap(ParseIfAny, [""]) == ParseIfAny("") + FlatMap(ParseIfAny, [""][1..]);
  }

  /** The characters of `a` are all characters of `b`. */
  predicate Within(a: string, b: string)
  {
    forall c :: c in a ==> c in b
  }

  /** A part of a text holds none of the separators, and only characters of the text. */
  lemma {:induction false} PartFits(s: string, sep: char, i: nat)
    requires i < |Split(s, sep)|
    ensures sep !in Split(s, sep)[i] && Within(Split(s, sep)[i], s)
  {
    if s != "" {
      assert s == [s[0]] + s[1..];
      var rest := Split(s[1..], sep);
      if s[0] == sep {
        assert Split(s, sep)[i] == if i == 0 then "" else rest[i - 1];
        if i > 0 { PartFits(s[1..], sep, i - 1); }
      } else {
        assert Split(s, sep)[i] == if i == 0 then [s[0]] + rest[0] else rest[i];
        PartFits(s[1..], sep, i);
      }
    }
  }

  /** Where a package read comes from. */
  lemma {:induction false} Source(items: seq<string>, r: Read) returns (i: nat)
    requires r in FlatMap(ParseIfAny, items)
    ensures i < |items| && ParseItem(items[i]) == r
  {
    hide ParseItem;
    if r in ParseIfAny(items[0]) {
      i := 0;
    } else {
      i := Source(items[1..], r);
      i := i + 1;
    }
  }

  predicate Plain(s: string)
  {
    ',' !in s && '@' !in s
  }

  lemma PlainConcat(a: string, b: string)
    ensures Plain(a + b) <==> Plain(a) && Plain(b)
  {
    assert forall c :: c in a + b <==> c in a || c in b;
  }

  lemma PlainSuffix()
    ensures Plain(Suffix()) && Suffix() == ['.'] + "dnp.dappnode.eth"
  {
  }

  /** Whatever is read has no separator inside, and a name with the suffix. */
  lemma ReadIsPlain(versionId: string, r: Read)
    requires r in ParseCoreVersionId(versionId) && r.version.Some?
    ensures Plain(r.dnpName) && Plain(r.version.value) && r.dnpName != ""
  {
    hide Split;
    hide FlatMap;
    hide Suffix;
    var pieces := Split(versionId, ',');
    var i := Source(pieces, r);
    var parts := Split(pieces[i], '@');
    PartFits(versionId, ',', i);
    PartFits(pieces[i], '@', 0);
    PartFits(pieces[i], '@', 1);
    assert Within(parts[0], pieces[i]) && '@' !in parts[0] && ',' !in pieces[i];
    assert Within(parts[1], pieces[i]) && '@' !in parts[1];
    PlainSuffix();
    PlainConcat(parts[0], Suffix());
  }

  lemma ItemShape(p: Dnp)
    ensures Item(p) == Split(p.dnpName, '.')[0] + ['@'] + p.version
  {
    hide Split;
    assert Join([Split(p.dnpName, '.')[0], p.version][1..], "@") == p.version;
  }

  /** The item of a package without separators inside, and what is read of it. */
  lemma PlainItem(p: Dnp)
    requires Plain(p.dnpName) && Plain(p.version)
    ensures Item(p) != "" && ',' !in Item(p)
    ensures ParseItem(Item(p)) == ReadAs(p)
  {
    hide Split;
    hide Suffix;
    var short := Split(p.dnpName, '.')[0];
    ItemShape(p);
    PartFits(p.dnpName, '.', 0);
    SplitFirst(short, '@', p.version);
    SplitWithout(p.version, '@');
    assert Within(short, p.dnpName);
    assert forall c :: c in Item(p) ==> c in short || c == '@' || c in p.version;
  }

  predicate AllPlain(xs: seq<Dnp>)
  {
    forall i :: 0 <= i < |xs| ==> Plain(xs[i].dnpName) && Plain(xs[i].version) && xs[i].dnpName != ""
  }

  /** The package that is read of the item of `p`. */
  function ReadAs(p: Dnp): Read
  {
    Read(Split(p.dnpName, '.')[0] + Suffix(), Some(p.version))
  }

  lemma PlainStep(xs: seq<Dnp>)
    requires AllPlain(xs) && xs != []
    ensures AllPlain(xs[1..]) && Plain(xs[0].dnpName) && Plain(xs[0].version)
    ensures xs[0].version == "" ==> Items(xs) == Items(xs[1..])
    ensures xs[0].version != "" ==> Items(xs) == [Item(xs[0])] + Items(xs[1..])
  {
    hide Plain;
    hide Item;
  }

  lemma ReadsStep(item: string, items: seq<string>)
    requires item != ""
    ensures FlatMap(ParseIfAny, [item] + items) == [ParseItem(item)] + FlatMap(ParseIfAny, items)
  {
    hide ParseItem;
    assert ([item] + items)[1..] == items;
  }

  /** Every package with a version has one item, from which one package is read. */
  lemma {:induction false} PlainItems(xs: seq<Dnp>)
    requires AllPlain(xs)
    ensures forall s :: s in Items(xs) ==> ',' !in s
    ensures |FlatMap(ParseIfAny, Items(xs))| == |Items(xs)| <= |xs|
    ensures |Items(xs)| == |xs| ==> forall i :: 0 <= i < |xs| ==> xs[i].version != ""
    ensures forall r :: r in FlatMap(ParseIfAny, Items(xs)) ==> exists k :: 0 <= k < |xs| && r == ReadAs(xs[k])
  {
    if xs == [] {
      NothingRead();
    } else {
      hide *;
      PlainStep(xs);
      PlainItem(xs[0]);
      var rest := xs[1..];
      PlainItems(rest);
      if xs[0].version != "" { ReadsStep(Item(xs[0]), Items(rest)); }
      if |Items(xs)| == |xs| {
        forall i | 0 <= i < |xs| ensures xs[i].version != "" {
          if i > 0 { assert xs[i] == rest[i - 1]; }
        }
      }
      forall r | r in FlatMap(ParseIfAny, Items(xs)) ensures exists k :: 0 <= k < |xs| && r == ReadAs(xs[k]) {
        if r in FlatMap(ParseIfAny, Items(rest)) {
          var k :| 0 <= k < |rest| && r == ReadAs(rest[k]);
          assert r == ReadAs(xs[k + 1]);
        } else {
          assert r == ReadAs(xs[0]);
        }
      }
    }
  }

  /** A name made of a first part and the suffix is the one its own first part gives. */
  lemma NameFromShort(name: string, short: string)
    requires name == short + Suffix() && '.' !in short
    ensures Split(name, '.')[0] == short
  {
    hide Split;
    hide Suffix;
    PlainSuffix();
    assert name == short + ['.'] + "dnp.dappnode.eth";
    SplitFirst(short, '.', "dnp.dappnode.eth");
  }

  lemma OneWellformed(p: Dnp, q: Dnp)
    requires Plain(p.dnpName) && Plain(p.version) && p.version != ""
    requires ReadAs(q) == Read(p.dnpName, Some(p.version))
    ensures Wellformed(p)
  {
    hide Split;
    hide Suffix;
    PartFits(q.dnpName, '.', 0);
    NameFromShort(p.dnpName, Split(q.dnpName, '.')[0]);
    PlainConcat(Split(p.dnpName, '.')[0], Suffix());
  }

  /** Packages that come back are well formed. */
  lemma OnlyWellformed(xs: seq<Dnp>)
    requires multiset(ParseCoreVersionId(GetCoreVersionId(xs))) == multiset(FlatMap(ReadOf, xs))
    ensures AllWellformed(xs)
  {
    hide *;
    ReadsAre(xs);
    var found, wanted := ParseCoreVersionId(GetCoreVersionId(xs)), FlatMap(ReadOf, xs);
    SameLength(found, wanted);
    forall i | 0 <= i < |xs|
      ensures wanted[i] in found && Plain(xs[i].dnpName) && Plain(xs[i].version) && xs[i].dnpName != ""
    {
      SameMember(wanted, found, i);
      ReadIsPlain(GetCoreVersionId(xs), wanted[i]);
    }
    AllPlainIs(xs);
    PlainItems(xs);
    ReadItems(xs);
    SameLength(found, FlatMap(ParseIfAny, Items(xs)));
    forall i | 0 <= i < |xs| ensures Wellformed(xs[i]) {
      var j :| 0 <= j < |found| && found[j] == wanted[i];
      SameMember(found, FlatMap(ParseIfAny, Items(xs)), j);
      var k :| 0 <= k < |xs| && wanted[i] == ReadAs(xs[k]);
      OneWellformed(xs[i], xs[k]);
    }
    AllWellformedIs(xs);
  }

  lemma AllPlainIs(xs: seq<Dnp>)
    ensures AllPlain(xs) <==>
      forall i :: 0 <= i < |xs| ==> Plain(xs[i].dnpName) && Plain(xs[i].version) && xs[i].dnpName != ""
  {
    hide Plain;
  }

  lemma AllWellformedIs(xs: seq<Dnp>)
    ensures AllWellformed(xs) <==> forall i :: 0 <= i < |xs| ==> Wellformed(xs[i])
  {
    hide Wellformed;
  }

  lemma SameMember<T>(a: seq<T>, b: seq<T>, i: nat)
    requires multiset(a) == multiset(b) && i < |a|
    ensures a[i] in b
  {
    assert a[i] in multiset(a);
    assert a[i] in multiset(b);
  }

  /** Reading the identifier gives back the packages, in some order, exactly when all are well formed. */
  lemma ReadBack(xs: seq<Dnp>)
    ensures multiset(ParseCoreVersionId(GetCoreVersionId(xs))) == multiset(FlatMap(ReadOf, xs)) <==> AllWellformed(xs)
  {
    hide *;
    if AllWellformed(xs) {
      ItemsRead(xs);
      ReadItems(xs);
    } else if multiset(ParseCoreVersionId(GetCoreVersionId(xs))) == multiset(FlatMap(ReadOf, xs)) {
      OnlyWellformed(xs);
    }
  }

  // ----- is an identifier up to date -----

  /** The version of a package in the list that is given; the last entry of a name counts. */
  function CurrentVersion(ys: seq<Dnp>, name: string): Option<string>
  {
    if ys == [] then None
    else if ys[|ys| - 1].dnpName == name then Some(ys[|ys| - 1].version)
    else CurrentVersion(ys[..|ys| - 1], name)
  }

  /** The comparison of versions is a parameter. */
  predicate Covers(gte: (string, Option<string>) -> bool, ys: seq<Dnp>, r: Read)
  {
    var current := CurrentVersion(ys, r.dnpName);
    current.Some? && current.value != "" && gte(current.value, r.version)
  }

  /** `isVersionIdUpdated`: the table is filled package by package, then every item is looked up. */
  method IsVersionIdUpdated(gte: (string, Option<string>) -> bool, versionId: string, ys: seq<Dnp>) returns (r: bool)
    ensures r <==> forall i :: 0 <= i < |ParseCoreVersionId(versionId)| ==>
      Covers(gte, ys, ParseCoreVersionId(versionId)[i])
  {
    hide ParseCoreVersionId;
    var table: map<string, string> := map[];
    for i := 0 to |ys|
      invariant forall name :: name in table <==> CurrentVersion(ys[..i], name).Some?
      invariant forall name :: name in table ==> CurrentVersion(ys[..i], name) == Some(table[name])
    {
      assert ys[..i + 1][..i] == ys[..i];
      table := table[ys[i].dnpName := ys[i].version];
    }
    assert ys[..|ys|] == ys;
    var items := ParseCoreVersionId(versionId);
    r := true;
    for i := 0 to |items|
      invariant r <==> forall j :: 0 <= j < i ==> Covers(gte, ys, items[j])
    {
      var item := items[i];
      if !(item.dnpName in table && table[item.dnpName] != "" && gte(table[item.dnpName], item.version)) { r := false; }
    }
  }

  /** The identifier of well-formed packages is up to date exactly when each of them is there in a
      version at least as high. */
  lemma UpdatedExactly(gte: (string, Option<string>) -> bool, xs: seq<Dnp>, ys: seq<Dnp>)
    requires AllWellformed(xs)
    ensures var items := ParseCoreVersionId(GetCoreVersionId(xs));
      (forall i :: 0 <= i < |items| ==> Covers(gte, ys, items[i]))
      <==> (forall i :: 0 <= i < |xs| ==> Covers(gte, ys, Read(xs[i].dnpName, Some(xs[i].version))))
  {
    hide ParseCoreVersionId;
    hide GetCoreVersionId;
    hide Wellformed;
    hide Covers;
    hide FlatMap;
    ReadBack(xs);
    ReadsAre(xs);
    var items, wanted := ParseCoreVersionId(GetCoreVersionId(xs)), FlatMap(ReadOf, xs);
    forall i | 0 <= i < |items| ensures items[i] in wanted { assert items[i] in multiset(items); }
    forall i | 0 <= i < |wanted| ensures wanted[i] in items { assert wanted[i] in multiset(wanted); }
  }

  lemma {:induction false} CurrentIsLast(ys: seq<Dnp>, i: nat)
    requires i < |ys| && forall j :: i < j < |ys| ==> ys[j].dnpName != ys[i].dnpName
    ensures CurrentVersion(ys, ys[i].dnpName) == Some(ys[i].version)
  {
    if i < |ys| - 1 { CurrentIsLast(ys[..|ys| - 1], i); }
  }

  predicate DistinctNames(xs: seq<Dnp>)
  {
    forall i, j :: 0 <= i < j < |xs| ==> xs[i].dnpName != xs[j].dnpName
  }

  /** An identifier is up to date with the packages it was made of, if a version is at least as high
      as itself. */
  lemma OwnIdIsUpdated(gte: (string, Option<string>) -> bool, xs: seq<Dnp>)
    requires AllWellformed(xs) && DistinctNames(xs)
    requires forall v: string :: gte(v, Some(v))
    ensures var items := ParseCoreVersionId(GetCoreVersionId(xs));
      forall i :: 0 <= i < |items| ==> Covers(gte, xs, items[i])
  {
    hide ParseCoreVersionId;
    hide GetCoreVersionId;
    hide Split;
    UpdatedExactly(gte, xs, xs);
    forall i | 0 <= i < |xs| ensures Covers(gte, xs, Read(xs[i].dnpName, Some(xs[i].version))) {
      assert Wellformed(xs[i]);
      CurrentIsLast(xs, i);
    }
  }
}
