/** The bounded store of chat conversations (packages/nexus/src/api.ts, packages/db/src/dbFactory.ts). */
module History {
  import opened Wrappers
  import opened Strings
  import opened Compose
  import opened ComposeEditor
  import Environment
  import SseReader

  const MAX_HISTORY_ENTRIES := 50
  const MAX_TITLE_LENGTH := 80

  datatype Message = Message(role: string, content: string)

  datatype Conversation = Conversation(id: string, title: string, messages: seq<Message>, createdAt: int,
    updatedAt: int)

  datatype Summary = Summary(id: string, title: string, messageCount: nat, createdAt: int, updatedAt: int)

  datatype ApiError = ApiError(status: nat, code: string)

  type Store = map<string, Conversation>

  // ----- newest first -----

  /** Puts a conversation after all that are at least as recent. */
  function Insert(c: Conversation, sorted: seq<Conversation>): (r: seq<Conversation>)
    ensures |r| == |sorted| + 1
  {
    if sorted == [] then [c]
    else
      var last := sorted[|sorted| - 1];
      if last.updatedAt >= c.updatedAt then sorted + [c] else Insert(c, sorted[..|sorted| - 1]) + [last]
  }

  /** `sort((a, b) => b.updatedAt - a.updatedAt)`: most recent first, equal ones in their order. */
  function NewestFirst(cs: seq<Conversation>): (r: seq<Conversation>)
    ensures |r| == |cs|
  {
    if cs == [] then [] else Insert(cs[|cs| - 1], NewestFirst(cs[..|cs| - 1]))
  }

  predicate Descending(cs: seq<Conversation>)
  {
    forall i, j :: 0 <= i < j < |cs| ==> cs[i].updatedAt >= cs[j].updatedAt
  }

  /** The conversations of one moment, in order. */
  function At(t: int, cs: seq<Conversation>): seq<Conversation>
  {
    if cs == [] then []
    else At(t, cs[..|cs| - 1]) + (if cs[|cs| - 1].updatedAt == t then [cs[|cs| - 1]] else [])
  }

  lemma AtAppend(t: int, cs: seq<Conversation>, c: Conversation)
    ensures At(t, cs + [c]) == At(t, cs) + (if c.updatedAt == t then [c] else [])
  {
    assert (cs + [c])[..|cs|] == cs;
  }

  lemma {:induction false} InsertDescending(c: Conversation, sorted: seq<Conversation>)
    requires Descending(sorted)
    ensures Descending(Insert(c, sorted))
    ensures forall x :: x in Insert(c, sorted) <==> x == c || x in sorted
  {
    if sorted != [] && sorted[|sorted| - 1].updatedAt < c.updatedAt {
      var shorter, last := sorted[..|sorted| - 1], sorted[|sorted| - 1];
      InsertDescending(c, shorter);
      assert sorted == shorter + [last];
      var inner := Insert(c, shorter);
      forall i | 0 <= i < |inner| ensures inner[i].updatedAt >= last.updatedAt { assert inner[i] in inner; }
    }
  }

  lemma {:induction false} InsertRearranges(c: Conversation, sorted: seq<Conversation>)
    ensures multiset(Insert(c, sorted)) == multiset(sorted) + multiset{c}
  {
    if sorted != [] && sorted[|sorted| - 1].updatedAt < c.updatedAt {
      var shorter, last := sorted[..|sorted| - 1], sorted[|sorted| - 1];
      InsertRearranges(c, shorter);
      assert sorted == shorter + [last];
    }
  }

  lemma {:induction false} InsertStable(t: int, c: Conversation, sorted: seq<Conversation>)
    requires Descending(sorted)
    ensures At(t, Insert(c, sorted)) == At(t, sorted + [c])
  {
    AtAppend(t, sorted, c);
    if sorted != [] && sorted[|sorted| - 1].updatedAt < c.updatedAt {
      var shorter, last := sorted[..|sorted| - 1], sorted[|sorted| - 1];
      InsertStable(t, c, shorter);
      AtAppend(t, shorter, c);
      AtAppend(t, Insert(c, shorter), last);
    }
  }

  lemma {:induction false} NewestFirstStable(t: int, cs: seq<Conversation>)
    ensures At(t, NewestFirst(cs)) == At(t, cs) && Descending(NewestFirst(cs))
  {
    hide At;
    hide Insert;
    hide Descending;
    if cs == [] {
      NothingDescending();
    } else {
      var shorter, c := cs[..|cs| - 1], cs[|cs| - 1];
      NewestFirstStable(t, shorter);
      InsertStable(t, c, NewestFirst(shorter));
      InsertDescending(c, NewestFirst(shorter));
      AtAppend(t, NewestFirst(shorter), c);
      AtAppend(t, shorter, c);
      assert cs == shorter + [c];
    }
  }

  lemma NothingDescending()
    ensures Descending([])
  {
  }

  lemma {:induction false} NewestFirstRearranges(cs: seq<Conversation>)
    ensures multiset(NewestFirst(cs)) == multiset(cs)
  {
    hide Insert;
    if cs != [] {
      var shorter, c := cs[..|cs| - 1], cs[|cs| - 1];
      NewestFirstRearranges(shorter);
      InsertRearranges(c, NewestFirst(shorter));
      assert cs == shorter + [c];
    }
  }

  /** Sorted, a rearrangement, and stable. */
  lemma NewestFirstIs(cs: seq<Conversation>)
    ensures Descending(NewestFirst(cs)) && multiset(NewestFirst(cs)) == multiset(cs)
    ensures forall t :: At(t, NewestFirst(cs)) == At(t, cs)
  {
    hide *;
    NewestFirstRearranges(cs);
    NewestFirstStable(0, cs);
    forall t { NewestFirstStable(t, cs); }
  }

  // ----- the values of a store -----

  /** `Object.values`, in the order in which the object lists its keys. */
  function Values(store: Store, keys: seq<string>): seq<Conversation>
    requires forall i :: 0 <= i < |keys| ==> keys[i] in store
  {
    seq(|keys|, i requires 0 <= i < |keys| => store[keys[i]])
  }

  function AllOf(store: Store, order: KeyOrder): seq<Conversation>
  {
    Values(store, order(store.Keys))
  }

  predicate Valid(store: Store)
  {
    forall id :: id in store ==> store[id].id == id
  }

  predicate DistinctIds(cs: seq<Conversation>)
  {
    forall i, j :: 0 <= i < j < |cs| ==> cs[i].id != cs[j].id
  }

  function Ids(cs: seq<Conversation>): set<string>
  {
    set i | 0 <= i < |cs| :: cs[i].id
  }

  lemma {:induction false} IdsSize(cs: seq<Conversation>)
    requires DistinctIds(cs)
    ensures |Ids(cs)| == |cs|
  {
    if cs != [] {
      var shorter, last := cs[..|cs| - 1], cs[|cs| - 1];
      IdsSize(shorter);
      assert Ids(cs) == Ids(shorter) + {last.id};
    }
  }

  /** The values are the store's conversations, each once. */
  lemma AllOfIs(store: Store, order: KeyOrder)
    requires Valid(store)
    ensures var cs := AllOf(store, order);
      && DistinctIds(cs) && |cs| == |store| && Ids(cs) == store.Keys
      && forall c :: c in cs <==> c.id in store && store[c.id] == c
  {
    var keys := order(store.Keys);
    var cs := AllOf(store, order);
    assert Environment.Enumerates(keys, store.Keys);
    hide Environment.Enumerates;
    assert |keys| == |store.Keys| == |store|;
    forall i, j | 0 <= i < j < |cs| ensures cs[i].id != cs[j].id { assert keys[i] != keys[j]; }
    forall c: Conversation | c.id in store && store[c.id] == c ensures c in cs {
      var i :| 0 <= i < |keys| && keys[i] == c.id;
      assert cs[i] == c;
    }
    forall id ensures id in Ids(cs) <==> id in store {
      if id in store {
        var i :| 0 <= i < |keys| && keys[i] == id;
        assert cs[i].id == id;
      }
    }
  }

  /** A rearrangement of conversations with distinct ids has distinct ids. */
  lemma RearrangedDistinct(a: seq<Conversation>, b: seq<Conversation>)
    requires DistinctIds(a) && multiset(a) == multiset(b)
    ensures DistinctIds(b) && |a| == |b| && Ids(a) == Ids(b)
  {
    assert |multiset(a)| == |a| && |multiset(b)| == |b|;
    forall i, j | 0 <= i < j < |b| ensures b[i].id != b[j].id {
      if b[i].id == b[j].id {
        assert b[i] in multiset(b) && b[j] in multiset(b);
        assert b[i] in a && b[j] in a;
        var k, l :| 0 <= k < |a| && 0 <= l < |a| && a[k] == b[i] && a[l] == b[j];
        assert k == l;
        OccursTwice(b, i, j);
        OccursOnce(a, k);
      }
    }
    forall id ensures id in Ids(a) <==> id in Ids(b) {
      if id in Ids(a) {
        var i :| 0 <= i < |a| && a[i].id == id;
        assert a[i] in multiset(b);
        assert a[i] in b;
      }
      if id in Ids(b) {
        var i :| 0 <= i < |b| && b[i].id == id;
        assert b[i] in multiset(a);
        assert b[i] in a;
      }
    }
  }

  lemma OccursTwice(cs: seq<Conversation>, i: nat, j: nat)
    requires i < j < |cs| && cs[i] == cs[j]
    ensures multiset(cs)[cs[i]] >= 2
  {
    assert cs == cs[..j] + [cs[j]] + cs[j + 1..];
    assert cs[i] in cs[..j];
    assert multiset(cs) == multiset(cs[..j]) + multiset{cs[j]} + multiset(cs[j + 1..]);
  }

  lemma OccursOnce(cs: seq<Conversation>, i: nat)
    requires DistinctIds(cs) && i < |cs|
    ensures multiset(cs)[cs[i]] == 1
  {
    assert cs == cs[..i] + [cs[i]] + cs[i + 1..];
    assert cs[i] !in cs[..i] && cs[i] !in cs[i + 1..];
    assert multiset(cs) == multiset(cs[..i]) + multiset{cs[i]} + multiset(cs[i + 1..]);
  }

  // ----- pruning -----

  /** The conversations that pruning removes. */
  function Excess(store: Store, order: KeyOrder): seq<Conversation>
  {
    var all := AllOf(store, order);
    if |all| <= MAX_HISTORY_ENTRIES then []
    else NewestFirst(all)[MAX_HISTORY_ENTRIES..]
  }

  /** `pruneHistory`. */
  function Pruned(store: Store, order: KeyOrder): Store
  {
    store - Ids(Excess(store, order))
  }

  lemma SortedStore(store: Store, order: KeyOrder)
    requires Valid(store)
    ensures var sorted := NewestFirst(AllOf(store, order));
      && Descending(sorted) && DistinctIds(sorted) && |sorted| == |store| && Ids(sorted) == store.Keys
      && forall i :: 0 <= i < |sorted| ==> sorted[i].id in store && store[sorted[i].id] == sorted[i]
  {
    hide NewestFirst;
    hide AllOf;
    var all := AllOf(store, order);
    var sorted := NewestFirst(all);
    AllOfIs(store, order);
    NewestFirstIs(all);
    RearrangedDistinct(all, sorted);
    forall i | 0 <= i < |sorted| ensures sorted[i] in all {
      assert sorted[i] in multiset(sorted);
    }
  }

  lemma InTail(cs: seq<Conversation>, k: nat, i: nat)
    requires DistinctIds(cs) && k <= |cs| && i < |cs|
    ensures cs[i].id in Ids(cs[k..]) <==> i >= k
  {
    var tail := cs[k..];
    assert forall j :: 0 <= j < |tail| ==> tail[j] == cs[k + j];
    if i >= k { assert tail[i - k] == cs[i]; }
  }

  lemma ExcessShape(store: Store, order: KeyOrder)
    requires Valid(store)
    ensures var sorted := NewestFirst(AllOf(store, order));
      && |sorted| == |store|
      && Excess(store, order) == if |store| <= MAX_HISTORY_ENTRIES then [] else sorted[MAX_HISTORY_ENTRIES..]
  {
    hide NewestFirst;
    hide AllOf;
    hide DistinctIds;
    hide Ids;
    SortedStore(store, order);
    AllOfIs(store, order);
  }

  lemma PrunedShape(store: Store, order: KeyOrder, id: string)
    requires id in store
    ensures id in Pruned(store, order) <==> id !in Ids(Excess(store, order))
  {
    hide Excess;
    hide Ids;
  }

  lemma KeptByPosition(store: Store, order: KeyOrder, i: nat)
    requires Valid(store) && i < |store|
    ensures |NewestFirst(AllOf(store, order))| == |store|
    ensures NewestFirst(AllOf(store, order))[i].id in Pruned(store, order) <==> i < MAX_HISTORY_ENTRIES
  {
    assert MAX_HISTORY_ENTRIES == 50;
    hide *;
    SortedStore(store, order);
    ExcessShape(store, order);
    var sorted := NewestFirst(AllOf(store, order));
    PrunedShape(store, order, sorted[i].id);
    NoIds();
    if |store| > MAX_HISTORY_ENTRIES { InTail(sorted, MAX_HISTORY_ENTRIES, i); }
  }

  lemma PositionOf(store: Store, order: KeyOrder, id: string) returns (p: nat)
    requires Valid(store) && id in store
    ensures p < |store| && NewestFirst(AllOf(store, order))[p] == store[id]
  {
    hide NewestFirst;
    hide AllOf;
    SortedStore(store, order);
    assert id in Ids(NewestFirst(AllOf(store, order)));
    p :| 0 <= p < |store| && NewestFirst(AllOf(store, order))[p].id == id;
  }

  lemma TailIds(cs: seq<Conversation>, k: nat)
    requires DistinctIds(cs) && k <= |cs|
    ensures |Ids(cs[k..])| == |cs| - k && Ids(cs[k..]) <= Ids(cs)
  {
    var tail := cs[k..];
    assert forall i :: 0 <= i < |tail| ==> tail[i] == cs[k + i];
    IdsSize(tail);
  }

  lemma ExcessIs(store: Store, order: KeyOrder)
    requires Valid(store)
    ensures var gone := Ids(Excess(store, order));
      gone <= store.Keys && |gone| == if |store| <= MAX_HISTORY_ENTRIES then 0 else |store| - MAX_HISTORY_ENTRIES
  {
    hide NewestFirst;
    hide AllOf;
    hide DistinctIds;
    hide Ids;
    hide Environment.Enumerates;
    SortedStore(store, order);
    AllOfIs(store, order);
    if |store| > MAX_HISTORY_ENTRIES { TailIds(NewestFirst(AllOf(store, order)), MAX_HISTORY_ENTRIES); }
    NoIds();
  }

  lemma NoIds()
    ensures Ids([]) == {}
  {
  }

  lemma RemainingSize(store: Store, gone: set<string>)
    requires gone <= store.Keys
    ensures |store - gone| == |store| - |gone|
  {
    assert (store - gone).Keys == store.Keys - gone;
    assert |store - gone| == |(store - gone).Keys| && |store| == |store.Keys|;
  }

  /** Pruning keeps the entries it keeps, at most 50 and no fewer than it can, and never drops one
      that is more recent than one it keeps. */
  lemma PruneIs(store: Store, order: KeyOrder)
    requires Valid(store)
    ensures var r := Pruned(store, order);
      && Valid(r) && (forall id :: id in r ==> id in store && r[id] == store[id])
      && |r| == (if |store| <= MAX_HISTORY_ENTRIES then |store| else MAX_HISTORY_ENTRIES)
      && (forall kept, gone :: kept in r && gone in store && gone !in r ==>
        store[kept].updatedAt >= store[gone].updatedAt)
  {
    hide Excess;
    hide NewestFirst;
    hide AllOf;
    var r := Pruned(store, order);
    ExcessIs(store, order);
    RemainingSize(store, Ids(Excess(store, order)));
    forall kept, gone | kept in r && gone in store && gone !in r
      ensures store[kept].updatedAt >= store[gone].updatedAt {
      KeptIsNewer(store, order, kept, gone);
    }
  }

  lemma KeptIsNewer(store: Store, order: KeyOrder, kept: string, gone: string)
    requires Valid(store) && kept in store && gone in store
    requires kept in Pruned(store, order) && gone !in Pruned(store, order)
    ensures store[kept].updatedAt >= store[gone].updatedAt
  {
    hide Pruned;
    hide NewestFirst;
    hide AllOf;
    var p := PositionOf(store, order, kept);
    var q := PositionOf(store, order, gone);
    KeptByPosition(store, order, p);
    KeptByPosition(store, order, q);
    SortedStore(store, order);
  }

  /** The other conversations that are at least as recent, and those that are more recent. */
  function AsRecent(store: Store, id: string): set<string>
    requires id in store
  {
    set k | k in store && k != id && store[k].updatedAt >= store[id].updatedAt
  }

  function MoreRecent(store: Store, id: string): set<string>
    requires id in store
  {
    set k | k in store && k != id && store[k].updatedAt > store[id].updatedAt
  }

  lemma SubsetSize(a: set<string>, b: set<string>)
    requires a <= b
    ensures |a| <= |b|
  {
    if a != {} {
      var x :| x in a;
      SubsetSize(a - {x}, b - {x});
    }
  }

  /** `a` comes before `b`. */
  predicate Precedes<T(==)>(xs: seq<T>, a: T, b: T)
  {
    exists i, j :: 0 <= i < j < |xs| && xs[i] == a && xs[j] == b
  }

  lemma PrecedesLast<T>(xs: seq<T>, x: T, a: T, b: T)
    ensures Precedes(xs + [x], a, b) <==> Precedes(xs, a, b) || (x == b && a in xs)
  {
    var more := xs + [x];
    if Precedes(more, a, b) {
      var i, j :| 0 <= i < j < |more| && more[i] == a && more[j] == b;
      assert more[i] == xs[i];
      if j < |xs| { assert xs[j] == b; }
    }
    if Precedes(xs, a, b) {
      var i, j :| 0 <= i < j < |xs| && xs[i] == a && xs[j] == b;
      assert more[i] == a && more[j] == b;
    }
    if x == b && a in xs {
      var i :| 0 <= i < |xs| && xs[i] == a;
      assert more[i] == a && more[|xs|] == b;
    }
  }

  /** Among conversations of one moment the order is that of the moment's list. */
  lemma {:induction false} AtOrder(t: int, cs: seq<Conversation>, a: Conversation, b: Conversation)
    requires a.updatedAt == t && b.updatedAt == t
    ensures (a in At(t, cs) <==> a in cs) && (Precedes(At(t, cs), a, b) <==> Precedes(cs, a, b))
  {
    hide Precedes;
    if cs == [] {
      NothingPrecedes(a, b);
    } else {
      var shorter, c := cs[..|cs| - 1], cs[|cs| - 1];
      assert cs == shorter + [c];
      AtOrder(t, shorter, a, b);
      PrecedesLast(shorter, c, a, b);
      PrecedesLast(At(t, shorter), c, a, b);
      assert At(t, shorter) + [] == At(t, shorter);
    }
  }

  lemma NothingPrecedes<T>(a: T, b: T)
    ensures !Precedes([], a, b)
  {
  }

  /** The conversations that are kept before this one: the more recent ones, and of the equally recent
      ones those whose keys the object lists earlier. */
  ghost function Ahead(store: Store, order: KeyOrder, id: string): set<string>
    requires id in store
  {
    set k | k in store && (store[k].updatedAt > store[id].updatedAt
      || (store[k].updatedAt == store[id].updatedAt && Precedes(order(store.Keys), k, id)))
  }

  lemma ListedOrder(store: Store, order: KeyOrder, k: string, id: string)
    requires Valid(store) && k in store && id in store
    ensures Precedes(AllOf(store, order), store[k], store[id]) <==> Precedes(order(store.Keys), k, id)
  {
    var keys, all := order(store.Keys), AllOf(store, order);
    assert Environment.Enumerates(keys, store.Keys);
    hide Environment.Enumerates;
    forall i | 0 <= i < |keys| ensures all[i] == store[keys[i]] && all[i].id == keys[i] { }
  }

  /** In the sorted list exactly those come before it. */
  lemma AheadInList(store: Store, order: KeyOrder, id: string, p: nat)
    requires Valid(store) && id in store
    requires p < |NewestFirst(AllOf(store, order))| && NewestFirst(AllOf(store, order))[p] == store[id]
    ensures Ids(NewestFirst(AllOf(store, order))[..p]) == Ahead(store, order, id)
  {
    hide NewestFirst;
    hide AllOf;
    hide At;
    hide Environment.Enumerates;
    var all := AllOf(store, order);
    var sorted := NewestFirst(all);
    SortedStore(store, order);
    forall k | k in store ensures k in Ids(sorted[..p]) <==> k in Ahead(store, order, id) {
      var q := PositionOf(store, order, k);
      assert k in Ids(sorted[..p]) <==> q < p by { PositionInFront(sorted, p, q); }
      assert q == p ==> k == id;
      if store[k].updatedAt == store[id].updatedAt {
        NewestFirstIs(all);
        AtOrder(store[id].updatedAt, all, store[k], store[id]);
        AtOrder(store[id].updatedAt, sorted, store[k], store[id]);
        ListedOrder(store, order, k, id);
        PrecedesByPosition(sorted, q, p);
      }
    }
    FrontIds(sorted, p);
  }

  lemma PositionInFront(cs: seq<Conversation>, p: nat, q: nat)
    requires DistinctIds(cs) && p <= |cs| && q < |cs|
    ensures cs[q].id in Ids(cs[..p]) <==> q < p
  {
    if q < p { assert cs[..p][q] == cs[q]; }
  }

  lemma FrontIds(cs: seq<Conversation>, p: nat)
    requires p <= |cs|
    ensures Ids(cs[..p]) <= Ids(cs)
  {
    forall i | 0 <= i < p ensures cs[..p][i] == cs[i] { }
  }

  lemma PrecedesByPosition(cs: seq<Conversation>, q: nat, p: nat)
    requires DistinctIds(cs) && p < |cs| && q < |cs|
    ensures Precedes(cs, cs[q], cs[p]) <==> q < p
  {
    if Precedes(cs, cs[q], cs[p]) {
      var i, j :| 0 <= i < j < |cs| && cs[i] == cs[q] && cs[j] == cs[p];
      assert i == q && j == p;
    }
  }

  /** A conversation survives pruning exactly when fewer than 50 are kept before it. */
  lemma Survives(store: Store, order: KeyOrder, id: string)
    requires Valid(store) && id in store
    ensures id in Pruned(store, order) <==> |Ahead(store, order, id)| < MAX_HISTORY_ENTRIES
  {
    hide NewestFirst;
    hide AllOf;
    hide Pruned;
    hide Ahead;
    hide Environment.Enumerates;
    SortedStore(store, order);
    var sorted := NewestFirst(AllOf(store, order));
    var p := PositionOf(store, order, id);
    KeptByPosition(store, order, p);
    AheadInList(store, order, id, p);
    FrontDistinct(sorted, p);
    IdsSize(sorted[..p]);
  }

  lemma FrontDistinct(cs: seq<Conversation>, p: nat)
    requires DistinctIds(cs) && p <= |cs|
    ensures DistinctIds(cs[..p])
  {
  }

  lemma NotAheadOfItself(store: Store, order: KeyOrder, id: string)
    requires id in store
    ensures id !in Ahead(store, order, id)
    ensures MoreRecent(store, id) <= Ahead(store, order, id) <= AsRecent(store, id)
  {
    var keys := order(store.Keys);
    assert Environment.Enumerates(keys, store.Keys);
    hide Environment.Enumerates;
    assert !Precedes(keys, id, id);
  }

  /** So it survives when fewer than 50 others are as recent, and not when 50 are more recent. */
  lemma SurvivesByTime(store: Store, order: KeyOrder, id: string)
    requires Valid(store) && id in store
    ensures |AsRecent(store, id)| < MAX_HISTORY_ENTRIES ==> id in Pruned(store, order)
    ensures |MoreRecent(store, id)| >= MAX_HISTORY_ENTRIES ==> id !in Pruned(store, order)
  {
    hide *;
    Survives(store, order, id);
    NotAheadOfItself(store, order, id);
    SubsetSize(Ahead(store, order, id), AsRecent(store, id));
    SubsetSize(MoreRecent(store, id), Ahead(store, order, id));
  }

  // ----- titles and messages -----

  /** The text so far, with every run of white space as one space. */
  function Squeezed(s: string): string
  {
    if s == "" then ""
    else
      var before, c := Squeezed(s[..|s| - 1]), s[|s| - 1];
      if !SseReader.IsAsciiSpace(c) then before + [c]
      else if |s| > 1 && SseReader.IsAsciiSpace(s[|s| - 2]) then before
      else before + " "
  }

  function Collapsed(s: string): string
  {
    SseReader.TrimAscii(Squeezed(s))
  }

  /** `collapseWhitespace`. */
  method CollapseWhitespace(value: string) returns (r: string)
    ensures r == Collapsed(value)
  {
    var out, lastWasWhitespace := "", false;
    for i := 0 to |value|
      invariant out == Squeezed(value[..i])
      invariant lastWasWhitespace <==> i > 0 && SseReader.IsAsciiSpace(value[i - 1])
    {
      assert value[..i + 1][..i] == value[..i];
      if SseReader.IsAsciiSpace(value[i]) {
        if !lastWasWhitespace { out := out + " "; }
        lastWasWhitespace := true;
      } else {
        out := out + [value[i]];
        lastWasWhitespace := false;
      }
    }
    assert value[..|value|] == value;
    r := SseReader.TrimAsciiWhitespace(out);
  }

  /** The characters that are not white space. */
  function Visible(s: string): string
  {
    if s == "" then ""
    else Visible(s[..|s| - 1]) + (if SseReader.IsAsciiSpace(s[|s| - 1]) then "" else [s[|s| - 1]])
  }

  /** One line of words: the only white space is a single space between two visible characters. */
  predicate OneLine(s: string)
  {
    forall i :: 0 <= i < |s| && SseReader.IsAsciiSpace(s[i]) ==>
      s[i] == ' ' && 0 < i < |s| - 1 && !SseReader.IsAsciiSpace(s[i - 1]) && !SseReader.IsAsciiSpace(s[i + 1])
  }

  /** No two spaces side by side, and no other white space. */
  predicate SingleSpaced(s: string)
  {
    forall i :: 0 <= i < |s| && SseReader.IsAsciiSpace(s[i]) ==>
      s[i] == ' ' && (i + 1 < |s| ==> !SseReader.IsAsciiSpace(s[i + 1]))
  }

  lemma SingleSpacedAppend(s: string, c: char)
    requires SingleSpaced(s)
    requires SseReader.IsAsciiSpace(c) ==> c == ' ' && (s != "" ==> !SseReader.IsAsciiSpace(s[|s| - 1]))
    ensures SingleSpaced(s + [c])
  {
    hide SseReader.IsAsciiSpace;
  }

  predicate EndsInSpace(s: string)
  {
    s != "" && SseReader.IsAsciiSpace(s[|s| - 1])
  }

  /** What squeezing has made of a text so far. */
  predicate SqueezedTo(s: string, out: string)
  {
    SingleSpaced(out) && Visible(out) == Visible(s) && (EndsInSpace(out) <==> EndsInSpace(s))
      && (out == "" <==> s == "")
  }

  lemma SqueezeVisible(s: string, out: string, c: char)
    requires SqueezedTo(s, out) && !SseReader.IsAsciiSpace(c)
    ensures SqueezedTo(s + [c], out + [c])
  {
    hide Visible;
    hide SingleSpaced;
    hide SseReader.IsAsciiSpace;
    SingleSpacedAppend(out, c);
    VisibleAppend(out, c);
    VisibleAppend(s, c);
  }

  lemma SqueezeFirstSpace(s: string, out: string, c: char)
    requires SqueezedTo(s, out) && SseReader.IsAsciiSpace(c) && !EndsInSpace(s)
    ensures SqueezedTo(s + [c], out + " ")
  {
    hide Visible;
    hide SingleSpaced;
    SpaceIsSpace();
    hide SseReader.IsAsciiSpace;
    SingleSpacedAppend(out, ' ');
    VisibleAppend(out, ' ');
    VisibleAppend(s, c);
  }

  lemma SqueezeMoreSpace(s: string, out: string, c: char)
    requires SqueezedTo(s, out) && SseReader.IsAsciiSpace(c) && EndsInSpace(s)
    ensures SqueezedTo(s + [c], out)
  {
    hide Visible;
    hide SingleSpaced;
    hide SseReader.IsAsciiSpace;
    VisibleAppend(s, c);
  }

  lemma SqueezedStep(s: string)
    requires s != ""
    ensures var shorter, c := s[..|s| - 1], s[|s| - 1];
      && s == shorter + [c]
      && Squeezed(s) == if !SseReader.IsAsciiSpace(c) then Squeezed(shorter) + [c]
                        else if EndsInSpace(shorter) then Squeezed(shorter) else Squeezed(shorter) + " "
  {
    hide SseReader.IsAsciiSpace;
    var shorter := s[..|s| - 1];
    assert |s| > 1 ==> s[|s| - 2] == shorter[|shorter| - 1];
  }

  lemma {:induction false} SqueezedIs(s: string)
    ensures SqueezedTo(s, Squeezed(s))
  {
    if s != "" {
      hide *;
      var shorter, c := s[..|s| - 1], s[|s| - 1];
      SqueezedStep(s);
      SqueezedIs(shorter);
      if !SseReader.IsAsciiSpace(c) { SqueezeVisible(shorter, Squeezed(shorter), c); }
      else if EndsInSpace(shorter) { SqueezeMoreSpace(shorter, Squeezed(shorter), c); }
      else { SqueezeFirstSpace(shorter, Squeezed(shorter), c); }
    }
  }

  lemma SpaceIsSpace()
    ensures SseReader.IsAsciiSpace(' ')
  {
  }

  lemma VisibleAppend(s: string, c: char)
    ensures Visible(s + [c]) == Visible(s) + (if SseReader.IsAsciiSpace(c) then "" else [c])
  {
    assert (s + [c])[..|s|] == s;
  }

  lemma {:induction false} VisibleTail(s: string)
    requires s != "" && SseReader.IsAsciiSpace(s[0])
    ensures Visible(s[1..]) == Visible(s)
  {
    if |s| > 1 {
      var shorter := s[..|s| - 1];
      VisibleTail(shorter);
      assert s[1..][..|s| - 2] == shorter[1..];
    }
  }

  /** A stretch of `s` with the same visible characters. */
  ghost predicate Core(s: string, t: string)
  {
    Visible(t) == Visible(s) && (SingleSpaced(s) ==> SingleSpaced(t))
  }

  lemma {:induction false} SkipSpacesIs(s: string)
    ensures Core(s, SseReader.SkipSpaces(s))
    ensures var t := SseReader.SkipSpaces(s); t != "" ==> !SseReader.IsAsciiSpace(t[0])
  {
    if s != "" && SseReader.IsAsciiSpace(s[0]) {
      VisibleTail(s);
      assert SingleSpaced(s) ==> SingleSpaced(s[1..]) by { TailSingleSpaced(s); }
      SkipSpacesIs(s[1..]);
    }
  }

  lemma TailSingleSpaced(s: string)
    requires s != ""
    ensures SingleSpaced(s) ==> SingleSpaced(s[1..]) && SingleSpaced(s[..|s| - 1])
  {
    assert forall i :: 0 <= i < |s| - 1 ==> s[1..][i] == s[i + 1] && s[..|s| - 1][i] == s[i];
  }

  lemma {:induction false} DropSpacesIs(s: string)
    ensures Core(s, SseReader.DropSpaces(s)) && SseReader.DropSpaces(s) <= s
    ensures var t := SseReader.DropSpaces(s); t != "" ==> !SseReader.IsAsciiSpace(t[|t| - 1])
  {
    if s != "" && SseReader.IsAsciiSpace(s[|s| - 1]) {
      TailSingleSpaced(s);
      DropSpacesIs(s[..|s| - 1]);
    }
  }

  lemma AsciiSpaceIsSpace(c: char)
    ensures SseReader.IsAsciiSpace(c) ==> IsSpace(c)
  {
  }

  lemma SingleSpacedInside(s: string, i: nat)
    requires SingleSpaced(s) && i < |s| && SseReader.IsAsciiSpace(s[i])
    requires !SseReader.IsAsciiSpace(s[0]) && !SseReader.IsAsciiSpace(s[|s| - 1])
    ensures s[i] == ' ' && 0 < i < |s| - 1 && !SseReader.IsAsciiSpace(s[i - 1]) && !SseReader.IsAsciiSpace(s[i + 1])
  {
    hide SseReader.IsAsciiSpace;
    var j := i - 1;
    assert s[j + 1] == s[i];
  }

  lemma TrimmedIsOneLine(s: string)
    requires SingleSpaced(s)
    requires s != "" ==> !SseReader.IsAsciiSpace(s[0]) && !SseReader.IsAsciiSpace(s[|s| - 1])
    ensures OneLine(s)
  {
    hide SingleSpaced;
    hide SseReader.IsAsciiSpace;
    forall i | 0 <= i < |s| && SseReader.IsAsciiSpace(s[i])
      ensures s[i] == ' ' && 0 < i < |s| - 1 && !SseReader.IsAsciiSpace(s[i - 1]) && !SseReader.IsAsciiSpace(s[i + 1])
    {
      SingleSpacedInside(s, i);
    }
  }

  lemma TrimIs(a: string)
    requires SingleSpaced(a)
    ensures var r := SseReader.TrimAscii(a);
      && SingleSpaced(r) && Visible(r) == Visible(a)
      && (r != "" ==> !SseReader.IsAsciiSpace(r[0]) && !SseReader.IsAsciiSpace(r[|r| - 1]))
  {
    hide SingleSpaced;
    hide Visible;
    hide SseReader.IsAsciiSpace;
    hide SseReader.SkipSpaces;
    hide SseReader.DropSpaces;
    SkipSpacesIs(a);
    var b := SseReader.SkipSpaces(a);
    DropSpacesIs(b);
    var r := SseReader.DropSpaces(b);
    assert r != "" ==> r[0] == b[0];
  }

  /** Collapsing keeps the visible characters and leaves one line of words. */
  lemma CollapseIs(s: string)
    ensures OneLine(Collapsed(s)) && Visible(Collapsed(s)) == Visible(s)
  {
    hide SingleSpaced;
    hide Visible;
    hide OneLine;
    hide Squeezed;
    hide SseReader.TrimAscii;
    hide EndsInSpace;
    SqueezedIs(s);
    TrimIs(Squeezed(s));
    TrimmedIsOneLine(Collapsed(s));
  }

  /** `parseStoredMessages`: keeps the messages of a known role with a text. */
  function ParseMessages(items: seq<Json>): seq<Message>
  {
    if items == [] then []
    else
      var before := ParseMessages(items[..|items| - 1]);
      match items[|items| - 1]
      case Object(m) =>
        if "role" in m && m["role"] in [Text("user"), Text("assistant")] && "content" in m then
          match (m["role"], m["content"])
          case (Text(role), Text(content)) => before + [Message(role, content)]
          case _ => before
        else before
      case _ => before
  }

  function FirstUser(messages: seq<Message>): string
  {
    if messages == [] then "" else if messages[0].role == "user" then messages[0].content else FirstUser(messages[1..])
  }

  /** `deriveTitle`. */
  function DeriveTitle(messages: seq<Message>): string
  {
    var raw := Trim(FirstUser(messages));
    if raw == "" then "New chat"
    else
      var oneLine := Collapsed(raw);
      if |oneLine| > MAX_TITLE_LENGTH then oneLine[..MAX_TITLE_LENGTH] + "..." else oneLine
  }

  /** A derived title is never empty, fits its limit and has no line break. */
  lemma DerivedTitle(messages: seq<Message>)
    ensures var title := DeriveTitle(messages);
      && 0 < |title| <= MAX_TITLE_LENGTH + 3
      && forall i :: 0 <= i < |title| && SseReader.IsAsciiSpace(title[i]) ==> title[i] == ' '
  {
    hide Collapsed;
    hide Visible;
    hide Trim;
    hide FirstUser;
    var raw := Trim(FirstUser(messages));
    if raw != "" {
      CollapseIs(raw);
      CollapsedNotEmpty(raw);
    }
  }

  lemma CollapsedNotEmpty(s: string)
    requires s != "" && !IsSpace(s[|s| - 1])
    ensures Collapsed(s) != ""
  {
    CollapseIs(s);
    AsciiSpaceIsSpace(s[|s| - 1]);
    assert |Visible(s)| > 0;
  }

  // ----- the operations -----

  function Field(body: Json, key: string): Json
  {
    match body
    case Object(m) => if key in m then m[key] else Null
    case _ => Null
  }

  /** The conversation that `upsertHistory` stores. */
  function Revised(store: Store, id: string, body: Json, now: int): Result<Conversation, ApiError>
  {
    if id == "" then Err(ApiError(400, "invalid_request"))
    else
      match Field(body, "messages")
      case Array(items) =>
        var messages := ParseMessages(items);
        var given := match Field(body, "title") case Text(t) => Trim(t) case _ => "";
        var earlier := if id in store then store[id].title else "";
        var title := if given != "" then given else if earlier != "" then earlier else DeriveTitle(messages);
        Ok(Conversation(id, title, messages, if id in store then store[id].createdAt else now, now))
      case _ => Err(ApiError(400, "invalid_request"))
  }

  /** What `getHistory` answers. */
  function Get(store: Store, id: string): Result<Conversation, ApiError>
  {
    if id == "" then Err(ApiError(400, "invalid_request"))
    else if id in store then Ok(store[id])
    else Err(ApiError(404, "not_found"))
  }

  /** An upsert also says in which order the object lists its keys at that moment. */
  datatype Op =
    | Upsert(id: string, body: Json, now: int, order: KeyOrder)
    | Delete(id: string)
    | Clear

  function After(store: Store, op: Op): Store
  {
    match op
    case Upsert(id, body, now, order) =>
      (match Revised(store, id, body, now)
       case Ok(c) => Pruned(store[id := c], order)
       case Err(_) => store)
    case Delete(id) => store - {id}
    case Clear => map[]
  }

  class NexusHistory {
    var store: Store

    constructor ()
      ensures store == map[]
    {
      store := map[];
    }

    /** `pruneHistory`: removes the oldest conversations one by one. */
    method Prune(order: KeyOrder)
      modifies this
      ensures store == Pruned(old(store), order)
    {
      hide NewestFirst;
      hide AllOf;
      hide Environment.Enumerates;
      var all := AllOf(store, order);
      if |all| <= MAX_HISTORY_ENTRIES {
        NoIds();
        return;
      }
      var toPrune := NewestFirst(all)[MAX_HISTORY_ENTRIES..];
      for i := 0 to |toPrune|
        invariant store == old(store) - Ids(toPrune[..i])
      {
        IdsMore(toPrune, i);
        store := store - {toPrune[i].id};
      }
      assert toPrune[..|toPrune|] == toPrune;
    }

    /** `upsertHistory`. */
    method UpsertHistory(id: string, body: Json, now: int, order: KeyOrder) returns (r: Result<Conversation, ApiError>)
      modifies this
      ensures r == Revised(old(store), id, body, now)
      ensures store == After(old(store), Upsert(id, body, now, order))
    {
      hide Pruned;
      hide Revised;
      r := Revised(store, id, body, now);
      if r.Err? { return; }
      store := store[id := r.value];
      Prune(order);
    }

    method DeleteHistory(id: string) returns (r: Result<(), ApiError>)
      modifies this
      ensures r.Ok? <==> id != ""
      ensures store == if r.Ok? then old(store) - {id} else old(store)
    {
      if id == "" { return Err(ApiError(400, "invalid_request")); }
      store := store - {id};
      r := Ok(());
    }

    /** `clearHistory`: removes the listed ids one by one. */
    method ClearHistory(order: KeyOrder)
      modifies this
      ensures store == map[]
    {
      hide Environment.Enumerates;
      var ids := order(store.Keys);
      KeysListed(order, store.Keys);
      for i := 0 to |ids|
        invariant forall k :: k in store ==> k in old(store) && k !in ids[..i]
      {
        store := store - {ids[i]};
      }
    }

    /** `getHistory`. */
    method GetHistory(id: string) returns (r: Result<Conversation, ApiError>)
      ensures r == Get(store, id)
      ensures r.Ok? <==> id != "" && id in store
      ensures r.Ok? ==> r.value == store[id]
      ensures r.Err? ==> r.error == if id == "" then ApiError(400, "invalid_request") else ApiError(404, "not_found")
    {
      if id == "" { return Err(ApiError(400, "invalid_request")); }
      if id !in store { return Err(ApiError(404, "not_found")); }
      r := Ok(store[id]);
    }
  }

  lemma IdsMore(cs: seq<Conversation>, i: nat)
    requires i < |cs|
    ensures Ids(cs[..i + 1]) == Ids(cs[..i]) + {cs[i].id}
  {
    var more := cs[..i + 1];
    assert forall j :: 0 <= j < i ==> more[j] == cs[..i][j];
    assert more[i] == cs[i];
  }

  function SummaryOf(c: Conversation): Summary
  {
    Summary(c.id, c.title, |c.messages|, c.createdAt, c.updatedAt)
  }

  /** `listHistory`. */
  function ListHistory(store: Store, order: KeyOrder): seq<Summary>
  {
    var sorted := NewestFirst(AllOf(store, order));
    seq(|sorted|, i requires 0 <= i < |sorted| => SummaryOf(sorted[i]))
  }

  // ----- what the operations keep -----

  /** The list shows every conversation once, most recent first. */
  lemma ListIs(store: Store, order: KeyOrder)
    requires Valid(store)
    ensures var list := ListHistory(store, order);
      && |list| == |store|
      && (forall i, j :: 0 <= i < j < |list| ==> list[i].id != list[j].id && list[i].updatedAt >= list[j].updatedAt)
      && (forall i :: 0 <= i < |list| ==> list[i].id in store && list[i] == SummaryOf(store[list[i].id]))
      && (forall id :: id in store ==> exists i :: 0 <= i < |list| && list[i].id == id)
  {
    hide NewestFirst;
    hide AllOf;
    hide Environment.Enumerates;
    SortedStore(store, order);
    forall id | id in store ensures exists i :: 0 <= i < |store| && ListHistory(store, order)[i].id == id {
      var p := PositionOf(store, order, id);
      assert ListHistory(store, order)[p].id == id;
    }
  }

  /** When the clock has moved on, the conversation just stored can be read back. */
  lemma UpsertedSurvives(store: Store, id: string, body: Json, now: int, order: KeyOrder)
    requires Valid(store) && Revised(store, id, body, now).Ok?
    requires forall k :: k in store && k != id ==> store[k].updatedAt < now
    ensures Get(After(store, Upsert(id, body, now, order)), id) == Revised(store, id, body, now)
  {
    hide Pruned;
    hide DeriveTitle;
    hide ParseMessages;
    hide Environment.Enumerates;
    var c := Revised(store, id, body, now).value;
    var with := store[id := c];
    assert AsRecent(with, id) == {};
    SurvivesByTime(with, order, id);
    PruneIs(with, order);
    assert id != "";
  }

  lemma RevisedIs(store: Store, id: string, body: Json, now: int)
    ensures var r := Revised(store, id, body, now);
      r.Ok? ==>
        (&& r.value.id == id && r.value.title != "" && r.value.updatedAt == now
         && (id in store ==> r.value.createdAt == store[id].createdAt))
  {
    hide ParseMessages;
    hide DeriveTitle;
    match Field(body, "messages") {
      case Array(items) => DerivedTitle(ParseMessages(items));
      case _ =>
    }
  }

  lemma UpsertKeeps(store: Store, id: string, body: Json, now: int, order: KeyOrder)
    requires Valid(store)
    ensures var next := After(store, Upsert(id, body, now, order));
      && Valid(next)
      && (Revised(store, id, body, now).Ok? ==> |next| <= MAX_HISTORY_ENTRIES)
      && (Revised(store, id, body, now).Err? ==> next == store)
      && (forall k :: k in store && k in next ==> next[k].createdAt == store[k].createdAt)
      && (forall k :: k in next && k != id ==> k in store && next[k] == store[k])
  {
    hide Pruned;
    hide Revised;
    hide Environment.Enumerates;
    var r := Revised(store, id, body, now);
    RevisedIs(store, id, body, now);
    if r.Ok? { PruneIs(store[id := r.value], order); }
  }

  lemma DeleteShrinks(store: Store, id: string)
    ensures |store - {id}| <= |store|
  {
    SubsetSize((store - {id}).Keys, store.Keys);
    assert |store - {id}| == |(store - {id}).Keys| && |store| == |store.Keys|;
  }

  /** One operation keeps the keys equal to the ids and the creation time of every conversation that
      stays; it never grows a store beyond 50, and an upsert always cuts it down to that. */
  lemma StepKeeps(store: Store, op: Op)
    requires Valid(store)
    ensures var next := After(store, op);
      && Valid(next)
      && (|store| <= MAX_HISTORY_ENTRIES ==> |next| <= MAX_HISTORY_ENTRIES)
      && (op.Upsert? && Revised(store, op.id, op.body, op.now).Ok? ==> |next| <= MAX_HISTORY_ENTRIES)
      && (forall id :: id in store && id in next ==> next[id].createdAt == store[id].createdAt)
      && (forall id :: id in next && !(op.Upsert? && id == op.id) ==> id in store && next[id] == store[id])
  {
    hide Pruned;
    hide Revised;
    hide Environment.Enumerates;
    assert MAX_HISTORY_ENTRIES == 50;
    match op {
      case Upsert(id, body, now, order) =>
        UpsertKeeps(store, id, body, now, order);
      case Delete(id) =>
        DeleteShrinks(store, id);
      case Clear =>
    }
  }

  /** The stores of a run, the first one left out. */
  function Run(store: Store, ops: seq<Op>): seq<Store>
    decreases ops
  {
    if ops == [] then [] else var next := After(store, ops[0]); [next] + Run(next, ops[1..])
  }

  /** Over every run the store stays within its bound, with keys equal to ids. */
  lemma {:induction false} RunBounded(store: Store, ops: seq<Op>)
    requires Valid(store) && |store| <= MAX_HISTORY_ENTRIES
    ensures forall s: Store :: s in Run(store, ops) ==> Valid(s) && |s| <= MAX_HISTORY_ENTRIES
    decreases ops
  {
    hide After;
    hide Environment.Enumerates;
    if ops != [] {
      StepKeeps(store, ops[0]);
      RunBounded(After(store, ops[0]), ops[1..]);
    }
  }

  /** A conversation that is never removed keeps its creation time, through any number of upserts. */
  lemma {:induction false} CreatedOnce(store: Store, ops: seq<Op>, id: string)
    requires Valid(store) && id in store
    requires forall s: Store :: s in Run(store, ops) ==> id in s
    ensures forall s: Store :: s in Run(store, ops) ==> s[id].createdAt == store[id].createdAt
    decreases ops
  {
    hide After;
    hide Environment.Enumerates;
    if ops != [] {
      StepKeeps(store, ops[0]);
      var next := After(store, ops[0]);
      assert Run(store, ops)[0] == next;
      assert forall s: Store :: s in Run(next, ops[1..]) ==> s in Run(store, ops);
      CreatedOnce(next, ops[1..], id);
    }
  }

  // ----- a clock that moves on -----

  /** The upserts of a run are made one after the other, all later than `last`. */
  predicate Ticks(last: int, ops: seq<Op>)
    decreases ops
  {
    ops == [] ||
      (if ops[0].Upsert? then last < ops[0].now && Ticks(ops[0].now, ops[1..]) else Ticks(last, ops[1..]))
  }

  /** The time of the last upsert. */
  function Clock(last: int, op: Op): int
  {
    if op.Upsert? then op.now else last
  }

  /** No two conversations are equally recent, and none is more recent than `last`. */
  predicate Timed(store: Store, last: int)
  {
    && (forall k :: k in store ==> store[k].updatedAt <= last)
    && (forall k, l :: k in store && l in store && k != l ==> store[k].updatedAt != store[l].updatedAt)
  }

  /** The store before operation `i`. */
  function Before(store: Store, ops: seq<Op>, i: nat): Store
    requires i < |ops|
  {
    RunLength(store, ops);
    if i == 0 then store else Run(store, ops)[i - 1]
  }

  lemma {:induction false} RunLength(store: Store, ops: seq<Op>)
    ensures |Run(store, ops)| == |ops|
    decreases ops
  {
    hide After;
    if ops != [] { RunLength(After(store, ops[0]), ops[1..]); }
  }

  lemma TimedPart(store: Store, part: Store, last: int)
    requires Timed(store, last) && forall k :: k in part ==> k in store && part[k] == store[k]
    ensures Timed(part, last)
  {
  }

  lemma TimedMore(store: Store, last: int, id: string, c: Conversation)
    requires Timed(store, last) && last < c.updatedAt
    ensures Timed(store[id := c], c.updatedAt)
  {
  }

  lemma TimedLater(store: Store, last: int, now: int)
    requires Timed(store, last) && last <= now
    ensures Timed(store, now)
  {
  }

  lemma StepTimed(store: Store, op: Op, last: int)
    requires Valid(store) && Timed(store, last) && (op.Upsert? ==> last < op.now)
    ensures Valid(After(store, op)) && Timed(After(store, op), Clock(last, op))
  {
    hide Pruned;
    hide Revised;
    hide Timed;
    hide Environment.Enumerates;
    StepKeeps(store, op);
    match op {
      case Upsert(id, body, now, order) =>
        RevisedIs(store, id, body, now);
        TimedLater(store, last, now);
        var r := Revised(store, id, body, now);
        if r.Ok? {
          TimedMore(store, last, id, r.value);
          PruneIs(store[id := r.value], order);
          TimedPart(store[id := r.value], Pruned(store[id := r.value], order), now);
        }
      case _ =>
        TimedPart(store, After(store, op), last);
    }
  }

  /** Over every run with such a clock, each conversation can be read back right after it was stored. */
  lemma {:induction false} StoredThenRead(store: Store, ops: seq<Op>, last: int, i: nat)
    requires Valid(store) && Timed(store, last) && Ticks(last, ops) && i < |ops|
    requires ops[i].Upsert? && Revised(Before(store, ops, i), ops[i].id, ops[i].body, ops[i].now).Ok?
    ensures |Run(store, ops)| == |ops|
    ensures Get(Run(store, ops)[i], ops[i].id) == Revised(Before(store, ops, i), ops[i].id, ops[i].body, ops[i].now)
    decreases ops
  {
    hide After;
    hide Get;
    hide Revised;
    hide Environment.Enumerates;
    RunLength(store, ops);
    var next := After(store, ops[0]);
    if i == 0 {
      UpsertedSurvives(store, ops[0].id, ops[0].body, ops[0].now, ops[0].order);
      UpsertIs(ops[0]);
    } else {
      StepTimed(store, ops[0], last);
      RunLength(next, ops[1..]);
      assert Before(next, ops[1..], i - 1) == Before(store, ops, i);
      StoredThenRead(next, ops[1..], Clock(last, ops[0]), i - 1);
    }
  }

  lemma UpsertIs(op: Op)
    requires op.Upsert?
    ensures op == Upsert(op.id, op.body, op.now, op.order)
  {
  }

  /** The same operation, however the object lists its keys. */
  predicate SameButOrder(a: Op, b: Op)
  {
    match (a, b)
    case (Upsert(id, body, now, _), Upsert(id', body', now', _)) => id == id' && body == body' && now == now'
    case (Delete(id), Delete(id')) => id == id'
    case (Clear, Clear) => true
    case _ => false
  }

  /** Among distinct times the order of the keys does not decide what is pruned. */
  lemma PruneIgnoresOrder(store: Store, last: int, a: KeyOrder, b: KeyOrder)
    requires Valid(store) && Timed(store, last)
    ensures Pruned(store, a) == Pruned(store, b)
  {
    hide Pruned;
    hide Environment.Enumerates;
    PruneIs(store, a);
    PruneIs(store, b);
    forall id | id in store ensures id in Pruned(store, a) <==> id in Pruned(store, b) {
      SurvivesByTime(store, a, id);
      SurvivesByTime(store, b, id);
      assert AsRecent(store, id) == MoreRecent(store, id);
    }
  }

  lemma StepIgnoresOrder(store: Store, a: Op, b: Op, last: int)
    requires Valid(store) && Timed(store, last) && SameButOrder(a, b) && (a.Upsert? ==> last < a.now)
    ensures After(store, a) == After(store, b)
  {
    hide Pruned;
    hide Revised;
    hide Environment.Enumerates;
    if a.Upsert? {
      RevisedIs(store, a.id, a.body, a.now);
      var r := Revised(store, a.id, a.body, a.now);
      if r.Ok? { PruneIgnoresOrder(store[a.id := r.value], a.now, a.order, b.order); }
    }
  }

  /** So over every run with such a clock, the order in which the object lists its keys never matters. */
  lemma {:induction false} RunIgnoresOrder(store: Store, ops: seq<Op>, others: seq<Op>, last: int)
    requires Valid(store) && Timed(store, last) && Ticks(last, ops)
    requires |ops| == |others| && forall i :: 0 <= i < |ops| ==> SameButOrder(ops[i], others[i])
    ensures Run(store, ops) == Run(store, others)
    decreases ops
  {
    hide After;
    hide Timed;
    hide SameButOrder;
    hide Environment.Enumerates;
    if ops != [] {
      StepIgnoresOrder(store, ops[0], others[0], last);
      StepTimed(store, ops[0], last);
      RunIgnoresOrder(After(store, ops[0]), ops[1..], others[1..], Clock(last, ops[0]));
    }
  }
}
