/** Port rows of a compose service (packages/dockerCompose/src/ports.ts). */
module Ports {
  import opened Wrappers
  import opened Strings
  import opened Numbers

  datatype Protocol = TCP | UDP

  /** `host` is absent when the host port is left to Docker. */
  datatype PortMapping = PortMapping(host: Option<JsNumber>, container: JsNumber, protocol: Protocol)

  function LowerAscii(c: char): char
  {
    if 'A' <= c <= 'Z' then (c as int + 32) as char else c
  }

  predicate IsUdp(s: string)
  {
    |s| == 3 && LowerAscii(s[0]) == 'u' && LowerAscii(s[1]) == 'd' && LowerAscii(s[2]) == 'p'
  }

  /** One row `HOST:CONTAINER/protocol` or `CONTAINER/protocol`. A container that is zero or
      not a number makes the first number the container. */
  function Parse(row: string): PortMapping
  {
    var parts := Split(row, '/');
    var protocol := if |parts| > 1 && IsUdp(parts[1]) then UDP else TCP;
    var numbers := Split(parts[0], ':');
    var host := ParseInt(numbers[0]);
    var container := if |numbers| > 1 then ParseInt(numbers[1]) else NaN;
    if Truthy(container) then PortMapping(Some(host), container, protocol)
    else PortMapping(None, host, protocol)
  }

  /** The host port that is printed: absent when missing, zero or not a number. */
  function HostShown(m: PortMapping): Option<JsNumber>
  {
    if m.host.Some? && Truthy(m.host.value) then m.host else None
  }

  function Print(m: PortMapping): string
  {
    var suffix := if m.protocol == UDP then "/udp" else "";
    if HostShown(m).Some? then Numbers.Print(m.host.value) + ":" + Numbers.Print(m.container) + suffix
    else Numbers.Print(m.container) + suffix
  }

  function ParseAll(rows: seq<string>): (ms: seq<PortMapping>)
    ensures |ms| == |rows|
    ensures forall i :: 0 <= i < |rows| ==> ms[i] == Parse(rows[i])
  {
    seq(|rows|, i requires 0 <= i < |rows| => Parse(rows[i]))
  }

  function PrintAll(ms: seq<PortMapping>): (rows: seq<string>)
    ensures |rows| == |ms|
    ensures forall i :: 0 <= i < |ms| ==> rows[i] == Print(ms[i])
  {
    seq(|ms|, i requires 0 <= i < |ms| => Print(ms[i]))
  }

  /** What survives printing: no host port, or a usable host port before a usable container. */
  predicate Printable(m: PortMapping)
  {
    m.host.None? || (Truthy(m.host.value) && Truthy(m.container))
  }

  /** What a reader of the printed row sees. */
  function Reread(m: PortMapping): PortMapping
  {
    if HostShown(m).None? then PortMapping(None, m.container, m.protocol)
    else if Truthy(m.container) then m
    else PortMapping(None, m.host.value, m.protocol)
  }

  /** What a row shows of its host before the container. */
  function HostPart(m: PortMapping): string
  {
    if HostShown(m).Some? then Numbers.Print(m.host.value) + ":" else ""
  }

  lemma PrintParts(m: PortMapping)
    ensures Print(m) == HostPart(m) + (Numbers.Print(m.container) + if m.protocol == UDP then "/udp" else "")
  {
    hide Numbers.Print;
  }

  /** Rows for one container port and protocol are the same exactly when they show the same host. */
  lemma PrintShowsHost(m: PortMapping, n: PortMapping)
    requires m.container == n.container && m.protocol == n.protocol
    ensures Print(m) == Print(n) <==> HostShown(m) == HostShown(n)
  {
    hide Numbers.Print;
    hide Print;
    PrintParts(m);
    PrintParts(n);
    if Print(m) == Print(n) {
      SameEnding(HostPart(m), HostPart(n), Numbers.Print(m.container) + if m.protocol == UDP then "/udp" else "");
      if HostShown(m).Some? && HostShown(n).Some? {
        SameEnding(Numbers.Print(m.host.value), Numbers.Print(n.host.value), ":");
        ParsePrint(m.host.value);
        ParsePrint(n.host.value);
      }
    }
  }

  lemma UdpIs()
    ensures IsUdp("udp") && '/' !in "udp"
  {
  }

  lemma ProtocolSuffix(body: string)
    requires '/' !in body
    ensures Split(body + "/udp", '/') == [body, "udp"]
    ensures Split(body, '/') == [body]
    ensures IsUdp("udp")
  {
    hide *;
    UdpIs();
    assert body + ['/'] + "udp" == body + "/udp";
    SplitFirst(body, '/', "udp");
    SplitWithout("udp", '/');
    SplitWithout(body, '/');
  }

  lemma ParseAfterPrint(m: PortMapping)
    ensures Parse(Print(m)) == Reread(m)
  {
    hide Strings.Split;
    hide Numbers.ParseInt;
    hide Numbers.Print;
    var c := Numbers.Print(m.container);
    PrintPlain(m.container);
    ParsePrint(m.container);
    if HostShown(m).Some? {
      var h := Numbers.Print(m.host.value);
      PrintPlain(m.host.value);
      ParsePrint(m.host.value);
      ProtocolSuffix(h + ":" + c);
      SplitFirst(h, ':', c);
      SplitWithout(c, ':');
      assert h + ":" + c == h + [':'] + c;
      assert Split(h + ":" + c, ':') == [h, c];
      assert Print(m) == if m.protocol == UDP then h + ":" + c + "/udp" else h + ":" + c;
    } else {
      ProtocolSuffix(c);
      SplitWithout(c, ':');
      assert Split(c, ':') == [c];
      assert Print(m) == if m.protocol == UDP then c + "/udp" else c;
    }
  }

  /** A mapping comes back from its row exactly when it is printable. */
  lemma RoundTrip(m: PortMapping)
    ensures Parse(Print(m)) == m <==> Printable(m)
  {
    ParseAfterPrint(m);
  }

  lemma RoundTripAll(ms: seq<PortMapping>)
    ensures ParseAll(PrintAll(ms)) == ms <==> forall m :: m in ms ==> Printable(m)
  {
    forall m { RoundTrip(m); }
    if ParseAll(PrintAll(ms)) == ms {
      forall m | m in ms ensures Printable(m) {
        var i :| 0 <= i < |ms| && ms[i] == m;
        assert ParseAll(PrintAll(ms))[i] == Parse(Print(ms[i]));
      }
    }
  }

  /** Parsed rows print to a fixed point: rewriting a compose twice changes nothing more. */
  lemma PrintIsStable(row: string)
    ensures Parse(Print(Parse(row))).container == Parse(row).container
    ensures Print(Parse(Print(Parse(row)))) == Print(Parse(row))
  {
    ParseAfterPrint(Parse(row));
  }

  // ----- merging -----

  function ProtocolName(p: Protocol): string
  {
    match p case TCP => "TCP" case UDP => "UDP"
  }

  /** `${container}/${protocol}`, the key of a mapping. */
  function Id(m: PortMapping): string
  {
    Numbers.Print(m.container) + "/" + ProtocolName(m.protocol)
  }

  lemma ProtocolNames(p: Protocol, q: Protocol)
    ensures '/' !in ProtocolName(p) && (ProtocolName(p) == ProtocolName(q) <==> p == q)
  {
    assert ProtocolName(p)[0] == ProtocolName(q)[0] <==> p == q;
  }

  lemma IdParts(m: PortMapping)
    ensures Split(Id(m), '/') == [Numbers.Print(m.container), ProtocolName(m.protocol)]
  {
    var c, p := Numbers.Print(m.container), ProtocolName(m.protocol);
    assert Id(m) == c + ['/'] + p;
    hide *;
    PrintPlain(m.container);
    ProtocolNames(m.protocol, m.protocol);
    SplitFirst(c, '/', p);
    SplitWithout(p, '/');
    assert [c] + [p] == [c, p];
  }

  lemma IdInjective(m: PortMapping, n: PortMapping)
    ensures Id(m) == Id(n) <==> m.container == n.container && m.protocol == n.protocol
  {
    if Id(m) == Id(n) {
      hide *;
      IdParts(m);
      IdParts(n);
      assert [Numbers.Print(m.container), ProtocolName(m.protocol)][0] == Numbers.Print(m.container);
      ParsePrint(m.container);
      ParsePrint(n.container);
      ProtocolNames(m.protocol, n.protocol);
    }
  }

  /** `uniqBy`: keeps the first mapping of each key that is not in `seen`. */
  function Unique(ms: seq<PortMapping>, seen: set<string>): seq<PortMapping>
  {
    if ms == [] then []
    else if Id(ms[0]) in seen then Unique(ms[1..], seen)
    else [ms[0]] + Unique(ms[1..], seen + {Id(ms[0])})
  }

  /** `mergePortMappings`: the first argument has priority. */
  function Merge(a: seq<PortMapping>, b: seq<PortMapping>): seq<PortMapping>
  {
    Unique(a + b, {})
  }

  function Ids(ms: seq<PortMapping>): set<string>
  {
    set i | 0 <= i < |ms| :: Id(ms[i])
  }

  /** The first mapping of a key. */
  function Lookup(ms: seq<PortMapping>, id: string): Option<PortMapping>
  {
    if ms == [] then None
    else if Id(ms[0]) == id then Some(ms[0])
    else Lookup(ms[1..], id)
  }

  predicate DistinctIds(ms: seq<PortMapping>)
  {
    forall i, j :: 0 <= i < j < |ms| ==> Id(ms[i]) != Id(ms[j])
  }

  lemma {:induction false} UniqueKeys(ms: seq<PortMapping>, seen: set<string>)
    ensures DistinctIds(Unique(ms, seen))
    ensures Ids(Unique(ms, seen)) == Ids(ms) - seen
  {
    if ms != [] {
      assert Ids(ms) == {Id(ms[0])} + Ids(ms[1..]) by { IdsCons(ms[0], ms[1..]); assert ms == [ms[0]] + ms[1..]; }
      if Id(ms[0]) in seen {
        UniqueKeys(ms[1..], seen);
      } else {
        var rest := Unique(ms[1..], seen + {Id(ms[0])});
        UniqueKeys(ms[1..], seen + {Id(ms[0])});
        IdsCons(ms[0], rest);
        forall i | 0 <= i < |rest| ensures Id(rest[i]) != Id(ms[0]) {
          assert Id(rest[i]) in Ids(rest);
        }
      }
    }
  }

  lemma IdsCons(m: PortMapping, ms: seq<PortMapping>)
    ensures Ids([m] + ms) == {Id(m)} + Ids(ms)
  {
    hide Id;
    var all := [m] + ms;
    assert all[0] == m;
    assert forall i :: 0 <= i < |ms| ==> all[i + 1] == ms[i];
    assert forall i :: 0 < i < |all| ==> all[i] == ms[i - 1];
  }

  lemma {:induction false} UniqueLookup(ms: seq<PortMapping>, seen: set<string>, id: string)
    ensures Lookup(Unique(ms, seen), id) == if id in seen then None else Lookup(ms, id)
  {
    if ms != [] {
      if Id(ms[0]) in seen {
        UniqueLookup(ms[1..], seen, id);
      } else {
        UniqueLookup(ms[1..], seen + {Id(ms[0])}, id);
      }
    }
  }

  lemma {:induction false} LookupConcat(a: seq<PortMapping>, b: seq<PortMapping>, id: string)
    ensures Lookup(a + b, id) == if Lookup(a, id).Some? then Lookup(a, id) else Lookup(b, id)
    ensures Lookup(a, id).Some? <==> id in Ids(a)
  {
    if a == [] {
      assert a + b == b;
    } else {
      assert (a + b)[1..] == a[1..] + b;
      LookupConcat(a[1..], b, id);
      IdsCons(a[0], a[1..]);
      assert a == [a[0]] + a[1..];
    }
  }

  /** One entry per key, every key of either list, the first list's mapping where both have one. */
  lemma MergeMeaning(a: seq<PortMapping>, b: seq<PortMapping>)
    ensures DistinctIds(Merge(a, b))
    ensures Ids(Merge(a, b)) == Ids(a) + Ids(b)
    ensures forall id :: Lookup(Merge(a, b), id) == if id in Ids(a) then Lookup(a, id) else Lookup(b, id)
  {
    UniqueKeys(a + b, {});
    forall id ensures id in Ids(a + b) <==> id in Ids(a) || id in Ids(b) {
      LookupConcat(a, b, id);
      LookupConcat(b, [], id);
      LookupConcat(a + b, [], id);
    }
    forall id ensures Lookup(Merge(a, b), id) == if id in Ids(a) then Lookup(a, id) else Lookup(b, id) {
      UniqueLookup(a + b, {}, id);
      LookupConcat(a, b, id);
    }
  }

  lemma UniqueStep(m: PortMapping, ms: seq<PortMapping>, seen: set<string>)
    ensures Unique([m] + ms, seen) == if Id(m) in seen then Unique(ms, seen) else [m] + Unique(ms, seen + {Id(m)})
  {
    hide Id;
    assert ([m] + ms)[1..] == ms;
  }

  lemma ConsConcat(m: PortMapping, a: seq<PortMapping>, b: seq<PortMapping>)
    ensures [m] + a + b == [m] + (a + b)
  {
  }

  lemma SeenMore(seen: set<string>, x: string, ids: set<string>)
    ensures seen + {x} + ids == seen + ({x} + ids)
    ensures x in seen ==> seen + ids == seen + ({x} + ids)
  {
  }

  lemma {:induction false} UniqueAppend(a: seq<PortMapping>, b: seq<PortMapping>, seen: set<string>)
    ensures Unique(a + b, seen) == Unique(a, seen) + Unique(b, seen + Ids(a))
    decreases |a|, 1
  {
    if a == [] {
      assert a + b == b && seen + Ids(a) == seen;
    } else {
      UniqueAppendCons(a[0], a[1..], b, seen);
      assert a == [a[0]] + a[1..];
    }
  }

  lemma {:induction false} UniqueAppendCons(m: PortMapping, rest: seq<PortMapping>, b: seq<PortMapping>,
                                            seen: set<string>)
    ensures Unique([m] + rest + b, seen) == Unique([m] + rest, seen) + Unique(b, seen + Ids([m] + rest))
    decreases |rest| + 1, 0
  {
    hide *;
    ConsConcat(m, rest, b);
    IdsCons(m, rest);
    UniqueStep(m, rest, seen);
    UniqueStep(m, rest + b, seen);
    SeenMore(seen, Id(m), Ids(rest));
    if Id(m) in seen {
      UniqueAppend(rest, b, seen);
    } else {
      UniqueAppend(rest, b, seen + {Id(m)});
      ConsConcat(m, Unique(rest, seen + {Id(m)}), Unique(b, seen + {Id(m)} + Ids(rest)));
    }
  }

  lemma {:induction false} UniqueTwice(ms: seq<PortMapping>, seen: set<string>, more: set<string>)
    requires seen <= more
    ensures Unique(Unique(ms, seen), more) == Unique(ms, more)
  {
    if ms != [] {
      var id := Id(ms[0]);
      if id in seen {
        UniqueTwice(ms[1..], seen, more);
      } else if id in more {
        UniqueTwice(ms[1..], seen + {id}, more);
      } else {
        UniqueTwice(ms[1..], seen + {id}, more + {id});
      }
    }
  }

  /** Merging is associative, entry order included. */
  lemma MergeAssociative(a: seq<PortMapping>, b: seq<PortMapping>, c: seq<PortMapping>)
    ensures Merge(Merge(a, b), c) == Merge(a, Merge(b, c))
  {
    hide Unique;
    hide Ids;
    calc {
      Merge(Merge(a, b), c);
      { MergeLeft(a + b, c); }
      Unique((a + b) + c, {});
      { assert (a + b) + c == a + (b + c); }
      Unique(a + (b + c), {});
      { MergeRight(a, b + c); }
      Merge(a, Merge(b, c));
    }
  }

  lemma MergeLeft(ab: seq<PortMapping>, c: seq<PortMapping>)
    ensures Unique(Unique(ab, {}) + c, {}) == Unique(ab + c, {})
  {
    UniqueAppend(Unique(ab, {}), c, {});
    UniqueTwice(ab, {}, {});
    UniqueAppend(ab, c, {});
    UniqueKeys(ab, {});
    assert Ids(ab) - {} == Ids(ab);
  }

  lemma MergeRight(a: seq<PortMapping>, bc: seq<PortMapping>)
    ensures Unique(a + Unique(bc, {}), {}) == Unique(a + bc, {})
  {
    UniqueAppend(a, Unique(bc, {}), {});
    UniqueTwice(bc, {}, {} + Ids(a));
    UniqueAppend(a, bc, {});
  }

  /** Merging what is already there changes nothing, and a list without repeats merges to itself. */
  lemma MergeIdempotent(a: seq<PortMapping>, b: seq<PortMapping>)
    ensures Merge(a, Merge(a, b)) == Merge(a, b)
    ensures DistinctIds(a) ==> Merge(a, a) == a
  {
    UniqueAppend(a, a, {});
    UniqueNothing(a, {} + Ids(a));
    assert Merge(a, a) == Unique(a, {});
    MergeAssociative(a, a, b);
    MergeLeft(a, b);
    if DistinctIds(a) { UniqueIdentity(a, {}); }
  }

  lemma {:induction false} UniqueNothing(ms: seq<PortMapping>, seen: set<string>)
    requires Ids(ms) <= seen
    ensures Unique(ms, seen) == []
  {
    if ms != [] {
      IdsCons(ms[0], ms[1..]);
      assert ms == [ms[0]] + ms[1..];
      UniqueNothing(ms[1..], seen);
    }
  }

  lemma {:induction false} UniqueIdentity(ms: seq<PortMapping>, seen: set<string>)
    requires DistinctIds(ms) && Ids(ms) !! seen
    ensures Unique(ms, seen) == ms
  {
    if ms != [] {
      IdsCons(ms[0], ms[1..]);
      assert ms == [ms[0]] + ms[1..];
      forall i | 0 <= i < |ms| - 1 ensures Id(ms[1..][i]) != Id(ms[0]) {
        assert ms[1..][i] == ms[i + 1];
      }
      UniqueIdentity(ms[1..], seen + {Id(ms[0])});
    }
  }
}
