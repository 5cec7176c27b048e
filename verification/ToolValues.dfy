/** What is made of the chunks of one streamed answer, piece by piece (packages/nexus/src/api.ts). */
module ToolValues {
  import opened Wrappers
  import opened Strings
  import opened ToolLoop

  // ----- assembled calls -----

  /** A fragment belongs to the call at its index; without an index to the first one. */
  predicate For(f: Fragment, i: nat)
  {
    match f.index
    case Some(k) => k == i
    case None => i == 0
  }

  /** The positions of the fragments of a call, in order. */
  ghost function PartsAt(fs: seq<Fragment>, i: nat): (r: seq<nat>)
    ensures forall j :: 0 <= j < |r| ==> r[j] < |fs| && For(fs[r[j]], i)
    ensures forall j, k :: 0 <= j < k < |r| ==> r[j] < r[k]
    ensures forall k :: 0 <= k < |fs| && For(fs[k], i) ==> k in r
  {
    Positions(fs, (f: Fragment) => For(f, i))
  }

  lemma PartsAtMore(fs: seq<Fragment>, f: Fragment, i: nat)
    ensures PartsAt(fs + [f], i) == PartsAt(fs, i) + if For(f, i) then [|fs|] else []
  {
    PositionsMore(fs, f, (f: Fragment) => For(f, i));
  }

  function NameOf(f: Fragment): string { f.name }

  function ArgumentsOf(f: Fragment): string { f.arguments }

  function IdOf(f: Fragment): string { f.id }

  function KindOf(f: Fragment): string { f.kind }

  /** A field of the fragments at these positions. */
  function Texts(get: Fragment -> string, fs: seq<Fragment>, at: seq<nat>): seq<string>
    requires forall j :: 0 <= j < |at| ==> at[j] < |fs|
  {
    seq(|at|, j requires 0 <= j < |at| => get(fs[at[j]]))
  }

  lemma TextsMore(get: Fragment -> string, fs: seq<Fragment>, at: seq<nat>, f: Fragment)
    requires forall j :: 0 <= j < |at| ==> at[j] < |fs|
    ensures Texts(get, fs + [f], at) == Texts(get, fs, at)
    ensures Texts(get, fs + [f], at + [|fs|]) == Texts(get, fs, at) + [get(f)]
  {
  }

  /** The last of some texts that is not empty, else the default. */
  ghost predicate LastGiven(texts: seq<string>, default: string, r: string)
  {
    || (r == default && forall j :: 0 <= j < |texts| ==> texts[j] == "")
    || exists k :: 0 <= k < |texts| && r == texts[k] != "" && forall j :: k < j < |texts| ==> texts[j] == ""
  }

  lemma LastGivenMore(texts: seq<string>, default: string, r: string, text: string)
    requires LastGiven(texts, default, r)
    ensures LastGiven(texts + [text], default, if text != "" then text else r)
  {
    var more := texts + [text];
    if text != "" {
      assert more[|texts|] == text;
    } else if !(r == default && forall j :: 0 <= j < |texts| ==> texts[j] == "") {
      var k :| 0 <= k < |texts| && r == texts[k] != "" && forall j :: k < j < |texts| ==> texts[j] == "";
      assert more[k] == r;
    }
  }

  /** A call made of the fragments at these positions. */
  ghost predicate MadeOf(fs: seq<Fragment>, at: seq<nat>, call: Call)
  {
    && (forall j :: 0 <= j < |at| ==> at[j] < |fs|)
    && call.name == Join(Texts(NameOf, fs, at), "") && call.arguments == Join(Texts(ArgumentsOf, fs, at), "")
    && LastGiven(Texts(IdOf, fs, at), "", call.id) && LastGiven(Texts(KindOf, fs, at), "function", call.kind)
  }

  lemma {:induction false} JoinMore(texts: seq<string>, text: string)
    ensures Join(texts + [text], "") == Join(texts, "") + text
  {
    if |texts| <= 1 {
      assert texts == [] ==> texts + [text] == [text];
      if |texts| == 1 {
        assert (texts + [text])[1..] == [text];
        assert texts[0] + "" + text == texts[0] + text;
      }
    } else {
      JoinMore(texts[1..], text);
      assert (texts + [text])[1..] == texts[1..] + [text];
    }
  }

  lemma MadeOfMore(fs: seq<Fragment>, at: seq<nat>, call: Call, f: Fragment)
    requires MadeOf(fs, at, call)
    ensures MadeOf(fs + [f], at + [], call) && MadeOf(fs + [f], at + [|fs|], Extend(call, f))
  {
    hide LastGiven;
    hide Texts;
    hide Join;
    assert at + [] == at;
    TextsMore(NameOf, fs, at, f);
    TextsMore(ArgumentsOf, fs, at, f);
    TextsMore(IdOf, fs, at, f);
    TextsMore(KindOf, fs, at, f);
    JoinMore(Texts(NameOf, fs, at), f.name);
    JoinMore(Texts(ArgumentsOf, fs, at), f.arguments);
    LastGivenMore(Texts(IdOf, fs, at), "", call.id, f.id);
    LastGivenMore(Texts(KindOf, fs, at), "function", call.kind, f.kind);
  }

  lemma NothingMade(i: nat)
    ensures PartsAt([], i) == [] && MadeOf([], [], Call("", "function", "", ""))
    ensures FRESH == Call("", "function", "", "")
    ensures At(Assemble([]), i) == None
  {
  }

  /** The call at an index, in terms of the fragments alone: none without fragments; else their names and
      arguments one after the other, and the last id and kind that were given. */
  lemma {:induction false} CallIs(fs: seq<Fragment>, i: nat)
    ensures PartsAt(fs, i) == [] <==> At(Assemble(fs), i) == None
    ensures At(Assemble(fs), i).Some? ==> MadeOf(fs, PartsAt(fs, i), At(Assemble(fs), i).value)
  {
    hide *;
    NothingMade(i);
    if fs != [] {
      var front, last := fs[..|fs| - 1], fs[|fs| - 1];
      assert fs == front + [last];
      CallIs(front, i);
      PartsAtMore(front, last, i);
      AssembleStep(fs);
      PutStep(Assemble(front), last, i);
      IndexIs(last, i);
      var at := PartsAt(front, i);
      assert at + [] == at;
      if At(Assemble(front), i).Some? {
        MadeOfMore(front, at, At(Assemble(front), i).value, last);
      } else {
        NothingMadeOf(front);
        MadeOfMore(front, at, FRESH, last);
      }
    }
  }

  lemma PutLength(calls: seq<Option<Call>>, f: Fragment)
    ensures |Put(calls, f)| == if |calls| < Index(f) + 1 then Index(f) + 1 else |calls|
  {
  }

  lemma {:induction false} Lengths(fs: seq<Fragment>) returns (k: nat)
    ensures forall j :: 0 <= j < |fs| ==> Index(fs[j]) < |Assemble(fs)|
    ensures |Assemble(fs)| > 0 ==> k < |fs| && Index(fs[k]) == |Assemble(fs)| - 1
  {
    hide *;
    k := 0;
    if fs == [] {
      AssembleNothing();
    } else {
      var front, last := fs[..|fs| - 1], fs[|fs| - 1];
      assert forall j :: 0 <= j < |front| ==> fs[j] == front[j];
      k := Lengths(front);
      AssembleStep(fs);
      PutLength(Assemble(front), last);
      if |Assemble(front)| < Index(last) + 1 { k := |front|; }
    }
  }

  /** The fragment's call is in a list of this length. */
  predicate Within(f: Fragment, length: nat)
  {
    match f.index
    case Some(k) => k < length
    case None => length > 0
  }

  lemma WithinIs(f: Fragment, length: nat)
    ensures Within(f, length) <==> Index(f) < length
  {
  }

  /** The list of calls is just long enough for the highest index, so a hole in it is an index that no
      fragment has. */
  lemma LengthIs(fs: seq<Fragment>)
    ensures forall j :: 0 <= j < |fs| ==> Within(fs[j], |Assemble(fs)|)
    ensures |Assemble(fs)| > 0 ==> PartsAt(fs, |Assemble(fs)| - 1) != []
  {
    hide Assemble;
    hide PartsAt;
    hide Index;
    var k := Lengths(fs);
    forall j | 0 <= j < |fs| ensures Within(fs[j], |Assemble(fs)|) { WithinIs(fs[j], |Assemble(fs)|); }
    if |Assemble(fs)| > 0 {
      IndexIs(fs[k], Index(fs[k]));
      assert k in PartsAt(fs, |Assemble(fs)| - 1);
    }
  }

  lemma NothingMadeOf(fs: seq<Fragment>)
    ensures MadeOf(fs, [], FRESH)
  {
  }

  lemma IndexIs(f: Fragment, i: nat)
    ensures For(f, i) <==> Index(f) == i
  {
  }

  // ----- the stream, chunk by chunk -----

  /** What one chunk brings: a chunk that does not parse, or has no choice, brings nothing. */
  lemma OneChunk(world: World, trace: Trace, model: string, choice: Choice)
    ensures FragmentsOf([Malformed]) == [] && ContentOf([Malformed]) == "" && FinishOf([Malformed]) == ""
    ensures Forwarded(world, trace, [Malformed]) == trace
    ensures var c := Chunk(model, None);
      FragmentsOf([c]) == [] && ContentOf([c]) == "" && FinishOf([c]) == "" && Forwarded(world, trace, [c]) == trace
    ensures var c := Chunk(model, Some(choice));
      && FragmentsOf([c]) == choice.toolCalls && ContentOf([c]) == choice.content
      && FinishOf([c]) == choice.finishReason
      && Forwarded(world, trace, [c])
           == if choice.content == "" || world.ended(trace) then trace else trace + [Write(Content(c))]
  {
    NothingStreamed(world, trace);
    OnlyChunk(world, trace, Malformed);
    OnlyChunk(world, trace, Chunk(model, None));
    OnlyChunk(world, trace, Chunk(model, Some(choice)));
  }

  lemma OnlyChunk(world: World, trace: Trace, c: Chunk)
    ensures FragmentsOf([c]) == if Usable(c) then c.choice.value.toolCalls else []
    ensures ContentOf([c]) == if Usable(c) then c.choice.value.content else ""
    ensures FinishOf([c]) == if Usable(c) then c.choice.value.finishReason else ""
    ensures Forwarded(world, trace, [c])
      == if Usable(c) && c.choice.value.content != "" then Emit(world, trace, Content(c)) else trace
  {
    NothingStreamed(world, trace);
    assert [c][..0] == [] && [c][..1] == [c];
    ChunkStep(world, trace, [c], 0);
    hide FragmentsOf;
    hide ContentOf;
    assert Usable(c) ==> [] + c.choice.value.toolCalls == c.choice.value.toolCalls;
    assert Usable(c) ==> "" + c.choice.value.content == c.choice.value.content;
  }

  /** And one after the other: texts and fragments are joined, the last reason given counts, and each chunk
      is forwarded after those before it. */
  lemma {:induction false} MoreChunks(world: World, trace: Trace, a: seq<Chunk>, b: seq<Chunk>)
    ensures FragmentsOf(a + b) == FragmentsOf(a) + FragmentsOf(b) && ContentOf(a + b) == ContentOf(a) + ContentOf(b)
    ensures FinishOf(a + b) == if FinishOf(b) != "" then FinishOf(b) else FinishOf(a)
    ensures Forwarded(world, trace, a + b) == Forwarded(world, Forwarded(world, trace, a), b)
  {
    hide FragmentsOf;
    hide ContentOf;
    hide FinishOf;
    hide Forwarded;
    hide Emit;
    if b == [] {
      assert a + b == a;
      NothingStreamed(world, Forwarded(world, trace, a));
      assert FragmentsOf(a) + [] == FragmentsOf(a) && ContentOf(a) + "" == ContentOf(a);
    } else {
      var front, c := b[..|b| - 1], b[|b| - 1];
      MoreChunks(world, trace, a, front);
      LastChunk(world, trace, a + front, c);
      LastChunk(world, Forwarded(world, trace, a), front, c);
      assert b == front + [c] && a + b == (a + front) + [c];
      var calls := if Usable(c) then c.choice.value.toolCalls else [];
      var text := if Usable(c) then c.choice.value.content else "";
      assert (FragmentsOf(a) + FragmentsOf(front)) + calls == FragmentsOf(a) + (FragmentsOf(front) + calls);
      assert (ContentOf(a) + ContentOf(front)) + text == ContentOf(a) + (ContentOf(front) + text);
    }
  }

  lemma LastChunk(world: World, trace: Trace, chunks: seq<Chunk>, c: Chunk)
    ensures var more := chunks + [c];
      && FragmentsOf(more) == FragmentsOf(chunks) + (if Usable(c) then c.choice.value.toolCalls else [])
      && ContentOf(more) == ContentOf(chunks) + (if Usable(c) then c.choice.value.content else "")
      && FinishOf(more) == (if Usable(c) && c.choice.value.finishReason != "" then c.choice.value.finishReason
                            else FinishOf(chunks))
      && Forwarded(world, trace, more) ==
           if Usable(c) && c.choice.value.content != "" then Emit(world, Forwarded(world, trace, chunks), Content(c))
           else Forwarded(world, trace, chunks)
  {
    var more := chunks + [c];
    assert more[..|chunks|] == chunks && more[..|more|] == more && more[|chunks|] == c;
    ChunkStep(world, trace, more, |chunks|);
  }
}
