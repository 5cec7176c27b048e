/** The incremental reader of a streamed chat answer (packages/nexus/src/api.ts, utils.ts).
    A chunk is the decoded text of one read. */
module SseReader {
  import opened Wrappers
  import opened Strings

  predicate IsAsciiSpace(c: char)
  {
    9 <= c as int <= 13 || c == ' '
  }

  function SkipSpaces(s: string): string
  {
    if s != "" && IsAsciiSpace(s[0]) then SkipSpaces(s[1..]) else s
  }

  function DropSpaces(s: string): string
  {
    if s != "" && IsAsciiSpace(s[|s| - 1]) then DropSpaces(s[..|s| - 1]) else s
  }

  function TrimAscii(s: string): string
  {
    DropSpaces(SkipSpaces(s))
  }

  /** `trimAsciiWhitespace`. */
  method TrimAsciiWhitespace(value: string) returns (r: string)
    ensures r == TrimAscii(value)
  {
    hide *;
    var start, end := 0, |value|;
    assert value[0..] == value;
    while start < end && IsAsciiSpace(value[start])
      invariant 0 <= start <= end == |value|
      invariant SkipSpaces(value[start..]) == SkipSpaces(value)
    {
      SkipStep(value, start);
      start := start + 1;
    }
    SkipDone(value, start);
    while end > start && IsAsciiSpace(value[end - 1])
      invariant start <= end <= |value|
      invariant DropSpaces(value[start..end]) == TrimAscii(value)
    {
      DropStep(value, start, end);
      end := end - 1;
    }
    DropDone(value, start, end);
    r := value[start..end];
  }

  lemma SkipStep(s: string, i: nat)
    requires i < |s| && IsAsciiSpace(s[i])
    ensures SkipSpaces(s[i..]) == SkipSpaces(s[i + 1..])
  {
    assert s[i..][1..] == s[i + 1..];
  }

  lemma SkipDone(s: string, i: nat)
    requires i <= |s| && (i < |s| ==> !IsAsciiSpace(s[i])) && SkipSpaces(s[i..]) == SkipSpaces(s)
    ensures DropSpaces(s[i..|s|]) == TrimAscii(s)
  {
    hide DropSpaces;
    hide IsAsciiSpace;
    assert s[i..|s|] == s[i..];
  }

  lemma DropStep(s: string, i: nat, j: nat)
    requires i < j <= |s| && IsAsciiSpace(s[j - 1])
    ensures DropSpaces(s[i..j]) == DropSpaces(s[i..j - 1])
  {
    assert s[i..j][..j - i - 1] == s[i..j - 1];
  }

  lemma DropDone(s: string, i: nat, j: nat)
    requires i <= j <= |s| && (i < j ==> !IsAsciiSpace(s[j - 1]))
    ensures DropSpaces(s[i..j]) == s[i..j]
  {
  }

  /** `split("\\r\\n").join("\\n")`. */
  function ToLf(s: string): string
  {
    if s == "" then ""
    else if "\r\n" <= s then "\n" + ToLf(s[2..])
    else [s[0]] + ToLf(s[1..])
  }

  /** `indexOf("\\n\\n")`. */
  function BlankLine(s: string): (r: Option<nat>)
    ensures r.Some? ==> r.value + 2 <= |s|
  {
    if "\n\n" <= s then Some(0)
    else if s == "" then None
    else match BlankLine(s[1..]) case None => None case Some(i) => Some(i + 1)
  }

  /** What one line yields. */
  function LinePayload(line: string): seq<string>
  {
    if "data:" <= line then
      var p := TrimAscii(line[5..]);
      if p == "" || p == "[DONE]" then [] else [p]
    else []
  }

  function LinesPayloads(lines: seq<string>): seq<string>
  {
    if lines == [] then [] else LinesPayloads(lines[..|lines| - 1]) + LinePayload(lines[|lines| - 1])
  }

  /** Every payload of a text, line by line: the reference the reader is compared with. */
  function Payloads(text: string): seq<string>
  {
    LinesPayloads(Split(text, '\n'))
  }

  /** The complete events of a buffer: their payloads, and what is left after the last blank line. */
  function Drain(buffer: string): (seq<string>, string)
    decreases |buffer|
  {
    match BlankLine(buffer)
    case None => ([], buffer)
    case Some(i) =>
      var (payloads, rest) := Drain(buffer[i + 2..]);
      (Payloads(buffer[..i]) + payloads, rest)
  }

  /** `readSSEPayloads` over all chunks: the payloads yielded and the buffer at the end. */
  function ReadAll(chunks: seq<string>): (seq<string>, string)
  {
    if chunks == [] then ([], "")
    else
      var (payloads, buffer) := ReadAll(chunks[..|chunks| - 1]);
      var (more, rest) := Drain(buffer + ToLf(chunks[|chunks| - 1]));
      (payloads + more, rest)
  }

  /** Yields the payloads of one event. */
  method YieldEvent(event: string, sofar: seq<string>) returns (yielded: seq<string>)
    ensures yielded == sofar + Payloads(event)
  {
    hide Strings.Split;
    hide TrimAscii;
    yielded := sofar;
    var lines := Split(event, '\n');
    for l := 0 to |lines|
      invariant yielded == sofar + LinesPayloads(lines[..l])
    {
      assert lines[..l + 1][..l] == lines[..l];
      if "data:" <= lines[l] {
        var payload := TrimAsciiWhitespace(lines[l][5..]);
        if payload != "" && payload != "[DONE]" { yielded := yielded + [payload]; }
      }
    }
    assert lines[..|lines|] == lines;
  }

  /** Yields every complete event of the buffer and returns what is left. */
  method DrainBuffer(buffer: string, sofar: seq<string>) returns (yielded: seq<string>, rest: string)
    ensures (yielded, rest) == (sofar + Drain(buffer).0, Drain(buffer).1)
  {
    hide Payloads;
    hide BlankLine;
    yielded, rest := sofar, buffer;
    var sep := BlankLine(rest);
    while sep.Some?
      invariant sep == BlankLine(rest)
      invariant yielded + Drain(rest).0 == sofar + Drain(buffer).0
      invariant Drain(rest).1 == Drain(buffer).1
      decreases |rest|
    {
      var event := rest[..sep.value];
      rest := rest[sep.value + 2..];
      yielded := YieldEvent(event, yielded);
      sep := BlankLine(rest);
    }
    assert yielded + [] == yielded;
  }

  /** The reader: adds each chunk to the buffer and drains it. */
  method ReadPayloads(chunks: seq<string>) returns (yielded: seq<string>)
    ensures yielded == ReadAll(chunks).0
  {
    hide Drain;
    hide ToLf;
    yielded := [];
    var buffer := "";
    for c := 0 to |chunks|
      invariant (yielded, buffer) == ReadAll(chunks[..c])
    {
      assert chunks[..c + 1][..c] == chunks[..c];
      buffer := buffer + ToLf(chunks[c]);
      yielded, buffer := DrainBuffer(buffer, yielded);
    }
    assert chunks[..|chunks|] == chunks;
  }

  function Concat(chunks: seq<string>): string
  {
    if chunks == [] then "" else Concat(chunks[..|chunks| - 1]) + chunks[|chunks| - 1]
  }

  function AllToLf(chunks: seq<string>): (r: seq<string>)
    ensures |r| == |chunks|
  {
    seq(|chunks|, i requires 0 <= i < |chunks| => ToLf(chunks[i]))
  }

  // ----- draining piece by piece -----

  lemma {:induction false} BlankLineAppend(s: string, t: string)
    ensures BlankLine(s).Some? ==> BlankLine(s + t) == BlankLine(s)
  {
    if BlankLine(s).Some? && !("\n\n" <= s) {
      assert (s + t)[1..] == s[1..] + t;
      assert s[0] == (s + t)[0] && s[1] == (s + t)[1];
      BlankLineAppend(s[1..], t);
    }
  }

  /** Draining a longer buffer is draining the shorter one and then what was left with the rest. */
  lemma {:induction false} DrainAppend(s: string, t: string)
    ensures var (p, r) := Drain(s);
      var (q, u) := Drain(r + t);
      Drain(s + t) == (p + q, u)
    decreases |s|
  {
    hide Payloads;
    hide BlankLine;
    BlankLineAppend(s, t);
    if BlankLine(s).Some? {
      var i := BlankLine(s).value;
      DrainAppend(s[i + 2..], t);
      assert (s + t)[i + 2..] == s[i + 2..] + t;
      assert (s + t)[..i] == s[..i];
      var (p, r) := Drain(s[i + 2..]);
      var (q, u) := Drain(r + t);
      assert Payloads(s[..i]) + (p + q) == (Payloads(s[..i]) + p) + q;
    } else {
      assert [] + Drain(s + t).0 == Drain(s + t).0;
    }
  }

  /** Reading chunk by chunk is one pass over the chunks with their line ends unified. */
  lemma {:induction false} ReadIsOnePass(chunks: seq<string>)
    ensures ReadAll(chunks) == Drain(Concat(AllToLf(chunks)))
  {
    hide Drain;
    if chunks == [] {
      DrainNothing();
    } else {
      var n := |chunks| - 1;
      ReadIsOnePass(chunks[..n]);
      assert AllToLf(chunks)[..n] == AllToLf(chunks[..n]);
      DrainAppend(Concat(AllToLf(chunks[..n])), ToLf(chunks[n]));
    }
  }

  lemma DrainNothing()
    ensures Drain("") == ([], "")
  {
  }

  // ----- chunk independence -----

  /** No boundary falls between a carriage return and its line feed. */
  predicate NoCutPair(chunks: seq<string>)
  {
    forall i :: 0 < i < |chunks| ==>
      !(EndsWithCr(Concat(chunks[..i])) && chunks[i] != "" && chunks[i][0] == '\n')
  }

  predicate EndsWithCr(s: string)
  {
    s != "" && s[|s| - 1] == '\r'
  }

  lemma {:induction false} ToLfAppend(s: string, t: string)
    ensures ToLf(s + t) == ToLf(s) + ToLf(t) <==> !(EndsWithCr(s) && t != "" && t[0] == '\n')
    ensures |ToLf(s + t)| <= |ToLf(s)| + |ToLf(t)|
  {
    if s == "" {
      assert s + t == t;
    } else if "\r\n" <= s {
      assert "\r\n" <= s + t by { assert (s + t)[..2] == s[..2]; }
      assert (s + t)[2..] == s[2..] + t;
      ToLfAppend(s[2..], t);
      ConsAppend("\n", ToLf(s[2..]), ToLf(t), ToLf(s[2..] + t));
    } else if |s| == 1 {
      assert (s + t)[0] == s[0] && (s + t)[1..] == t && s[1..] == "";
      if s[0] == '\r' && t != "" && t[0] == '\n' {
        assert "\r\n" <= s + t && (s + t)[2..] == t[1..];
        assert ToLf(t) == "\n" + ToLf(t[1..]);
      }
    } else {
      assert (s + t)[0] == s[0] && (s + t)[1] == s[1];
      assert !("\r\n" <= s + t);
      assert (s + t)[1..] == s[1..] + t;
      ToLfAppend(s[1..], t);
      ConsAppend([s[0]], ToLf(s[1..]), ToLf(t), ToLf(s[1..] + t));
    }
  }

  lemma ConsAppend(x: string, a: string, b: string, c: string)
    ensures x + c == (x + a) + b <==> c == a + b
  {
    assert (x + a) + b == x + (a + b);
    assert (x + c)[|x|..] == c && (x + (a + b))[|x|..] == a + b;
  }

  lemma UncutPrefix(chunks: seq<string>)
    requires NoCutPair(chunks) && chunks != []
    ensures NoCutPair(chunks[..|chunks| - 1])
  {
    hide Concat;
    hide EndsWithCr;
    var shorter := chunks[..|chunks| - 1];
    forall i | 0 < i < |shorter|
      ensures !(EndsWithCr(Concat(shorter[..i])) && shorter[i] != "" && shorter[i][0] == '\n')
    {
      assert shorter[..i] == chunks[..i];
    }
  }

  lemma UncutLast(chunks: seq<string>)
    requires NoCutPair(chunks) && chunks != []
    ensures !(EndsWithCr(Concat(chunks[..|chunks| - 1])) && chunks[|chunks| - 1] != ""
      && chunks[|chunks| - 1][0] == '\n')
  {
    if |chunks| == 1 { assert Concat(chunks[..0]) == ""; }
  }

  lemma ConcatLast(chunks: seq<string>)
    requires chunks != []
    ensures Concat(chunks) == Concat(chunks[..|chunks| - 1]) + chunks[|chunks| - 1]
  {
  }

  lemma AllToLfLast(chunks: seq<string>)
    requires chunks != []
    ensures var n := |chunks| - 1;
      AllToLf(chunks)[..n] == AllToLf(chunks[..n]) && AllToLf(chunks)[n] == ToLf(chunks[n])
  {
    hide ToLf;
  }

  lemma ConvertedConcat(chunks: seq<string>)
    requires chunks != []
    ensures var n := |chunks| - 1;
      && Concat(AllToLf(chunks)) == Concat(AllToLf(chunks[..n])) + ToLf(chunks[n])
      && Concat(chunks) == Concat(chunks[..n]) + chunks[n]
  {
    hide *;
    AllToLfLast(chunks);
    ConcatLast(AllToLf(chunks));
    ConcatLast(chunks);
  }

  lemma {:induction false} UncutIsOneConversion(chunks: seq<string>)
    requires NoCutPair(chunks)
    ensures Concat(AllToLf(chunks)) == ToLf(Concat(chunks))
  {
    if chunks != [] {
      hide *;
      var n := |chunks| - 1;
      UncutPrefix(chunks);
      UncutIsOneConversion(chunks[..n]);
      UncutLast(chunks);
      ConvertedConcat(chunks);
      ToLfAppend(Concat(chunks[..n]), chunks[n]);
    }
  }

  /** Cut anywhere but inside a CRLF pair, the stream leaves the reader as the whole text does. */
  lemma UncutIndependence(chunks: seq<string>)
    requires NoCutPair(chunks)
    ensures ReadAll(chunks) == ReadAll([Concat(chunks)])
    ensures ReadAll(chunks) == Drain(ToLf(Concat(chunks)))
  {
    hide Drain;
    ReadIsOnePass(chunks);
    UncutIsOneConversion(chunks);
    ReadIsOnePass([Concat(chunks)]);
    assert AllToLf([Concat(chunks)]) == [ToLf(Concat(chunks))];
    assert [ToLf(Concat(chunks))][..0] == [];
    assert Concat([ToLf(Concat(chunks))]) == ToLf(Concat(chunks));
  }

  // ----- every chunking: a prefix, and nothing lost -----

  lemma {:induction false} LinesAppend(a: seq<string>, b: seq<string>)
    ensures LinesPayloads(a + b) == LinesPayloads(a) + LinesPayloads(b)
  {
    hide LinePayload;
    if b == [] {
      assert a + b == a;
    } else {
      var n := |b| - 1;
      assert (a + b)[..|a| + n] == a + b[..n];
      LinesAppend(a, b[..n]);
    }
  }

  lemma {:induction false} SplitLine(x: string, y: string)
    ensures Split(x + "\n" + y, '\n') == Split(x, '\n') + Split(y, '\n')
  {
    var s := x + "\n" + y;
    if x == "" {
      assert s[1..] == y;
    } else {
      assert s[1..] == x[1..] + "\n" + y;
      SplitLine(x[1..], y);
    }
  }

  /** A line end separates payloads. */
  lemma PayloadsLine(x: string, y: string)
    ensures Payloads(x + "\n" + y) == Payloads(x) + Payloads(y)
  {
    hide LinesPayloads;
    hide Strings.Split;
    SplitLine(x, y);
    LinesAppend(Split(x, '\n'), Split(y, '\n'));
  }

  lemma PayloadsEmpty()
    ensures Payloads("") == [] && Payloads("\n") == []
  {
    assert Split("", '\n') == [""];
    assert [""][..0] == [];
    PayloadsLine("", "");
    assert "" + "\n" + "" == "\n";
  }

  lemma {:induction false} DropSpacesCr(s: string)
    ensures DropSpaces(s + "\r") == DropSpaces(s)
  {
    assert (s + "\r")[..|s|] == s;
  }

  lemma {:induction false} TrimCr(s: string)
    ensures TrimAscii(s + "\r") == TrimAscii(s)
  {
    if s == "" {
      assert SkipSpaces("\r") == SkipSpaces("\r"[1..]);
      assert s + "\r" == "\r";
    } else if IsAsciiSpace(s[0]) {
      assert (s + "\r")[0] == s[0] && (s + "\r")[1..] == s[1..] + "\r";
      TrimCr(s[1..]);
    } else {
      assert (s + "\r")[0] == s[0];
      DropSpacesCr(s);
    }
  }

  /** A carriage return at the end of a line changes nothing. */
  lemma LineCr(line: string)
    ensures LinePayload(line + "\r") == LinePayload(line)
  {
    hide TrimAscii;
    if |line| >= 5 {
      assert (line + "\r")[..5] == line[..5];
      assert (line + "\r")[5..] == line[5..] + "\r";
      TrimCr(line[5..]);
    } else if |line| == 4 {
      assert (line + "\r")[4] == '\r' && "data:"[4] == ':';
    }
  }

  /** The lines with a carriage return after the last one. */
  function WithCr(lines: seq<string>): seq<string>
    requires lines != []
  {
    lines[..|lines| - 1] + [lines[|lines| - 1] + "\r"]
  }

  lemma {:induction false} SplitCr(x: string)
    ensures Split(x + "\r", '\n') == WithCr(Split(x, '\n'))
  {
    if x == "" {
      SplitWithout("\r", '\n');
      assert x + "\r" == "\r" && "" + "\r" == "\r";
    } else {
      SplitCr(x[1..]);
      SplitStep(x);
      CrTail(x);
      SplitStep(x + "\r");
      hide Strings.Split;
      hide WithCr;
      CrLines(x[0], Split(x[1..], '\n'));
    }
  }

  lemma CrTail(x: string)
    requires x != ""
    ensures (x + "\r")[0] == x[0] && (x + "\r")[1..] == x[1..] + "\r"
  {
  }

  lemma CrLines(c: char, lines: seq<string>)
    requires lines != []
    ensures WithCr([""] + lines) == [""] + WithCr(lines)
    ensures WithCr([[c] + lines[0]] + lines[1..]) == [[c] + WithCr(lines)[0]] + WithCr(lines)[1..]
  {
    var head := [[c] + lines[0]] + lines[1..];
    if |lines| == 1 {
      assert ([c] + lines[0]) + "\r" == [c] + (lines[0] + "\r");
    } else {
      assert head[..|head| - 1] == [[c] + lines[0]] + lines[1..|lines| - 1];
    }
  }

  lemma SplitStep(s: string)
    requires s != ""
    ensures var rest := Split(s[1..], '\n');
      Split(s, '\n') == if s[0] == '\n' then [""] + rest else [[s[0]] + rest[0]] + rest[1..]
  {
  }

  lemma PayloadsCr(x: string)
    ensures Payloads(x + "\r") == Payloads(x)
  {
    hide Strings.Split;
    hide LinePayload;
    var l := Split(x, '\n');
    var m := Split(x + "\r", '\n');
    SplitCr(x);
    LineCr(l[|l| - 1]);
    assert m[..|m| - 1] == l[..|l| - 1];
  }

  /** Unifying line ends anywhere in a text changes no payload. */
  lemma {:induction false} PayloadsToLf(before: string, s: string, after: string)
    ensures Payloads(before + ToLf(s) + after) == Payloads(before + s + after)
    decreases |s|
  {
    hide Payloads;
    if s == "" {
    } else if "\r\n" <= s {
      var rest := s[2..];
      PayloadsToLf(before + "\r\n", rest, after);
      assert s == "\r\n" + rest;
      var lf := ToLf(rest);
      assert ToLf(s) == "\n" + lf;
      hide ToLf;
      PayloadsCrLf(before, lf, after);
      assert before + ("\r\n" + rest) + after == before + "\r\n" + rest + after;
    } else {
      PayloadsToLf(before + [s[0]], s[1..], after);
      var lf := ToLf(s[1..]);
      assert ToLf(s) == [s[0]] + lf && s == [s[0]] + s[1..];
      hide ToLf;
      Regroup(before, [s[0]], lf, after);
      Regroup(before, [s[0]], s[1..], after);
    }
  }

  lemma Regroup(a: string, b: string, c: string, d: string)
    ensures a + (b + c) + d == a + b + c + d
  {
  }

  lemma PayloadsCrLf(before: string, lf: string, after: string)
    ensures Payloads(before + ("\n" + lf) + after) == Payloads(before + "\r\n" + lf + after)
  {
    hide Payloads;
    var tail := lf + after;
    assert before + ("\n" + lf) + after == before + "\n" + tail;
    assert before + "\r\n" + lf + after == (before + "\r") + "\n" + tail;
    PayloadsLine(before, tail);
    PayloadsLine(before + "\r", tail);
    PayloadsCr(before);
  }

  lemma {:induction false} PayloadsAllToLf(chunks: seq<string>, after: string)
    ensures Payloads(Concat(AllToLf(chunks)) + after) == Payloads(Concat(chunks) + after)
  {
    hide Payloads;
    hide ToLf;
    if chunks != [] {
      var n := |chunks| - 1;
      assert AllToLf(chunks)[..n] == AllToLf(chunks[..n]);
      var a, b := Concat(AllToLf(chunks[..n])), Concat(chunks[..n]);
      PayloadsAllToLf(chunks[..n], ToLf(chunks[n]) + after);
      PayloadsToLf(b, chunks[n], after);
      assert a + ToLf(chunks[n]) + after == a + (ToLf(chunks[n]) + after);
      assert b + ToLf(chunks[n]) + after == b + (ToLf(chunks[n]) + after);
    }
  }

  /** The payloads of a buffer are those drained and those of the rest. */
  lemma {:induction false} DrainedPayloads(s: string)
    ensures Drain(s).0 + Payloads(Drain(s).1) == Payloads(s)
    ensures BlankLine(Drain(s).1).None?
    decreases |s|
  {
    hide Payloads;
    hide BlankLine;
    if BlankLine(s).Some? {
      var i := BlankLine(s).value;
      var event, rest := s[..i], s[i + 2..];
      DrainedPayloads(rest);
      BlankLineSplits(s);
      PayloadsLine(event, "\n" + rest);
      PayloadsLine("", rest);
      PayloadsEmpty();
      assert "" + "\n" + rest == "\n" + rest;
      assert s == event + "\n" + ("\n" + rest);
      assert [] + Payloads(rest) == Payloads(rest);
      assert Payloads(event) + (Drain(rest).0 + Payloads(Drain(rest).1))
        == Payloads(event) + Drain(rest).0 + Payloads(Drain(rest).1);
    } else {
      assert [] + Payloads(s) == Payloads(s);
    }
  }

  lemma {:induction false} BlankLineSplits(s: string)
    requires BlankLine(s).Some?
    ensures var i := BlankLine(s).value; s == s[..i] + "\n\n" + s[i + 2..]
  {
    if !("\n\n" <= s) {
      BlankLineSplits(s[1..]);
      var i := BlankLine(s[1..]).value;
      assert s == [s[0]] + s[1..];
      assert s[..i + 1] == [s[0]] + s[1..][..i] && s[i + 3..] == s[1..][i + 2..];
    }
  }

  /** However the stream is cut, what was yielded is the beginning of its payloads, in order. */
  lemma YieldedIsPrefix(chunks: seq<string>)
    ensures ReadAll(chunks).0 <= Payloads(Concat(chunks))
  {
    hide *;
    ReadIsOnePass(chunks);
    DrainedPayloads(Concat(AllToLf(chunks)));
    PayloadsAllToLf(chunks, "");
    assert Concat(AllToLf(chunks)) + "" == Concat(AllToLf(chunks));
    assert Concat(chunks) + "" == Concat(chunks);
  }

  /** What is left after a blank line was added holds no payload. */
  lemma {:induction false} FlushedRest(r: string)
    requires BlankLine(r).None?
    ensures Payloads(Drain(r + "\n\n").1) == []
  {
    hide Payloads;
    PayloadsEmpty();
    BlankLineAtEnd(r);
    var i := BlankLine(r + "\n\n").value;
    var rest := (r + "\n\n")[i + 2..];
    assert rest == "" || rest == "\n";
    assert BlankLine("") == None;
    assert "\n"[1..] == "" && BlankLine("\n") == None;
    hide BlankLine;
    assert Drain(r + "\n\n").1 == Drain(rest).1;
  }

  lemma {:induction false} BlankLineAtEnd(r: string)
    requires BlankLine(r).None?
    ensures BlankLine(r + "\n\n").Some?
    ensures var i := BlankLine(r + "\n\n").value;
      (r + "\n\n")[i + 2..] == "" || (r + "\n\n")[i + 2..] == "\n"
  {
    var s := r + "\n\n";
    BlankLineStep(s);
    if r == "" {
      assert s == "\n\n" && s[2..] == "";
    } else if "\n\n" <= s {
      BlankLineStep(r);
      hide BlankLine;
      assert |r| >= 2 ==> "\n\n" <= r;
      assert s[2..] == "\n";
    } else {
      BlankLineStep(r);
      hide BlankLine;
      assert s[1..] == r[1..] + "\n\n";
      BlankLineAtEnd(r[1..]);
      var i := BlankLine(s[1..]).value;
      assert s[i + 1 + 2..] == s[1..][i + 2..];
    }
  }

  lemma BlankLineStep(s: string)
    requires s != ""
    ensures BlankLine(s) ==
      if "\n\n" <= s then Some(0) else match BlankLine(s[1..]) case None => None case Some(i) => Some(i + 1)
  {
  }

  lemma OneMoreBlank(chunks: seq<string>)
    ensures ReadAll(chunks + ["\n\n"]).0 == ReadAll(chunks).0 + Drain(ReadAll(chunks).1 + "\n\n").0
  {
    hide Drain;
    assert (chunks + ["\n\n"])[..|chunks|] == chunks;
    assert ToLf("\n\n") == "\n\n" by { ToLfPlain("\n\n", ""); assert "\n\n" + "" == "\n\n"; }
  }

  /** However the stream is cut, one more blank line brings out every payload: nothing is lost. */
  lemma NothingLost(chunks: seq<string>)
    ensures ReadAll(chunks + ["\n\n"]).0 == Payloads(Concat(chunks))
  {
    hide *;
    var t := Concat(AllToLf(chunks));
    OneMoreBlank(chunks);
    ReadIsOnePass(chunks);
    DrainedPayloads(t);
    var r := Drain(t).1;
    DrainedPayloads(r + "\n\n");
    FlushedRest(r);
    assert Drain(r + "\n\n").0 + [] == Drain(r + "\n\n").0;
    PayloadsBlank(r);
    PayloadsAllToLf(chunks, "");
    assert t + "" == t && Concat(chunks) + "" == Concat(chunks);
  }

  lemma PayloadsBlank(r: string)
    ensures Payloads(r + "\n\n") == Payloads(r)
  {
    hide Payloads;
    PayloadsLine(r, "\n");
    PayloadsEmpty();
    assert r + "\n" + "\n" == r + "\n\n";
    assert Payloads(r) + [] == Payloads(r);
  }

  lemma {:induction false} ToLfPlain(e: string, t: string)
    requires '\r' !in e
    ensures ToLf(e + t) == e + ToLf(t)
  {
    if e == "" {
      assert e + t == t;
    } else {
      assert (e + t)[0] == e[0] && (e + t)[1..] == e[1..] + t;
      ToLfPlain(e[1..], t);
    }
  }

  lemma {:induction false} BlankLineAfter(e: string, t: string)
    requires '\n' !in e
    ensures BlankLine(e + t) == match BlankLine(t) case None => None case Some(i) => Some(|e| + i)
  {
    if e == "" {
      assert e + t == t;
    } else {
      assert (e + t)[0] == e[0] && (e + t)[1..] == e[1..] + t;
      BlankLineAfter(e[1..], t);
    }
  }

  lemma WholePairYields(event: string)
    requires '\r' !in event && '\n' !in event
    ensures ReadAll([event + "\r\n\r\n"]).0 == Payloads(event)
  {
    hide Payloads;
    hide ReadAll;
    hide ToLf;
    var whole := event + "\n\n";
    ToLfEnds();
    ToLfPlain(event, "\r\n\r\n");
    ReadIsOnePass([event + "\r\n\r\n"]);
    ConcatOne(event + "\r\n\r\n");
    BlankLineAfter(event, "\n\n");
    assert BlankLine("\n\n") == Some(0);
    assert whole[..|event|] == event && whole[|event| + 2..] == "";
    assert Drain(whole).0 == Payloads(event) + Drain("").0;
    DrainNothing();
  }

  lemma CutPairYieldsNothing(event: string)
    requires '\r' !in event && '\n' !in event
    ensures ReadAll([event + "\r\n\r", "\n"]).0 == []
  {
    hide Payloads;
    hide ReadAll;
    hide ToLf;
    ToLfEnds();
    ToLfPlain(event, "\r\n\r");
    ReadIsOnePass([event + "\r\n\r", "\n"]);
    ConcatTwo(event + "\r\n\r", "\n");
    assert event + "\n\r" + "\n" == event + "\n\r\n";
    BlankLineAfter(event, "\n\r\n");
  }

  /** Cutting the CRLF pair of a blank line delays the event before it: whole, the stream yields
      the event at once; cut, it yields nothing yet. */
  lemma CutPairDelays(event: string)
    requires '\r' !in event && '\n' !in event
    ensures ReadAll([event + "\r\n\r\n"]).0 == Payloads(event)
    ensures ReadAll([event + "\r\n\r", "\n"]).0 == []
  {
    hide *;
    WholePairYields(event);
    CutPairYieldsNothing(event);
  }

  // ----- exactly what has been yielded -----

  /** A blank line ends at `k`: a line end of either form, right after another one. */
  predicate BlankEnd(s: string, k: nat)
  {
    && 2 <= k <= |s| && s[k - 1] == '\n'
    && (s[k - 2] == '\n' || (k >= 3 && s[k - 2] == '\r' && s[k - 3] == '\n'))
  }

  /** A read ends at `p`, and another one follows. */
  predicate Boundary(chunks: seq<string>, p: nat)
  {
    exists i :: 0 < i < |chunks| && |Concat(chunks[..i])| == p
  }

  /** The line end of the blank line that ends at `k` came in one read. */
  predicate WholeEnd(chunks: seq<string>, k: nat)
  {
    BlankEnd(Concat(chunks), k) && (Concat(chunks)[k - 2] == '\n' || !Boundary(chunks, k - 1))
  }

  ghost function LastWholeUpTo(chunks: seq<string>, k: nat): (r: nat)
    ensures r <= k && (r > 0 ==> WholeEnd(chunks, r))
    ensures forall j :: r < j <= k ==> !WholeEnd(chunks, j)
  {
    if k == 0 then 0 else if WholeEnd(chunks, k) then k else LastWholeUpTo(chunks, k - 1)
  }

  /** Where the last blank line ends whose own line end came in one read; 0 when there is none. */
  ghost function LastWhole(chunks: seq<string>): (r: nat)
    ensures r <= |Concat(chunks)|
  {
    LastWholeUpTo(chunks, |Concat(chunks)|)
  }

  predicate LfEnd(t: string, j: nat)
  {
    2 <= j <= |t| && t[j - 1] == '\n' && t[j - 2] == '\n'
  }

  /** Where the last `\n\n` of a buffer ends; 0 when there is none. */
  ghost function LastLf(t: string): (r: nat)
    ensures r <= |t|
  {
    if t == "" then 0 else if LfEnd(t, |t|) then |t| else LastLf(t[..|t| - 1])
  }

  lemma LastLfStep(t: string, c: char)
    ensures LastLf(t + [c]) == if LfEnd(t + [c], |t| + 1) then |t| + 1 else LastLf(t)
  {
    assert (t + [c])[..|t|] == t;
  }

  lemma {:induction false} LastLfIs(t: string)
    ensures var r := LastLf(t); (r > 0 ==> LfEnd(t, r)) && forall j :: r < j <= |t| ==> !LfEnd(t, j)
  {
    if t != "" && !LfEnd(t, |t|) {
      var shorter := t[..|t| - 1];
      LastLfIs(shorter);
      forall j | LastLf(t) < j <= |t| ensures !LfEnd(t, j) {
        if j < |t| { assert !LfEnd(shorter, j); }
      }
    }
  }

  lemma {:induction false} NoBlankLine(s: string)
    requires BlankLine(s).None?
    ensures forall j :: 0 <= j <= |s| ==> !LfEnd(s, j)
  {
    if s != "" {
      NoBlankLine(s[1..]);
      forall j | 0 <= j <= |s| ensures !LfEnd(s, j) {
        if 3 <= j { assert !LfEnd(s[1..], j - 1); }
      }
    }
  }

  /** The first blank line ends a payload, and what follows can be read by itself. */
  lemma LastLfAfter(s: string, i: nat)
    requires i + 2 <= |s| && LfEnd(s, i + 2)
    ensures var rest := s[i + 2..]; var r := LastLf(rest);
      Payloads(s[..LastLf(s)]) == Payloads(s[..i]) + Payloads(rest[..r])
  {
    hide Payloads;
    hide LastLf;
    var rest := s[i + 2..];
    var r := LastLf(rest);
    LastLfIs(s);
    LastLfIs(rest);
    assert s[..i + 2] == s[..i] + "\n\n";
    if r > 0 {
      assert LfEnd(s, i + 2 + r);
      forall j | i + 2 + r < j <= |s| ensures !LfEnd(s, j) {
        if j >= i + 4 { assert !LfEnd(rest, j - i - 2); }
      }
      assert LastLf(s) == i + 2 + r;
      assert s[..i + 2 + r] == s[..i] + "\n\n" + rest[..r];
      PayloadsTwoLines(s[..i], rest[..r]);
    } else {
      forall j | i + 4 <= j <= |s| ensures !LfEnd(s, j) { assert !LfEnd(rest, j - i - 2); }
      PayloadsTwoLines(s[..i], "");
      PayloadsTwoLines(s[..i], "\n");
      PayloadsEmpty();
      assert s[..i] + "\n\n" + "" == s[..i] + "\n\n";
      if LastLf(s) != i + 2 {
        assert LastLf(s) == i + 3;
        assert s[..i + 3] == s[..i] + "\n\n" + "\n";
      }
      assert rest[..r] == "";
    }
  }

  lemma PayloadsTwoLines(a: string, b: string)
    ensures Payloads(a + "\n\n" + b) == Payloads(a) + Payloads(b)
  {
    hide Payloads;
    PayloadsLine(a, "\n" + b);
    PayloadsLine("", b);
    PayloadsEmpty();
    assert "" + "\n" + b == "\n" + b;
    assert a + "\n" + ("\n" + b) == a + "\n\n" + b;
    assert [] + Payloads(b) == Payloads(b);
  }

  /** A buffer yields the payloads up to its last blank line. */
  lemma {:induction false} DrainedUpTo(s: string)
    ensures Drain(s).0 == Payloads(s[..LastLf(s)])
    decreases |s|
  {
    hide Payloads;
    hide LastLf;
    hide BlankLine;
    if BlankLine(s).None? {
      NoBlankLine(s);
      LastLfIs(s);
      PayloadsEmpty();
      assert s[..0] == "";
    } else {
      var i := BlankLine(s).value;
      DrainedUpTo(s[i + 2..]);
      BlankLineSplits(s);
      assert s[i] == (s[..i] + "\n\n" + s[i + 2..])[i] && s[i + 1] == (s[..i] + "\n\n" + s[i + 2..])[i + 1];
      LastLfAfter(s, i);
    }
  }

  lemma {:induction false} ToLfLast(x: string)
    requires x != ""
    ensures ToLf(x) != "" && ToLf(x)[|ToLf(x)| - 1] == x[|x| - 1]
  {
    if "\r\n" <= x {
      if x[2..] != "" { ToLfLast(x[2..]); }
    } else if x[1..] != "" {
      ToLfLast(x[1..]);
    }
  }

  lemma ToLfOne(c: char)
    ensures ToLf([c]) == [c] && ToLf("\r\n") == "\n"
  {
    assert [c][1..] == "" && "\r\n"[2..] == "";
  }

  /** One more character. */
  lemma ToLfPush(x: string, c: char)
    ensures ToLf(x + [c]) ==
      if EndsWithCr(x) && c == '\n' then ToLf(x[..|x| - 1]) + "\n" else ToLf(x) + [c]
    ensures EndsWithCr(x) ==> ToLf(x) == ToLf(x[..|x| - 1]) + "\r"
  {
    hide *;
    ToLfOne(c);
    ToLfOne('\r');
    ToLfAppend(x, [c]);
    EndsWithOne(c);
    if EndsWithCr(x) {
      CrSplit(x);
      var y := x[..|x| - 1];
      ToLfAppend(y, ['\r']);
      EndsWithOne('\r');
      if c == '\n' {
        ToLfAppend(y, "\r\n");
        assert x + [c] == y + "\r\n";
      }
    }
  }

  lemma EndsWithOne(c: char)
    ensures [c] != "" && [c][0] == c && "\r\n"[0] == '\r'
  {
  }

  lemma CrSplit(x: string)
    requires EndsWithCr(x)
    ensures x != "" && x == x[..|x| - 1] + ['\r']
    ensures x + ['\n'] == x[..|x| - 1] + "\r\n"
  {
  }

  lemma ConcatPush(before: seq<string>, last: string)
    ensures Concat(before + [last]) == Concat(before) + last
    ensures Concat(AllToLf(before + [last])) == Concat(AllToLf(before)) + ToLf(last)
  {
    hide *;
    var chunks := before + [last];
    assert chunks[..|chunks| - 1] == before;
    ConvertedConcat(chunks);
  }

  /** The converted text ends in the same character. */
  lemma {:induction false} SameLast(chunks: seq<string>)
    ensures var s, t := Concat(chunks), Concat(AllToLf(chunks));
      (s == "" <==> t == "") && (s != "" ==> t[|t| - 1] == s[|s| - 1])
  {
    if chunks != [] {
      hide *;
      var before, last := chunks[..|chunks| - 1], chunks[|chunks| - 1];
      SameLast(before);
      ConvertedConcat(chunks);
      if last != "" { ToLfLast(last); } else { ToLfEmpty(); }
    } else {
      NothingConverted();
    }
  }

  lemma ToLfEmpty()
    ensures ToLf("") == ""
  {
  }

  lemma NothingConverted()
    ensures Concat(AllToLf([])) == "" && Concat([]) == ""
  {
  }

  lemma {:induction false} ConcatGrows(chunks: seq<string>, i: nat)
    requires i <= |chunks|
    ensures |Concat(chunks[..i])| <= |Concat(chunks)|
  {
    if i < |chunks| {
      ConcatGrows(chunks[..|chunks| - 1], i);
      assert chunks[..|chunks| - 1][..i] == chunks[..i];
    } else {
      assert chunks[..i] == chunks;
    }
  }

  /** The boundaries lie where the earlier reads end. */
  lemma BoundariesOf(before: seq<string>, last: string, p: nat)
    ensures Boundary(before + [last], p) <==> Boundary(before, p) || (before != [] && |Concat(before)| == p)
    ensures Boundary(before, p) ==> p <= |Concat(before)|
  {
    hide Concat;
    var chunks := before + [last];
    assert chunks[..|before|] == before;
    forall i | 0 < i < |before| ensures chunks[..i] == before[..i] && |Concat(before[..i])| <= |Concat(before)| {
      ConcatGrows(before, i);
    }
    if Boundary(before, p) {
      var i :| 0 < i < |before| && |Concat(before[..i])| == p;
      assert |Concat(chunks[..i])| == p;
    }
  }

  /** A line feed after a carriage return of the same read. */
  lemma EndsTogetherCr(before: seq<string>, y: string)
    ensures var chunks := before + [y + "\r\n"]; var t := Concat(AllToLf(chunks));
      LfEnd(t, |t|) <==> WholeEnd(chunks, |Concat(chunks)|)
  {
    hide Concat;
    hide ToLf;
    hide AllToLf;
    hide Boundary;
    var last := y + "\r\n";
    var s, t := Concat(before + [last]), Concat(AllToLf(before + [last]));
    var u, v := Concat(before + [y]), Concat(AllToLf(before + [y]));
    ConcatPush(before, last);
    ConcatPush(before, y);
    ToLfPair(y);
    assert s == u + "\r\n" && t == v + "\n";
    BoundariesOf(before, last, |s| - 1);
    SameLast(before + [y]);
  }

  lemma ToLfPair(y: string)
    ensures ToLf(y + "\r\n") == ToLf(y) + "\n"
  {
    hide ToLf;
    ToLfAppend(y, "\r\n");
    ToLfOne('\n');
    EndsWithOne('\r');
  }

  /** Any other character. */
  lemma EndsTogetherPlain(before: seq<string>, x: string, c: char)
    requires !(EndsWithCr(x) && c == '\n')
    ensures var chunks := before + [x + [c]]; var t := Concat(AllToLf(chunks));
      LfEnd(t, |t|) <==> WholeEnd(chunks, |Concat(chunks)|)
  {
    hide Concat;
    hide ToLf;
    hide AllToLf;
    hide Boundary;
    var s, t := Concat(before + [x + [c]]), Concat(AllToLf(before + [x + [c]]));
    var u, v := Concat(before + [x]), Concat(AllToLf(before + [x]));
    ConcatPush(before, x + [c]);
    ConcatPush(before, x);
    ToLfPush(x, c);
    assert s == u + [c] && t == v + [c];
    BoundariesOf(before, x + [c], |s| - 1);
    SameLast(before + [x]);
    if before == [] { NothingConverted(); }
    if x == "" { assert u == Concat(before); } else { assert u[|u| - 1] == x[|x| - 1]; }
  }

  /** The last character ends a blank line in the converted text exactly when it ends one whose line
      end came in one read. */
  lemma EndsTogether(before: seq<string>, x: string, c: char)
    ensures var chunks := before + [x + [c]]; var t := Concat(AllToLf(chunks));
      LfEnd(t, |t|) <==> WholeEnd(chunks, |Concat(chunks)|)
  {
    hide *;
    if EndsWithCr(x) && c == '\n' {
      CrSplit(x);
      EndsTogetherCr(before, x[..|x| - 1]);
    } else {
      EndsTogetherPlain(before, x, c);
    }
  }

  lemma WholeEndEarlier(before: seq<string>, x: string, c: char, k: nat)
    requires k <= |Concat(before + [x])|
    ensures WholeEnd(before + [x + [c]], k) <==> WholeEnd(before + [x], k)
  {
    hide Concat;
    hide ToLf;
    hide AllToLf;
    hide Boundary;
    ConcatPush(before, x);
    ConcatPush(before, x + [c]);
    assert Concat(before + [x + [c]]) == Concat(before + [x]) + [c];
    if k > 0 {
      BoundariesOf(before, x, k - 1);
      BoundariesOf(before, x + [c], k - 1);
    }
  }

  lemma LastWholePush(before: seq<string>, x: string, c: char)
    ensures var chunks := before + [x + [c]];
      LastWhole(chunks) == if WholeEnd(chunks, |Concat(chunks)|) then |Concat(chunks)| else LastWhole(before + [x])
  {
    hide Concat;
    hide ToLf;
    hide AllToLf;
    hide WholeEnd;
    hide LastWholeUpTo;
    ConcatPush(before, x);
    ConcatPush(before, x + [c]);
    assert |Concat(before + [x + [c]])| == |Concat(before + [x])| + 1;
    forall k | 0 <= k <= |Concat(before + [x])|
      ensures WholeEnd(before + [x + [c]], k) <==> WholeEnd(before + [x], k)
    {
      WholeEndEarlier(before, x, c, k);
    }
  }

  lemma LastWholeEmpty(before: seq<string>)
    ensures LastWhole(before + [""]) == LastWhole(before)
  {
    hide Concat;
    hide ToLf;
    hide AllToLf;
    hide Boundary;
    hide LastWholeUpTo;
    ConcatPush(before, "");
    assert Concat(before) + "" == Concat(before);
    forall k | 0 <= k <= |Concat(before)| ensures WholeEnd(before + [""], k) <==> WholeEnd(before, k) {
      if k > 0 { BoundariesOf(before, "", k - 1); }
    }
  }

  /** A character that ends no blank line leaves the last one where it was. */
  lemma LastLfPush(before: seq<string>, x: string, c: char)
    requires var t := Concat(AllToLf(before + [x + [c]])); !LfEnd(t, |t|)
    ensures var t, u := Concat(AllToLf(before + [x + [c]])), Concat(AllToLf(before + [x]));
      t[..LastLf(t)] == u[..LastLf(u)]
  {
    hide *;
    var t, u := Concat(AllToLf(before + [x + [c]])), Concat(AllToLf(before + [x]));
    ConcatPush(before, x + [c]);
    ConcatPush(before, x);
    ToLfPush(x, c);
    if EndsWithCr(x) && c == '\n' {
      CrSplit(x);
      var v := Concat(AllToLf(before)) + ToLf(x[..|x| - 1]);
      assert t == v + ['\n'] && u == v + ['\r'];
      LastLfStep(v, '\n');
      LastLfStep(v, '\r');
      NoLfEnd(v);
    } else {
      assert t == u + [c];
      LastLfStep(u, c);
    }
  }

  lemma NoLfEnd(v: string)
    ensures !LfEnd(v + ['\r'], |v| + 1)
  {
  }

  /** The last blank lines of the two texts come after the same payloads. */
  lemma {:induction false} SameUpTo(chunks: seq<string>)
    ensures var s, t := Concat(chunks), Concat(AllToLf(chunks));
      Payloads(t[..LastLf(t)]) == Payloads(s[..LastWhole(chunks)])
    decreases |Concat(chunks)| + |chunks|
  {
    hide *;
    if chunks == [] {
      NothingConverted();
    } else {
      var before, last := chunks[..|chunks| - 1], chunks[|chunks| - 1];
      assert chunks == before + [last];
      ConcatPush(before, last);
      var s, t := Concat(chunks), Concat(AllToLf(chunks));
      if last == "" {
        ToLfEmpty();
        assert s == Concat(before) && t == Concat(AllToLf(before));
        LastWholeEmpty(before);
        SameUpTo(before);
      } else {
        var x, c := last[..|last| - 1], last[|last| - 1];
        assert last == x + [c];
        ConcatPush(before, x);
        assert s == Concat(before + [x]) + [c];
        EndsTogether(before, x, c);
        LastWholePush(before, x, c);
        if LfEnd(t, |t|) {
          LastLfAll(t);
          PayloadsAllToLf(chunks, "");
          assert t[..|t|] + "" == t && s[..|s|] + "" == s && s + "" == s && t + "" == t;
        } else {
          LastLfPush(before, x, c);
          SameUpTo(before + [x]);
          assert s[..LastWhole(chunks)] == Concat(before + [x])[..LastWhole(chunks)];
        }
      }
    }
  }

  lemma LastLfAll(t: string)
    requires LfEnd(t, |t|)
    ensures LastLf(t) == |t|
  {
  }

  /** Whatever the chunking, what has been yielded are the payloads up to the last blank line whose own
      line end came in one read. */
  lemma YieldedExactly(chunks: seq<string>)
    ensures ReadAll(chunks).0 == Payloads(Concat(chunks)[..LastWhole(chunks)])
  {
    hide *;
    ReadIsOnePass(chunks);
    DrainedUpTo(Concat(AllToLf(chunks)));
    SameUpTo(chunks);
  }

  lemma WholeText(s: string, k: nat)
    ensures Concat([s]) == s && (WholeEnd([s], k) <==> BlankEnd(s, k))
  {
    assert [s][..0] == [] && Concat([]) == "";
    assert Concat([s]) == s;
  }

  lemma LastWholeOfText(chunks: seq<string>)
    ensures Concat([Concat(chunks)]) == Concat(chunks)
    ensures LastWhole(chunks) <= LastWhole([Concat(chunks)])
  {
    hide Concat;
    hide LastWholeUpTo;
    hide BlankEnd;
    hide Boundary;
    var s, r := Concat(chunks), LastWhole(chunks);
    WholeText(s, r);
    if r > 0 { assert WholeEnd([s], r); }
  }

  /** A prefix that ends a line splits the payloads. */
  lemma PayloadsPrefix(s: string, j: nat, k: nat)
    requires j <= k <= |s| && (j > 0 ==> s[j - 1] == '\n')
    ensures Payloads(s[..k]) == Payloads(s[..j]) + Payloads(s[j..k])
  {
    hide Payloads;
    PayloadsEmpty();
    if j == 0 {
      assert s[..0] == "" && s[0..k] == s[..k];
      assert [] + Payloads(s[..k]) == Payloads(s[..k]);
    } else {
      var a, rest := s[..j - 1], s[j..k];
      assert s[..j] == a + "\n" + "" && s[..k] == a + "\n" + rest;
      PayloadsLine(a, "");
      PayloadsLine(a, rest);
      assert Payloads(a) + [] == Payloads(a);
    }
  }

  /** A chunked stream yields what the whole text yields at once exactly when no payload stands between
      its last blank line that is not cut and the last blank line of the text. */
  lemma ChunkIndependence(chunks: seq<string>)
    ensures LastWhole(chunks) <= LastWhole([Concat(chunks)]) <= |Concat(chunks)|
    ensures ReadAll(chunks).0 == ReadAll([Concat(chunks)]).0
      <==> Payloads(Concat(chunks)[LastWhole(chunks)..LastWhole([Concat(chunks)])]) == []
  {
    hide *;
    var s := Concat(chunks);
    LastWholeOfText(chunks);
    LastWholeEnds(chunks);
    YieldedExactly(chunks);
    YieldedExactly([s]);
    PayloadsPrefix(s, LastWhole(chunks), LastWhole([s]));
    assert Payloads(s[..LastWhole(chunks)]) + [] == Payloads(s[..LastWhole(chunks)]);
  }

  lemma LastWholeEnds(chunks: seq<string>)
    ensures LastWhole(chunks) > 0 ==> Concat(chunks)[LastWhole(chunks) - 1] == '\n'
  {
    hide Concat;
    hide LastWholeUpTo;
    hide Boundary;
  }

  /** So a cut inside the line end of a line that is not blank changes nothing. */
  lemma LineCutsDoNotMatter(chunks: seq<string>)
    requires var s := Concat(chunks);
      forall p: nat :: Boundary(chunks, p) && 2 <= p < |s| && s[p - 1] == '\r' && s[p] == '\n' ==> s[p - 2] != '\n'
    ensures ReadAll(chunks).0 == ReadAll([Concat(chunks)]).0
  {
    hide Concat;
    hide LastWholeUpTo;
    hide Boundary;
    hide ReadAll;
    hide Payloads;
    var s := Concat(chunks);
    LastWholeOfText(chunks);
    forall k | 0 <= k <= |s| ensures WholeEnd([s], k) <==> WholeEnd(chunks, k) { WholeText(s, k); }
    ChunkIndependence(chunks);
    PayloadsEmpty();
    assert s[LastWhole(chunks)..LastWhole(chunks)] == "";
  }

  lemma ToLfEnds()
    ensures ToLf("\r\n\r\n") == "\n\n" && ToLf("\r\n\r") == "\n\r" && ToLf("\n") == "\n"
    ensures BlankLine("\n\r\n") == None
  {
    assert "\r\n\r\n"[2..] == "\r\n" && "\r\n"[2..] == "";
    assert "\r\n\r"[2..] == "\r" && "\r"[1..] == "" && "\n"[1..] == "";
    assert ToLf("\r\n") == "\n" && ToLf("\r") == "\r";
    assert "\n\r\n"[1..] == "\r\n" && "\r\n"[1..] == "\n";
    assert BlankLine("") == None && BlankLine("\n") == None;
    assert "\r\n"[0] == '\r' && BlankLine("\r\n") == None;
  }

  lemma ConcatOne(s: string)
    ensures Concat(AllToLf([s])) == ToLf(s)
  {
    hide ToLf;
    assert AllToLf([s])[..0] == [];
  }

  lemma ConcatTwo(s: string, t: string)
    ensures Concat(AllToLf([s, t])) == ToLf(s) + ToLf(t)
  {
    hide ToLf;
    assert AllToLf([s, t])[..1] == AllToLf([s]);
    ConcatOne(s);
  }

  // ----- what the payloads of a text are -----

  /** The white space that is cut off: tab, line feed, vertical tab, form feed, carriage return, space. */
  predicate White(c: char)
  {
    c as int in {9, 10, 11, 12, 13, 32}
  }

  /** All white space is cut off at both ends, and nothing else. */
  ghost predicate CutAt(s: string, i: nat, j: nat)
  {
    && i <= j <= |s|
    && (forall k :: 0 <= k < i || j <= k < |s| ==> White(s[k]))
    && (i < j ==> !White(s[i]) && !White(s[j - 1]))
  }

  /** `r` is what is left of `s` then. */
  ghost predicate CutTo(s: string, r: string)
  {
    exists i: nat, j: nat :: CutAt(s, i, j) && r == s[i..j]
  }

  lemma {:induction false} SkipIs(s: string) returns (i: nat)
    ensures i <= |s| && SkipSpaces(s) == s[i..] && (forall k :: 0 <= k < i ==> White(s[k]))
    ensures i < |s| ==> !White(s[i])
  {
    if s != "" && IsAsciiSpace(s[0]) {
      var j := SkipIs(s[1..]);
      i := j + 1;
      assert s[1..][j..] == s[i..];
    } else {
      i := 0;
      assert s[0..] == s;
    }
  }

  lemma {:induction false} DropIs(s: string) returns (j: nat)
    ensures j <= |s| && DropSpaces(s) == s[..j] && (forall k :: j <= k < |s| ==> White(s[k]))
    ensures j > 0 ==> !White(s[j - 1])
  {
    if s != "" && IsAsciiSpace(s[|s| - 1]) {
      j := DropIs(s[..|s| - 1]);
      assert s[..|s| - 1][..j] == s[..j];
    } else {
      j := |s|;
      assert s[..j] == s;
    }
  }

  lemma TrimIsCut(s: string)
    ensures CutTo(s, TrimAscii(s))
  {
    var i := SkipIs(s);
    var j := DropIs(s[i..]);
    hide SkipSpaces;
    hide DropSpaces;
    hide White;
    assert s[i..][..j] == s[i..i + j];
    assert TrimAscii(s) == s[i..i + j];
    assert forall k :: i <= k < |s| ==> s[k] == s[i..][k - i];
    if j > 0 { assert s[i..][j - 1] == s[i + j - 1]; }
    assert CutAt(s, i, i + j);
  }

  lemma CutSame(s: string, i: nat, j: nat, m: nat, n: nat)
    requires CutAt(s, i, j) && CutAt(s, m, n)
    ensures s[i..j] == s[m..n]
  {
    hide White;
    if i < j || m < n {
      assert i == m && j == n;
    }
  }

  /** There is only one such text. */
  lemma CutUnique(s: string, a: string, b: string)
    requires CutTo(s, a) && CutTo(s, b)
    ensures a == b
  {
    hide White;
    var i: nat, j: nat :| CutAt(s, i, j) && a == s[i..j];
    var m: nat, n: nat :| CutAt(s, m, n) && b == s[m..n];
    CutSame(s, i, j, m, n);
  }

  /** A line gives this payload: it starts with `data:`, and what follows, cut, is some text that is
      not the end mark. */
  ghost predicate Gives(line: string, payload: string)
  {
    |line| >= 5 && line[..5] == "data:" && CutTo(line[5..], payload)
    && payload != "" && payload != "[DONE]"
  }

  ghost predicate GivesSome(line: string)
  {
    exists payload :: Gives(line, payload)
  }

  lemma LineGives(line: string)
    ensures LinePayload(line) == [] <==> !GivesSome(line)
    ensures |LinePayload(line)| <= 1 && forall p :: p in LinePayload(line) ==> Gives(line, p)
  {
    if "data:" <= line {
      hide TrimAscii;
      hide CutTo;
      var p := TrimAscii(line[5..]);
      TrimIsCut(line[5..]);
      assert line[..5] == "data:";
      forall q | Gives(line, q) ensures q == p { CutUnique(line[5..], p, q); }
      if p != "" && p != "[DONE]" { assert Gives(line, p); }
    }
  }

  lemma {:induction false} LinesGive(lines: seq<string>)
    ensures var payloads, kept := LinesPayloads(lines), Positions(lines, line => GivesSome(line));
      && |payloads| == |kept|
      && forall i :: 0 <= i < |kept| ==> Gives(lines[kept[i]], payloads[i])
  {
    hide LinePayload;
    hide Gives;
    hide GivesSome;
    if lines != [] {
      LinesGive(lines[..|lines| - 1]);
      LineGives(lines[|lines| - 1]);
    }
  }

  /** The payloads of a text, with no reference to the reader: of the lines between its line feeds, one
      for each line that gives some, in order. */
  lemma PayloadsAre(text: string) returns (lines: seq<string>)
    ensures Join(lines, "\n") == text && forall i :: 0 <= i < |lines| ==> '\n' !in lines[i]
    ensures var kept := Positions(lines, line => GivesSome(line));
      && |Payloads(text)| == |kept|
      && forall i :: 0 <= i < |kept| ==> Gives(lines[kept[i]], Payloads(text)[i])
  {
    lines := Split(text, '\n');
    SplitIs(text, '\n');
    LinesGive(lines);
  }

  lemma OneLine(line: string)
    requires '\n' !in line
    ensures Payloads(line) == LinePayload(line)
  {
    hide LinePayload;
    SplitWithout(line, '\n');
    assert [line][..0] == [];
  }

  lemma LineOf(payload: string)
    requires payload != "" && !White(payload[0]) && !White(payload[|payload| - 1])
    requires forall i :: 0 <= i < |payload| ==> payload[i] != '\n'
    ensures var line := "data: " + payload;
      "data:" <= line && '\n' !in line && TrimAscii(line[5..]) == payload
  {
    var line := "data: " + payload;
    assert line[5..] == " " + payload;
    assert CutAt(line[5..], 1, |line| - 5) && line[5..][1..|line| - 5] == payload;
    hide CutAt;
    hide TrimAscii;
    hide White;
    assert CutTo(line[5..], payload);
    TrimIsCut(line[5..]);
    CutUnique(line[5..], payload, TrimAscii(line[5..]));
    assert line[..5] == "data:" && forall i :: 6 <= i < |line| ==> line[i] == payload[i - 6];
  }

  lemma DataLine(payload: string)
    requires payload != "" && !White(payload[0]) && !White(payload[|payload| - 1])
    requires forall i :: 0 <= i < |payload| ==> payload[i] != '\n'
    ensures Payloads("data: " + payload) == if payload == "[DONE]" then [] else [payload]
  {
    hide TrimAscii;
    LineOf(payload);
    OneLine("data: " + payload);
  }

  /** Concretely: one payload and the end mark, and the reader yields the payload. */
  lemma PayloadThenEnd(payload: string)
    requires payload != "" && payload != "[DONE]" && !White(payload[0]) && !White(payload[|payload| - 1])
    requires forall i :: 0 <= i < |payload| ==> payload[i] != '\n'
    ensures ReadAll(["data: " + payload + "\n\n" + "data: [DONE]", "\n\n"]).0 == [payload]
  {
    hide *;
    var text := "data: " + payload + "\n\n" + "data: [DONE]";
    NothingLost([text]);
    WholeText(text, 0);
    assert [text] + ["\n\n"] == [text, "\n\n"];
    PayloadsTwoLines("data: " + payload, "data: [DONE]");
    DataLine(payload);
    EndMark();
    DataLine("[DONE]");
    assert "data: " + "[DONE]" == "data: [DONE]" && [payload] + [] == [payload];
  }

  lemma EndMark()
    ensures var e := "[DONE]"; e != "" && !White(e[0]) && !White(e[|e| - 1])
    ensures var e := "[DONE]"; forall i :: 0 <= i < |e| ==> e[i] != '\n'
  {
  }
}
