/** Strings as the compose parsers use them: splitting, joining, trimming and numbers. */

module Wrappers {
  datatype Option<+T> = None | Some(value: T)

  datatype Result<+T, +E> = Ok(value: T) | Err(error: E)
}

module Strings {
  import opened Wrappers

  /** `s.split(sep)` for a one-character separator. */
  function Split(s: string, sep: char): (parts: seq<string>)
    ensures |parts| >= 1
  {
    if s == "" then [""]
    else
      var rest := Split(s[1..], sep);
      if s[0] == sep then [""] + rest
      else [[s[0]] + rest[0]] + rest[1..]
  }

  /** `parts.join(sep)`. */
  function Join(parts: seq<string>, sep: string): string
  {
    if parts == [] then ""
    else if |parts| == 1 then parts[0]
    else parts[0] + sep + Join(parts[1..], sep)
  }

  /** The position of the first occurrence of `sub`, if any. */
  function IndexOf(s: string, sub: string): (r: Option<nat>)
    ensures r.Some? ==> r.value + |sub| <= |s|
  {
    if sub <= s then Some(0)
    else if s == "" then None
    else match IndexOf(s[1..], sub) case None => None case Some(i) => Some(i + 1)
  }

  function DropTrailingSlashes(s: string): (r: string)
    ensures r <= s
  {
    if s != "" && s[|s| - 1] == '/' then DropTrailingSlashes(s[..|s| - 1]) else s
  }

  lemma SameEnding(a: string, b: string, ending: string)
    requires a + ending == b + ending
    ensures a == b
  {
    assert |a| == |b|;
    assert a == (a + ending)[..|a|];
    assert b == (b + ending)[..|b|];
  }

  /** `s.includes(sub)`. */
  predicate Contains(s: string, sub: string)
  {
    sub <= s || (s != "" && Contains(s[1..], sub))
  }

  /** The text stands somewhere in it. */
  lemma {:induction false} ContainsIs(s: string, sub: string)
    ensures Contains(s, sub) <==> exists before, after :: s == before + sub + after
  {
    if s != "" { ContainsIs(s[1..], sub); }
    if sub <= s {
      assert s == "" + sub + s[|sub|..];
    } else if Contains(s, sub) {
      var before, after :| s[1..] == before + sub + after;
      assert s == ([s[0]] + before) + sub + after;
    }
    forall before, after | s == before + sub + after ensures Contains(s, sub) { FoundThere(s, before, sub, after); }
  }

  lemma {:induction false} FoundThere(s: string, before: string, sub: string, after: string)
    requires s == before + sub + after
    ensures Contains(s, sub)
  {
    if before == "" {
      assert s == sub + after;
    } else {
      assert s[1..] == before[1..] + sub + after;
      FoundThere(s[1..], before[1..], sub, after);
    }
  }

  /** What splitting means: the parts hold no separator, and joined with it they are the text. */
  lemma {:induction false} SplitIs(s: string, sep: char)
    ensures Join(Split(s, sep), [sep]) == s
    ensures forall i :: 0 <= i < |Split(s, sep)| ==> sep !in Split(s, sep)[i]
  {
    if s != "" {
      SplitIs(s[1..], sep);
      var rest := Split(s[1..], sep);
      assert s == [s[0]] + s[1..];
      hide Split;
      if s[0] == sep { JoinAfterSep(rest, sep); } else { JoinOnto(rest, s[0], sep); }
    }
  }

  lemma JoinAfterSep(rest: seq<string>, sep: char)
    requires rest != []
    ensures Join([""] + rest, [sep]) == [sep] + Join(rest, [sep])
  {
    assert ([""] + rest)[1..] == rest;
  }

  lemma JoinOnto(rest: seq<string>, c: char, sep: char)
    requires rest != []
    ensures Join([[c] + rest[0]] + rest[1..], [sep]) == [c] + Join(rest, [sep])
  {
    var all := [[c] + rest[0]] + rest[1..];
    assert all[1..] == rest[1..];
    if |rest| > 1 {
      assert ([c] + rest[0]) + [sep] + Join(rest[1..], [sep]) == [c] + (rest[0] + [sep] + Join(rest[1..], [sep]));
    }
  }

  lemma {:induction false} SplitWithout(s: string, sep: char)
    requires sep !in s
    ensures Split(s, sep) == [s]
  {
    if s != "" {
      SplitWithout(s[1..], sep);
      assert [s[0]] + s[1..] == s;
    }
  }

  lemma {:induction false} SplitFirst(a: string, sep: char, b: string)
    requires sep !in a
    ensures Split(a + [sep] + b, sep) == [a] + Split(b, sep)
  {
    var s := a + [sep] + b;
    if a == "" {
      assert s[1..] == b;
    } else {
      assert s[1..] == a[1..] + [sep] + b;
      SplitFirst(a[1..], sep, b);
      assert [a[0]] + a[1..] == a;
    }
  }

  lemma JoinStep(parts: seq<string>, sep: string)
    requires parts != []
    ensures Join(parts, sep) == if |parts| == 1 then parts[0] else parts[0] + sep + Join(parts[1..], sep)
  {
  }

  lemma FirstAndRest(parts: seq<string>)
    requires parts != []
    ensures [parts[0]] + parts[1..] == parts
  {
  }

  /** Joining with a separator that no part contains is undone by splitting. */
  lemma {:induction false} SplitJoin(parts: seq<string>, sep: char)
    requires parts != []
    requires forall p :: p in parts ==> sep !in p
    ensures Split(Join(parts, [sep]), sep) == parts
  {
    hide Split;
    hide Join;
    JoinStep(parts, [sep]);
    if |parts| == 1 {
      SplitWithout(parts[0], sep);
    } else {
      SplitJoin(parts[1..], sep);
      SplitFirst(parts[0], sep, Join(parts[1..], [sep]));
      FirstAndRest(parts);
    }
  }

  /** The positions of the elements that pass a test, in order. */
  ghost function Positions<T(!new)>(xs: seq<T>, test: T -> bool): (r: seq<nat>)
    ensures forall i :: 0 <= i < |r| ==> r[i] < |xs| && test(xs[r[i]])
    ensures forall i, j :: 0 <= i < j < |r| ==> r[i] < r[j]
    ensures forall k :: 0 <= k < |xs| && test(xs[k]) ==> k in r
  {
    if xs == [] then []
    else
      var before := Positions(xs[..|xs| - 1], test);
      if test(xs[|xs| - 1]) then before + [|xs| - 1] else before
  }

  lemma PositionsMore<T(!new)>(xs: seq<T>, x: T, test: T -> bool)
    ensures Positions(xs + [x], test) == Positions(xs, test) + if test(x) then [|xs|] else []
  {
    assert (xs + [x])[..|xs|] == xs;
  }

  /** The white space that JavaScript's `trim` removes. */
  predicate IsSpace(c: char)
  {
    var n := c as int;
    9 <= n <= 13 || n == 32 || n == 0xa0 || n == 0x1680 || 0x2000 <= n <= 0x200a
    || n in {0x2028, 0x2029, 0x202f, 0x205f, 0x3000, 0xfeff}
  }

  /** The characters that `.` does not match in a JavaScript regular expression. */
  predicate IsLineEnd(c: char)
  {
    c as int in {10, 13, 0x2028, 0x2029}
  }

  function TrimStart(s: string): (r: string)
    ensures |r| <= |s| && r == s[|s| - |r|..]
    ensures r != "" ==> !IsSpace(r[0])
    ensures forall i :: 0 <= i < |s| - |r| ==> IsSpace(s[i])
  {
    if s != "" && IsSpace(s[0]) then TrimStart(s[1..]) else s
  }

  function TrimEnd(s: string): (r: string)
    ensures r <= s
    ensures r != "" ==> !IsSpace(r[|r| - 1])
    ensures forall i :: |r| <= i < |s| ==> IsSpace(s[i])
  {
    if s != "" && IsSpace(s[|s| - 1]) then TrimEnd(s[..|s| - 1]) else s
  }

  function Trim(s: string): (r: string)
    ensures r != "" ==> !IsSpace(r[0]) && !IsSpace(r[|r| - 1])
    ensures |r| <= |s|
  {
    TrimEnd(TrimStart(s))
  }

  /** What trimming leaves alone. */
  predicate Trimmed(s: string)
  {
    s == "" || (!IsSpace(s[0]) && !IsSpace(s[|s| - 1]))
  }

  lemma TrimIsIdentity(s: string)
    requires Trimmed(s)
    ensures Trim(s) == s
  {
    assert TrimStart(s) == s;
    assert TrimEnd(s) == s;
  }
}

module Numbers {
  import opened Strings
  import opened Wrappers

  /** A JavaScript number that is either `NaN` or an integer (the float range is not modelled). */
  datatype JsNumber = NaN | Num(value: int)

  /** JavaScript truthiness of a number. */
  predicate Truthy(n: JsNumber)
  {
    n.Num? && n.value != 0
  }

  function DigitChar(d: nat): char
    requires d < 10
  {
    ('0' as int + d) as char
  }

  function Digits(n: nat): (s: string)
    ensures |s| >= 1
    ensures forall i :: 0 <= i < |s| ==> '0' <= s[i] <= '9'
  {
    if n < 10 then [DigitChar(n)] else Digits(n / 10) + [DigitChar(n % 10)]
  }

  /** `String(n)`. */
  function Print(n: JsNumber): string
  {
    if n.NaN? then "NaN"
    else if n.value < 0 then "-" + Digits(-n.value)
    else Digits(n.value)
  }

  predicate IsDigit(c: char, radix: nat)
  {
    '0' <= c <= '9' || (radix == 16 && ('a' <= c <= 'f' || 'A' <= c <= 'F'))
  }

  function DigitValue(c: char): nat
  {
    if '0' <= c <= '9' then c as int - '0' as int
    else if 'a' <= c <= 'f' then c as int - 'a' as int + 10
    else if 'A' <= c <= 'F' then c as int - 'A' as int + 10
    else 0
  }

  /** The longest prefix of `s` made of digits. */
  function DigitPrefix(s: string, radix: nat): (p: string)
    ensures p <= s
    ensures forall i :: 0 <= i < |p| ==> IsDigit(p[i], radix)
  {
    if s != "" && IsDigit(s[0], radix) then [s[0]] + DigitPrefix(s[1..], radix) else ""
  }

  function DigitsValue(s: string, radix: nat): nat
  {
    if s == "" then 0 else DigitsValue(s[..|s| - 1], radix) * radix + DigitValue(s[|s| - 1])
  }

  /** The digits that `parseInt` reads after the sign: hexadecimal after `0x`, else decimal. */
  function ParseUnsigned(u: string): (r: Option<nat>)
  {
    var hex := |u| >= 2 && u[0] == '0' && (u[1] == 'x' || u[1] == 'X');
    var digits := if hex then DigitPrefix(u[2..], 16) else DigitPrefix(u, 10);
    if digits == "" then None else Some(DigitsValue(digits, if hex then 16 else 10))
  }

  /** `parseInt(s)` without a radix: skips white space, takes a sign, a `0x` prefix and then
      as many digits as there are. */
  function ParseInt(s: string): JsNumber
  {
    var t := TrimStart(s);
    var signed := t != "" && (t[0] == '-' || t[0] == '+');
    match ParseUnsigned(if signed then t[1..] else t)
    case None => NaN
    case Some(v) => Num(if signed && t[0] == '-' then 0 - v else v)
  }

  lemma {:induction false} DigitPrefixAll(s: string)
    requires forall i :: 0 <= i < |s| ==> '0' <= s[i] <= '9'
    ensures DigitPrefix(s, 10) == s
  {
    if s != "" { DigitPrefixAll(s[1..]); }
  }

  lemma {:induction false} DigitsValueInverse(n: nat)
    ensures DigitsValue(Digits(n), 10) == n
  {
    if n < 10 {
      assert Digits(n)[..0] == "";
    } else {
      DigitsValueInverse(n / 10);
      var s := Digits(n);
      assert s[..|s| - 1] == Digits(n / 10);
      assert s[|s| - 1] == DigitChar(n % 10);
    }
  }

  lemma ParseDigits(n: nat)
    ensures ParseUnsigned(Digits(n)) == Some(n)
  {
    DigitPrefixAll(Digits(n));
    DigitsValueInverse(n);
  }

  lemma NotSpace()
    ensures !IsSpace('N') && !IsSpace('-')
  {
  }

  lemma ParseNaN()
    ensures ParseInt("NaN") == NaN
  {
    hide IsSpace;
    var s := "NaN";
    assert TrimStart(s) == s by { NotSpace(); }
    assert DigitPrefix(s, 10) == "";
  }

  lemma ParseNegative(n: nat)
    ensures ParseInt("-" + Digits(n)) == Num(0 - n)
  {
    var s := "-" + Digits(n);
    ParseDigits(n);
    hide ParseUnsigned;
    assert TrimStart(s) == s;
    assert s[1..] == Digits(n);
  }

  lemma ParseNonNegative(n: nat)
    ensures ParseInt(Digits(n)) == Num(n)
  {
    var d := Digits(n);
    ParseDigits(n);
    assert !IsSpace(d[0]) && d[0] != '-' && d[0] != '+';
    assert TrimStart(d) == d;
  }

  /** Reading a printed number gives the number back, `NaN` included. */
  lemma ParsePrint(n: JsNumber)
    ensures ParseInt(Print(n)) == n
  {
    hide ParseInt;
    match n
    case NaN => ParseNaN();
    case Num(v) => if v < 0 { ParseNegative(-v); } else { ParseNonNegative(v); }
  }

  /** No number prints as text that holds a port separator. */
  lemma PrintPlain(n: JsNumber)
    ensures ':' !in Print(n) && '/' !in Print(n) && Print(n) != ""
  {
  }
}
