/** Environment rows of a compose service (packages/utils/src/environment.ts). */
module Environment {
  import opened Wrappers
  import opened Strings

  type Envs = map<string, string>

  /** The two forms of `environment` in a compose file. */
  datatype EnvField = Rows(rows: seq<string>) | Object(envs: Envs)

  /** The part of `s` before the first `sep`. */
  function Before(s: string, sep: char): (r: string)
    ensures r <= s && sep !in r
    ensures |r| < |s| ==> s[|r|] == sep
  {
    if s == "" || s[0] == sep then "" else [s[0]] + Before(s[1..], sep)
  }

  /** What `(.*)` captures: everything up to a line end. */
  function FirstLine(s: string): (r: string)
    ensures r <= s
    ensures forall i :: 0 <= i < |r| ==> !IsLineEnd(r[i])
    ensures |r| < |s| ==> IsLineEnd(s[|r|])
  {
    if s == "" || IsLineEnd(s[0]) then "" else [s[0]] + FirstLine(s[1..])
  }

  /** One row, split at the first `=`; blank rows and rows without a name are dropped. */
  function ParseRow(row: string): Option<(string, string)>
  {
    var t := Trim(row);
    var key := Before(t, '=');
    if key == "" then None
    else Some((key, if |key| < |t| then FirstLine(t[|key| + 1..]) else ""))
  }

  /** Later rows override earlier ones. */
  function ParseRows(rows: seq<string>): Envs
  {
    if rows == [] then map[]
    else
      var envs := ParseRows(rows[..|rows| - 1]);
      match ParseRow(rows[|rows| - 1])
      case None => envs
      case Some((key, value)) => envs[key := value]
  }

  /** `parseEnvironment`. */
  function Parse(environment: EnvField): Envs
  {
    match environment
    case Rows(rows) => ParseRows(rows)
    case Object(envs) => envs
  }

  function PrintRow(name: string, value: string): string
  {
    if value == "" then name else name + "=" + value
  }

  /** `stringifyEnvironment`. JavaScript lists the keys of an object in an order of its own,
      so that order is a parameter. */
  function Print(envs: Envs, order: seq<string>): seq<string>
    requires forall i :: 0 <= i < |order| ==> order[i] in envs
  {
    if order == [] then []
    else
      var rows := Print(envs, order[..|order| - 1]);
      var name := order[|order| - 1];
      if name == "" then rows else rows + [PrintRow(name, envs[name])]
  }

  /** `order` lists every key once. */
  predicate Enumerates(order: seq<string>, keys: set<string>)
  {
    && (forall i :: 0 <= i < |order| ==> order[i] in keys)
    && (forall k :: k in keys ==> k in order)
    && (forall i, j :: 0 <= i < j < |order| ==> order[i] != order[j])
    && |order| == |keys|
  }

  /** `mergeEnvs`: the first argument has priority, the empty name is dropped. */
  function Merge(high: Envs, low: Envs): Envs
  {
    (low + high) - {""}
  }

  /** What a row can carry: a name that starts visibly and has no `=`, a value on one line, and
      no trailing blank. */
  predicate PrintableEntry(name: string, value: string)
  {
    && name != "" && !IsSpace(name[0]) && '=' !in name
    && (forall i :: 0 <= i < |value| ==> !IsLineEnd(value[i]))
    && (if value == "" then !IsSpace(name[|name| - 1]) else !IsSpace(value[|value| - 1]))
  }

  predicate Printable(envs: Envs)
  {
    forall k :: k in envs ==> PrintableEntry(k, envs[k])
  }

  lemma {:induction false} BeforeFirst(a: string, sep: char, b: string)
    requires sep !in a
    ensures Before(a + [sep] + b, sep) == a
    ensures Before(a, sep) == a
  {
    if a != "" {
      var s := a + [sep] + b;
      assert s[1..] == a[1..] + [sep] + b;
      BeforeFirst(a[1..], sep, b);
      assert [a[0]] + a[1..] == a;
    }
  }

  lemma TrimAtMost(s: string)
    ensures |Trim(s)| == |s| ==> Trim(s) == s
  {
  }

  /** One entry survives printing and parsing exactly when it is printable. */
  lemma RowRoundTrip(name: string, value: string)
    ensures ParseRow(PrintRow(name, value)) == Some((name, value)) <==> PrintableEntry(name, value)
  {
    if PrintableEntry(name, value) {
      PrintableRowReads(name, value);
    } else if ParseRow(PrintRow(name, value)) == Some((name, value)) {
      ReadRowPrintable(name, value);
    }
  }

  lemma {:induction false} FirstLineAll(s: string)
    requires forall i :: 0 <= i < |s| ==> !IsLineEnd(s[i])
    ensures FirstLine(s) == s
  {
    if s != "" { FirstLineAll(s[1..]); }
  }

  lemma PrintableRowReads(name: string, value: string)
    requires PrintableEntry(name, value)
    ensures ParseRow(PrintRow(name, value)) == Some((name, value))
  {
    hide IsSpace;
    hide FirstLine;
    hide Before;
    hide Trim;
    var row := PrintRow(name, value);
    TrimIsIdentity(row);
    BeforeFirst(name, '=', value);
    if value != "" {
      assert row == name + ['='] + value;
      assert row[|name| + 1..] == value;
      FirstLineAll(value);
    }
  }

  lemma ReadRowPrintable(name: string, value: string)
    requires ParseRow(PrintRow(name, value)) == Some((name, value))
    ensures PrintableEntry(name, value)
  {
    hide IsSpace;
    hide FirstLine;
    hide Before;
    hide Trim;
    var row := PrintRow(name, value);
    var t := Trim(row);
    assert Before(t, '=') == name;
    assert t[0] == name[0];
    assert |t| >= |row|;
    TrimAtMost(row);
    assert t == row;
    if value != "" { assert row[|row| - 1] == value[|value| - 1]; }
  }

  /** The last row with a name gives its value. */
  lemma {:induction false} LastRow(rows: seq<string>, k: string) returns (i: nat)
    requires k in ParseRows(rows)
    ensures i < |rows| && ParseRow(rows[i]) == Some((k, ParseRows(rows)[k]))
  {
    hide ParseRow;
    var n := |rows| - 1;
    if ParseRow(rows[n]).Some? && ParseRow(rows[n]).value.0 == k {
      i := n;
    } else {
      i := LastRow(rows[..n], k);
    }
  }

  lemma {:induction false} RowCounts(rows: seq<string>, i: nat)
    requires i < |rows| && ParseRow(rows[i]).Some?
    ensures ParseRow(rows[i]).value.0 in ParseRows(rows)
  {
    hide ParseRow;
    if i < |rows| - 1 { RowCounts(rows[..|rows| - 1], i); }
  }

  /** Every printed row is the row of a key, and every key but the empty one has a row. */
  lemma {:induction false} PrintedKey(envs: Envs, order: seq<string>, r: nat) returns (k: string)
    requires forall i :: 0 <= i < |order| ==> order[i] in envs
    requires r < |Print(envs, order)|
    ensures k in order && k != "" && Print(envs, order)[r] == PrintRow(k, envs[k])
  {
    hide PrintRow;
    var n := |order| - 1;
    if r < |Print(envs, order[..n])| {
      k := PrintedKey(envs, order[..n], r);
    } else {
      k := order[n];
    }
  }

  lemma {:induction false} KeyPrinted(envs: Envs, order: seq<string>, i: nat) returns (r: nat)
    requires forall j :: 0 <= j < |order| ==> order[j] in envs
    requires i < |order| && order[i] != ""
    ensures r < |Print(envs, order)| && Print(envs, order)[r] == PrintRow(order[i], envs[order[i]])
  {
    hide PrintRow;
    var n := |order| - 1;
    if i < n { r := KeyPrinted(envs, order[..n], i); }
    else { r := |Print(envs, order[..n])|; }
  }

  lemma TrimVisible(row: string)
    requires row != "" && !IsSpace(row[0])
    ensures Trim(row) == TrimEnd(row)
  {
    assert TrimStart(row) == row;
  }

  lemma ReadName(row: string, key: string)
    requires Before(Trim(row), '=') == key && key != ""
    ensures ParseRow(row).Some? && ParseRow(row).value.0 == key
  {
    hide Trim;
    hide Before;
    hide FirstLine;
  }

  lemma TrimEndLonger(row: string, k: nat)
    requires k < |row| && !IsSpace(row[k])
    ensures |TrimEnd(row)| > k
  {
  }

  lemma TrimEndFirst(row: string)
    requires row != "" && !IsSpace(row[0])
    ensures TrimEnd(row) != ""
  {
    TrimEndLonger(row, 0);
  }

  /** The name that a printed entry is read back under. */
  lemma PrintedName(name: string, value: string)
    requires name != "" && !IsSpace(name[0]) && '=' !in name
    ensures ParseRow(PrintRow(name, value)).Some?
    ensures ParseRow(PrintRow(name, value)).value.0 == if value == "" then TrimEnd(name) else name
  {
    hide *;
    var row := PrintRow(name, value);
    PrintRowIs(name, value);
    TrimVisible(row);
    TrimEndFirst(row);
    var t := TrimEnd(row);
    if value == "" {
      BeforeFirst(t, '=', "");
      ReadName(row, t);
    } else {
      EqualsSignVisible();
      TrimEndLonger(row, |name|);
      assert t == name + ['='] + t[|name| + 1..];
      BeforeFirst(name, '=', t[|name| + 1..]);
      ReadName(row, name);
    }
  }

  lemma PrintRowIs(name: string, value: string)
    requires name != ""
    ensures var row := PrintRow(name, value);
      && row != "" && row[0] == name[0] && name <= row
      && (if value == "" then row == name else |row| > |name| && row[|name|] == '=')
  {
  }

  lemma EqualsSignVisible()
    ensures !IsSpace('=')
  {
  }

  /** What parsing can produce. */
  lemma ParsedName(row: string)
    requires ParseRow(row).Some?
    ensures var k := ParseRow(row).value.0; k != "" && !IsSpace(k[0]) && '=' !in k
  {
  }

  /** Printing and parsing an environment gives it back exactly when every entry is printable,
      whatever order the keys are listed in. */
  lemma RoundTrip(envs: Envs, order: seq<string>)
    requires Enumerates(order, envs.Keys)
    ensures ParseRows(Print(envs, order)) == envs <==> Printable(envs)
  {
    if Printable(envs) {
      RoundTripPrintable(envs, order);
    } else if ParseRows(Print(envs, order)) == envs {
      RoundTripOnlyPrintable(envs, order);
    }
  }

  lemma RoundTripPrintable(envs: Envs, order: seq<string>)
    requires Enumerates(order, envs.Keys) && Printable(envs)
    ensures ParseRows(Print(envs, order)) == envs
  {
    hide ParseRow;
    hide PrintRow;
    hide ParseRows;
    hide Print;
    hide PrintableEntry;
    var rows := Print(envs, order);
    forall k | k in ParseRows(rows) ensures k in envs && ParseRows(rows)[k] == envs[k] {
      var r := LastRow(rows, k);
      var source := PrintedKey(envs, order, r);
      RowRoundTrip(source, envs[source]);
    }
    forall k | k in envs ensures k in ParseRows(rows) {
      var i :| 0 <= i < |order| && order[i] == k;
      RowRoundTrip(k, envs[k]);
      EntryNamed(k, envs[k]);
      var r := KeyPrinted(envs, order, i);
      RowCounts(rows, r);
    }
  }

  lemma EntryNamed(name: string, value: string)
    requires PrintableEntry(name, value)
    ensures name != ""
  {
  }

  lemma RoundTripOnlyPrintable(envs: Envs, order: seq<string>)
    requires Enumerates(order, envs.Keys)
    requires ParseRows(Print(envs, order)) == envs
    ensures Printable(envs)
  {
    hide ParseRow;
    hide PrintRow;
    hide ParseRows;
    hide Print;
    hide PrintableEntry;
    forall k | k in envs ensures PrintableEntry(k, envs[k]) {
      var source := SourceOfEntry(envs, order, k);
      PrintedName(source, envs[source]);
      if source != k {
        assert k == TrimEnd(source) && envs[source] == "";
        var source' := SourceOfEntry(envs, order, source);
        PrintedName(source', envs[source']);
        assert false;
      }
      RowRoundTrip(k, envs[k]);
    }
  }

  /** The entry whose printed row is read back as the entry of `k`. */
  lemma SourceOfEntry(envs: Envs, order: seq<string>, k: string) returns (source: string)
    requires Enumerates(order, envs.Keys)
    requires ParseRows(Print(envs, order)) == envs
    requires k in envs
    ensures source in envs && ParseRow(PrintRow(source, envs[source])) == Some((k, envs[k]))
    ensures source != "" && !IsSpace(source[0]) && '=' !in source
  {
    hide ParseRow;
    hide PrintRow;
    hide ParseRows;
    hide Print;
    var rows := Print(envs, order);
    var r := LastRow(rows, k);
    source := PrintedKey(envs, order, r);
    var r' := LastRow(rows, source);
    ParsedName(rows[r']);
  }

  // ----- values that do not come back -----

  /** A name that a row can carry before this value. */
  predicate Nameable(name: string, value: string)
  {
    && name != "" && !IsSpace(name[0]) && '=' !in name
    && (value == "" ==> !IsSpace(name[|name| - 1]))
  }

  /** What is read of a printed value: its first line, without trailing blanks. */
  function ReadValue(value: string): string
  {
    FirstLine(TrimEnd(value))
  }

  lemma {:induction false} TrimEndAppend(a: string, value: string)
    requires a != "" && !IsSpace(a[|a| - 1])
    ensures TrimEnd(a + value) == a + TrimEnd(value)
  {
    TrimEndStep(a + value);
    TrimEndStep(value);
    hide *;
    var s := a + value;
    if value == "" {
      assert s == a && a + "" == a;
    } else if IsSpace(value[|value| - 1]) {
      assert s[..|s| - 1] == a + value[..|value| - 1];
      TrimEndAppend(a, value[..|value| - 1]);
    }
  }

  lemma TrimEndStep(s: string)
    ensures TrimEnd(s) == if s != "" && IsSpace(s[|s| - 1]) then TrimEnd(s[..|s| - 1]) else s
  {
    hide IsSpace;
  }

  lemma RowText(name: string, value: string)
    requires Nameable(name, value)
    ensures Trim(PrintRow(name, value)) == if value == "" then name else name + ['='] + TrimEnd(value)
  {
    hide *;
    var row := PrintRow(name, value);
    if value == "" {
      RowOf(name, value);
      TrimIsIdentity(row);
    } else {
      RowOf(name, value);
      EqualsSignVisible();
      TrimVisible(row);
      TrimEndAppend(name + ['='], value);
      assert row == (name + ['=']) + value;
    }
  }

  lemma RowOf(name: string, value: string)
    requires Nameable(name, value)
    ensures var row := PrintRow(name, value);
      && row == (if value == "" then name else name + ['='] + value)
      && row != "" && !IsSpace(row[0]) && '=' !in name && (value == "" ==> Trimmed(row))
  {
  }

  /** One entry under a usable name is read back with its first line, without trailing blanks. */
  lemma RowReads(name: string, value: string)
    requires Nameable(name, value)
    ensures ParseRow(PrintRow(name, value)) == Some((name, ReadValue(value)))
  {
    RowText(name, value);
    RowOf(name, value);
    hide *;
    var t := Trim(PrintRow(name, value));
    if value == "" {
      BeforeFirst(name, '=', "");
      ParsedWhole(PrintRow(name, value), name);
    } else {
      BeforeFirst(name, '=', TrimEnd(value));
      ParsedParts(PrintRow(name, value), name, TrimEnd(value));
    }
    ReadValueIs(value);
  }

  lemma ReadValueIs(value: string)
    ensures ReadValue(value) == FirstLine(TrimEnd(value)) && (value == "" ==> ReadValue(value) == "")
  {
  }

  lemma ParsedWhole(row: string, name: string)
    requires Trim(row) == name && Before(name, '=') == name && name != ""
    ensures ParseRow(row) == Some((name, ""))
  {
    hide Trim;
    hide Before;
  }

  lemma ParsedParts(row: string, name: string, value: string)
    requires Trim(row) == name + ['='] + value && Before(Trim(row), '=') == name && name != ""
    ensures ParseRow(row) == Some((name, FirstLine(value)))
  {
    hide Trim;
    hide Before;
    hide FirstLine;
    var t := Trim(row);
    assert t[|name| + 1..] == value;
  }

  /** What is read of a printed environment whose names are usable, in whatever order it was listed. */
  lemma ReadBackNamed(envs: Envs, order: seq<string>)
    requires Enumerates(order, envs.Keys)
    requires forall k :: k in envs ==> Nameable(k, envs[k])
    ensures var read := ParseRows(Print(envs, order));
      read.Keys == envs.Keys && forall k :: k in envs ==> read[k] == ReadValue(envs[k])
  {
    hide ParseRow;
    hide PrintRow;
    hide ParseRows;
    hide Print;
    hide ReadValue;
    hide Nameable;
    var rows := Print(envs, order);
    forall k | k in ParseRows(rows) ensures k in envs && ParseRows(rows)[k] == ReadValue(envs[k]) {
      var r := LastRow(rows, k);
      var source := PrintedKey(envs, order, r);
      RowReads(source, envs[source]);
    }
    forall k | k in envs ensures k in ParseRows(rows) {
      var i :| 0 <= i < |order| && order[i] == k;
      RowReads(k, envs[k]);
      NameableNotEmpty(k, envs[k]);
      var r := KeyPrinted(envs, order, i);
      RowCounts(rows, r);
    }
  }

  lemma NameableNotEmpty(name: string, value: string)
    requires Nameable(name, value)
    ensures name != ""
  {
  }

  lemma {:induction false} ParseAppend(a: seq<string>, b: seq<string>)
    ensures ParseRows(a + b) == ParseRows(a) + ParseRows(b)
  {
    hide ParseRow;
    if b == [] {
      assert a + b == a;
    } else {
      var n := |b| - 1;
      assert (a + b)[..|a + b| - 1] == a + b[..n];
      assert (a + b)[|a + b| - 1] == b[n];
      ParseAppend(a, b[..n]);
    }
  }

  lemma ParsedNamesNonEmpty(rows: seq<string>)
    ensures "" !in ParseRows(rows)
  {
    if "" in ParseRows(rows) {
      var i := LastRow(rows, "");
      ParsedName(rows[i]);
    }
  }

  lemma MergeNamed(high: Envs, low: Envs)
    requires "" !in low + high
    ensures Merge(high, low) == low + high
  {
  }

  /** Merging two parsed lists is parsing their concatenation, the list with priority last. */
  lemma MergeIsAppend(high: seq<string>, low: seq<string>)
    ensures Merge(ParseRows(high), ParseRows(low)) == ParseRows(low + high)
  {
    hide *;
    ParseAppend(low, high);
    ParsedNamesNonEmpty(low + high);
    MergeNamed(ParseRows(high), ParseRows(low));
  }

  /** Merging gives the first environment priority, drops only the empty name and is associative. */
  lemma MergeLaws(a: Envs, b: Envs, c: Envs)
    ensures Merge(Merge(a, b), c) == Merge(a, Merge(b, c))
    ensures Merge(a, b).Keys == (a.Keys + b.Keys) - {""}
    ensures forall k :: k in Merge(a, b) ==> Merge(a, b)[k] == if k in a then a[k] else b[k]
  {
    var l, r := Merge(Merge(a, b), c), Merge(a, Merge(b, c));
    assert l.Keys == r.Keys;
    forall k | k in l ensures l[k] == r[k] {
      assert k != "";
      assert k in Merge(a, b) <==> k in a || k in b;
    }
  }
}
