/** What the store of conversations keeps of a request, value by value (packages/nexus/src/api.ts,
    packages/nexus/src/utils.ts). */
module HistoryValues {
  import opened Wrappers
  import opened Strings
  import opened Compose
  import opened ComposeEditor
  import opened History
  import SseReader

  // ----- messages -----

  /** An item that is kept: a user's or the assistant's, with a text. */
  predicate Spoken(item: Json)
  {
    match item
    case Object(m) =>
      && "role" in m && "content" in m
      && (m["role"] == Text("user") || m["role"] == Text("assistant")) && m["content"].Text?
    case _ => false
  }

  /** The message says what the item says. */
  predicate Says(item: Json, message: Message)
  {
    match item
    case Object(m) =>
      "role" in m && "content" in m && m["role"] == Text(message.role) && m["content"] == Text(message.content)
    case _ => false
  }

  lemma ParseStep(items: seq<Json>, item: Json)
    ensures var before, after := ParseMessages(items), ParseMessages(items + [item]);
      if Spoken(item) then |after| == |before| + 1 && after[..|before|] == before && Says(item, after[|before|])
      else after == before
  {
    assert (items + [item])[..|items|] == items;
  }

  /** The positions of the items that are kept, in order. */
  ghost function SpokenAt(items: seq<Json>): (r: seq<nat>)
    ensures forall i :: 0 <= i < |r| ==> r[i] < |items| && Spoken(items[r[i]])
    ensures forall i, j :: 0 <= i < j < |r| ==> r[i] < r[j]
    ensures forall k :: 0 <= k < |items| && Spoken(items[k]) ==> k in r
  {
    Positions(items, item => Spoken(item))
  }

  lemma SpokenAtMore(items: seq<Json>, item: Json)
    ensures SpokenAt(items + [item]) == SpokenAt(items) + if Spoken(item) then [|items|] else []
  {
    PositionsMore(items, item, item => Spoken(item));
  }

  /** The messages say what the items at these positions say. */
  ghost predicate SaidAt(items: seq<Json>, at: seq<nat>, messages: seq<Message>)
  {
    |messages| == |at| && forall i :: 0 <= i < |at| ==> at[i] < |items| && Says(items[at[i]], messages[i])
  }

  lemma SaidMore(items: seq<Json>, at: seq<nat>, messages: seq<Message>, item: Json)
    requires SaidAt(items, at, messages)
    ensures at + [] == at && SaidAt(items + [item], at, messages)
    ensures forall m: Message :: Says(item, m) ==> SaidAt(items + [item], at + [|items|], messages + [m])
  {
    hide Says;
  }

  lemma FrontAndLast(messages: seq<Message>, front: seq<Message>)
    requires |messages| == |front| + 1 && messages[..|front|] == front
    ensures messages == front + [messages[|front|]]
  {
  }

  /** The stored messages: one for each item that is kept, in order, with its role and its text. */
  lemma {:induction false} MessagesAre(items: seq<Json>)
    ensures SaidAt(items, SpokenAt(items), ParseMessages(items))
  {
    hide *;
    if items == [] {
      NoMessages();
    } else {
      var front, last := items[..|items| - 1], items[|items| - 1];
      assert items == front + [last];
      MessagesAre(front);
      ParseStep(front, last);
      SpokenAtMore(front, last);
      SaidMore(front, SpokenAt(front), ParseMessages(front), last);
      if Spoken(last) { FrontAndLast(ParseMessages(items), ParseMessages(front)); }
    }
  }

  lemma NoMessages()
    ensures SaidAt([], SpokenAt([]), ParseMessages([]))
  {
  }

  // ----- titles -----

  lemma {:induction false} SqueezedSingle(a: string, w: char, b: string)
    requires SseReader.White(w)
    ensures Squeezed(a + [w] + b) == Squeezed(a + " " + b)
  {
    var s, t := a + [w] + b, a + " " + b;
    if b == "" {
      assert s[..|s| - 1] == a && t[..|t| - 1] == a;
    } else {
      SqueezedSingle(a, w, b[..|b| - 1]);
      assert s[..|s| - 1] == a + [w] + b[..|b| - 1] && t[..|t| - 1] == a + " " + b[..|b| - 1];
    }
  }

  lemma {:induction false} SqueezedDouble(a: string, b: string)
    ensures Squeezed(a + "  " + b) == Squeezed(a + " " + b)
  {
    var s, t := a + "  " + b, a + " " + b;
    if b == "" {
      assert s[..|s| - 1] == t;
    } else {
      SqueezedDouble(a, b[..|b| - 1]);
      assert s[..|s| - 1] == a + "  " + b[..|b| - 1] && t[..|t| - 1] == a + " " + b[..|b| - 1];
    }
  }

  lemma {:induction false} SqueezedStays(s: string)
    requires SingleSpaced(s)
    ensures Squeezed(s) == s
  {
    if s != "" {
      var shorter := s[..|s| - 1];
      assert forall i :: 0 <= i < |shorter| ==> shorter[i] == s[i];
      SqueezedStays(shorter);
      assert s == shorter + [s[|s| - 1]];
      if |s| > 1 { assert SseReader.IsAsciiSpace(s[|s| - 2]) ==> !SseReader.IsAsciiSpace(s[|s| - 1]); }
    }
  }

  lemma WhiteIs(c: char)
    ensures SseReader.White(c) <==> SseReader.IsAsciiSpace(c)
  {
  }

  lemma LineEnds(s: string)
    requires OneLine(s) && s != ""
    ensures SingleSpaced(s) && !SseReader.IsAsciiSpace(s[0]) && !SseReader.IsAsciiSpace(s[|s| - 1])
  {
    hide SseReader.IsAsciiSpace;
  }

  lemma SpaceBefore(s: string)
    requires SingleSpaced(s) && s != "" && !SseReader.IsAsciiSpace(s[0])
    ensures SingleSpaced(" " + s)
  {
    hide SseReader.IsAsciiSpace;
    var t := " " + s;
    forall i | 0 <= i < |t| && SseReader.IsAsciiSpace(t[i])
      ensures t[i] == ' ' && (i + 1 < |t| ==> !SseReader.IsAsciiSpace(t[i + 1]))
    {
      if i > 0 { assert t[i] == s[i - 1]; }
    }
  }

  lemma SpaceAround(s: string, before: string, after: string)
    requires OneLine(s) && s != "" && before in ["", " "] && after in ["", " "]
    ensures SingleSpaced(before + s + after)
  {
    LineEnds(s);
    SpaceIsSpace();
    hide SingleSpaced;
    hide OneLine;
    hide SseReader.IsAsciiSpace;
    assert before + s == if before == "" then s else " " + s;
    if before == " " { SpaceBefore(s); }
    assert (before + s)[|before + s| - 1] == s[|s| - 1];
    if after == " " { SingleSpacedAppend(before + s, ' '); }
    assert before + s + after == if after == "" then before + s else before + s + [' '];
  }

  lemma CutBetween(before: string, s: string, after: string)
    requires s != "" && before in ["", " "] && after in ["", " "] && SseReader.White(' ')
    requires !SseReader.White(s[0]) && !SseReader.White(s[|s| - 1])
    ensures SseReader.CutTo(before + s + after, s)
  {
    hide SseReader.White;
    var t := before + s + after;
    assert |before| <= 1 && |after| <= 1;
    assert before != "" ==> t[0] == ' ';
    assert after != "" ==> t[|t| - 1] == ' ';
    assert t[|before|..|before| + |s|] == s;
    assert t[|before|] == s[0] && t[|before| + |s| - 1] == s[|s| - 1];
    assert SseReader.CutAt(t, |before|, |before| + |s|);
  }

  lemma LineWithEnds(s: string, before: string, after: string)
    requires OneLine(s) && s != "" && before in ["", " "] && after in ["", " "]
    ensures SingleSpaced(before + s + after) && SseReader.CutTo(before + s + after, s)
  {
    hide *;
    SpaceAround(s, before, after);
    LineEnds(s);
    WhiteIs(' ');
    SpaceIsSpace();
    WhiteIs(s[0]);
    WhiteIs(s[|s| - 1]);
    CutBetween(before, s, after);
  }

  /** Collapsing, by its laws: any white space counts as a space, two spaces as one, spaces at the ends
      go, and one line of words stays. */
  lemma CollapsedLaws(a: string, w: char, b: string)
    ensures SseReader.White(w) ==> Collapsed(a + [w] + b) == Collapsed(a + " " + b)
    ensures Collapsed(a + "  " + b) == Collapsed(a + " " + b)
  {
    hide Squeezed;
    hide SseReader.TrimAscii;
    SqueezedDouble(a, b);
    if SseReader.White(w) { SqueezedSingle(a, w, b); }
  }

  lemma CollapsedLine(s: string, before: string, after: string)
    requires OneLine(s) && s != "" && before in ["", " "] && after in ["", " "]
    ensures Collapsed(before + s + after) == s
  {
    var t := before + s + after;
    LineWithEnds(s, before, after);
    hide *;
    SqueezedStays(t);
    CollapsedIs(t);
    SseReader.TrimIsCut(t);
    SseReader.CutUnique(t, s, SseReader.TrimAscii(t));
  }

  lemma CollapsedIs(t: string)
    ensures Collapsed(t) == SseReader.TrimAscii(Squeezed(t))
  {
  }

  /** Of white space alone nothing is left. */
  lemma CollapsedBlank()
    ensures Collapsed("") == "" && Collapsed(" ") == ""
  {
    assert " "[..0] == "" && SseReader.IsAsciiSpace(' ');
    assert Squeezed("") == "" && Squeezed(" ") == " ";
    assert " "[1..] == "" && SseReader.SkipSpaces(" ") == "";
  }

  /** The white space that `trim` cuts off. */
  predicate TrimSpace(c: char)
  {
    c as int in {9, 10, 11, 12, 13, 32, 160, 5760, 8192, 8193, 8194, 8195, 8196, 8197, 8198, 8199, 8200, 8201, 8202,
      8232, 8233, 8239, 8287, 12288, 65279}
  }

  lemma SpaceIs(c: char)
    ensures IsSpace(c) <==> TrimSpace(c)
  {
  }

  /** White space alone. */
  predicate Blank(s: string)
  {
    forall i :: 0 <= i < |s| ==> IsSpace(s[i])
  }

  lemma BlankParts(s: string)
    requires Blank(s) && s != ""
    ensures IsSpace(s[0]) && Blank(s[1..]) && IsSpace(s[|s| - 1]) && Blank(s[..|s| - 1])
  {
    hide IsSpace;
  }

  lemma Regrouped(a: string, s: string)
    requires a != ""
    ensures a + s == [a[0]] + (a[1..] + s) && s + a == (s + a[..|a| - 1]) + [a[|a| - 1]]
  {
  }

  lemma SkipOne(c: char, s: string)
    requires IsSpace(c)
    ensures TrimStart([c] + s) == TrimStart(s)
  {
    hide IsSpace;
    assert ([c] + s)[1..] == s;
  }

  lemma DropOne(s: string, c: char)
    requires IsSpace(c)
    ensures TrimEnd(s + [c]) == TrimEnd(s)
  {
    hide IsSpace;
    assert (s + [c])[..|s + [c]| - 1] == s;
  }

  lemma EndsStay(s: string)
    ensures (s != "" ==> !IsSpace(s[0])) ==> TrimStart("" + s) == s
    ensures (s != "" ==> !IsSpace(s[|s| - 1])) ==> TrimEnd(s + "") == s
  {
    hide IsSpace;
    assert "" + s == s && s + "" == s;
  }

  lemma {:induction false} TrimStartCuts(before: string, s: string)
    requires Blank(before) && (s != "" ==> !IsSpace(s[0]))
    ensures TrimStart(before + s) == s
  {
    hide *;
    if before == "" {
      EndsStay(s);
    } else {
      BlankParts(before);
      TrimStartCuts(before[1..], s);
      SkipOne(before[0], before[1..] + s);
      Regrouped(before, s);
    }
  }

  lemma {:induction false} TrimEndCuts(s: string, after: string)
    requires Blank(after) && (s != "" ==> !IsSpace(s[|s| - 1]))
    ensures TrimEnd(s + after) == s
  {
    hide *;
    if after == "" {
      EndsStay(s);
    } else {
      var n := |after| - 1;
      BlankParts(after);
      TrimEndCuts(s, after[..n]);
      DropOne(s + after[..n], after[n]);
      Regrouped(after, s);
    }
  }

  lemma TrimBlank(before: string, s: string, after: string)
    requires Blank(before) && Blank(after) && s != "" && !IsSpace(s[0]) && !IsSpace(s[|s| - 1])
    ensures Trim(before + s + after) == s
  {
    hide IsSpace;
    hide Blank;
    TrimStartCuts(before, s + after);
    assert before + s + after == before + (s + after);
    TrimEndCuts(s, after);
  }

  /** Trimming cuts the white space at both ends, and nothing else. */
  lemma TrimCuts(before: string, s: string, after: string)
    requires forall i :: 0 <= i < |before| ==> TrimSpace(before[i])
    requires forall i :: 0 <= i < |after| ==> TrimSpace(after[i])
    requires s != "" && !TrimSpace(s[0]) && !TrimSpace(s[|s| - 1])
    ensures Trim(before + s + after) == s
  {
    hide IsSpace;
    hide TrimSpace;
    hide Trim;
    forall c: char { SpaceIs(c); }
    TrimBlank(before, s, after);
  }

  lemma {:induction false} FirstUserIs(messages: seq<Message>, k: nat)
    requires k <= |messages| && forall j :: 0 <= j < k ==> messages[j].role != "user"
    ensures FirstUser(messages) == if k == |messages| then "" else FirstUser(messages[k..])
  {
    if k == 0 { assert messages[0..] == messages; } else {
      assert forall j :: 0 <= j < k - 1 ==> messages[1..][j] == messages[j + 1];
      FirstUserIs(messages[1..], k - 1);
      assert messages[1..][k - 1..] == messages[k..];
    }
  }

  /** The title made of the messages: the first user message, as one line of at most 80 characters, with
      three dots if it was cut; `New chat` if there is none or it is blank. */
  lemma TitleIs(messages: seq<Message>, k: nat)
    requires k <= |messages| && (forall j :: 0 <= j < k ==> messages[j].role != "user")
    requires k < |messages| ==> messages[k].role == "user"
    ensures var said := if k < |messages| then Trim(messages[k].content) else "";
      DeriveTitle(messages) ==
        if said == "" then "New chat"
        else if |Collapsed(said)| <= 80 then Collapsed(said) else Collapsed(said)[..80] + "..."
  {
    hide Trim;
    hide Collapsed;
    FirstUserIs(messages, k);
    assert k < |messages| ==> messages[k..][0] == messages[k];
    assert Trim("") == "" by { TrimIsIdentity(""); }
  }

  // ----- what is stored and read -----

  /** The messages and the title that a request gives. */
  predicate Gives(body: Json, items: seq<Json>, title: string)
  {
    match body
    case Object(m) =>
      && "messages" in m && m["messages"] == Array(items)
      && title == (if "title" in m then match m["title"] case Text(t) => Trim(t) case _ => "" else "")
    case _ => false
  }

  /** What a request stores: its messages, its title, else the earlier one, else one made of the messages,
      and the times; a request without an id or a list of messages is refused. */
  lemma StoredIs(store: Store, id: string, body: Json, now: int)
    ensures Revised(store, id, body, now).Err? <==> id == "" || !exists items, title :: Gives(body, items, title)
    ensures Revised(store, id, body, now).Err? ==>
      Revised(store, id, body, now).error == ApiError(400, "invalid_request")
    ensures forall items, title :: id != "" && Gives(body, items, title) ==>
      var c := Revised(store, id, body, now).value;
      && c.id == id && c.messages == ParseMessages(items) && c.updatedAt == now
      && c.createdAt == (if id in store then store[id].createdAt else now)
      && (title != "" ==> c.title == title)
      && (title == "" && id in store && store[id].title != "" ==> c.title == store[id].title)
      && (title == "" && (id !in store || store[id].title == "") ==> c.title == DeriveTitle(ParseMessages(items)))
  {
    hide ParseMessages;
    hide DeriveTitle;
    hide Trim;
    if Revised(store, id, body, now).Ok? {
      match Field(body, "messages") {
        case Array(items) =>
          var title := match Field(body, "title") case Text(t) => Trim(t) case _ => "";
          assert Gives(body, items, title);
        case _ =>
      }
    }
  }

  /** At most fifty conversations are kept, and all of them when there are no more. */
  lemma FiftyStay(store: Store, order: KeyOrder)
    requires History.Valid(store)
    ensures |Pruned(store, order)| == if |store| <= 50 then |store| else 50
    ensures |store| <= 50 ==> Pruned(store, order) == store
  {
    assert MAX_HISTORY_ENTRIES == 50;
    hide *;
    PruneIs(store, order);
    PartOf(store, Pruned(store, order));
  }

  lemma PartOf(store: Store, part: Store)
    requires forall id :: id in part ==> id in store && part[id] == store[id]
    ensures |part| == |store| ==> part == store
  {
    if |part| == |store| {
      assert |part.Keys| == |part| && |store.Keys| == |store|;
      SubsetSize(part.Keys, store.Keys);
      assert part.Keys == store.Keys by {
        if k :| k in store.Keys && k !in part.Keys { SubsetSize(part.Keys, store.Keys - {k}); }
      }
    }
  }

  /** What the list says of a conversation. */
  lemma ListedIs(store: Store, order: KeyOrder, i: nat)
    requires History.Valid(store) && i < |store|
    ensures |ListHistory(store, order)| == |store|
    ensures var shown := ListHistory(store, order)[i];
      && shown.id in store
      && shown.title == store[shown.id].title && shown.messageCount == |store[shown.id].messages|
      && shown.createdAt == store[shown.id].createdAt && shown.updatedAt == store[shown.id].updatedAt
  {
    hide ListHistory;
    ListIs(store, order);
  }
}
