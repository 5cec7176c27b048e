/** The bounded tool loop of a chat (packages/nexus/src/api.ts). What happens outside, the gateway,
    the tools, the user and the client connection, is a `World` that answers after every history. */
module ToolLoop {
  import opened Wrappers

  const MAX_TOOL_ITERATIONS := 8
  const MAX_TOOL_RESULT_BYTES := 50000

  // ----- data -----

  /** A streamed piece of a tool call; an absent text field is "". */
  datatype Fragment = Fragment(index: Option<nat>, id: string, kind: string, name: string, arguments: string)

  datatype Call = Call(id: string, kind: string, name: string, arguments: string)

  datatype Choice = Choice(content: string, toolCalls: seq<Fragment>, finishReason: string)

  /** One payload of the stream. */
  datatype Chunk = Malformed | Chunk(model: string, choice: Option<Choice>)

  /** `calls` is the assembled array; a hole is an index that no fragment named. */
  datatype Message =
    | Given(string)
    | Assistant(content: Option<string>, calls: seq<Option<Call>>)
    | ToolReply(callId: string, text: string)

  datatype Decision = Approve | Deny(reason: Option<string>)

  datatype Output =
    | Content(chunk: Chunk)
    | UpstreamError(status: int)
    | ConfirmRequired(id: string, tool: string, args: string)
    | ConfirmResolved(id: string, decision: Decision)
    | Skipped(tool: string, note: string)
    | Running(tool: string)
    | StreamError
    | Done

  datatype Event =
    | Fetch(messages: seq<Message>)
    | Write(output: Output)
    | Ask(id: string, tool: string, args: string)
    | Answer(id: string, decision: Decision)
    | Dispatch(tool: string, args: string)

  type Trace = seq<Event>

  datatype Response =
    | Unreachable
    | Refused(status: int)
    | Stream(chunks: seq<Chunk>, broken: bool)

  datatype ToolResult = Output(payload: string) | Throws

  datatype World = World(
    mutating: map<string, bool>,
    validJson: string -> bool,
    quote: string -> string,
    aborted: Trace -> bool,
    ended: Trace -> bool,
    respond: Trace -> Response,
    confirmationId: Trace -> string,
    decide: Trace -> Decision,
    run: Trace -> ToolResult)

  // ----- assembling tool calls -----

  const FRESH := Call("", "function", "", "")

  function Index(f: Fragment): nat
  {
    if f.index.Some? then f.index.value else 0
  }

  function Grow(calls: seq<Option<Call>>, length: nat): (r: seq<Option<Call>>)
    ensures |r| == if |calls| < length then length else |calls|
    ensures forall i :: 0 <= i < |r| ==> r[i] == if i < |calls| then calls[i] else None
  {
    if |calls| < length then calls + seq(length - |calls|, _ => None) else calls
  }

  function Extend(call: Call, f: Fragment): Call
  {
    Call(if f.id != "" then f.id else call.id, if f.kind != "" then f.kind else call.kind,
         call.name + f.name, call.arguments + f.arguments)
  }

  /** The array after one fragment. */
  function Put(calls: seq<Option<Call>>, f: Fragment): seq<Option<Call>>
  {
    var i := Index(f);
    var grown := Grow(calls, i + 1);
    grown[i := Some(Extend(if grown[i].Some? then grown[i].value else FRESH, f))]
  }

  function Assemble(fs: seq<Fragment>): seq<Option<Call>>
  {
    if fs == [] then [] else Put(Assemble(fs[..|fs| - 1]), fs[|fs| - 1])
  }

  /** The fragments of one index, in order. */
  function Of(fs: seq<Fragment>, i: nat): seq<Fragment>
  {
    if fs == [] then []
    else
      var before := Of(fs[..|fs| - 1], i);
      if Index(fs[|fs| - 1]) == i then before + [fs[|fs| - 1]] else before
  }

  /** A call made of its own fragments only: names and arguments joined, the last id and kind. */
  function Joined(fs: seq<Fragment>): Call
  {
    if fs == [] then FRESH else Extend(Joined(fs[..|fs| - 1]), fs[|fs| - 1])
  }

  function At(calls: seq<Option<Call>>, i: nat): Option<Call>
  {
    if i < |calls| then calls[i] else None
  }

  /** One fragment touches its own call only. */
  lemma PutStep(calls: seq<Option<Call>>, f: Fragment, i: nat)
    ensures At(Put(calls, f), i) ==
      if Index(f) == i then Some(Extend(if At(calls, i).Some? then At(calls, i).value else FRESH, f)) else At(calls, i)
  {
    hide Extend;
  }

  lemma OfStep(fs: seq<Fragment>, i: nat)
    requires fs != []
    ensures var n := |fs| - 1;
      Of(fs, i) == if Index(fs[n]) == i then Of(fs[..n], i) + [fs[n]] else Of(fs[..n], i)
  {
  }

  lemma JoinedStep(before: seq<Fragment>, f: Fragment)
    ensures Joined(before + [f]) == Extend(Joined(before), f)
  {
    assert (before + [f])[..|before|] == before;
  }

  lemma AssembleStep(fs: seq<Fragment>)
    requires fs != []
    ensures Assemble(fs) == Put(Assemble(fs[..|fs| - 1]), fs[|fs| - 1])
  {
    hide Put;
  }

  lemma NothingOf(i: nat)
    ensures At(Assemble([]), i) == None && Of([], i) == [] && Joined([]) == FRESH
  {
  }

  /** However the fragments of different calls are interleaved, each call is its own fragments joined. */
  lemma {:induction false} AssemblyIsIndependent(fs: seq<Fragment>, i: nat)
    ensures At(Assemble(fs), i) == if Of(fs, i) == [] then None else Some(Joined(Of(fs, i)))
  {
    hide *;
    NothingOf(i);
    if fs != [] {
      var n := |fs| - 1;
      AssemblyIsIndependent(fs[..n], i);
      AssembleStep(fs);
      PutStep(Assemble(fs[..n]), fs[n], i);
      OfStep(fs, i);
      JoinedStep(Of(fs[..n], i), fs[n]);
    }
  }

  function NamesOf(fs: seq<Fragment>): string
  {
    if fs == [] then "" else NamesOf(fs[..|fs| - 1]) + fs[|fs| - 1].name
  }

  function ArgumentsOf(fs: seq<Fragment>): string
  {
    if fs == [] then "" else ArgumentsOf(fs[..|fs| - 1]) + fs[|fs| - 1].arguments
  }

  /** The name and the arguments of a call are its fragments' in order, and its id is the last one given. */
  lemma {:induction false} JoinedMeaning(fs: seq<Fragment>)
    ensures Joined(fs).name == NamesOf(fs) && Joined(fs).arguments == ArgumentsOf(fs)
    ensures forall k :: 0 <= k < |fs| && fs[k].id != "" && (forall l :: k < l < |fs| ==> fs[l].id == "") ==>
      Joined(fs).id == fs[k].id
  {
    if fs != [] {
      var n := |fs| - 1;
      JoinedMeaning(fs[..n]);
      assert forall k :: 0 <= k < n ==> fs[..n][k] == fs[k];
    }
  }

  // ----- the stream of one answer -----

  predicate Usable(c: Chunk)
  {
    c.Chunk? && c.choice.Some?
  }

  function FragmentsOf(chunks: seq<Chunk>): seq<Fragment>
  {
    if chunks == [] then []
    else
      var c := chunks[|chunks| - 1];
      FragmentsOf(chunks[..|chunks| - 1]) + (if Usable(c) then c.choice.value.toolCalls else [])
  }

  function ContentOf(chunks: seq<Chunk>): string
  {
    if chunks == [] then ""
    else
      var c := chunks[|chunks| - 1];
      ContentOf(chunks[..|chunks| - 1]) + (if Usable(c) then c.choice.value.content else "")
  }

  /** The last finish reason given. */
  function FinishOf(chunks: seq<Chunk>): string
  {
    if chunks == [] then ""
    else
      var c := chunks[|chunks| - 1];
      if Usable(c) && c.choice.value.finishReason != "" then c.choice.value.finishReason
      else FinishOf(chunks[..|chunks| - 1])
  }

  function Emit(world: World, trace: Trace, output: Output): Trace
  {
    if world.ended(trace) then trace else trace + [Write(output)]
  }

  /** What is passed on to the client: the chunks with content, as long as it listens. */
  function Forwarded(world: World, trace: Trace, chunks: seq<Chunk>): Trace
  {
    if chunks == [] then trace
    else
      var before := Forwarded(world, trace, chunks[..|chunks| - 1]);
      var c := chunks[|chunks| - 1];
      if Usable(c) && c.choice.value.content != "" then Emit(world, before, Content(c)) else before
  }

  lemma {:induction false} AssembleAppend(fs: seq<Fragment>, f: Fragment)
    ensures Assemble(fs + [f]) == Put(Assemble(fs), f)
  {
    assert (fs + [f])[..|fs|] == fs;
  }

  /** What one more chunk adds. */
  lemma ChunkStep(world: World, trace0: Trace, chunks: seq<Chunk>, k: nat)
    requires k < |chunks|
    ensures var c, before, after := chunks[k], chunks[..k], chunks[..k + 1];
      && FragmentsOf(after) == FragmentsOf(before) + (if Usable(c) then c.choice.value.toolCalls else [])
      && ContentOf(after) == ContentOf(before) + (if Usable(c) then c.choice.value.content else "")
      && FinishOf(after) == (if Usable(c) && c.choice.value.finishReason != "" then c.choice.value.finishReason
        else FinishOf(before))
      && Forwarded(world, trace0, after) ==
           (if Usable(c) && c.choice.value.content != "" then Emit(world, Forwarded(world, trace0, before), Content(c))
            else Forwarded(world, trace0, before))
  {
    hide Emit;
    assert chunks[..k + 1][..k] == chunks[..k];
  }

  lemma NothingStreamed(world: World, trace0: Trace)
    ensures FragmentsOf([]) == [] && ContentOf([]) == "" && FinishOf([]) == "" && Forwarded(world, trace0, []) == trace0
  {
  }

  /** The inner loop: the tool calls grow fragment by fragment. */
  method AddFragments(calls0: seq<Option<Call>>, fs: seq<Fragment>, ghost before: seq<Fragment>)
    returns (calls: seq<Option<Call>>)
    requires calls0 == Assemble(before)
    ensures calls == Assemble(before + fs)
  {
    hide *;
    calls := calls0;
    assert before + fs[..0] == before;
    for l := 0 to |fs|
      invariant calls == Assemble(before + fs[..l])
    {
      AssembleAppend(before + fs[..l], fs[l]);
      assert before + fs[..l + 1] == before + fs[..l] + [fs[l]];
      calls := Put(calls, fs[l]);
    }
    assert fs[..|fs|] == fs;
  }

  /** Reads one streamed answer: forwards content, assembles tool calls, remembers the finish reason. */
  method ConsumeStream(world: World, chunks: seq<Chunk>, trace0: Trace)
    returns (trace: Trace, content: string, calls: seq<Option<Call>>, finish: string)
    ensures trace == Forwarded(world, trace0, chunks)
    ensures content == ContentOf(chunks)
    ensures calls == Assemble(FragmentsOf(chunks))
    ensures finish == FinishOf(chunks)
  {
    hide Assemble;
    hide Forwarded;
    hide ContentOf;
    hide FragmentsOf;
    hide FinishOf;
    hide Emit;
    trace, content, calls, finish := trace0, "", [], "";
    NothingStreamed(world, trace0);
    AssembleNothing();
    for k := 0 to |chunks|
      invariant trace == Forwarded(world, trace0, chunks[..k])
      invariant content == ContentOf(chunks[..k])
      invariant calls == Assemble(FragmentsOf(chunks[..k]))
      invariant finish == FinishOf(chunks[..k])
    {
      ChunkStep(world, trace0, chunks, k);
      var c := chunks[k];
      if !Usable(c) {
        assert FragmentsOf(chunks[..k]) + [] == FragmentsOf(chunks[..k]);
        assert content + "" == content;
        continue;
      }
      var choice := c.choice.value;
      if choice.content != "" { trace := Emit(world, trace, Content(c)); }
      content := content + choice.content;
      calls := AddFragments(calls, choice.toolCalls, FragmentsOf(chunks[..k]));
      if choice.finishReason != "" { finish := choice.finishReason; }
    }
    assert chunks[..|chunks|] == chunks;
  }

  lemma AssembleNothing()
    ensures Assemble([]) == []
  {
  }

  // ----- what every history keeps -----

  /** One tool reply per call, in order, with the call's id. */
  predicate RepliesTo(replies: seq<Message>, calls: seq<Option<Call>>)
  {
    && |replies| == |calls|
    && forall i :: 0 <= i < |calls| ==>
         calls[i].Some? && replies[i].ToolReply? && replies[i].callId == calls[i].value.id
  }

  /** Complete rounds: an assistant message with calls, then its replies. */
  predicate Rounds(ms: seq<Message>)
  {
    ms == [] ||
    (&& ms[0].Assistant? && ms[0].calls != []
     && 1 + |ms[0].calls| <= |ms|
     && RepliesTo(ms[1..1 + |ms[0].calls|], ms[0].calls)
     && Rounds(ms[1 + |ms[0].calls|..]))
  }

  /** Every request carries the given messages followed by complete rounds. */
  predicate CompleteRequests(trace: Trace, initial: seq<Message>)
  {
    forall i :: 0 <= i < |trace| && trace[i].Fetch? ==>
      initial <= trace[i].messages && Rounds(trace[i].messages[|initial|..])
  }

  function LastFetch(trace: Trace): (r: Option<nat>)
    ensures r.Some? ==> r.value < |trace| && trace[r.value].Fetch?
  {
    if trace == [] then None
    else if trace[|trace| - 1].Fetch? then Some(|trace| - 1)
    else LastFetch(trace[..|trace| - 1])
  }

  /** `content || null`. */
  function NonEmpty(content: string): Option<string>
  {
    if content == "" then None else Some(content)
  }

  /** `later` is `earlier` and one round: the text and the calls assembled from the answer to `earlier`, whose
      request is the last event of `asked`, and the replies to those calls, given between then and `sent`. */
  ghost predicate Continues(world: World, asked: Trace, sent: Trace, earlier: seq<Message>, later: seq<Message>)
  {
    var answer := world.respond(asked);
    && answer.Stream? && earlier < later
    && later[|earlier|].Assistant? && later[|earlier|].calls == Assemble(FragmentsOf(answer.chunks))
    && later[|earlier|].content
         == (if ContentOf(answer.chunks) == "" then None else Some(ContentOf(answer.chunks)))
    && RepliesTo(later[|earlier| + 1..], later[|earlier|].calls)
    && AllAnswered(world, asked, sent, later[|earlier|].calls, later[|earlier| + 1..])
  }

  /** The first request carries the given messages; each later one continues the one before it. */
  ghost predicate Continued(world: World, trace: Trace, initial: seq<Message>)
  {
    trace == [] ||
    (var before, event := trace[..|trace| - 1], trace[|trace| - 1];
     && Continued(world, before, initial)
     && (event.Fetch? && LastFetch(before).None? ==> event.messages == initial)
     && (event.Fetch? && LastFetch(before).Some? ==>
           var i := LastFetch(before).value;
           Continues(world, before[..i + 1], before, before[i].messages, event.messages)))
  }

  function Fetches(trace: Trace): nat
  {
    if trace == [] then 0 else Fetches(trace[..|trace| - 1]) + if trace[|trace| - 1].Fetch? then 1 else 0
  }

  predicate Mutating(world: World, tool: string)
  {
    tool in world.mutating && world.mutating[tool]
  }

  /** The dispatch at `i` follows its own approval: asked for with this tool and these arguments,
      shown to the client if it listens, approved, and nothing but writes around it. */
  predicate ApprovedAt(world: World, trace: Trace, i: nat, asked: nat, answered: nat)
    requires i < |trace| && trace[i].Dispatch?
  {
    && asked < answered < i
    && trace[asked].Ask? && trace[asked].tool == trace[i].tool && trace[asked].args == trace[i].args
    && trace[answered] == Answer(trace[asked].id, Approve)
    && (forall k :: asked < k < i && k != answered ==> trace[k].Write?)
    && (world.ended(trace[..asked + 1])
        || trace[asked + 1] == Write(ConfirmRequired(trace[asked].id, trace[i].tool, trace[i].args)))
  }

  ghost predicate Approved(world: World, trace: Trace, i: nat)
    requires i < |trace| && trace[i].Dispatch?
  {
    exists asked: nat, answered: nat :: ApprovedAt(world, trace, i, asked, answered)
  }

  /** No mutating tool runs without its approval, and no other tool is asked for. */
  ghost predicate Guarded(world: World, trace: Trace)
  {
    && (forall i :: 0 <= i < |trace| && trace[i].Dispatch? && Mutating(world, trace[i].tool) ==>
          Approved(world, trace, i))
    && (forall i :: 0 <= i < |trace| && trace[i].Ask? ==> Mutating(world, trace[i].tool))
  }

  /** `after` adds neither requests nor the end mark. */
  predicate Quiet(before: Trace, after: Trace)
  {
    && before <= after
    && forall i :: |before| <= i < |after| ==> !after[i].Fetch? && after[i] != Write(Done)
  }

  /** The end mark is only ever last. */
  predicate DoneOnlyLast(trace: Trace)
  {
    forall i :: 0 <= i < |trace| - 1 ==> trace[i] != Write(Done)
  }

  predicate NoDone(trace: Trace)
  {
    forall i :: 0 <= i < |trace| ==> trace[i] != Write(Done)
  }

  // ----- keeping the promises step by step -----

  lemma SplitRound(ms: seq<Message>)
    requires Rounds(ms) && ms != []
    ensures ms[0].Assistant? && ms[0].calls != [] && 1 + |ms[0].calls| <= |ms|
    ensures RepliesTo(ms[1..1 + |ms[0].calls|], ms[0].calls) && Rounds(ms[1 + |ms[0].calls|..])
  {
    hide RepliesTo;
  }

  lemma MakeRound(ms: seq<Message>)
    requires ms != [] && ms[0].Assistant? && ms[0].calls != [] && 1 + |ms[0].calls| <= |ms|
    requires RepliesTo(ms[1..1 + |ms[0].calls|], ms[0].calls) && Rounds(ms[1 + |ms[0].calls|..])
    ensures Rounds(ms)
  {
    hide RepliesTo;
  }

  lemma SlicesOfAppend(a: seq<Message>, b: seq<Message>, n: nat)
    requires 1 <= n <= |a|
    ensures (a + b)[0] == a[0] && (a + b)[1..n] == a[1..n] && (a + b)[n..] == a[n..] + b
  {
  }

  lemma {:induction false} RoundsAppend(a: seq<Message>, b: seq<Message>)
    requires Rounds(a) && Rounds(b)
    ensures Rounds(a + b)
  {
    hide *;
    if a == [] {
      assert a + b == b;
    } else {
      SplitRound(a);
      var n := 1 + |a[0].calls|;
      RoundsAppend(a[n..], b);
      SlicesOfAppend(a, b, n);
      MakeRound(a + b);
    }
  }

  lemma OneRound(content: Option<string>, calls: seq<Option<Call>>, replies: seq<Message>)
    requires calls != [] && RepliesTo(replies, calls)
    ensures Rounds([Assistant(content, calls)] + replies)
  {
    var r := [Assistant(content, calls)] + replies;
    assert r[1..1 + |calls|] == replies && r[1 + |calls|..] == [];
  }

  /** The approval of a dispatch is in the history before it, so longer histories keep it. */
  lemma GuardedExtend(world: World, before: Trace, after: Trace)
    requires Guarded(world, before) && before <= after
    requires forall i :: |before| <= i < |after| && after[i].Dispatch? && Mutating(world, after[i].tool) ==>
      Approved(world, after, i)
    requires forall i :: |before| <= i < |after| && after[i].Ask? ==> Mutating(world, after[i].tool)
    ensures Guarded(world, after)
  {
    forall i | 0 <= i < |after| && after[i].Dispatch? && Mutating(world, after[i].tool)
      ensures Approved(world, after, i)
    {
      if i < |before| {
        assert Approved(world, before, i);
        var asked: nat, answered: nat :| ApprovedAt(world, before, i, asked, answered);
        assert after[..asked + 1] == before[..asked + 1];
        assert ApprovedAt(world, after, i, asked, answered);
      }
    }
  }

  lemma QuietTransitive(a: Trace, b: Trace, c: Trace)
    requires Quiet(a, b) && Quiet(b, c)
    ensures Quiet(a, c)
  {
  }

  /** The end of the history is a question and nothing but writes after it, or the answer and
      nothing but writes around it. */
  predicate Asked(world: World, trace: Trace, tool: string, args: string, asked: nat)
  {
    && asked < |trace|
    && trace[asked].Ask? && trace[asked].tool == tool && trace[asked].args == args
    && (world.ended(trace[..asked + 1])
        || (asked + 1 < |trace| && trace[asked + 1] == Write(ConfirmRequired(trace[asked].id, tool, args))))
  }

  predicate ApprovalPending(world: World, trace: Trace, tool: string, args: string, asked: nat, answered: nat)
  {
    && Asked(world, trace, tool, args, asked) && asked < answered < |trace|
    && trace[answered] == Answer(trace[asked].id, Approve)
    && forall k :: asked < k < |trace| && k != answered ==> trace[k].Write?
  }

  lemma EmitKeepsApproval(world: World, trace: Trace, output: Output, tool: string, args: string,
                          asked: nat, answered: nat)
    requires ApprovalPending(world, trace, tool, args, asked, answered)
    ensures ApprovalPending(world, Emit(world, trace, output), tool, args, asked, answered)
  {
    assert Emit(world, trace, output)[..asked + 1] == trace[..asked + 1];
  }

  lemma DispatchApproved(world: World, trace: Trace, tool: string, args: string, asked: nat, answered: nat)
    requires ApprovalPending(world, trace, tool, args, asked, answered)
    ensures Approved(world, trace + [Dispatch(tool, args)], |trace|)
  {
    assert (trace + [Dispatch(tool, args)])[..asked + 1] == trace[..asked + 1];
    assert ApprovedAt(world, trace + [Dispatch(tool, args)], |trace|, asked, answered);
  }

  lemma EmitQuiet(world: World, before: Trace, trace: Trace, output: Output)
    requires Quiet(before, trace) && Guarded(world, trace) && output != Done
    ensures Quiet(before, Emit(world, trace, output)) && Guarded(world, Emit(world, trace, output))
  {
    GuardedExtend(world, trace, Emit(world, trace, output));
  }

  lemma StepQuiet(world: World, before: Trace, trace: Trace, event: Event)
    requires Quiet(before, trace) && Guarded(world, trace)
    requires event.Ask? || event.Answer? || event.Dispatch?
    requires event.Dispatch? && Mutating(world, event.tool) ==> Approved(world, trace + [event], |trace|)
    requires event.Ask? ==> Mutating(world, event.tool)
    ensures Quiet(before, trace + [event]) && Guarded(world, trace + [event])
  {
    GuardedExtend(world, trace, trace + [event]);
  }

  lemma {:induction false} ForwardedQuiet(world: World, trace: Trace, chunks: seq<Chunk>)
    requires Guarded(world, trace)
    ensures Quiet(trace, Forwarded(world, trace, chunks)) && Guarded(world, Forwarded(world, trace, chunks))
  {
    hide Guarded;
    hide Quiet;
    if chunks == [] {
      QuietItself(trace);
    } else {
      ForwardedQuiet(world, trace, chunks[..|chunks| - 1]);
      var c := chunks[|chunks| - 1];
      EmitQuiet(world, trace, Forwarded(world, trace, chunks[..|chunks| - 1]), Content(c));
    }
  }

  lemma QuietItself(trace: Trace)
    ensures Quiet(trace, trace)
  {
  }

  // ----- the tools of one round -----

  function ToolName(c: Call): string
  {
    if c.name == "" then "(unnamed)" else c.name
  }

  /** The text that the arguments are parsed from; what does not parse counts as no arguments. */
  function ArgsOf(world: World, c: Call): string
  {
    if c.arguments != "" && world.validJson(c.arguments) then c.arguments else "{}"
  }

  function Truncate(payload: string): string
  {
    if |payload| > MAX_TOOL_RESULT_BYTES then payload[..MAX_TOOL_RESULT_BYTES] + "...(truncated)" else payload
  }

  /** Asks for a mutating tool and waits for the answer. */
  method Confirm(world: World, tool: string, args: string, before: Trace)
    returns (decision: Decision, trace: Trace, ghost asked: nat, ghost answered: nat)
    requires Guarded(world, before) && Mutating(world, tool)
    ensures Quiet(before, trace) && Guarded(world, trace)
    ensures decision == Approve ==> ApprovalPending(world, trace, tool, args, asked, answered)
    ensures |before| <= asked < answered < |trace| && trace[answered].Answer? && trace[answered].decision == decision
    ensures trace[asked] == Ask(trace[answered].id, tool, args)
    ensures Told(world, trace, asked + 1, ConfirmRequired(trace[answered].id, tool, args))
    ensures Told(world, trace, answered + 1, ConfirmResolved(trace[answered].id, decision))
    ensures |trace| == if world.ended(trace[..answered + 1]) then answered + 1 else answered + 2
  {
    hide Guarded;
    hide Quiet;
    hide Emit;
    hide Told;
    hide Mutating;
    hide ApprovalPending;
    var id := world.confirmationId(before);
    asked := |before|;
    QuietItself(before);
    trace := before + [Ask(id, tool, args)];
    StepQuiet(world, before, before, Ask(id, tool, args));
    EmitQuiet(world, before, trace, ConfirmRequired(id, tool, args));
    EmitTells(world, trace, ConfirmRequired(id, tool, args));
    trace := Emit(world, trace, ConfirmRequired(id, tool, args));
    decision := world.decide(trace);
    answered := |trace|;
    StepQuiet(world, before, trace, Answer(id, decision));
    ToldLater(world, trace, trace + [Answer(id, decision)], asked + 1, ConfirmRequired(id, tool, args));
    trace := trace + [Answer(id, decision)];
    if decision == Approve {
      ApprovalGiven(world, trace, tool, args, asked, answered);
      EmitKeepsApproval(world, trace, ConfirmResolved(id, decision), tool, args, asked, answered);
    }
    EmitQuiet(world, before, trace, ConfirmResolved(id, decision));
    EmitTells(world, trace, ConfirmResolved(id, decision));
    ToldLater(world, trace, Emit(world, trace, ConfirmResolved(id, decision)), asked + 1,
              ConfirmRequired(id, tool, args));
    trace := Emit(world, trace, ConfirmResolved(id, decision));
  }

  lemma ApprovalGiven(world: World, trace: Trace, tool: string, args: string, asked: nat, answered: nat)
    requires asked < answered < |trace| <= answered + 1 <= asked + 3
    requires trace[asked].Ask? && trace[asked].tool == tool && trace[asked].args == args
    requires trace[answered] == Answer(trace[asked].id, Approve)
    requires answered == asked + 2 ==> trace[asked + 1].Write?
    requires Told(world, trace, asked + 1, ConfirmRequired(trace[asked].id, tool, args))
    ensures ApprovalPending(world, trace, tool, args, asked, answered)
  {
  }

  /** An event carries the name and the arguments of a call: its own name, if it has one, and its own
      argument text, if that is valid JSON and not empty. */
  predicate Carries(world: World, call: Call, tool: string, args: string)
  {
    && (call.name != "" ==> tool == call.name)
    && (call.name == "" ==> tool == "(unnamed)")
    && (call.arguments != "" && world.validJson(call.arguments) ==> args == call.arguments)
    && (call.arguments == "" || !world.validJson(call.arguments) ==> args == "{}")
  }

  /** The client gets this output at `i`, unless it no longer listens. */
  predicate Told(world: World, trace: Trace, i: nat, output: Output)
    requires i <= |trace|
  {
    world.ended(trace[..i]) || (i < |trace| && trace[i] == Write(output))
  }

  lemma EmitTells(world: World, trace: Trace, output: Output)
    ensures Told(world, Emit(world, trace, output), |trace|, output)
    ensures trace <= Emit(world, trace, output) && |Emit(world, trace, output)| <= |trace| + 1
    ensures |Emit(world, trace, output)| == |trace| + 1 ==> Emit(world, trace, output)[|trace|] == Write(output)
    ensures |Emit(world, trace, output)| == if world.ended(trace) then |trace| else |trace| + 1
    ensures Emit(world, trace, output)[..|trace|] == trace
  {
    assert trace[..|trace|] == trace;
    assert Emit(world, trace, output)[..|trace|] == trace;
  }

  lemma ToldLater(world: World, trace: Trace, longer: Trace, i: nat, output: Output)
    requires i <= |trace| && trace <= longer && Told(world, trace, i, output)
    ensures Told(world, longer, i, output)
  {
    assert longer[..i] == trace[..i];
  }

  /** The reply to a call is the result of a dispatch of that call, or says that the user refused it. */
  ghost predicate AnsweredBy(world: World, before: Trace, trace: Trace, call: Call, reply: Message)
  {
    && reply.ToolReply? && reply.callId == call.id
    && ((exists d :: |before| <= d < |trace| && DispatchedAt(world, trace, d, call, reply.text))
        || (exists a, d :: |before| <= a < d < |trace| && DeniedAt(world, trace, a, d, call, reply.text)))
  }

  /** The call was dispatched at `d`, and the text is the result, cut after 50000 characters. */
  predicate DispatchedAt(world: World, trace: Trace, d: nat, call: Call, text: string)
    requires d < |trace|
  {
    && trace[d].Dispatch? && Carries(world, call, trace[d].tool, trace[d].args)
    && (world.ended(trace[..d]) || (d > 0 && trace[d - 1] == Write(Running(trace[d].tool))))
    && world.run(trace[..d + 1]).Output?
    && var payload := world.run(trace[..d + 1]).payload;
       text == if |payload| <= 50000 then payload else payload[..50000] + "...(truncated)"
  }

  /** What the model is told of a refusal: the error and the user's reason, as JSON. */
  function Denial(world: World, reason: Option<string>): string
  {
    "{\"error\":\"user_denied\",\"reason\":" + (if reason.Some? then world.quote(reason.value) else "null") + "}"
  }

  /** What the user is shown of a refusal besides the tool. */
  function Note(reason: Option<string>): string
  {
    if reason.Some? && reason.value != "" then " - " + reason.value else ""
  }

  /** The user was asked for a mutating call at `a` and refused it at `d`, and the text says so. */
  predicate DeniedAt(world: World, trace: Trace, a: nat, d: nat, call: Call, text: string)
    requires a < d < |trace|
  {
    && trace[a].Ask? && Carries(world, call, trace[a].tool, trace[a].args)
    && trace[a].tool in world.mutating && world.mutating[trace[a].tool]
    && trace[d].Answer? && trace[d].id == trace[a].id && trace[d].decision.Deny?
    && Told(world, trace, a + 1, ConfirmRequired(trace[a].id, trace[a].tool, trace[a].args))
    && Told(world, trace, d + 1, ConfirmResolved(trace[a].id, trace[d].decision))
    && (!world.ended(trace[..d + 1]) ==>
          Told(world, trace, d + 2, Skipped(trace[a].tool, match trace[d].decision.reason
            case None => ""
            case Some(reason) => if reason == "" then "" else " - " + reason)))
    && match trace[d].decision.reason
       case None => text == "{\"error\":\"user_denied\",\"reason\":null}"
       case Some(reason) => text == "{\"error\":\"user_denied\",\"reason\":" + world.quote(reason) + "}"
  }

  lemma CallCarried(world: World, call: Call)
    ensures Carries(world, call, ToolName(call), ArgsOf(world, call))
  {
  }

  lemma RefusalText(world: World, trace: Trace, a: nat, d: nat, call: Call)
    requires a < d < |trace| && trace[d].Answer? && trace[d].decision.Deny?
    requires trace[a] == Ask(trace[d].id, ToolName(call), ArgsOf(world, call)) && Mutating(world, ToolName(call))
    requires Told(world, trace, a + 1, ConfirmRequired(trace[d].id, ToolName(call), ArgsOf(world, call)))
    requires Told(world, trace, d + 1, ConfirmResolved(trace[d].id, trace[d].decision))
    requires !world.ended(trace[..d + 1]) ==>
      d + 2 <= |trace| && Told(world, trace, d + 2, Skipped(ToolName(call), Note(trace[d].decision.reason)))
    ensures DeniedAt(world, trace, a, d, call, Denial(world, trace[d].decision.reason))
  {
    CallCarried(world, call);
    hide Carries;
    hide ToolName;
    hide ArgsOf;
    match trace[d].decision.reason {
      case None =>
        assert "{\"error\":\"user_denied\",\"reason\":" + "null" + "}" == "{\"error\":\"user_denied\",\"reason\":null}";
      case Some(_) =>
    }
  }

  ghost predicate AllAnswered(world: World, before: Trace, trace: Trace, calls: seq<Option<Call>>,
                              replies: seq<Message>)
  {
    && |replies| <= |calls|
    && forall i :: 0 <= i < |replies| ==> calls[i].Some? && AnsweredBy(world, before, trace, calls[i].value, replies[i])
  }

  lemma AnsweredLonger(world: World, before: Trace, trace: Trace, longer: Trace, call: Call, reply: Message)
    requires AnsweredBy(world, before, trace, call, reply) && trace <= longer
    ensures AnsweredBy(world, before, longer, call, reply)
  {
    hide DispatchedAt;
    hide DeniedAt;
    if d :| |before| <= d < |trace| && DispatchedAt(world, trace, d, call, reply.text) {
      DispatchedLonger(world, trace, longer, d, call, reply.text);
    } else {
      var a, d :| |before| <= a < d < |trace| && DeniedAt(world, trace, a, d, call, reply.text);
      DeniedLonger(world, trace, longer, a, d, call, reply.text);
    }
  }

  lemma DispatchedLonger(world: World, trace: Trace, longer: Trace, d: nat, call: Call, text: string)
    requires d < |trace| && DispatchedAt(world, trace, d, call, text) && trace <= longer
    ensures DispatchedAt(world, longer, d, call, text)
  {
    hide Carries;
    assert longer[..d + 1] == trace[..d + 1] && longer[..d] == trace[..d];
  }

  lemma DeniedLonger(world: World, trace: Trace, longer: Trace, a: nat, d: nat, call: Call, text: string)
    requires a < d < |trace| && DeniedAt(world, trace, a, d, call, text) && trace <= longer
    ensures DeniedAt(world, longer, a, d, call, text)
  {
    hide Carries;
    assert longer[..a + 1] == trace[..a + 1] && longer[..d + 1] == trace[..d + 1];
    if !world.ended(trace[..d + 1]) { assert longer[..d + 2] == trace[..d + 2]; }
  }

  lemma AnsweredExtend(world: World, before: Trace, trace: Trace, longer: Trace, calls: seq<Option<Call>>,
                       replies: seq<Message>)
    requires AllAnswered(world, before, trace, calls, replies) && trace <= longer
    ensures AllAnswered(world, before, longer, calls, replies)
  {
    hide AnsweredBy;
    forall i | 0 <= i < |replies| ensures AnsweredBy(world, before, longer, calls[i].value, replies[i]) {
      AnsweredLonger(world, before, trace, longer, calls[i].value, replies[i]);
    }
  }

  lemma MoreAnswered(world: World, before: Trace, trace: Trace, calls: seq<Option<Call>>, replies: seq<Message>,
                     reply: Message)
    requires AllAnswered(world, before, trace, calls, replies) && |replies| < |calls| && calls[|replies|].Some?
    requires AnsweredBy(world, before, trace, calls[|replies|].value, reply)
    ensures AllAnswered(world, before, trace, calls, replies + [reply])
  {
    hide AnsweredBy;
  }

  /** A tool threw: the history ends with its dispatch. */
  predicate Threw(world: World, trace: Trace)
  {
    trace != [] && trace[|trace| - 1].Dispatch? && world.run(trace).Throws?
  }

  /** The list of calls has a hole. */
  predicate Holed(calls: seq<Option<Call>>)
  {
    exists i :: 0 <= i < |calls| && calls[i].None?
  }

  /** Says that the tool runs, and runs it. */
  method DispatchTool(world: World, call: Call, tool: string, args: string, ghost before: Trace, trace0: Trace,
                      ghost asked: nat, ghost answered: nat)
    returns (reply: Message, trace: Trace, failed: bool)
    requires Quiet(before, trace0) && Guarded(world, trace0)
    requires tool == ToolName(call) && args == ArgsOf(world, call)
    requires Mutating(world, tool) ==> ApprovalPending(world, trace0, tool, args, asked, answered)
    ensures Quiet(before, trace) && Guarded(world, trace)
    ensures !failed ==> AnsweredBy(world, before, trace, call, reply)
    ensures failed ==> Threw(world, trace)
  {
    hide Guarded;
    hide Quiet;
    hide ToolName;
    hide ArgsOf;
    hide Truncate;
    hide ApprovalPending;
    hide Carries;
    hide Mutating;
    reply, trace, failed := ToolReply(call.id, ""), trace0, false;
    if Mutating(world, tool) { EmitKeepsApproval(world, trace, Running(tool), tool, args, asked, answered); }
    EmitQuiet(world, before, trace, Running(tool));
    trace := Emit(world, trace, Running(tool));
    assert world.ended(trace) || trace[|trace| - 1] == Write(Running(tool));
    hide Emit;
    if Mutating(world, tool) { DispatchApproved(world, trace, tool, args, asked, answered); }
    StepQuiet(world, before, trace, Dispatch(tool, args));
    ghost var d := |trace|;
    trace := trace + [Dispatch(tool, args)];
    QuietLength(before, trace0);
    QuietLength(before, trace);
    var result := world.run(trace);
    if result.Throws? { return reply, trace, true; }
    reply := ToolReply(call.id, Truncate(result.payload));
    assert trace[..d + 1] == trace && trace[..d] + [Dispatch(tool, args)] == trace;
    CallCarried(world, call);
    TruncatedText(result.payload);
    assert DispatchedAt(world, trace, d, call, reply.text);
  }

  /** Runs one call: asks first for a mutating tool, and dispatches it unless it is refused. */
  method RunTool(world: World, call: Call, before: Trace) returns (reply: Message, trace: Trace, failed: bool)
    requires Guarded(world, before)
    ensures Quiet(before, trace) && Guarded(world, trace)
    ensures !failed ==> AnsweredBy(world, before, trace, call, reply)
    ensures failed ==> Threw(world, trace)
  {
    hide Guarded;
    hide Quiet;
    hide ToolName;
    hide ArgsOf;
    hide ApprovalPending;
    hide Denial;
    hide Note;
    hide Carries;
    hide DeniedAt;
    hide DispatchedAt;
    hide Told;
    hide Emit;
    trace := before;
    QuietItself(before);
    var tool, args := ToolName(call), ArgsOf(world, call);
    ghost var asked, answered := 0, 0;
    if Mutating(world, tool) {
      var decision;
      decision, trace, asked, answered := Confirm(world, tool, args, trace);
      if decision != Approve {
        ghost var refused := trace;
        EmitQuiet(world, before, trace, Skipped(tool, Note(decision.reason)));
        EmitTells(world, trace, Skipped(tool, Note(decision.reason)));
        ToldLater(world, trace, Emit(world, trace, Skipped(tool, Note(decision.reason))), answered + 1,
                  ConfirmResolved(trace[answered].id, decision));
        ToldLater(world, trace, Emit(world, trace, Skipped(tool, Note(decision.reason))), asked + 1,
                  ConfirmRequired(trace[answered].id, tool, args));
        trace := Emit(world, trace, Skipped(tool, Note(decision.reason)));
        assert trace[..answered + 1] == refused[..answered + 1];
        RefusalText(world, trace, asked, answered, call);
        return ToolReply(call.id, Denial(world, decision.reason)), trace, false;
      }
    }
    reply, trace, failed := DispatchTool(world, call, tool, args, before, trace, asked, answered);
  }

  lemma TruncatedText(payload: string)
    ensures Truncate(payload) == if |payload| <= 50000 then payload else payload[..50000] + "...(truncated)"
  {
  }

  lemma QuietLength(before: Trace, after: Trace)
    requires Quiet(before, after)
    ensures |before| <= |after| && before <= after
  {
  }

  /** Runs the calls of one round in order. It fails on a hole in the list and when a tool throws. */
  method RunTools(world: World, calls: seq<Option<Call>>, before: Trace)
    returns (replies: seq<Message>, trace: Trace, failed: bool)
    requires Guarded(world, before)
    ensures Quiet(before, trace) && Guarded(world, trace)
    ensures !failed ==> RepliesTo(replies, calls) && AllAnswered(world, before, trace, calls, replies)
    ensures Holed(calls) ==> failed
    ensures failed ==> Holed(calls) || Threw(world, trace)
  {
    hide *;
    replies, trace, failed := [], before, false;
    QuietItself(before);
    NothingAnswered(world, before, calls);
    for k := 0 to |calls|
      invariant Quiet(before, trace) && Guarded(world, trace)
      invariant |replies| == k && AllAnswered(world, before, trace, calls, replies)
      invariant forall i :: 0 <= i < k ==> calls[i].Some?
    {
      if calls[k].None? {
        HoledAt(calls, k);
        return replies, trace, true;
      }
      var reply;
      ghost var sofar := trace;
      reply, trace, failed := RunTool(world, calls[k].value, trace);
      QuietTransitive(before, sofar, trace);
      if failed { return; }
      QuietLength(before, sofar);
      QuietLength(sofar, trace);
      AnsweredExtend(world, before, sofar, trace, calls, replies);
      AnsweredEarlier(world, before, sofar, trace, calls[k].value, reply);
      MoreAnswered(world, before, trace, calls, replies, reply);
      replies := replies + [reply];
    }
    AnsweredReplies(world, before, trace, calls, replies);
    NotHoled(calls);
  }

  lemma HoledAt(calls: seq<Option<Call>>, k: nat)
    requires k < |calls| && calls[k].None?
    ensures Holed(calls)
  {
  }

  lemma NotHoled(calls: seq<Option<Call>>)
    requires forall i :: 0 <= i < |calls| ==> calls[i].Some?
    ensures !Holed(calls)
  {
  }

  lemma NothingAnswered(world: World, before: Trace, calls: seq<Option<Call>>)
    ensures AllAnswered(world, before, before, calls, [])
  {
  }

  lemma AnsweredEarlier(world: World, before: Trace, sofar: Trace, trace: Trace, call: Call, reply: Message)
    requires AnsweredBy(world, sofar, trace, call, reply) && |before| <= |sofar|
    ensures AnsweredBy(world, before, trace, call, reply)
  {
    hide DispatchedAt;
    hide DeniedAt;
  }

  lemma AllAnsweredEarlier(world: World, before: Trace, sofar: Trace, trace: Trace, calls: seq<Option<Call>>,
                           replies: seq<Message>)
    requires AllAnswered(world, sofar, trace, calls, replies) && |before| <= |sofar|
    ensures AllAnswered(world, before, trace, calls, replies)
  {
    hide AnsweredBy;
    forall i | 0 <= i < |replies| ensures AnsweredBy(world, before, trace, calls[i].value, replies[i]) {
      AnsweredEarlier(world, before, sofar, trace, calls[i].value, replies[i]);
    }
  }

  lemma AnsweredReplies(world: World, before: Trace, trace: Trace, calls: seq<Option<Call>>, replies: seq<Message>)
    requires AllAnswered(world, before, trace, calls, replies) && |replies| == |calls|
    ensures RepliesTo(replies, calls)
  {
    hide DispatchedAt;
    hide DeniedAt;
  }

  // ----- the loop -----

  lemma {:induction false} QuietFetches(world: World, before: Trace, after: Trace, initial: seq<Message>)
    requires Quiet(before, after) && Continued(world, before, initial)
    ensures Fetches(after) == Fetches(before) && LastFetch(after) == LastFetch(before)
    ensures Continued(world, after, initial)
    decreases |after|
  {
    hide Continues;
    if |after| == |before| {
      assert after == before;
    } else {
      QuietFetches(world, before, after[..|after| - 1], initial);
    }
  }

  /** The messages gathered so far may be sent next. */
  ghost predicate Pending(world: World, trace: Trace, initial: seq<Message>, messages: seq<Message>)
  {
    if LastFetch(trace).None? then messages == initial
    else
      var i := LastFetch(trace).value;
      Continues(world, trace[..i + 1], trace, trace[i].messages, messages)
  }

  /** What holds of the history of one chat request. */
  ghost predicate Protocol(world: World, trace: Trace, initial: seq<Message>)
  {
    && CompleteRequests(trace, initial)
    && Continued(world, trace, initial)
    && Fetches(trace) <= 8
    && Guarded(world, trace)
    && DoneOnlyLast(trace)
  }

  /** The same while the chat is running, after `n` requests. */
  ghost predicate Underway(world: World, trace: Trace, initial: seq<Message>, n: nat)
  {
    && CompleteRequests(trace, initial)
    && Continued(world, trace, initial)
    && Fetches(trace) == n
    && Guarded(world, trace)
    && NoDone(trace)
  }

  /** Between two requests: `messages` is what the next one carries. */
  ghost predicate Ready(world: World, trace: Trace, initial: seq<Message>, messages: seq<Message>, n: nat)
  {
    && Underway(world, trace, initial, n)
    && Pending(world, trace, initial, messages)
    && initial <= messages && Rounds(messages[|initial|..])
  }

  lemma Start(world: World, initial: seq<Message>)
    ensures Ready(world, [], initial, initial, 0)
  {
  }

  lemma RequestStep(world: World, trace: Trace, initial: seq<Message>, messages: seq<Message>, n: nat)
    requires Ready(world, trace, initial, messages, n)
    ensures var t := trace + [Fetch(messages)];
      Underway(world, t, initial, n + 1) && Guarded(world, t) && LastFetch(t) == Some(|trace|)
  {
    hide Continues;
    hide Rounds;
    var t := trace + [Fetch(messages)];
    GuardedExtend(world, trace, t);
    assert t[..|t| - 1] == trace;
  }

  lemma QuietStep(world: World, before: Trace, after: Trace, initial: seq<Message>, n: nat)
    requires Underway(world, before, initial, n) && Quiet(before, after) && Guarded(world, after)
    ensures Underway(world, after, initial, n) && LastFetch(after) == LastFetch(before)
  {
    hide Continued;
    hide Rounds;
    QuietFetches(world, before, after, initial);
  }

  /** A complete round after an answer makes the next request ready. */
  lemma RoundStep(world: World, asked: Trace, trace: Trace, initial: seq<Message>, messages: seq<Message>,
                  text: Option<string>, calls: seq<Option<Call>>, replies: seq<Message>, n: nat)
    requires Underway(world, trace, initial, n) && LastFetch(trace) == Some(|asked| - 1)
    requires asked != [] && asked[|asked| - 1] == Fetch(messages) && asked <= trace
    requires initial <= messages && Rounds(messages[|initial|..])
    requires world.respond(asked).Stream? && calls == Assemble(FragmentsOf(world.respond(asked).chunks))
    requires text == NonEmpty(ContentOf(world.respond(asked).chunks))
    requires calls != [] && RepliesTo(replies, calls) && AllAnswered(world, asked, trace, calls, replies)
    ensures Ready(world, trace, initial, messages + ([Assistant(text, calls)] + replies), n)
  {
    hide Assemble;
    hide RepliesTo;
    hide AllAnswered;
    hide Underway;
    hide Rounds;
    var round := [Assistant(text, calls)] + replies;
    var later := messages + round;
    OneRound(text, calls, replies);
    RoundsAppend(messages[|initial|..], round);
    assert later[|initial|..] == messages[|initial|..] + round;
    assert trace[..|asked|] == asked;
    assert later[|messages| + 1..] == replies;
  }

  lemma Finish(world: World, trace: Trace, initial: seq<Message>, n: nat)
    requires Underway(world, trace, initial, n) && n <= MAX_TOOL_ITERATIONS
    ensures Protocol(world, trace, initial) && NoDone(trace)
    ensures Protocol(world, trace + [Write(Done)], initial)
  {
    hide Continues;
    hide Rounds;
    var t := trace + [Write(Done)];
    GuardedExtend(world, trace, t);
    assert t[..|t| - 1] == trace;
  }

  /** An answer after which nothing is left to ask: a refusal, or text without tool calls. */
  predicate Final(answer: Response)
  {
    || answer.Refused?
    || (answer.Stream? && !answer.broken && (FinishOf(answer.chunks) != "tool_calls"
      || FragmentsOf(answer.chunks) == []))
  }

  /** Why the loop may fail: the gateway is out of reach, its stream breaks off, it asks for a tool call that
      it never sent, or a tool throws. */
  ghost predicate Failing(world: World, trace: Trace)
  {
    LastFetch(trace).Some? && Fails(world, trace[..LastFetch(trace).value + 1], trace)
  }

  ghost predicate Fails(world: World, asked: Trace, trace: Trace)
  {
    match world.respond(asked)
    case Unreachable => true
    case Refused(_) => false
    case Stream(chunks, broken) =>
      || broken
      || (FinishOf(chunks) == "tool_calls" && (Holed(Assemble(FragmentsOf(chunks))) || Threw(world, trace)))
  }

  lemma FailsIs(world: World, asked: Trace, trace: Trace)
    requires asked != [] && asked <= trace && LastFetch(trace) == Some(|asked| - 1) && Fails(world, asked, trace)
    ensures Failing(world, trace)
  {
    hide Fails;
    hide LastFetch;
    assert trace[..|asked|] == asked;
  }

  /** The client is shown every answer: the chunks with content right after the request, or the error of a
      gateway that refuses, as long as it listens. */
  ghost predicate Shown(world: World, trace: Trace)
  {
    forall i :: 0 <= i < |trace| && trace[i].Fetch? ==> AnswerShown(world, trace[..i + 1], trace)
  }

  ghost predicate AnswerShown(world: World, asked: Trace, trace: Trace)
    requires |asked| <= |trace|
  {
    match world.respond(asked)
    case Unreachable => true
    case Refused(status) => Told(world, trace, |asked|, UpstreamError(status))
    case Stream(chunks, _) => Forwarded(world, asked, chunks) <= trace
  }

  lemma AnswerShownLonger(world: World, asked: Trace, trace: Trace, longer: Trace)
    requires asked <= trace <= longer && AnswerShown(world, asked, trace)
    ensures AnswerShown(world, asked, longer)
  {
    hide Forwarded;
    hide Told;
    match world.respond(asked) {
      case Refused(status) => ToldLater(world, trace, longer, |asked|, UpstreamError(status));
      case _ =>
    }
  }

  /** Later events that are no requests change nothing in what was shown. */
  lemma ShownLonger(world: World, before: Trace, after: Trace)
    requires Shown(world, before) && before <= after && forall i :: |before| <= i < |after| ==> !after[i].Fetch?
    ensures Shown(world, after)
  {
    hide AnswerShown;
    forall i | 0 <= i < |after| && after[i].Fetch? ensures AnswerShown(world, after[..i + 1], after) {
      assert after[..i + 1] == before[..i + 1];
      AnswerShownLonger(world, before[..i + 1], before, after);
    }
  }

  /** A request and its answer. */
  lemma ShownMore(world: World, before: Trace, messages: seq<Message>, after: Trace)
    requires Shown(world, before) && before + [Fetch(messages)] <= after
    requires forall i :: |before| < i < |after| ==> !after[i].Fetch?
    requires AnswerShown(world, before + [Fetch(messages)], after)
    ensures Shown(world, after)
  {
    hide AnswerShown;
    var asked := before + [Fetch(messages)];
    assert after[..|asked|] == asked;
    forall i | 0 <= i < |after| && after[i].Fetch? ensures AnswerShown(world, after[..i + 1], after) {
      if i < |before| {
        assert after[..i + 1] == before[..i + 1];
        AnswerShownLonger(world, before[..i + 1], before, after);
      }
    }
  }

  lemma QuietShown(world: World, before: Trace, messages: seq<Message>, first: Trace, after: Trace)
    requires Shown(world, before) && before + [Fetch(messages)] <= first
    requires AnswerShown(world, before + [Fetch(messages)], first)
    requires Quiet(before + [Fetch(messages)], first) && Quiet(first, after)
    ensures Shown(world, after)
  {
    hide AnswerShown;
    hide Shown;
    AnswerShownLonger(world, before + [Fetch(messages)], first, after);
    ShownMore(world, before, messages, after);
  }

  /** Why the loop may stop: all requests are used up, the client is gone, or the last answer was final. */
  ghost predicate Over(world: World, trace: Trace)
  {
    || Fetches(trace) == 8
    || (exists k :: 0 <= k <= |trace| && world.aborted(trace[..k]))
    || (LastFetch(trace).Some? && Final(world.respond(trace[..LastFetch(trace).value + 1])))
  }

  lemma AbortedIsOver(world: World, trace: Trace)
    requires world.aborted(trace)
    ensures Over(world, trace)
  {
    assert trace[..|trace|] == trace;
  }

  lemma FinalIsOver(world: World, asked: Trace, trace: Trace)
    requires asked != [] && asked <= trace && LastFetch(trace) == Some(|asked| - 1) && Final(world.respond(asked))
    ensures Over(world, trace)
  {
    assert trace[..|asked|] == asked;
  }

  lemma OverAfterDone(world: World, trace: Trace)
    requires Over(world, trace)
    ensures Over(world, trace + [Write(Done)])
  {
    var t := trace + [Write(Done)];
    assert t[..|t| - 1] == trace;
    if k :| 0 <= k <= |trace| && world.aborted(trace[..k]) {
      assert t[..k] == trace[..k];
    }
    if LastFetch(trace).Some? { assert t[..LastFetch(trace).value + 1] == trace[..LastFetch(trace).value + 1]; }
  }

  lemma NothingAssembled(fs: seq<Fragment>)
    ensures Assemble(fs) == [] <==> fs == []
  {
  }

  /** Sends one request and reads its answer. `failed` stands for an exception; `last` means that no
      further request follows. */
  method RunRound(world: World, initial: seq<Message>, messages: seq<Message>, before: Trace, ghost n: nat)
    returns (trace: Trace, failed: bool, last: bool, next: seq<Message>)
    requires Ready(world, before, initial, messages, n) && Shown(world, before)
    ensures Underway(world, trace, initial, n + 1) && Shown(world, trace)
    ensures failed ==> Failing(world, trace)
    ensures !failed && !last ==> Ready(world, trace, initial, next, n + 1)
    ensures !failed && last ==> Over(world, trace)
  {
    assert initial <= messages && Rounds(messages[|initial|..]);
    hide *;
    trace, failed, last, next := before + [Fetch(messages)], false, true, messages;
    RequestStep(world, before, initial, messages, n);
    ghost var asked := trace;
    var response := world.respond(trace);
    QuietItself(asked);
    if response.Unreachable? {
      AnswerIsShown(world, asked, trace);
      QuietShown(world, before, messages, trace, trace);
      FailureIs(world, asked, trace);
      return trace, true, true, messages;
    }
    if response.Refused? {
      EmitQuiet(world, asked, trace, UpstreamError(response.status));
      EmitTells(world, trace, UpstreamError(response.status));
      trace := Emit(world, trace, UpstreamError(response.status));
      QuietStep(world, asked, trace, initial, n + 1);
      QuietPrefix(asked, trace);
      AnswerIsShown(world, asked, trace);
      QuietItself(trace);
      QuietShown(world, before, messages, trace, trace);
      RefusedIsFinal(response);
      FinalIsOver(world, asked, trace);
      return;
    }
    var content, calls, finish;
    ForwardedQuiet(world, trace, response.chunks);
    trace, content, calls, finish := ConsumeStream(world, response.chunks, trace);
    QuietStep(world, asked, trace, initial, n + 1);
    QuietPrefix(asked, trace);
    AnswerIsShown(world, asked, trace);
    QuietItself(trace);
    QuietShown(world, before, messages, trace, trace);
    if response.broken {
      FailureIs(world, asked, trace);
      return trace, true, true, messages;
    }
    if world.aborted(trace) {
      AbortedIsOver(world, trace);
      return;
    }
    NothingAssembled(FragmentsOf(response.chunks));
    if finish != "tool_calls" || calls == [] {
      TextIsFinal(response);
      FinalIsOver(world, asked, trace);
      return;
    }
    var replies;
    ghost var consumed := trace;
    replies, trace, failed := RunTools(world, calls, trace);
    QuietStep(world, consumed, trace, initial, n + 1);
    QuietPrefix(consumed, trace);
    QuietShown(world, before, messages, consumed, trace);
    if failed {
      FailureIs(world, asked, trace);
      return;
    }
    last := false;
    AllAnsweredEarlier(world, asked, consumed, trace, calls, replies);
    var text := NonEmpty(content);
    RoundStep(world, asked, trace, initial, messages, text, calls, replies, n + 1);
    next := messages + ([Assistant(text, calls)] + replies);
  }

  lemma AnswerIsShown(world: World, asked: Trace, first: Trace)
    requires |asked| <= |first|
    requires var answer := world.respond(asked);
      && (answer.Refused? ==> Told(world, first, |asked|, UpstreamError(answer.status)))
      && (answer.Stream? ==> first == Forwarded(world, asked, answer.chunks))
    ensures AnswerShown(world, asked, first)
  {
    hide Forwarded;
    hide Told;
  }

  lemma FailureIs(world: World, asked: Trace, trace: Trace)
    requires asked != [] && asked <= trace && LastFetch(trace) == Some(|asked| - 1)
    requires var answer := world.respond(asked);
      answer.Unreachable? || (answer.Stream? && (answer.broken || (FinishOf(answer.chunks) == "tool_calls"
        && (Holed(Assemble(FragmentsOf(answer.chunks))) || Threw(world, trace)))))
    ensures Failing(world, trace)
  {
    hide LastFetch;
    hide Holed;
    hide Threw;
    hide FinishOf;
    FailsIs(world, asked, trace);
  }

  lemma RefusedIsFinal(answer: Response)
    requires answer.Refused?
    ensures Final(answer)
  {
  }

  lemma TextIsFinal(answer: Response)
    requires answer.Stream? && !answer.broken
    requires FinishOf(answer.chunks) != "tool_calls" || FragmentsOf(answer.chunks) == []
    ensures Final(answer)
  {
  }

  lemma QuietPrefix(before: Trace, after: Trace)
    requires Quiet(before, after)
    ensures before <= after
  {
  }

  lemma AllUsed(world: World, trace: Trace, initial: seq<Message>, n: nat)
    requires Underway(world, trace, initial, n) && n == MAX_TOOL_ITERATIONS
    ensures Over(world, trace)
  {
    hide Continued;
    hide Rounds;
  }

  /** `runChatToolLoop`. `failed` stands for an exception. */
  method RunChatToolLoop(world: World, initial: seq<Message>) returns (trace: Trace, failed: bool)
    ensures Protocol(world, trace, initial)
    ensures failed ==> exists n: nat :: n <= MAX_TOOL_ITERATIONS && Underway(world, trace, initial, n)
    ensures !failed ==> (trace != [] && trace[|trace| - 1] == Write(Done)) || world.ended(trace)
    ensures !failed ==> Over(world, trace)
    ensures failed ==> Failing(world, trace)
    ensures Shown(world, trace)
  {
    assert MAX_TOOL_ITERATIONS == 8;
    NothingShown(world);
    hide *;
    trace, failed := [], false;
    var messages := initial;
    Start(world, initial);
    var iter := 0;
    var last := false;
    while iter < MAX_TOOL_ITERATIONS && !last
      invariant 0 <= iter <= MAX_TOOL_ITERATIONS
      invariant Underway(world, trace, initial, iter) && Shown(world, trace)
      invariant !last ==> Ready(world, trace, initial, messages, iter)
      invariant last ==> Over(world, trace)
      decreases MAX_TOOL_ITERATIONS - iter, !last
    {
      if world.aborted(trace) {
        AbortedIsOver(world, trace);
        break;
      }
      trace, failed, last, messages := RunRound(world, initial, messages, trace, iter);
      iter := iter + 1;
      if failed {
        Finish(world, trace, initial, iter);
        return;
      }
    }
    Finish(world, trace, initial, iter);
    if iter == MAX_TOOL_ITERATIONS { AllUsed(world, trace, initial, iter); }
    OverAfterDone(world, trace);
    ShownLonger(world, trace, trace + [Write(Done)]);
    if !world.ended(trace) { trace := trace + [Write(Done)]; }
  }

  lemma NothingShown(world: World)
    ensures Shown(world, [])
  {
  }

  /** The loop with its error path: an exception is reported and then the stream is closed,
      if there is still someone to tell. */
  method ChatCompletions(world: World, initial: seq<Message>)
    returns (trace: Trace, ghost loop: Trace, ghost failed: bool)
    ensures Protocol(world, trace, initial) && Shown(world, trace)
    ensures if failed then Failing(world, loop) else Over(world, loop)
    ensures trace == if failed && !world.aborted(loop) && !world.ended(loop)
                     then loop + [Write(StreamError), Write(Done)] else loop
    ensures (trace != [] && trace[|trace| - 1] == Write(Done)) || world.ended(trace) || world.aborted(trace)
  {
    hide *;
    var broke;
    trace, broke := RunChatToolLoop(world, initial);
    loop, failed := trace, broke;
    if broke && !world.aborted(trace) && !world.ended(trace) {
      ghost var n: nat :| n <= MAX_TOOL_ITERATIONS && Underway(world, trace, initial, n);
      ErrorStep(world, trace, initial, n);
      ShownLonger(world, trace, trace + [Write(StreamError), Write(Done)]);
      assert trace + [Write(StreamError)] + [Write(Done)] == trace + [Write(StreamError), Write(Done)];
      trace := trace + [Write(StreamError), Write(Done)];
    }
  }

  lemma ErrorStep(world: World, trace: Trace, initial: seq<Message>, n: nat)
    requires Underway(world, trace, initial, n) && n <= MAX_TOOL_ITERATIONS
    ensures Protocol(world, trace + [Write(StreamError)] + [Write(Done)], initial)
  {
    hide Continued;
    hide Rounds;
    var t := trace + [Write(StreamError)];
    GuardedExtend(world, trace, t);
    QuietStep(world, trace, t, initial, n);
    Finish(world, t, initial, n);
  }
}
