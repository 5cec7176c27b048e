/** The cache of the documentation index (packages/nexus/src/context.ts, `fetchLlmsContext`), under any
    interleaving of callers and answers. */
module DocsCache {
  import opened Wrappers
  import DocsUrls

  const LLMS_TXT_TTL_MS := 24 * 60 * 60 * 1000
  const LLMS_TXT_MAX_BYTES := 60_000

  datatype Cached = Cached(fetchedAt: int, content: string)

  /** A fetch under way: when it was asked for, and who waits for it. */
  datatype Flight = Flight(startedAt: int, callers: seq<nat>)

  datatype Event =
    | Started(flight: nat, at: int)
    | Ended(flight: nat, text: Option<string>)
    | Answered(caller: nat, content: string)

  /** What can happen next: a call, during which starting the fetch may throw at once, or the end of a
      fetch, with the text received or a failure. */
  datatype Step =
    | Call(caller: nat, now: int, throws: bool)
    | Settle(flight: nat, text: Option<string>)

  /** `slice` and the note at the end. */
  function Clip(text: string): string
  {
    if |text| > LLMS_TXT_MAX_BYTES then text[..LLMS_TXT_MAX_BYTES] + "\n\n...(truncated)..." else text
  }

  /** What is cached of a text received: its links shortened, and clipped. */
  function Content(raw: string): string
  {
    Clip(DocsUrls.Stripped(raw))
  }

  // ----- what a log says -----

  /** The end of a fetch that brought a text. */
  predicate Success(e: Event)
  {
    e.Ended? && e.text.Some?
  }

  /** The content of the last successful fetch, empty when there is none. */
  function Latest(log: seq<Event>): string
  {
    if log == [] then ""
    else if Success(log[|log| - 1]) then log[|log| - 1].text.value
    else Latest(log[..|log| - 1])
  }

  /** When a fetch was started. */
  function StartOf(log: seq<Event>, flight: nat): Option<int>
  {
    if log == [] then None
    else if log[|log| - 1].Started? && log[|log| - 1].flight == flight then Some(log[|log| - 1].at)
    else StartOf(log[..|log| - 1], flight)
  }

  /** When the last successful fetch was started. */
  function LatestStart(log: seq<Event>): Option<int>
  {
    if log == [] then None
    else if Success(log[|log| - 1]) then StartOf(log[..|log| - 1], log[|log| - 1].flight)
    else LatestStart(log[..|log| - 1])
  }

  /** The fetches that have not ended. */
  function Open(log: seq<Event>): set<nat>
  {
    if log == [] then {}
    else
      var before, e := Open(log[..|log| - 1]), log[|log| - 1];
      if e.Started? then before + {e.flight} else if e.Ended? then before - {e.flight} else before
  }

  /** One event is in order: a fetch starts only when none is open and the last success is at least the
      time to live ago, and an answer is the content of the last success. */
  predicate InOrder(log: seq<Event>, e: Event)
  {
    match e
    case Started(_, at) =>
      Open(log) == {} && (LatestStart(log).Some? ==> at - LatestStart(log).value >= LLMS_TXT_TTL_MS)
    case Ended(flight, _) => flight in Open(log)
    case Answered(_, content) => content == Latest(log)
  }

  predicate Orderly(log: seq<Event>)
  {
    log == [] || (Orderly(log[..|log| - 1]) && InOrder(log[..|log| - 1], log[|log| - 1]))
  }

  // ----- the cache -----

  /** The fields of the context builder, the promises it handed out, and what has happened. */
  datatype State = State(
    cache: Option<Cached>,
    inflight: Option<nat>,
    running: map<nat, Flight>,
    settled: map<nat, string>,
    next: nat,
    log: seq<Event>)

  predicate Fresh(st: State, now: int)
  {
    st.cache.Some? && now - st.cache.value.fetchedAt < LLMS_TXT_TTL_MS
  }

  function Stale(st: State): string
  {
    if st.cache.Some? then st.cache.value.content else ""
  }

  function AnswerAll(callers: seq<nat>, content: string): seq<Event>
  {
    seq(|callers|, i requires 0 <= i < |callers| => Answered(callers[i], content))
  }

  /** `fetchLlmsContext`, up to its first suspension. A fetch that throws at once has ended, and cleared
      the field, before its promise is put into the field. */
  function Called(st: State, caller: nat, now: int, throws: bool): State
  {
    if Fresh(st, now) then st.(log := st.log + [Answered(caller, st.cache.value.content)])
    else
      match st.inflight
      case Some(f) =>
        if f in st.running then
          st.(running := st.running[f := st.running[f].(callers := st.running[f].callers + [caller])])
        else st.(log := st.log + [Answered(caller, if f in st.settled then st.settled[f] else "")])
      case None =>
        var f := st.next;
        if throws then
          st.(inflight := Some(f), settled := st.settled[f := Stale(st)], next := f + 1,
              log := st.log + [Started(f, now), Ended(f, None), Answered(caller, Stale(st))])
        else
          st.(inflight := Some(f), running := st.running[f := Flight(now, [caller])], next := f + 1,
              log := st.log + [Started(f, now)])
  }

  /** The rest of the fetch: the cache gets the text, the field is cleared, and all who wait are answered. */
  function Ends(st: State, f: nat, text: Option<string>): State
    requires f in st.running
  {
    var flight := st.running[f];
    var cache := if text.Some? then Some(Cached(flight.startedAt, Content(text.value))) else st.cache;
    var answer := if cache.Some? then cache.value.content else "";
    State(cache, None, st.running - {f}, st.settled[f := answer], st.next,
      st.log + [Ended(f, if text.Some? then Some(Content(text.value)) else None)] + AnswerAll(flight.callers, answer))
  }

  function Next(st: State, step: Step): State
  {
    match step
    case Call(caller, now, throws) => Called(st, caller, now, throws)
    case Settle(f, text) => if f in st.running then Ends(st, f, text) else st
  }

  function Run(st: State, steps: seq<Step>): State
    decreases steps
  {
    if steps == [] then st else Run(Next(st, steps[0]), steps[1..])
  }

  const INITIAL := State(None, None, map[], map[], 0, [])

  /** The object itself: its fields change in place, a step at a time. */
  class NexusContext {
    var state: State

    constructor ()
      ensures state == INITIAL
    {
      state := INITIAL;
    }

    /** A call of `fetchLlmsContext` until it returns a value or a promise. */
    method FetchLlmsContext(caller: nat, now: int, throws: bool) returns (answer: Option<string>)
      modifies this
      ensures state == Next(old(state), Call(caller, now, throws))
      ensures answer.Some? <==> state.log != old(state).log && state.log[|state.log| - 1].Answered?
    {
      if Fresh(state, now) {
        answer := Some(state.cache.value.content);
        state := state.(log := state.log + [Answered(caller, answer.value)]);
        return;
      }
      if state.inflight.Some? {
        var f := state.inflight.value;
        if f in state.running {
          var flight := state.running[f];
          state := state.(running := state.running[f := flight.(callers := flight.callers + [caller])]);
          return None;
        }
        answer := Some(if f in state.settled then state.settled[f] else "");
        state := state.(log := state.log + [Answered(caller, answer.value)]);
        return;
      }
      var f := state.next;
      state := state.(next := f + 1, log := state.log + [Started(f, now)]);
      if throws {
        // the failure is handled, and the field cleared, before the assignment below
        var content := if state.cache.Some? then state.cache.value.content else "";
        state := state.(inflight := None, settled := state.settled[f := content], log := state.log + [Ended(f, None)]);
        state := state.(inflight := Some(f), log := state.log + [Answered(caller, content)]);
        assert state.log == old(state).log + [Started(f, now), Ended(f, None), Answered(caller, content)];
        answer := Some(content);
      } else {
        state := state.(running := state.running[f := Flight(now, [caller])]);
        state := state.(inflight := Some(f));
        answer := None;
      }
    }

    /** What happens when the fetch has its text or has failed. */
    method SettleFetch(f: nat, text: Option<string>)
      requires f in state.running
      modifies this
      ensures state == Next(old(state), Settle(f, text))
    {
      var flight := state.running[f];
      if text.Some? {
        var stripped := DocsUrls.StripMdFromDocsUrls(text.value);
        state := state.(cache := Some(Cached(flight.startedAt, Clip(stripped))));
      }
      var answer := if state.cache.Some? then state.cache.value.content else "";
      state := state.(inflight := None, running := state.running - {f}, settled := state.settled[f := answer],
        log := state.log + [Ended(f, if text.Some? then Some(Content(text.value)) else None)]
          + AnswerAll(flight.callers, answer));
    }
  }

  // ----- every run -----

  /** The fields agree with what has happened, and so far everything was in order. */
  predicate Inv(st: State)
  {
    && Orderly(st.log)
    && Stale(st) == Latest(st.log)
    && (match LatestStart(st.log)
        case None => st.cache.None?
        case Some(at) => st.cache.Some? && st.cache.value.fetchedAt == at)
    && Open(st.log) == st.running.Keys
    && (forall f :: f in st.running ==>
          st.inflight == Some(f) && f < st.next && StartOf(st.log, f) == Some(st.running[f].startedAt))
    && (st.inflight.Some? && st.inflight.value !in st.running ==>
          st.inflight.value in st.settled && st.settled[st.inflight.value] == Stale(st))
  }

  lemma Append(log: seq<Event>, e: Event)
    ensures (log + [e])[..|log|] == log && (log + [e])[|log|] == e
  {
  }

  lemma AfterEvent(log: seq<Event>, e: Event)
    ensures Orderly(log + [e]) <==> Orderly(log) && InOrder(log, e)
    ensures Latest(log + [e]) == if Success(e) then e.text.value else Latest(log)
    ensures LatestStart(log + [e]) == if Success(e) then StartOf(log, e.flight) else LatestStart(log)
    ensures Open(log + [e]) ==
      if e.Started? then Open(log) + {e.flight} else if e.Ended? then Open(log) - {e.flight} else Open(log)
    ensures forall f :: StartOf(log + [e], f) == if e.Started? && e.flight == f then Some(e.at) else StartOf(log, f)
  {
    Append(log, e);
  }

  lemma {:induction false} AfterAnswers(log: seq<Event>, callers: seq<nat>, content: string)
    requires Orderly(log) && content == Latest(log)
    ensures var more := log + AnswerAll(callers, content);
      && Orderly(more) && Latest(more) == Latest(log) && LatestStart(more) == LatestStart(log)
        && Open(more) == Open(log)
      && forall f :: StartOf(more, f) == StartOf(log, f)
    decreases |callers|
  {
    hide Orderly;
    hide Latest;
    hide LatestStart;
    hide Open;
    hide StartOf;
    if callers == [] {
      assert log + AnswerAll(callers, content) == log;
    } else {
      var shorter, last := callers[..|callers| - 1], callers[|callers| - 1];
      AfterAnswers(log, shorter, content);
      var before := log + AnswerAll(shorter, content);
      assert log + AnswerAll(callers, content) == before + [Answered(last, content)];
      AfterEvent(before, Answered(last, content));
    }
  }

  lemma CallKeeps(st: State, caller: nat, now: int, throws: bool)
    requires Inv(st)
    ensures Inv(Called(st, caller, now, throws))
  {
    hide Orderly;
    hide Latest;
    hide LatestStart;
    hide Open;
    hide StartOf;
    var f := st.next;
    AfterEvent(st.log, Answered(caller, Stale(st)));
    AfterEvent(st.log, Started(f, now));
    if !Fresh(st, now) && st.inflight.None? && throws {
      var a := st.log + [Started(f, now)];
      AfterEvent(a, Ended(f, None));
      var b := a + [Ended(f, None)];
      AfterEvent(b, Answered(caller, Stale(st)));
      assert st.log + [Started(f, now), Ended(f, None), Answered(caller, Stale(st))]
        == b + [Answered(caller, Stale(st))];
    }
  }

  lemma SettleKeeps(st: State, f: nat, text: Option<string>)
    requires Inv(st) && f in st.running
    ensures Inv(Ends(st, f, text))
  {
    hide Orderly;
    hide Latest;
    hide LatestStart;
    hide Open;
    hide StartOf;
    var flight := st.running[f];
    var e := Ended(f, if text.Some? then Some(Content(text.value)) else None);
    AfterEvent(st.log, e);
    var next := Ends(st, f, text);
    AfterAnswers(st.log + [e], flight.callers, Stale(next));
    assert next.running.Keys == {};
  }

  lemma {:induction false} RunKeeps(st: State, steps: seq<Step>)
    requires Inv(st)
    ensures Inv(Run(st, steps)) && Orderly(Run(st, steps).log) && |Open(Run(st, steps).log)| <= 1
    decreases steps
  {
    if steps == [] {
      OneOpen(st);
    } else {
      hide *;
      RunOn(st, steps);
      StepKeeps(st, steps[0]);
      RunKeeps(Next(st, steps[0]), steps[1..]);
    }
  }

  lemma RunOn(st: State, steps: seq<Step>)
    requires steps != []
    ensures Run(st, steps) == Run(Next(st, steps[0]), steps[1..])
  {
    hide Next;
  }

  lemma StepKeeps(st: State, step: Step)
    requires Inv(st)
    ensures Inv(Next(st, step))
  {
    hide Inv;
    hide Called;
    hide Ends;
    match step {
      case Call(caller, now, throws) => CallKeeps(st, caller, now, throws);
      case Settle(f, text) => if f in st.running { SettleKeeps(st, f, text); }
    }
  }

  lemma OneOpen(st: State)
    requires Inv(st)
    ensures |Open(st.log)| <= 1
  {
    hide Orderly;
    hide Latest;
    hide LatestStart;
    hide StartOf;
    if st.inflight.Some? && st.inflight.value in st.running {
      assert Open(st.log) == {st.inflight.value};
    } else {
      assert Open(st.log) == {};
    }
  }

  lemma InitialInv()
    ensures Inv(INITIAL)
  {
  }

  /** An orderly log, event by event. */
  lemma {:induction false} OrderlyAt(log: seq<Event>, i: nat)
    requires Orderly(log) && i < |log|
    ensures InOrder(log[..i], log[i])
    decreases |log|
  {
    hide InOrder;
    if i < |log| - 1 {
      OrderlyAt(log[..|log| - 1], i);
      assert log[..|log| - 1][..i] == log[..i];
    }
  }

  /** Over every interleaving, from the start: at most one fetch is under way; a fetch starts only when
      no text is cached or the cached one is a day old; and every caller gets the text of the last
      successful fetch, or nothing when there was none. */
  lemma EveryRunOrderly(steps: seq<Step>)
    ensures var log := Run(INITIAL, steps).log;
      && |Open(log)| <= 1
      && forall i :: 0 <= i < |log| ==> InOrder(log[..i], log[i])
  {
    hide *;
    InitialInv();
    RunKeeps(INITIAL, steps);
    var log := Run(INITIAL, steps).log;
    forall i | 0 <= i < |log| ensures InOrder(log[..i], log[i]) { OrderlyAt(log, i); }
  }

  // ----- a fetch that throws at once -----

  /** A promise that has settled is still in the field. */
  predicate Stuck(st: State)
  {
    st.inflight.Some? && st.inflight.value in st.settled && st.running == map[]
  }

  predicate Starts(log: seq<Event>)
  {
    exists i :: 0 <= i < |log| && log[i].Started?
  }

  lemma StuckStep(st: State, step: Step)
    requires Stuck(st)
    ensures var next := Next(st, step);
      && Stuck(next) && next.cache == st.cache && next.settled == st.settled
      && (next.log == st.log || exists caller, content :: next.log == st.log + [Answered(caller, content)])
  {
  }

  /** Starting a fetch that throws at once blocks the cache: from then on nothing is fetched again. */
  lemma {:induction false} StuckForEver(st: State, steps: seq<Step>)
    requires Stuck(st)
    ensures Stuck(Run(st, steps)) && Run(st, steps).cache == st.cache
    ensures |st.log| <= |Run(st, steps).log| && Run(st, steps).log[..|st.log|] == st.log
    ensures !Starts(Run(st, steps).log[|st.log|..])
    decreases steps
  {
    hide Next;
    if steps != [] {
      StuckStep(st, steps[0]);
      var next := Next(st, steps[0]);
      StuckForEver(next, steps[1..]);
      var log := Run(st, steps).log;
      forall i | 0 <= i < |log| - |st.log| ensures !log[|st.log|..][i].Started? {
        if i >= |next.log| - |st.log| {
          assert log[|st.log|..][i] == log[|next.log|..][i - (|next.log| - |st.log|)];
        } else {
          assert log[|st.log|..][i] == next.log[|st.log| + i];
        }
      }
      assert log[..|st.log|] == next.log[..|st.log|];
    }
  }

  lemma NothingRunning(st: State)
    requires Inv(st) && st.inflight.Some? && st.inflight.value !in st.running
    ensures st.running == map[] && Stuck(st)
  {
    hide Orderly;
    hide Latest;
    hide LatestStart;
    hide Open;
    hide StartOf;
    assert st.running.Keys == {};
  }

  /** Exactly such a call blocks it: one that finds no fresh text and no fetch under way, and throws. */
  lemma BlocksExactlyOnThrow(st: State, step: Step)
    requires Inv(st) && !Stuck(st)
    ensures Stuck(Next(st, step)) <==> step.Call? && !Fresh(st, step.now) && st.inflight.None? && step.throws
  {
    hide Orderly;
    hide Latest;
    hide LatestStart;
    hide Open;
    hide StartOf;
    if st.inflight.Some? {
      if st.inflight.value !in st.running { NothingRunning(st); }
    }
  }

  /** Concretely: one call whose fetch throws at once, and the cache is blocked for good. */
  lemma BlockedByOneCall(steps: seq<Step>)
    ensures Stuck(Run(INITIAL, [Call(0, 0, true)])) && Stuck(Run(INITIAL, [Call(0, 0, true)] + steps))
  {
    var st := Next(INITIAL, Call(0, 0, true));
    assert [Call(0, 0, true)][1..] == [] && ([Call(0, 0, true)] + steps)[1..] == steps;
    assert Stuck(st);
    assert Run(st, []) == st;
    StuckForEver(st, steps);
  }

  // ----- every caller is answered once -----

  /** How often the caller has called. */
  function Calls(steps: seq<Step>, caller: nat): nat
    decreases steps
  {
    if steps == [] then 0
    else (if steps[0].Call? && steps[0].caller == caller then 1 else 0) + Calls(steps[1..], caller)
  }

  /** How often the caller has been answered. */
  function Answers(log: seq<Event>, caller: nat): nat
  {
    if log == [] then 0
    else
      var e := log[|log| - 1];
      Answers(log[..|log| - 1], caller) + if e.Answered? && e.caller == caller then 1 else 0
  }

  /** How often the caller waits for the fetch under way. */
  function Waits(st: State, caller: nat): nat
  {
    if st.inflight.Some? && st.inflight.value in st.running
    then multiset(st.running[st.inflight.value].callers)[caller] else 0
  }

  lemma AnswersMore(log: seq<Event>, e: Event, caller: nat)
    ensures Answers(log + [e], caller) == Answers(log, caller) + if e.Answered? && e.caller == caller then 1 else 0
  {
    Append(log, e);
  }

  lemma {:induction false} AllAnswered(log: seq<Event>, callers: seq<nat>, content: string, caller: nat)
    ensures Answers(log + AnswerAll(callers, content), caller) == Answers(log, caller) + multiset(callers)[caller]
    decreases |callers|
  {
    hide Answers;
    if callers == [] {
      assert log + AnswerAll(callers, content) == log;
    } else {
      var shorter, last := callers[..|callers| - 1], callers[|callers| - 1];
      AllAnswered(log, shorter, content, caller);
      var before := log + AnswerAll(shorter, content);
      assert log + AnswerAll(callers, content) == before + [Answered(last, content)];
      AnswersMore(before, Answered(last, content), caller);
      assert callers == shorter + [last];
    }
  }

  lemma CallCounts(st: State, caller: nat, now: int, throws: bool, other: nat)
    requires Inv(st)
    ensures var next := Called(st, caller, now, throws);
      Answers(next.log, other) + Waits(next, other)
      == Answers(st.log, other) + Waits(st, other) + if caller == other then 1 else 0
  {
    hide Orderly;
    hide Latest;
    hide LatestStart;
    hide Open;
    hide StartOf;
    hide Answers;
    var next := Called(st, caller, now, throws);
    if Fresh(st, now) {
      AnswersMore(st.log, Answered(caller, st.cache.value.content), other);
    } else if st.inflight.Some? {
      var f := st.inflight.value;
      AnswersMore(st.log, Answered(caller, if f in st.settled then st.settled[f] else ""), other);
    } else {
      var a := st.log + [Started(st.next, now)];
      var b := a + [Ended(st.next, None)];
      AnswersMore(st.log, Started(st.next, now), other);
      AnswersMore(a, Ended(st.next, None), other);
      AnswersMore(b, Answered(caller, Stale(st)), other);
      assert st.log + [Started(st.next, now), Ended(st.next, None), Answered(caller, Stale(st))]
        == b + [Answered(caller, Stale(st))];
      if throws { NoneRunning(st); }
    }
  }

  lemma NoneRunning(st: State)
    requires Inv(st) && st.inflight.None?
    ensures st.running == map[]
  {
    hide Orderly;
    hide Latest;
    hide LatestStart;
    hide Open;
    hide StartOf;
    assert st.running.Keys == {};
  }

  lemma SettleCounts(st: State, f: nat, text: Option<string>, caller: nat)
    requires Inv(st) && f in st.running
    ensures Answers(Ends(st, f, text).log, caller) + Waits(Ends(st, f, text), caller)
      == Answers(st.log, caller) + Waits(st, caller)
  {
    hide Orderly;
    hide Latest;
    hide LatestStart;
    hide Open;
    hide StartOf;
    hide Answers;
    var e := Ended(f, if text.Some? then Some(Content(text.value)) else None);
    AnswersMore(st.log, e, caller);
    AllAnswered(st.log + [e], st.running[f].callers, Stale(Ends(st, f, text)), caller);
  }

  lemma {:induction false} RunCounts(st: State, steps: seq<Step>, caller: nat)
    requires Inv(st)
    ensures Answers(Run(st, steps).log, caller) + Waits(Run(st, steps), caller)
      == Answers(st.log, caller) + Waits(st, caller) + Calls(steps, caller)
    decreases steps
  {
    if steps != [] {
      hide Inv;
      hide Waits;
      hide Answers;
      hide Called;
      hide Ends;
      StepKeeps(st, steps[0]);
      match steps[0] {
        case Call(other, now, throws) => CallCounts(st, other, now, throws, caller);
        case Settle(f, text) => if f in st.running { SettleCounts(st, f, text, caller); }
      }
      RunCounts(Next(st, steps[0]), steps[1..], caller);
    }
  }

  /** Over every interleaving each call is answered exactly once, but for those that wait for the fetch
      under way; when none is, nobody waits. */
  lemma EveryCallAnswered(steps: seq<Step>, caller: nat)
    ensures var st := Run(INITIAL, steps);
      && Answers(st.log, caller) + Waits(st, caller) == Calls(steps, caller)
      && (Open(st.log) == {} ==> Answers(st.log, caller) == Calls(steps, caller))
  {
    hide *;
    InitialInv();
    RunKeeps(INITIAL, steps);
    RunCounts(INITIAL, steps, caller);
    NothingYet(caller);
    NobodyWaits(Run(INITIAL, steps), caller);
  }

  lemma NothingYet(caller: nat)
    ensures Answers(INITIAL.log, caller) == 0 && Waits(INITIAL, caller) == 0
  {
  }

  lemma NobodyWaits(st: State, caller: nat)
    requires Inv(st)
    ensures Open(st.log) == {} ==> Waits(st, caller) == 0
  {
    hide Orderly;
    hide Latest;
    hide LatestStart;
    hide Open;
    hide StartOf;
  }

  // ----- what is fetched and when -----

  lemma ContentIs(raw: string)
    ensures var text := DocsUrls.Stripped(raw);
      Content(raw) == if |text| <= 60000 then text else text[..60000] + "\n\n...(truncated)..."
  {
  }

  /** A call starts a fetch exactly when none is under way, the cache is not blocked, and the last success
      is at least a day (in milliseconds) old. */
  lemma FetchesWhen(st: State, caller: nat, now: int, throws: bool)
    requires Inv(st)
    ensures var log, start := Called(st, caller, now, throws).log, LatestStart(st.log);
      && |log| >= |st.log|
      && ((exists i :: |st.log| <= i < |log| && log[i].Started?)
          <==> Open(st.log) == {} && !Stuck(st) && (start.Some? ==> now - start.value >= 86_400_000))
  {
    hide Orderly;
    hide Latest;
    hide LatestStart;
    hide Open;
    hide StartOf;
    var log := Called(st, caller, now, throws).log;
    if st.inflight.Some? && st.inflight.value !in st.running { NothingRunning(st); }
    if st.inflight.None? { NoneRunning(st); }
    if !Fresh(st, now) && st.inflight.None? { assert log[|st.log|] == Started(st.next, now); }
  }

  /** The text of a fetch that succeeds is the one that everybody gets from then on: its links stripped, at
      most 60000 characters of it and a note. */
  lemma SuccessIsLatest(st: State, f: nat, raw: string)
    requires Inv(st) && f in st.running
    ensures var text := DocsUrls.Stripped(raw);
      Latest(Ends(st, f, Some(raw)).log) ==
        if |text| <= 60000 then text else text[..60000] + "\n\n...(truncated)..."
    ensures Latest(Ends(st, f, None).log) == Latest(st.log)
  {
    ContentIs(raw);
    hide Inv;
    hide Latest;
    hide Content;
    SettleKeeps(st, f, Some(raw));
    SettleKeeps(st, f, None);
    StaleIsLatest(st);
    StaleIsLatest(Ends(st, f, Some(raw)));
    StaleIsLatest(Ends(st, f, None));
  }

  lemma StaleIsLatest(st: State)
    requires Inv(st)
    ensures Stale(st) == Latest(st.log)
  {
    hide Orderly;
    hide Latest;
    hide LatestStart;
    hide Open;
    hide StartOf;
  }
}
