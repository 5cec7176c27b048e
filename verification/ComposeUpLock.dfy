/** Starting the containers of a package (packages/dockerApi/src/dockerComposeUp.ts): one run at a time
    per compose file, and what a run starts. */
module ComposeUpLock {
  import opened Wrappers
  import opened Strings

  const CORE := "core.dnp.dappnode.eth"
  const MUST_BE_RUNNING := ["bind.dnp.dappnode.eth", "dappmanager.dnp.dappnode.eth"]

  // ----- what should run -----

  datatype ContainerState = Removing | Exited | Created | Dead | Paused | Restarting | Running

  datatype Container = Container(dnpName: string, serviceName: string, state: ContainerState)

  datatype Target = Stopped | Up

  /** `getContainerTargetStatus`. */
  function TargetOf(c: Container): (t: Target)
    ensures t == Stopped <==> c.dnpName !in MUST_BE_RUNNING && c.state in {Removing, Exited, Created}
  {
    if c.dnpName in MUST_BE_RUNNING then Up
    else
      match c.state
      case Removing => Stopped
      case Exited => Stopped
      case Created => Stopped
      case _ => Up
  }

  /** The last container of a service decides. */
  function TargetsOf(cs: seq<Container>): map<string, Target>
  {
    if cs == [] then map[] else TargetsOf(cs[..|cs| - 1])[cs[|cs| - 1].serviceName := TargetOf(cs[|cs| - 1])]
  }

  /** `getContainersStatus`. */
  method GetContainersStatus(cs: seq<Container>) returns (status: map<string, Target>)
    ensures status == TargetsOf(cs)
    ensures status.Keys == set i | 0 <= i < |cs| :: cs[i].serviceName
  {
    status := map[];
    for i := 0 to |cs|
      invariant status == TargetsOf(cs[..i])
      invariant status.Keys == set j | 0 <= j < i :: cs[j].serviceName
    {
      assert cs[..i + 1][..i] == cs[..i];
      status := status[cs[i].serviceName := TargetOf(cs[i])];
    }
    assert cs[..|cs|] == cs;
  }

  // ----- what a run asks Docker for -----

  datatype Options = Options(noStart: bool, serviceNames: Option<seq<string>>, forceRecreate: bool)

  datatype Command = ComposeUp(options: Options) | ComposeDown

  /** How Docker answers a command. */
  datatype Answer = Done | RenameClash | Failed

  /** What a run needs to know: the services of the file, and those being removed. */
  datatype Request = Request(dnpName: string, services: seq<string>, removing: bool, upAll: bool,
                             status: Option<map<string, Target>>, options: Options)

  predicate ToStart(status: Option<map<string, Target>>, n: string)
  {
    status.Some? && !(n in status.value && status.value[n] == Stopped)
  }

  function Filtered(status: Option<map<string, Target>>, services: seq<string>): (r: seq<string>)
    ensures |r| <= |services|
    ensures forall n :: n in r <==> n in services && ToStart(status, n)
    ensures |r| == |services| <==> forall n :: n in services ==> ToStart(status, n)
  {
    if services == [] then []
    else if ToStart(status, services[0]) then [services[0]] + Filtered(status, services[1..])
    else Filtered(status, services[1..])
  }

  /** The commands of a run in order, the ones that Docker refused included, and whether it succeeded;
      `answer` says how Docker takes the i-th command. */
  method RunComposeUp(q: Request, answer: nat -> Answer) returns (commands: seq<Command>, ok: bool)
    ensures (commands, ok) == Commands(q, answer)
  {
    commands, ok := [], false;
    if q.removing { return; }
    var toStart := Filtered(q.status, q.services);
    var failure;
    if q.upAll || |q.services| == |toStart| || q.dnpName == CORE {
      commands := [ComposeUp(q.options)];
      failure := answer(0);
    } else {
      commands := [ComposeUp(q.options.(noStart := true))];
      failure := answer(0);
      if failure == Done && |toStart| > 0 {
        commands := commands + [ComposeUp(q.options.(serviceNames := Some(toStart)))];
        assert commands == [ComposeUp(q.options.(noStart := true)),
          ComposeUp(q.options.(serviceNames := Some(toStart)))];
        failure := answer(1);
      }
    }
    if failure == RenameClash {
      var tried := commands;
      commands := tried + [ComposeDown];
      if answer(|tried|) == Done {
        commands := commands + [ComposeUp(q.options)];
        assert commands == tried + [ComposeDown, ComposeUp(q.options)];
        ok := answer(|tried| + 1) == Done;
      }
    } else {
      ok := failure == Done;
    }
  }

  predicate StartsAll(q: Request)
  {
    q.upAll || q.dnpName == CORE || forall n :: n in q.services ==> ToStart(q.status, n)
  }

  function FirstTry(q: Request, answer: nat -> Answer): (seq<Command>, Answer)
  {
    var toStart := Filtered(q.status, q.services);
    if StartsAll(q) then ([ComposeUp(q.options)], answer(0))
    else if answer(0) == Done && toStart != [] then
      ([ComposeUp(q.options.(noStart := true)), ComposeUp(q.options.(serviceNames := Some(toStart)))], answer(1))
    else ([ComposeUp(q.options.(noStart := true))], answer(0))
  }

  function Commands(q: Request, answer: nat -> Answer): (seq<Command>, bool)
  {
    if q.removing then ([], false)
    else
      var (tried, last) := FirstTry(q, answer);
      if last != RenameClash then (tried, last == Done)
      else if answer(|tried|) != Done then (tried + [ComposeDown], false)
      else (tried + [ComposeDown, ComposeUp(q.options)], answer(|tried| + 1) == Done)
  }

  /** The services that a command starts. */
  predicate Starts(c: Command, services: seq<string>, n: string)
  {
    c.ComposeUp? && !c.options.noStart && n in services
      && (c.options.serviceNames.Some? ==> n in c.options.serviceNames.value)
  }

  predicate Started(q: Request, answer: nat -> Answer, n: string)
  {
    exists i :: 0 <= i < |Commands(q, answer).0| && Starts(Commands(q, answer).0[i], q.services, n)
  }

  /** The services that the caller's own options ask for. */
  predicate AskedFor(q: Request, n: string)
  {
    q.options.serviceNames.Some? ==> n in q.options.serviceNames.value
  }

  /** The run takes everything down and starts over. */
  predicate StartsOver(q: Request, answer: nat -> Answer)
  {
    FirstTry(q, answer).1 == RenameClash && answer(|FirstTry(q, answer).0|) == Done
  }

  lemma CommandsAre(q: Request, answer: nat -> Answer)
    ensures var (tried, last) := FirstTry(q, answer);
      Commands(q, answer).0 ==
        if q.removing then []
        else if last != RenameClash then tried
        else if answer(|tried|) != Done then tried + [ComposeDown]
        else tried + [ComposeDown, ComposeUp(q.options)]
  {
    hide FirstTry;
  }

  lemma StartedByFirst(q: Request, answer: nat -> Answer, n: string)
    ensures (exists i :: 0 <= i < |FirstTry(q, answer).0| && Starts(FirstTry(q, answer).0[i], q.services, n)) <==>
      (&& !q.options.noStart && n in q.services
       && (if StartsAll(q) then AskedFor(q, n) else ToStart(q.status, n) && answer(0) == Done))
  {
    var tried := FirstTry(q, answer).0;
    var toStart := Filtered(q.status, q.services);
    hide StartsAll;
    if StartsAll(q) {
      assert tried[0] == ComposeUp(q.options);
    } else if answer(0) == Done && toStart != [] {
      var second := ComposeUp(q.options.(serviceNames := Some(toStart)));
      assert tried[1] == second;
      assert Starts(second, q.services, n) <==> !q.options.noStart && n in toStart;
    } else {
      assert n in q.services && ToStart(q.status, n) ==> n in toStart;
    }
  }

  lemma StartsAmong(a: seq<Command>, b: seq<Command>, services: seq<string>, n: string)
    ensures (exists i :: 0 <= i < |a + b| && Starts((a + b)[i], services, n)) <==>
      (exists i :: 0 <= i < |a| && Starts(a[i], services, n)) || (exists i :: 0 <= i < |b| && Starts(b[i], services, n))
  {
    hide Starts;
    if i :| 0 <= i < |a| && Starts(a[i], services, n) { assert (a + b)[i] == a[i]; }
    if i :| 0 <= i < |b| && Starts(b[i], services, n) { assert (a + b)[|a| + i] == b[i]; }
  }

  /** Exactly what a run asks to start: all services if everything is to run, else those that should
      run once the containers were created; and all of them again when it starts over. */
  lemma StartsExactly(q: Request, answer: nat -> Answer, n: string)
    ensures Started(q, answer, n) <==>
      (&& !q.removing && !q.options.noStart && n in q.services
       && (|| (if StartsAll(q) then AskedFor(q, n) else ToStart(q.status, n) && answer(0) == Done)
           || (StartsOver(q, answer) && AskedFor(q, n))))
  {
    hide FirstTry;
    hide Commands;
    hide StartsAll;
    var tried := FirstTry(q, answer).0;
    CommandsAre(q, answer);
    StartedByFirst(q, answer, n);
    StartsAmong(tried, [ComposeDown], q.services, n);
    StartsAmong(tried, [ComposeDown, ComposeUp(q.options)], q.services, n);
    var over := [ComposeDown, ComposeUp(q.options)];
    assert over[1] == ComposeUp(q.options);
  }

  lemma {:induction false} TargetFromState(cs: seq<Container>, i: nat)
    requires i < |cs|
    requires forall j :: i < j < |cs| ==> cs[j].serviceName != cs[i].serviceName
    ensures cs[i].serviceName in TargetsOf(cs) && TargetsOf(cs)[cs[i].serviceName] == TargetOf(cs[i])
  {
    if i < |cs| - 1 { TargetFromState(cs[..|cs| - 1], i); }
  }

  /** The containers that are left stopped: those that Docker shows as removing, exited or created, except
      for two core packages. */
  predicate LeftStopped(c: Container)
  {
    && c.dnpName !in {"bind.dnp.dappnode.eth", "dappmanager.dnp.dappnode.eth"}
    && (c.state == Removing || c.state == Exited || c.state == Created)
  }

  lemma TargetIs(c: Container)
    ensures TargetOf(c) == Stopped <==> LeftStopped(c)
  {
  }

  /** From the container to the command: the service of a container that was stopped stays so, unless
      all are asked for, exactly as long as the run does not start over; that of any other is started
      once the containers were created. */
  lemma ContainerDecides(q: Request, answer: nat -> Answer, cs: seq<Container>, i: nat)
    requires !q.upAll && q.dnpName != "core.dnp.dappnode.eth"
    requires q.status == Some(TargetsOf(cs)) && i < |cs|
    requires forall j :: i < j < |cs| ==> cs[j].serviceName != cs[i].serviceName
    ensures var n := cs[i].serviceName;
      && (LeftStopped(cs[i]) ==> (Started(q, answer, n) <==>
            !q.removing && !q.options.noStart && n in q.services && AskedFor(q, n) && StartsOver(q, answer)))
      && (!LeftStopped(cs[i]) && AskedFor(q, n) && answer(0) == Done ==> (Started(q, answer, n) <==>
            !q.removing && !q.options.noStart && n in q.services))
  {
    hide *;
    CoreIs();
    TargetDecides(q, cs, i);
    StartsByTarget(q, answer, cs[i].serviceName);
  }

  lemma CoreIs()
    ensures CORE == "core.dnp.dappnode.eth"
  {
  }

  lemma TargetDecides(q: Request, cs: seq<Container>, i: nat)
    requires q.status == Some(TargetsOf(cs)) && i < |cs|
    requires forall j :: i < j < |cs| ==> cs[j].serviceName != cs[i].serviceName
    ensures ToStart(q.status, cs[i].serviceName) <==> !LeftStopped(cs[i])
  {
    hide TargetsOf;
    hide LeftStopped;
    TargetIs(cs[i]);
    TargetFromState(cs, i);
  }

  lemma StartsByTarget(q: Request, answer: nat -> Answer, n: string)
    requires !q.upAll && q.dnpName != CORE
    ensures !ToStart(q.status, n) ==> (Started(q, answer, n) <==>
      !q.removing && !q.options.noStart && n in q.services && AskedFor(q, n) && StartsOver(q, answer))
    ensures ToStart(q.status, n) && AskedFor(q, n) && answer(0) == Done ==> (Started(q, answer, n) <==>
      !q.removing && !q.options.noStart && n in q.services)
  {
    hide StartsOver;
    hide Started;
    hide ToStart;
    hide AskedFor;
    StartsExactly(q, answer, n);
  }

  /** Concretely: a stopped service is started when Docker reports a rename clash. */
  lemma ClashStartsStopped()
    ensures var q := Request("p", ["a"], false, false, Some(TargetsOf([Container("p", "a", Exited)])),
      Options(false, None, false));
      TargetOf(Container("p", "a", Exited)) == Stopped
      && Started(q, i => if i == 0 then RenameClash else Done, "a")
  {
    var cs := [Container("p", "a", Exited)];
    var q := Request("p", ["a"], false, false, Some(TargetsOf(cs)), Options(false, None, false));
    var answer := i => if i == 0 then RenameClash else Done;
    assert |"p"| == 1;
    assert TargetOf(cs[0]) == Stopped;
    TargetIs(cs[0]);
    TargetFromState(cs, 0);
    assert q.services[0] == "a" && !ToStart(q.status, q.services[0]);
    assert Filtered(q.status, q.services) == [];
    assert FirstTry(q, answer).1 == RenameClash;
    ContainerDecides(q, answer, cs, 0);
  }

  // ----- the commands, option by option -----

  /** A service is left out of the start: nothing is known of the containers, or it was stopped. */
  predicate StaysDown(q: Request, n: string)
  {
    q.status.None? || (n in q.status.value && q.status.value[n] == Stopped)
  }

  lemma StaysDownIs(q: Request, n: string)
    ensures StaysDown(q, n) <==> !ToStart(q.status, n)
  {
  }

  /** The positions of the services that do not stay down, in order. */
  ghost function UpAt(q: Request, services: seq<string>): (r: seq<nat>)
    ensures forall i :: 0 <= i < |r| ==> r[i] < |services| && !StaysDown(q, services[r[i]])
    ensures forall i, j :: 0 <= i < j < |r| ==> r[i] < r[j]
    ensures forall k :: 0 <= k < |services| && !StaysDown(q, services[k]) ==> k in r
  {
    Positions(services, n => !StaysDown(q, n))
  }

  lemma UpAtMore(q: Request, services: seq<string>, n: string)
    ensures UpAt(q, services + [n]) == UpAt(q, services) + if StaysDown(q, n) then [] else [|services|]
  {
    hide StaysDown;
    assert (services + [n])[..|services|] == services;
  }

  /** The names at these positions. */
  ghost predicate Picks(services: seq<string>, at: seq<nat>, names: seq<string>)
  {
    |names| == |at| && forall i :: 0 <= i < |at| ==> at[i] < |services| && names[i] == services[at[i]]
  }

  lemma PicksMore(services: seq<string>, at: seq<nat>, names: seq<string>, n: string)
    requires Picks(services, at, names)
    ensures Picks(services + [n], at, names) && Picks(services + [n], at + [|services|], names + [n])
    ensures at + [] == at && names + [] == names
  {
  }

  lemma NothingPicked(q: Request)
    ensures Picks([], UpAt(q, []), Filtered(q.status, []))
  {
  }

  lemma {:induction false} FilteredIs(q: Request, services: seq<string>)
    ensures Picks(services, UpAt(q, services), Filtered(q.status, services))
  {
    hide *;
    if services == [] {
      NothingPicked(q);
    } else {
      var front, last := services[..|services| - 1], services[|services| - 1];
      assert services == front + [last];
      FilteredIs(q, front);
      FilteredAppend(q.status, front, last);
      UpAtMore(q, front, last);
      StaysDownIs(q, last);
      PicksMore(front, UpAt(q, front), Filtered(q.status, front), last);
    }
  }

  lemma FilteredStep(status: Option<map<string, Target>>, n: string, rest: seq<string>)
    ensures Filtered(status, [n] + rest) == (if ToStart(status, n) then [n] else []) + Filtered(status, rest)
    ensures Filtered(status, []) == []
  {
    hide ToStart;
    assert ([n] + rest)[1..] == rest;
  }

  lemma Regrouped(a: seq<string>, b: seq<string>, c: seq<string>)
    ensures (a + b) + c == a + (b + c)
  {
  }

  lemma {:induction false} FilteredAppend(status: Option<map<string, Target>>, services: seq<string>, n: string)
    ensures Filtered(status, services + [n]) == Filtered(status, services) + if ToStart(status, n) then [n] else []
  {
    hide *;
    if services == [] {
      FilteredStep(status, n, []);
      assert [n] + [] == [n] && services + [n] == [n];
    } else {
      var first, rest := services[0], services[1..];
      FilteredAppend(status, rest, n);
      FilteredStep(status, first, rest);
      FilteredStep(status, first, rest + [n]);
      Regrouped([first], rest, [n]);
      assert services == [first] + rest;
      Regrouped(if ToStart(status, first) then [first] else [], Filtered(status, rest),
                if ToStart(status, n) then [n] else []);
    }
  }

  /** All is started at once: it is asked for, for the core package, or since no service stays down. */
  predicate AtOnce(q: Request)
  {
    q.upAll || q.dnpName == "core.dnp.dappnode.eth" || forall n :: n in q.services ==> !StaysDown(q, n)
  }

  /** The services that do not stay down, in order. */
  ghost predicate Rest(q: Request, names: seq<string>)
  {
    Picks(q.services, UpAt(q, q.services), names)
  }

  /** What a run tries first: everything with the caller's options, or creating the containers and then,
      if that went well, starting those that do not stay down. */
  ghost predicate Tries(q: Request, answer: nat -> Answer, tried: seq<Command>)
  {
    if AtOnce(q) then tried == [ComposeUp(q.options)]
    else
      var create := ComposeUp(Options(true, q.options.serviceNames, q.options.forceRecreate));
      exists names :: Rest(q, names)
        && tried == if answer(0) == Done && names != []
                    then [create, ComposeUp(Options(q.options.noStart, Some(names), q.options.forceRecreate))]
                    else [create]
  }

  lemma TriesFirst(q: Request, answer: nat -> Answer)
    ensures Tries(q, answer, FirstTry(q, answer).0)
    ensures FirstTry(q, answer).1 == answer(|FirstTry(q, answer).0| - 1)
  {
    FilteredIs(q, q.services);
    AtOnceIs(q);
    hide StaysDown;
    hide ToStart;
    hide Filtered;
    hide StartsAll;
    hide AtOnce;
    assert Rest(q, Filtered(q.status, q.services));
  }

  lemma AtOnceIs(q: Request)
    ensures AtOnce(q) <==> StartsAll(q)
  {
    hide StaysDown;
    hide ToStart;
    forall n { StaysDownIs(q, n); }
  }

  /** The commands of a run: what it tries first, and, when Docker answers that with a name clash, taking
      everything down and trying once more with the caller's options. It succeeds when the last command does. */
  lemma RunIs(q: Request, answer: nat -> Answer) returns (tried: seq<Command>)
    ensures q.removing ==> Commands(q, answer) == ([], false)
    ensures !q.removing ==> tried != [] && Tries(q, answer, tried)
    ensures !q.removing ==>
      Commands(q, answer) == if answer(|tried| - 1) != RenameClash then (tried, answer(|tried| - 1) == Done)
                             else if answer(|tried|) != Done then (tried + [ComposeDown], false)
                             else (tried + [ComposeDown, ComposeUp(q.options)], answer(|tried| + 1) == Done)
  {
    hide Tries;
    tried := FirstTry(q, answer).0;
    TriesFirst(q, answer);
  }

  // ----- one run at a time -----

  /** A caller asks for a run on a path, a run ends, well or not; each caller is known by a number. */
  datatype Step =
    | Call(caller: nat, path: string, exists_: bool)
    | Finish(caller: nat, ok: bool)

  datatype Event =
    | NoFile(caller: nat, path: string)
    | Busy(caller: nat, path: string)
    | Began(caller: nat, path: string)
    | Ended(caller: nat, path: string, ok: bool)

  /** The lock map, and the runs under way. */
  datatype State = State(locks: set<string>, active: map<nat, string>, log: seq<Event>)

  const INITIAL := State({}, map[], [])

  function Next(st: State, step: Step): State
  {
    match step
    case Call(caller, path, exists_) =>
      if caller in st.active then st
      else if !exists_ then st.(log := st.log + [NoFile(caller, path)])
      else if path in st.locks then st.(log := st.log + [Busy(caller, path)])
      else State(st.locks + {path}, st.active[caller := path], st.log + [Began(caller, path)])
    case Finish(caller, ok) =>
      if caller !in st.active then st
      else
        var path := st.active[caller];
        State(st.locks - {path}, st.active - {caller}, st.log + [Ended(caller, path, ok)])
  }

  function Run(st: State, steps: seq<Step>): State
    decreases steps
  {
    if steps == [] then st else Run(Next(st, steps[0]), steps[1..])
  }

  /** The lock map itself, changed in place around a run. */
  class ComposeUpLocks {
    var state: State

    constructor ()
      ensures state == INITIAL
    {
      state := INITIAL;
    }

    method Begin(caller: nat, path: string, exists_: bool) returns (admitted: bool)
      requires caller !in state.active
      modifies this
      ensures state == Next(old(state), Call(caller, path, exists_))
      ensures admitted <==> exists_ && path !in old(state).locks
      ensures state.log == old(state).log + [if !exists_ then NoFile(caller, path)
                                             else if path in old(state).locks then Busy(caller, path)
                                             else Began(caller, path)]
    {
      admitted := false;
      if !exists_ {
        state := state.(log := state.log + [NoFile(caller, path)]);
        return;
      }
      if path in state.locks {
        state := state.(log := state.log + [Busy(caller, path)]);
        return;
      }
      state := state.(active := state.active[caller := path], log := state.log + [Began(caller, path)]);
      state := state.(locks := state.locks + {path});
      admitted := true;
    }

    /** The `finally` of a run. */
    method End(caller: nat, ok: bool)
      requires caller in state.active
      modifies this
      ensures state == Next(old(state), Finish(caller, ok))
      ensures state.log == old(state).log + [Ended(caller, old(state).active[caller], ok)]
      ensures state.locks == old(state).locks - {old(state).active[caller]}
    {
      var path := state.active[caller];
      state := state.(active := state.active - {caller}, log := state.log + [Ended(caller, path, ok)]);
      state := state.(locks := state.locks - {path});
    }
  }

  /** The run under way on a path, as the log tells it. */
  function Holder(log: seq<Event>, path: string): Option<nat>
  {
    if log == [] then None
    else
      var before, e := Holder(log[..|log| - 1], path), log[|log| - 1];
      if e.Began? && e.path == path then Some(e.caller)
      else if e.Ended? && e.path == path then None
      else before
  }

  /** A run begins only on a free path, and is refused exactly on one that is not; it ends what it began. */
  predicate InOrder(log: seq<Event>, e: Event)
  {
    match e
    case NoFile(_, _) => true
    case Busy(_, path) => Holder(log, path).Some?
    case Began(_, path) => Holder(log, path).None?
    case Ended(caller, path, _) => Holder(log, path) == Some(caller)
  }

  predicate Orderly(log: seq<Event>)
  {
    log == [] || (Orderly(log[..|log| - 1]) && InOrder(log[..|log| - 1], log[|log| - 1]))
  }

  lemma AfterEvent(log: seq<Event>, e: Event, path: string)
    ensures Orderly(log + [e]) <==> Orderly(log) && InOrder(log, e)
    ensures Holder(log + [e], path) ==
      if e.Began? && e.path == path then Some(e.caller)
      else if e.Ended? && e.path == path then None
      else Holder(log, path)
  {
    assert (log + [e])[..|log|] == log;
  }

  ghost predicate Inv(st: State)
  {
    && Orderly(st.log)
    && (forall path :: path in st.locks <==> Holder(st.log, path).Some?)
    && (forall caller, path ::
          Holder(st.log, path) == Some(caller) <==> caller in st.active && st.active[caller] == path)
  }

  lemma StepKeeps(st: State, step: Step)
    requires Inv(st)
    ensures Inv(Next(st, step))
  {
    hide Orderly;
    hide Holder;
    var next := Next(st, step);
    if next != st {
      var e := next.log[|st.log|];
      assert next.log == st.log + [e];
      AfterEvent(st.log, e, "");
      forall path ensures Holder(next.log, path) ==
        if e.Began? && e.path == path then Some(e.caller)
        else if e.Ended? && e.path == path then None
        else Holder(st.log, path)
      {
        AfterEvent(st.log, e, path);
      }
    }
  }

  lemma {:induction false} RunKeeps(st: State, steps: seq<Step>)
    requires Inv(st)
    ensures Inv(Run(st, steps))
    decreases steps
  {
    hide Inv;
    hide Next;
    if steps != [] {
      StepKeeps(st, steps[0]);
      RunKeeps(Next(st, steps[0]), steps[1..]);
    }
  }

  lemma InitialInv()
    ensures Inv(INITIAL)
  {
  }

  /** No two runs on one path, and no lock without a run: once all runs have ended, all is free again. */
  lemma OneRunPerPath(st: State)
    requires Inv(st)
    ensures forall a, b :: a in st.active && b in st.active && st.active[a] == st.active[b] ==> a == b
    ensures st.locks == set a | a in st.active :: st.active[a]
    ensures st.active == map[] ==> st.locks == {}
  {
    hide Orderly;
    hide Holder;
    forall a, b | a in st.active && b in st.active && st.active[a] == st.active[b] ensures a == b {
      assert Holder(st.log, st.active[a]) == Some(a) && Holder(st.log, st.active[b]) == Some(b);
    }
    forall path ensures path in st.locks <==> exists a :: a in st.active && st.active[a] == path {
      if path in st.locks { assert Holder(st.log, path).value in st.active; }
    }
  }

  lemma {:induction false} OrderlyAt(log: seq<Event>, i: nat)
    requires Orderly(log) && i < |log|
    ensures InOrder(log[..i], log[i])
    decreases |log|
  {
    hide InOrder;
    if i < |log| - 1 {
      OrderlyAt(log[..|log| - 1], i);
      assert log[..|log| - 1][..i] == log[..i];
    }
  }

  /** Over every interleaving of callers, from the start: on each path one run at a time, calls are
      refused exactly because of a run on the same path, each run releases what it took, even when it
      fails, and no lock is left without a run. */
  lemma EveryRunOrderly(steps: seq<Step>)
    ensures var st := Run(INITIAL, steps);
      && (forall i :: 0 <= i < |st.log| ==> InOrder(st.log[..i], st.log[i]))
      && (forall a, b :: a in st.active && b in st.active && st.active[a] == st.active[b] ==> a == b)
      && st.locks == set a | a in st.active :: st.active[a]
  {
    hide *;
    InitialInv();
    RunKeeps(INITIAL, steps);
    var st := Run(INITIAL, steps);
    OneRunPerPath(st);
    InvOrderly(st);
    forall i | 0 <= i < |st.log| ensures InOrder(st.log[..i], st.log[i]) { OrderlyAt(st.log, i); }
  }

  lemma InvOrderly(st: State)
    requires Inv(st)
    ensures Orderly(st.log)
  {
    hide Orderly;
  }

  /** What happens on one path does not depend on the others. */
  lemma OtherPathsDoNotMatter(st: State, step: Step, path: string)
    requires Inv(st)
    requires match step
             case Call(_, p, _) => p != path
             case Finish(caller, _) => caller in st.active ==> st.active[caller] != path
    ensures path in Next(st, step).locks <==> path in st.locks
    ensures forall c ::
      (c in Next(st, step).active && Next(st, step).active[c] == path) <==> (c in st.active && st.active[c] == path)
  {
  }
}
