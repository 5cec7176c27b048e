/** Spreading a changed global variable over the installed packages
    (packages/db/src/updatePkgsWithGlobalEnvs.ts). Compose files are entries of a map; the checks
    made before a file is written are a parameter. */
module GlobalEnvs {
  import opened Wrappers
  import opened Compose
  import opened Environment
  import opened ComposeEditor

  const DAPPMANAGER := "dappmanager.dnp.dappnode.eth"

  /** A listed container: its package, its service and the variables its package came with. */
  datatype Container = Container(dnpName: string, serviceName: string, defaults: Option<Envs>)

  type Files = map<string, Compose>

  /** What became of one listed container. */
  datatype Outcome = Skipped | Written | Failed

  /** The files and what became of the containers looked at; the walk stops at a missing file. */
  datatype Spread = Spread(files: Files, outcomes: seq<Outcome>)

  predicate Concerned(k: Container, key: string)
  {
    k.defaults.Some? && key in k.defaults.value && k.dnpName != DAPPMANAGER
  }

  /** The value needs no update: it is the new one, or both count as false. */
  predicate UpToDate(envs: Envs, key: string, value: string)
  {
    key in envs ==> envs[key] == value || (envs[key] == "" && (value == "" || value == "false"))
  }

  /** The variables of every service. */
  function View(c: Compose): map<string, Envs>
  {
    map n | n in c.services :: EnvsOf(c.services[n])
  }

  predicate Outdated(view: map<string, Envs>, key: string, value: string)
  {
    exists n :: n in view && !UpToDate(view[n], key, value)
  }

  // ----- writing variables -----

  function MergedService(s: Service, envs: Envs, order: KeyOrder): Service
  {
    var merged := Merge(envs, EnvsOf(s));
    s.(environment := Some(Rows(Print(merged, order(merged.Keys)))))
  }

  type Services = map<string, Service>

  /** The named services with their new variables. */
  function EditedBy(services: Services, byService: map<string, Envs>, names: set<string>, order: KeyOrder): Services
  {
    map n | n in services ::
      if n in names && n in byService then MergedService(services[n], byService[n], order) else services[n]
  }

  /** All services to be edited with their new variables; an error when one is missing. */
  function Edited(c: Compose, byService: map<string, Envs>, order: KeyOrder): Result<Compose, string>
  {
    if byService.Keys <= c.services.Keys then Ok(c.(services := EditedBy(c.services, byService, byService.Keys, order)))
    else Err("no such service")
  }

  lemma EditOneMore(services: Services, byService: map<string, Envs>, names: set<string>, name: string, order: KeyOrder)
    requires name !in names && name in services && name in byService
    ensures var d := EditedBy(services, byService, names, order);
      && name in d && d[name] == services[name]
      && EditedBy(services, byService, names + {name}, order)
        == d[name := MergedService(d[name], byService[name], order)]
  {
    hide Enumerates;
    hide MergedService;
    var d := EditedBy(services, byService, names, order);
    var e := EditedBy(services, byService, names + {name}, order);
    var f := d[name := MergedService(services[name], byService[name], order)];
    assert e.Keys == f.Keys;
    assert forall n :: n in services ==> e[n] == f[n];
  }

  lemma EditedNothing(services: Services, byService: map<string, Envs>, order: KeyOrder)
    ensures EditedBy(services, byService, {}, order) == services
  {
    hide Enumerates;
    hide MergedService;
  }

  lemma EditedKeys(services: Services, byService: map<string, Envs>, names: set<string>, order: KeyOrder)
    ensures EditedBy(services, byService, names, order).Keys == services.Keys
  {
    hide Enumerates;
    hide MergedService;
  }

  /** The loop of `packageSetEnvironment`: the editor merges one service after the other. */
  method EditServices(services0: Services, byService: map<string, Envs>, order: KeyOrder)
    returns (services: Services, found: bool)
    ensures found <==> byService.Keys <= services0.Keys
    ensures found ==> services == EditedBy(services0, byService, byService.Keys, order)
  {
    hide MergedService;
    hide EditedBy;
    hide Enumerates;
    var names := order(byService.Keys);
    KeysListed(order, byService.Keys);
    services, found := services0, true;
    EditedNothing(services0, byService, order);
    ghost var edited: set<string> := {};
    for i := 0 to |names|
      invariant forall j :: 0 <= j < i ==> names[j] in services0
      invariant forall n :: n in edited <==> n in names[..i]
      invariant services == EditedBy(services0, byService, edited, order)
    {
      EditedKeys(services0, byService, edited, order);
      if names[i] !in services {
        return services, false;
      }
      EditOneMore(services0, byService, edited, names[i], order);
      services := services[names[i] := MergedService(services[names[i]], byService[names[i]], order)];
      edited := edited + {names[i]};
    }
    assert edited == byService.Keys;
  }

  /** `packageSetEnvironment` up to the write. */
  method SetEnvironment(c: Compose, byService: map<string, Envs>, order: KeyOrder, canWrite: Compose -> bool)
    returns (r: Result<Compose, string>)
    ensures r == match Edited(c, byService, order)
                 case Err(e) => Err(e)
                 case Ok(d) => if canWrite(d) then Ok(Saved(d, order)) else Err("compose validation")
  {
    hide Enumerates;
    hide EditedBy;
    hide Saved;
    var services, found := EditServices(c.services, byService, order);
    if !found { return Err("no such service"); }
    var d := c.(services := services);
    if !canWrite(d) { return Err("compose validation"); }
    r := Ok(Saved(d, order));
  }

  // ----- the walk -----

  /** One container: nothing to do, or its own service gets the value, whichever service was outdated. */
  function Visit(files: Files, k: Container, key: string, value: string, order: KeyOrder, canWrite: Compose -> bool):
    (Files, Outcome)
    requires k.dnpName in files
  {
    var c := files[k.dnpName];
    if !Concerned(k, key) || !Outdated(View(c), key, value) then (files, Skipped)
    else
      match Edited(c, map[k.serviceName := map[key := value]], order)
      case Err(_) => (files, Failed)
      case Ok(d) => if canWrite(d) then (files[k.dnpName := Saved(d, order)], Written) else (files, Failed)
  }

  function Walk(files: Files, ks: seq<Container>, key: string, value: string, order: KeyOrder,
                canWrite: Compose -> bool): (r: Spread)
    ensures |r.outcomes| <= |ks|
  {
    if ks == [] then Spread(files, [])
    else
      var before := Walk(files, ks[..|ks| - 1], key, value, order, canWrite);
      var k := ks[|ks| - 1];
      if |before.outcomes| < |ks| - 1 then before
      else if !Concerned(k, key) then Spread(before.files, before.outcomes + [Skipped])
      else if k.dnpName !in before.files then before
      else
        var (next, outcome) := Visit(before.files, k, key, value, order, canWrite);
        Spread(next, before.outcomes + [outcome])
  }

  /** One container of the list. */
  method VisitContainer(files0: Files, k: Container, key: string, value: string, order: KeyOrder,
                        canWrite: Compose -> bool)
    returns (files: Files, outcome: Outcome)
    requires k.dnpName in files0 && Concerned(k, key)
    ensures (files, outcome) == Visit(files0, k, key, value, order, canWrite)
  {
    hide Edited;
    hide Saved;
    hide Outdated;
    hide View;
    hide Enumerates;
    files, outcome := files0, Skipped;
    var needsUpdate, byService := FindOutdated(files[k.dnpName], k, key, value, order);
    if needsUpdate {
      var written := SetEnvironment(files[k.dnpName], byService, order, canWrite);
      if written.Ok? { files := files[k.dnpName := written.value]; }
      outcome := if written.Ok? then Written else Failed;
    }
  }

  /** `updatePkgsWithGlobalEnvs`. */
  method UpdatePackages(files0: Files, ks: seq<Container>, key: string, value: string, order: KeyOrder,
                        canWrite: Compose -> bool)
    returns (files: Files, outcomes: seq<Outcome>)
    ensures Spread(files, outcomes) == Walk(files0, ks, key, value, order, canWrite)
  {
    hide *;
    files, outcomes := files0, [];
    EmptyWalk(files0, key, value, order, canWrite);
    for i := 0 to |ks|
      invariant |outcomes| == i
      invariant Spread(files, outcomes) == Walk(files0, ks[..i], key, value, order, canWrite)
    {
      assert ks[..i + 1][..i] == ks[..i];
      LastStep(files0, ks[..i + 1], key, value, order, canWrite);
      var k := ks[i];
      if !Concerned(k, key) {
        outcomes := outcomes + [Skipped];
      } else if k.dnpName !in files {
        StoppedWalk(files0, ks, i + 1, key, value, order, canWrite);
        return;
      } else {
        var outcome;
        files, outcome := VisitContainer(files, k, key, value, order, canWrite);
        outcomes := outcomes + [outcome];
      }
    }
    assert ks[..|ks|] == ks;
  }

  /** The inner loop: each outdated service asks for the same update, that of the container's service. */
  method FindOutdated(c: Compose, k: Container, key: string, value: string, order: KeyOrder)
    returns (needsUpdate: bool, byService: map<string, Envs>)
    ensures needsUpdate <==> Outdated(View(c), key, value)
    ensures byService == if needsUpdate then map[k.serviceName := map[key := value]] else map[]
  {
    hide EnvsOf;
    hide UpToDate;
    hide Enumerates;
    var names := order(c.services.Keys);
    KeysListed(order, c.services.Keys);
    var view := View(c);
    needsUpdate, byService := false, map[];
    for i := 0 to |names|
      invariant needsUpdate <==> exists j :: 0 <= j < i && !UpToDate(view[names[j]], key, value)
      invariant byService == if needsUpdate then map[k.serviceName := map[key := value]] else map[]
    {
      if !UpToDate(EnvsOf(c.services[names[i]]), key, value) {
        assert !UpToDate(view[names[i]], key, value);
        needsUpdate := true;
        byService := byService[k.serviceName := map[key := value]];
      }
    }
    if Outdated(view, key, value) {
      var n :| n in view && !UpToDate(view[n], key, value);
      assert n in names;
    }
  }

  lemma {:induction false} StoppedWalk(files: Files, ks: seq<Container>, i: nat, key: string, value: string,
                                       order: KeyOrder, canWrite: Compose -> bool)
    requires i <= |ks| && |Walk(files, ks[..i], key, value, order, canWrite).outcomes| < i
    ensures Walk(files, ks, key, value, order, canWrite) == Walk(files, ks[..i], key, value, order, canWrite)
    decreases |ks|
  {
    if i < |ks| {
      var shorter := ks[..|ks| - 1];
      assert shorter[..i] == ks[..i];
      StoppedWalk(files, shorter, i, key, value, order, canWrite);
    } else {
      assert ks[..i] == ks;
    }
  }

  // ----- what one visit changes -----

  ghost predicate PrintableView(view: map<string, Envs>)
  {
    forall n :: n in view ==> Printable(view[n])
  }

  ghost predicate Wellformed(files: Files)
  {
    forall p :: p in files ==> PrintableView(View(files[p]))
  }

  lemma MergedServiceEnvs(s: Service, key: string, value: string, order: KeyOrder)
    requires Printable(EnvsOf(s)) && PrintableEntry(key, value)
    ensures EnvsOf(MergedService(s, map[key := value], order)) == EnvsOf(s)[key := value]
    ensures Printable(EnvsOf(s)[key := value])
  {
    hide *;
    var merged := Merge(map[key := value], EnvsOf(s));
    MergeOne(EnvsOf(s), key, value);
    RoundTrip(merged, order(merged.Keys));
    MergedServiceRows(s, map[key := value], order);
  }

  lemma MergedServiceRows(s: Service, envs: Envs, order: KeyOrder)
    ensures var merged := Merge(envs, EnvsOf(s));
      EnvsOf(MergedService(s, envs, order)) == ParseRows(Print(merged, order(merged.Keys)))
  {
    hide Merge;
    hide ParseRows;
    hide Environment.Print;
    hide Enumerates;
  }

  lemma MergeOne(envs: Envs, key: string, value: string)
    requires Printable(envs) && PrintableEntry(key, value)
    ensures Merge(map[key := value], envs) == envs[key := value]
    ensures Printable(envs[key := value])
  {
    NamesNotEmpty(envs, key, value);
    hide PrintableEntry;
  }

  lemma NamesNotEmpty(envs: Envs, key: string, value: string)
    requires Printable(envs) && PrintableEntry(key, value)
    ensures key != "" && "" !in envs
  {
  }

  lemma SavedView(c: Compose, order: KeyOrder)
    requires PrintableView(View(c))
    ensures View(Saved(c, order)) == View(c)
  {
    hide Enumerates;
    hide EnvsOf;
    hide Printable;
    hide OutputService;
    forall n | n in c.services
      ensures n in Saved(c, order).services && EnvsOf(Saved(c, order).services[n]) == EnvsOf(c.services[n])
    {
      assert View(c)[n] == EnvsOf(c.services[n]);
      ReadOutputService(c.services[n], order(EnvsOf(c.services[n]).Keys));
    }
  }

  function Updated(view: map<string, Envs>, service: string, key: string, value: string): map<string, Envs>
    requires service in view
  {
    view[service := view[service][key := value]]
  }

  lemma EditedView(c: Compose, service: string, key: string, value: string, order: KeyOrder)
    requires service in c.services && PrintableEntry(key, value) && PrintableView(View(c))
    ensures var d := Edited(c, map[service := map[key := value]], order);
      d.Ok? && View(d.value) == Updated(View(c), service, key, value) && PrintableView(View(d.value))
  {
    hide Enumerates;
    hide MergedService;
    hide EnvsOf;
    hide Printable;
    hide PrintableEntry;
    assert View(c)[service] == EnvsOf(c.services[service]);
    MergedServiceEnvs(c.services[service], key, value, order);
    var d := c.(services := EditedBy(c.services, map[service := map[key := value]], {service}, order));
    assert map[service := map[key := value]].Keys == {service};
    assert View(d).Keys == View(c).Keys;
    forall n | n in c.services ensures View(d)[n] == Updated(View(c), service, key, value)[n] && Printable(View(d)[n]) {
      assert View(c)[n] == EnvsOf(c.services[n]);
    }
  }

  lemma EditedNamed(c: Compose, service: string, envs: Envs, order: KeyOrder)
    ensures Edited(c, map[service := envs], order).Ok? <==> service in c.services
  {
    hide Enumerates;
    hide EditedBy;
    if service in c.services { assert map[service := envs].Keys == {service}; }
    else { assert service in map[service := envs].Keys; }
  }

  /** All that a visit changes: a written file gives the value to the container's own service. */
  lemma VisitEffect(files: Files, k: Container, key: string, value: string, order: KeyOrder, canWrite: Compose -> bool)
    requires k.dnpName in files && Wellformed(files) && PrintableEntry(key, value)
    ensures var (next, outcome) := Visit(files, k, key, value, order, canWrite);
      && next.Keys == files.Keys && Wellformed(next)
      && (outcome == Skipped <==> !Concerned(k, key) || !Outdated(View(files[k.dnpName]), key, value))
      && (outcome == Written ==> k.serviceName in View(files[k.dnpName]))
      && forall p :: p in files ==>
           (View(next[p]) ==
            if outcome == Written && p == k.dnpName then Updated(View(files[p]), k.serviceName, key, value)
              else View(files[p]))
  {
    hide Enumerates;
    hide Edited;
    hide Saved;
    hide Outdated;
    hide PrintableEntry;
    hide PrintableView;
    var c := files[k.dnpName];
    EditedNamed(c, k.serviceName, map[key := value], order);
    if k.serviceName in c.services {
      EditedView(c, k.serviceName, key, value, order);
      SavedView(Edited(c, map[k.serviceName := map[key := value]], order).value, order);
    }
  }

  // ----- what the walk achieves -----

  /** A listed container whose own service is `n` of package `p`. */
  predicate Listed(ks: seq<Container>, p: string, n: string, key: string)
  {
    exists i :: 0 <= i < |ks| && ks[i].dnpName == p && ks[i].serviceName == n && Concerned(ks[i], key)
  }

  /** One service before and after: untouched, or listed and given the value. */
  predicate Touched(before: Envs, after: Envs, listed: bool, key: string, value: string)
  {
    after == before || (listed && after == before[key := value])
  }

  lemma LastStep(files: Files, ks: seq<Container>, key: string, value: string, order: KeyOrder,
                 canWrite: Compose -> bool)
    requires ks != []
    ensures var before := Walk(files, ks[..|ks| - 1], key, value, order, canWrite);
      var r := Walk(files, ks, key, value, order, canWrite);
      var k := ks[|ks| - 1];
      if |before.outcomes| < |ks| - 1 || (Concerned(k, key) && k.dnpName !in before.files) then r == before
      else if !Concerned(k, key) then r == Spread(before.files, before.outcomes + [Skipped])
      else r == Spread(Visit(before.files, k, key, value, order, canWrite).0,
                       before.outcomes + [Visit(before.files, k, key, value, order, canWrite).1])
  {
    hide Visit;
    hide Concerned;
    hide Enumerates;
  }

  lemma EmptyWalk(files: Files, key: string, value: string, order: KeyOrder, canWrite: Compose -> bool)
    ensures Walk(files, [], key, value, order, canWrite) == Spread(files, [])
  {
    hide Enumerates;
  }

  lemma {:induction false} WalkKeeps(files: Files, ks: seq<Container>, key: string, value: string, order: KeyOrder,
                                     canWrite: Compose -> bool)
    requires Wellformed(files) && PrintableEntry(key, value)
    ensures var r := Walk(files, ks, key, value, order, canWrite).files;
      r.Keys == files.Keys && Wellformed(r)
    decreases |ks|
  {
    hide *;
    if ks == [] {
      EmptyWalk(files, key, value, order, canWrite);
    } else {
      var shorter, k := ks[..|ks| - 1], ks[|ks| - 1];
      WalkKeeps(files, shorter, key, value, order, canWrite);
      LastStep(files, ks, key, value, order, canWrite);
      var mid := Walk(files, shorter, key, value, order, canWrite).files;
      if k.dnpName in mid { VisitEffect(mid, k, key, value, order, canWrite); }
    }
  }

  lemma ListedMore(ks: seq<Container>, p: string, n: string, key: string)
    requires ks != []
    ensures var k := ks[|ks| - 1];
      Listed(ks, p, n, key)
      <==> Listed(ks[..|ks| - 1], p, n, key) || (k.dnpName == p && k.serviceName == n && Concerned(k, key))
  {
    hide Concerned;
    var shorter := ks[..|ks| - 1];
    if Listed(shorter, p, n, key) {
      var i :| 0 <= i < |shorter| && shorter[i].dnpName == p && shorter[i].serviceName == n
        && Concerned(shorter[i], key);
      assert ks[i] == shorter[i];
    }
    if Listed(ks, p, n, key) {
      var i :| 0 <= i < |ks| && ks[i].dnpName == p && ks[i].serviceName == n && Concerned(ks[i], key);
      if i < |shorter| { assert shorter[i] == ks[i]; }
    }
  }

  lemma UpdatedAt(view: map<string, Envs>, service: string, key: string, value: string, n: string)
    requires service in view
    ensures Updated(view, service, key, value).Keys == view.Keys
    ensures n in view ==>
      Updated(view, service, key, value)[n] == if n == service then view[n][key := value] else view[n]
  {
  }

  lemma TouchedMore(before: Envs, mid: Envs, after: Envs, listed: bool, listedMore: bool, key: string, value: string)
    requires Touched(before, mid, listed, key, value) && (listed ==> listedMore)
    requires after == mid || (listedMore && after == mid[key := value])
    ensures Touched(before, after, listedMore, key, value)
  {
  }

  /** No file is lost, and no variable of any service changes but the key of listed containers' own
      services, which can only become the new value. */
  lemma {:induction false} OnlyTheKeyChanges(files: Files, ks: seq<Container>, key: string, value: string,
                                             order: KeyOrder, canWrite: Compose -> bool, p: string, n: string)
    requires Wellformed(files) && PrintableEntry(key, value) && p in files
    ensures var r := Walk(files, ks, key, value, order, canWrite).files;
      && r.Keys == files.Keys && View(r[p]).Keys == View(files[p]).Keys
      && (n in View(files[p]) ==> Touched(View(files[p])[n], View(r[p])[n], Listed(ks, p, n, key), key, value))
    decreases |ks|
  {
    hide *;
    WalkKeeps(files, ks, key, value, order, canWrite);
    if ks == [] {
      EmptyWalk(files, key, value, order, canWrite);
      if n in View(files[p]) { NotTouched(View(files[p])[n], Listed(ks, p, n, key), key, value); }
    } else {
      var shorter, k := ks[..|ks| - 1], ks[|ks| - 1];
      OnlyTheKeyChanges(files, shorter, key, value, order, canWrite, p, n);
      WalkKeeps(files, shorter, key, value, order, canWrite);
      LastStep(files, ks, key, value, order, canWrite);
      ListedMore(ks, p, n, key);
      var mid := Walk(files, shorter, key, value, order, canWrite).files;
      if k.dnpName in mid {
        VisitEffect(mid, k, key, value, order, canWrite);
        if p == k.dnpName && k.serviceName in View(mid[p]) { UpdatedAt(View(mid[p]), k.serviceName, key, value, n); }
      }
      if n in View(files[p]) {
        TouchedMore(View(files[p])[n], View(mid[p])[n], View(Walk(files, ks, key, value, order, canWrite).files[p])[n],
                    Listed(shorter, p, n, key), Listed(ks, p, n, key), key, value);
      }
    }
  }

  lemma NotTouched(envs: Envs, listed: bool, key: string, value: string)
    ensures Touched(envs, envs, listed, key, value)
  {
  }

  lemma UntouchedUnlessListed(before: Envs, after: Envs, key: string, value: string)
    requires Touched(before, after, false, key, value)
    ensures after == before
  {
  }

  lemma TouchedStaysUpToDate(before: Envs, after: Envs, listed: bool, key: string, value: string)
    requires Touched(before, after, listed, key, value) && UpToDate(before, key, value)
    ensures UpToDate(after, key, value)
  {
  }

  lemma GivenIsUpToDate(envs: Envs, key: string, value: string)
    ensures UpToDate(envs[key := value], key, value)
  {
  }

  lemma NotOutdated(view: map<string, Envs>, key: string, value: string, n: string)
    requires !Outdated(view, key, value) && n in view
    ensures UpToDate(view[n], key, value)
  {
    hide UpToDate;
  }

  lemma OutdatedBy(view: map<string, Envs>, key: string, value: string, n: string)
    requires n in view && !UpToDate(view[n], key, value)
    ensures Outdated(view, key, value)
  {
    hide UpToDate;
  }

  /** A visit leaves what is up to date so, and brings its own container up to date unless it fails. */
  lemma VisitBringsUpToDate(files: Files, k: Container, key: string, value: string, order: KeyOrder,
                            canWrite: Compose -> bool, p: string, n: string)
    requires k.dnpName in files && Wellformed(files) && PrintableEntry(key, value) && p in files && n in View(files[p])
    ensures var (next, outcome) := Visit(files, k, key, value, order, canWrite);
      && p in next && n in View(next[p])
      && (UpToDate(View(files[p])[n], key, value)
          || (k.dnpName == p && k.serviceName == n && Concerned(k, key) && outcome != Failed)
          ==> UpToDate(View(next[p])[n], key, value))
  {
    hide *;
    VisitEffect(files, k, key, value, order, canWrite);
    if k.serviceName in View(files[p]) { UpdatedAt(View(files[p]), k.serviceName, key, value, n); }
    GivenIsUpToDate(View(files[p])[n], key, value);
    if !Outdated(View(files[p]), key, value) { NotOutdated(View(files[p]), key, value, n); }
  }

  /** After the walk, every listed container whose update did not fail is up to date. */
  lemma {:induction false} ListedIsUpToDate(files: Files, ks: seq<Container>, key: string, value: string,
                                            order: KeyOrder, canWrite: Compose -> bool, i: nat)
    requires Wellformed(files) && PrintableEntry(key, value)
    requires var r := Walk(files, ks, key, value, order, canWrite);
      i < |r.outcomes| && r.outcomes[i] != Failed
    requires Concerned(ks[i], key) && ks[i].dnpName in files && ks[i].serviceName in View(files[ks[i].dnpName])
    ensures var r := Walk(files, ks, key, value, order, canWrite).files;
      && ks[i].dnpName in r && ks[i].serviceName in View(r[ks[i].dnpName])
      && UpToDate(View(r[ks[i].dnpName])[ks[i].serviceName], key, value)
    decreases |ks|
  {
    hide *;
    var p, n := ks[i].dnpName, ks[i].serviceName;
    if ks == [] {
      EmptyWalk(files, key, value, order, canWrite);
    } else {
      var shorter, k := ks[..|ks| - 1], ks[|ks| - 1];
      WalkKeeps(files, shorter, key, value, order, canWrite);
      OnlyTheKeyChanges(files, shorter, key, value, order, canWrite, p, n);
      LastStep(files, ks, key, value, order, canWrite);
      var before := Walk(files, shorter, key, value, order, canWrite);
      if i < |before.outcomes| {
        ListedIsUpToDate(files, shorter, key, value, order, canWrite, i);
      }
      if k.dnpName in before.files { VisitBringsUpToDate(before.files, k, key, value, order, canWrite, p, n); }
    }
  }

  // ----- a second walk -----

  /** Nothing to do: no concerned package has an outdated service. */
  predicate Quiet(files: Files, ks: seq<Container>, key: string, value: string)
  {
    forall i :: 0 <= i < |ks| && Concerned(ks[i], key) ==>
      ks[i].dnpName in files && !Outdated(View(files[ks[i].dnpName]), key, value)
  }

  predicate AllSkipped(outcomes: seq<Outcome>, n: nat)
  {
    |outcomes| == n && forall i :: 0 <= i < |outcomes| ==> outcomes[i] == Skipped
  }

  lemma SkippedMore(outcomes: seq<Outcome>, outcome: Outcome, n: nat)
    requires |outcomes| <= n
    ensures AllSkipped(outcomes + [outcome], n + 1) <==> AllSkipped(outcomes, n) && outcome == Skipped
    ensures !AllSkipped(outcomes, n + 1)
  {
    var more := outcomes + [outcome];
    assert forall i :: 0 <= i < |outcomes| ==> more[i] == outcomes[i];
    assert more[|outcomes|] == outcome;
  }

  lemma SkippedLength(outcomes: seq<Outcome>, n: nat)
    requires AllSkipped(outcomes, n)
    ensures |outcomes| == n
  {
  }

  lemma SkippedVisited(before: Files, files: Files, k: Container, key: string, value: string, order: KeyOrder,
                       canWrite: Compose -> bool)
    requires before == files
    ensures k.dnpName in files ==>
      (Visit(before, k, key, value, order, canWrite).1 == Skipped
       <==> !Concerned(k, key) || !Outdated(View(files[k.dnpName]), key, value))
    ensures k.dnpName in files && Visit(before, k, key, value, order, canWrite).1 == Skipped ==>
      Visit(before, k, key, value, order, canWrite).0 == files
  {
    hide *;
    if k.dnpName in files { SkippedVisit(files, k, key, value, order, canWrite); }
  }

  /** A walk skips every container, and so writes nothing, exactly when there is nothing to do. */
  lemma {:induction false} QuietWalk(files: Files, ks: seq<Container>, key: string, value: string, order: KeyOrder,
                                     canWrite: Compose -> bool)
    ensures AllSkipped(Walk(files, ks, key, value, order, canWrite).outcomes, |ks|) <==> Quiet(files, ks, key, value)
    ensures Quiet(files, ks, key, value) ==> Walk(files, ks, key, value, order, canWrite).files == files
    decreases |ks|
  {
    if ks == [] {
      EmptyWalk(files, key, value, order, canWrite);
    } else {
      hide *;
      var shorter, k := ks[..|ks| - 1], ks[|ks| - 1];
      QuietWalk(files, shorter, key, value, order, canWrite);
      LastStep(files, ks, key, value, order, canWrite);
      QuietMore(files, ks, key, value);
      var before := Walk(files, shorter, key, value, order, canWrite);
      SkippedMore(before.outcomes, Skipped, |shorter|);
      if Quiet(files, shorter, key, value) {
        SkippedVisited(before.files, files, k, key, value, order, canWrite);
        SkippedLength(before.outcomes, |shorter|);
      }
      if Concerned(k, key) && k.dnpName in before.files && |before.outcomes| == |shorter| {
        SkippedMore(before.outcomes, Visit(before.files, k, key, value, order, canWrite).1, |shorter|);
      }
    }
  }

  lemma SkippedVisit(files: Files, k: Container, key: string, value: string, order: KeyOrder, canWrite: Compose -> bool)
    requires k.dnpName in files
    ensures var (next, outcome) := Visit(files, k, key, value, order, canWrite);
      && (outcome == Skipped <==> !Concerned(k, key) || !Outdated(View(files[k.dnpName]), key, value))
      && (outcome == Skipped ==> next == files)
  {
    hide Edited;
    hide Saved;
    hide Outdated;
    hide Enumerates;
  }

  lemma QuietMore(files: Files, ks: seq<Container>, key: string, value: string)
    requires ks != []
    ensures var k := ks[|ks| - 1];
      Quiet(files, ks, key, value)
      <==> Quiet(files, ks[..|ks| - 1], key, value)
           && (Concerned(k, key) ==> k.dnpName in files && !Outdated(View(files[k.dnpName]), key, value))
  {
    hide Concerned;
    hide Outdated;
    var shorter := ks[..|ks| - 1];
    assert forall i :: 0 <= i < |shorter| ==> ks[i] == shorter[i];
  }

  /** Every outdated service of a package with a listed container is listed itself. */
  predicate Covered(files: Files, ks: seq<Container>, key: string, value: string)
  {
    forall i, n :: 0 <= i < |ks| && Concerned(ks[i], key) && ks[i].dnpName in files
      && n in View(files[ks[i].dnpName]) && !UpToDate(View(files[ks[i].dnpName])[n], key, value)
      ==> Listed(ks, ks[i].dnpName, n, key)
  }

  /** One walk without failures is enough exactly when every outdated service of the packages it
      visits is listed; a service that is not listed stays outdated for ever. */
  lemma ConvergesInOneWalk(files: Files, ks: seq<Container>, key: string, value: string, order: KeyOrder,
                           canWrite: Compose -> bool)
    requires Wellformed(files) && PrintableEntry(key, value)
    requires var r := Walk(files, ks, key, value, order, canWrite);
      |r.outcomes| == |ks| && forall i :: 0 <= i < |ks| ==> r.outcomes[i] != Failed
    requires forall i :: 0 <= i < |ks| && Concerned(ks[i], key) ==> ks[i].dnpName in files
    ensures Quiet(Walk(files, ks, key, value, order, canWrite).files, ks, key, value)
      <==> Covered(files, ks, key, value)
  {
    hide Walk;
    hide View;
    hide UpToDate;
    hide Outdated;
    hide Concerned;
    hide Wellformed;
    hide PrintableEntry;
    hide Listed;
    hide Enumerates;
    hide Touched;
    var r := Walk(files, ks, key, value, order, canWrite).files;
    WalkKeeps(files, ks, key, value, order, canWrite);
    if Covered(files, ks, key, value) {
      forall i | 0 <= i < |ks| && Concerned(ks[i], key) ensures !Outdated(View(r[ks[i].dnpName]), key, value) {
        CoveredPackage(files, ks, key, value, order, canWrite, i);
      }
    }
    if Quiet(r, ks, key, value) {
      forall i, n | 0 <= i < |ks| && Concerned(ks[i], key) && n in View(files[ks[i].dnpName])
          && !UpToDate(View(files[ks[i].dnpName])[n], key, value)
        ensures Listed(ks, ks[i].dnpName, n, key)
      {
        if !Listed(ks, ks[i].dnpName, n, key) {
          UnlistedStaysOutdated(files, ks, key, value, order, canWrite, ks[i].dnpName, n);
        }
      }
    }
  }

  lemma UnlistedStaysOutdated(files: Files, ks: seq<Container>, key: string, value: string, order: KeyOrder,
                              canWrite: Compose -> bool, p: string, n: string)
    requires Wellformed(files) && PrintableEntry(key, value) && p in files
    requires n in View(files[p]) && !UpToDate(View(files[p])[n], key, value) && !Listed(ks, p, n, key)
    ensures var r := Walk(files, ks, key, value, order, canWrite).files;
      p in r && Outdated(View(r[p]), key, value)
  {
    hide *;
    OnlyTheKeyChanges(files, ks, key, value, order, canWrite, p, n);
    UntouchedUnlessListed(
      View(files[p])[n], View(Walk(files, ks, key, value, order, canWrite).files[p])[n], key, value);
    OutdatedBy(View(Walk(files, ks, key, value, order, canWrite).files[p]), key, value, n);
  }

  /** A package with two services that have the variable. */
  function TwoServices(value: string): Files
  {
    var service := Service(Some(EnvField.Object(map["K" := value])), None, None, None, None, map[]);
    map["p" := Compose("3.5", map["a" := service, "b" := service], None, None)]
  }

  lemma TwoServicesAre(value: string)
    ensures TwoServices(value).Keys == {"p"}
    ensures View(TwoServices(value)["p"]) == map["a" := map["K" := value], "b" := map["K" := value]]
  {
  }

  lemma KPrintable(value: string)
    requires value == "old" || value == "new"
    ensures PrintableEntry("K", value)
  {
  }

  lemma TwoServicesWellformed()
    ensures Wellformed(TwoServices("old"))
  {
    hide PrintableEntry;
    hide View;
    hide TwoServices;
    TwoServicesAre("old");
    KPrintable("old");
  }

  lemma OldIsOutdated(view: map<string, Envs>)
    requires view == map["a" := map["K" := "old"], "b" := map["K" := "old"]]
    ensures "b" in view && !UpToDate(view["b"], "K", "new")
  {
    assert "old"[0] != "new"[0];
  }

  lemma OnlyAListed(ks: seq<Container>)
    requires ks == [Container("p", "a", Some(map["K" := "old"]))]
    ensures Concerned(ks[0], "K") && !Listed(ks, "p", "b", "K")
  {
    assert "p" != DAPPMANAGER by { assert |"p"| != |DAPPMANAGER|; }
  }

  /** Concretely: only the container of `a` is listed, and `b` keeps the old value for ever. */
  lemma UnlistedServiceIsForgotten(order: KeyOrder, canWrite: Compose -> bool)
    ensures var ks := [Container("p", "a", Some(map["K" := "old"]))];
      var r := Walk(TwoServices("old"), ks, "K", "new", order, canWrite).files;
      "p" in r && Outdated(View(r["p"]), "K", "new") && !Quiet(r, ks, "K", "new")
  {
    hide *;
    var files, ks := TwoServices("old"), [Container("p", "a", Some(map["K" := "old"]))];
    TwoServicesAre("old");
    TwoServicesWellformed();
    KPrintable("new");
    OldIsOutdated(View(files["p"]));
    OnlyAListed(ks);
    UnlistedStaysOutdated(files, ks, "K", "new", order, canWrite, "p", "b");
    NotQuiet(Walk(files, ks, "K", "new", order, canWrite).files, ks, "K", "new", 0);
  }

  lemma NotQuiet(files: Files, ks: seq<Container>, key: string, value: string, i: nat)
    requires i < |ks| && Concerned(ks[i], key) && ks[i].dnpName in files
      && Outdated(View(files[ks[i].dnpName]), key, value)
    ensures !Quiet(files, ks, key, value)
  {
    hide Outdated;
    hide Concerned;
  }

  lemma CoveredPackage(files: Files, ks: seq<Container>, key: string, value: string, order: KeyOrder,
                       canWrite: Compose -> bool, i: nat)
    requires Wellformed(files) && PrintableEntry(key, value) && Covered(files, ks, key, value)
    requires var r := Walk(files, ks, key, value, order, canWrite);
      |r.outcomes| == |ks| && forall i :: 0 <= i < |ks| ==> r.outcomes[i] != Failed
    requires i < |ks| && Concerned(ks[i], key) && ks[i].dnpName in files
    ensures var r := Walk(files, ks, key, value, order, canWrite).files;
      ks[i].dnpName in r && !Outdated(View(r[ks[i].dnpName]), key, value)
  {
    hide Walk;
    hide View;
    hide UpToDate;
    hide Concerned;
    hide Wellformed;
    hide PrintableEntry;
    hide Touched;
    hide Enumerates;
    var p := ks[i].dnpName;
    var r := Walk(files, ks, key, value, order, canWrite).files;
    WalkKeeps(files, ks, key, value, order, canWrite);
    OnlyTheKeyChanges(files, ks, key, value, order, canWrite, p, "");
    forall n | n in View(r[p]) ensures UpToDate(View(r[p])[n], key, value) {
      OnlyTheKeyChanges(files, ks, key, value, order, canWrite, p, n);
      if UpToDate(View(files[p])[n], key, value) {
        TouchedStaysUpToDate(View(files[p])[n], View(r[p])[n], Listed(ks, p, n, key), key, value);
      } else {
        var j :| 0 <= j < |ks| && ks[j].dnpName == p && ks[j].serviceName == n && Concerned(ks[j], key);
        ListedIsUpToDate(files, ks, key, value, order, canWrite, j);
      }
    }
  }
}
