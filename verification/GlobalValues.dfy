/** When a listed container's package is updated and what is then written, by the values of its variables
    (packages/db/src/updatePkgsWithGlobalEnvs.ts). */
module GlobalValues {
  import opened Wrappers
  import opened Compose
  import opened Environment
  import opened ComposeEditor
  import opened GlobalEnvs

  /** A service has the variable with another value, and not both values mean no. */
  predicate Differs(envs: Envs, key: string, value: string)
  {
    key in envs && envs[key] != value && !(envs[key] == "" && value in ["", "false"])
  }

  /** The container's package came with the variable, is not the admin interface, and has a service with
      another value. */
  predicate Wants(c: Compose, k: Container, key: string, value: string)
  {
    && k.dnpName != "dappmanager.dnp.dappnode.eth"
    && k.defaults.Some? && key in k.defaults.value
    && exists n :: n in c.services && Differs(EnvsOf(c.services[n]), key, value)
  }

  lemma OutdatedIs(c: Compose, key: string, value: string)
    ensures Outdated(View(c), key, value) <==> exists n :: n in c.services && Differs(EnvsOf(c.services[n]), key, value)
  {
    hide EnvsOf;
    hide UpToDate;
    hide Differs;
    var view := View(c);
    forall n | n in c.services ensures n in view && (UpToDate(view[n], key, value) <==> !Differs(view[n], key, value)) {
      DiffersIs(view[n], key, value);
    }
    forall n ensures n in view <==> n in c.services { }
  }

  lemma DiffersIs(envs: Envs, key: string, value: string)
    ensures UpToDate(envs, key, value) <==> !Differs(envs, key, value)
  {
  }

  /** The file with the value given to one service. */
  function Given(c: Compose, n: string, key: string, value: string, order: KeyOrder): Compose
    requires n in c.services
  {
    WithEnvs(c, n, map[key := value], order(Merge(map[key := value], EnvsOf(c.services[n])).Keys))
  }

  lemma EditedIs(c: Compose, n: string, key: string, value: string, order: KeyOrder)
    ensures var d := Edited(c, map[n := map[key := value]], order);
      (d.Ok? <==> n in c.services) && (d.Ok? ==> d.value == Given(c, n, key, value, order))
  {
    hide Enumerates;
    hide EnvsOf;
    hide Merge;
    hide Environment.Print;
    EditedNamed(c, n, map[key := value], order);
    assert map[n := map[key := value]].Keys == {n};
    if n in c.services {
      assert EditedBy(c.services, map[n := map[key := value]], {n}, order) == Given(c, n, key, value, order).services;
    }
  }

  /** A visit: a container that wants no update is skipped; else its own service gets the value and the
      file is written, unless the package has no such service or the file does not pass. */
  lemma VisitIs(files: Files, k: Container, key: string, value: string, order: KeyOrder, canWrite: Compose -> bool)
    requires k.dnpName in files
    ensures var c := files[k.dnpName];
      var (next, outcome) := Visit(files, k, key, value, order, canWrite);
      && (outcome == Skipped <==> !Wants(c, k, key, value))
      && (outcome == Written <==>
            && Wants(c, k, key, value) && k.serviceName in c.services
            && canWrite(Given(c, k.serviceName, key, value, order)))
      && next == if outcome == Written
                 then files[k.dnpName := Saved(Given(c, k.serviceName, key, value, order), order)] else files
  {
    hide Enumerates;
    hide Edited;
    hide EnvsOf;
    hide Saved;
    hide Given;
    hide Outdated;
    hide View;
    hide Differs;
    OutdatedIs(files[k.dnpName], key, value);
    EditedIs(files[k.dnpName], k.serviceName, key, value, order);
  }
}
