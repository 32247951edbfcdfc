/** The startup reconciler (`main.rs`) over Docker's containers (`docker.rs`). */
module Reconciler {
  import opened Values
  import opened Text
  import opened Sdr
  import opened SdrEnrich
  import opened Tuners
  import opened AppLifecycle

  /** Docker's id of a container, its two labels, and the environment it was created with. */
  datatype Container = Container(id: string, managedBy: Option<string>, appId: Option<string>, env: Env)

  /** Containers by name, without Docker's leading slash. */
  type Containers = map<string, Container>

  const PREFIX := "airwaves-"

  function TrimPrefix(name: string): string
    decreases |name|
  {
    if PREFIX <= name then TrimPrefix(name[|PREFIX|..]) else name
  }

  function Prefixes(n: nat): string {
    if n == 0 then "" else PREFIX + Prefixes(n - 1)
  }

  /** What is left without any number of prefixes. */
  lemma {:induction false} TrimPrefixExactly(n: nat, bare: string)
    requires !(PREFIX <= bare)
    ensures TrimPrefix(Prefixes(n) + bare) == bare
  {
    if n == 0 {
      assert Prefixes(0) + bare == bare;
    } else {
      var name := Prefixes(n) + bare;
      assert name == PREFIX + (Prefixes(n - 1) + bare) && name[|PREFIX|..] == Prefixes(n - 1) + bare;
      TrimPrefixExactly(n - 1, bare);
    }
  }

  function ContainerName(id: string): string {
    PREFIX + id
  }

  /** An app container of ours: by name and by label, and neither the manager nor the gateway. */
  predicate IsManaged(name: string, c: Container) {
    PREFIX <= name && name != "airwaves-manager" && name != "airwaves-gateway" && c.managedBy == Some("airwaves")
  }

  function AppIdOf(name: string, c: Container): string {
    if c.appId.Some? then c.appId.value else TrimPrefix(name)
  }

  predicate Prunable(name: string, c: Container, recorded: set<string>) {
    IsManaged(name, c) && AppIdOf(name, c) !in recorded
  }

  /**
   What pruning leaves of the containers listed in `order`: it stops at the first one of `stuck` that it must
   remove.
   */
  function AfterPrune(cs: Containers, order: seq<string>, recorded: set<string>, stuck: set<string>): Containers
    decreases |order|
  {
    if order == [] then cs
    else if order[0] in cs && Prunable(order[0], cs[order[0]], recorded) then
      if order[0] in stuck then cs else AfterPrune(cs - {order[0]}, order[1..], recorded, stuck)
    else AfterPrune(cs, order[1..], recorded, stuck)
  }

  /** A listing names every container once. */
  ghost predicate ListsContainers(order: seq<string>, cs: Containers) {
    (forall n :: n in order <==> n in cs) && forall i, j | 0 <= i < j < |order| :: order[i] != order[j]
  }

  // ---- the environment of a created container --------------------------------------------------

  /** `normalize_acarsdec_gain`. */
  function NormalizedGain(env: Env): Env {
    if "GAIN" !in env then env
    else if Trim(env["GAIN"]) == "" then env - {"GAIN"}
    else if ToLower(Trim(env["GAIN"])) in ["auto", "autogain", "agc"] then env["GAIN" := "-10"]
    else env
  }

  /** `runtime_env_for_app`: acarsdec opens an RTL tuner natively by serial. */
  function RuntimeEnv(app: AppSpec): Env {
    if app.id != "acarsdec" then app.env
    else
      var env := NormalizedGain(app.env);
      if "SOAPYSDR" !in env then env
      else
        var driver := DriverFromSdrValue(env["SOAPYSDR"]);
        if (driver.None? || EqualsIgnoreCase(driver.value, "rtlsdr")) && SerialFromSdrValue(env["SOAPYSDR"]).Some? then
          (env - {"SOAPYSDR"})
            ["RTL_SERIAL" := SerialFromSdrValue(env["SOAPYSDR"]).value]["AIRWAVES_SDR_USB_ACCESS" := "full-bus"]
        else env
  }

  predicate IsInternalKey(key: string) {
    IsSdrIdEnvKey(key) || key == "AIRWAVES_SDR_USB_ACCESS"
  }

  /** The variables that reach the container. */
  function ContainerEnv(app: AppSpec): Env {
    map k | k in RuntimeEnv(app) && !IsInternalKey(k) :: RuntimeEnv(app)[k]
  }

  function Created(app: AppSpec, id: string): Container {
    Container(id, Some("airwaves"), Some(app.id), ContainerEnv(app))
  }

  /** Recorded values on top of the catalog's defaults. */
  function WithRecorded(app: AppSpec, apps: AppsValue): AppSpec {
    app.(env := app.env + RecordedAppEnv(apps, app.id))
  }

  function RecordedIds(apps: AppsValue): seq<string> {
    if apps.AppArray? then NamedIds(apps.records) else []
  }

  function NamedIds(records: seq<AppRecord>): seq<string> {
    if records == [] then []
    else (if records[0].id.Some? then [records[0].id.value] else []) + NamedIds(records[1..])
  }

  lemma {:induction false} NamedIdsExactly(records: seq<AppRecord>, id: string)
    ensures id in NamedIds(records) <==> exists r | r in records :: r.id == Some(id)
  {
    if records != [] {
      NamedIdsExactly(records[1..], id);
      assert records == [records[0]] + records[1..];
    }
  }

  /**
   What becomes of one `install_app`: refused before the old container of the name is removed (pull, network, port
   check), broken after that, or done.
   */
  datatype Attempt = Refused | Broken | Done(id: string)

  function AfterInstall(cs: Containers, app: AppSpec, attempt: Attempt): Containers {
    match attempt
    case Refused => cs
    case Broken => cs - {ContainerName(app.id)}
    case Done(id) => cs[ContainerName(app.id) := Created(app, id)]
  }

  /** What recreating the missing ones leaves; `attempts` are the installations, by position in `ids`. */
  function AfterRecreate(cs: Containers, existing: set<string>, ids: seq<string>, apps: AppsValue,
      catalog: seq<AppSpec>, attempts: seq<Attempt>): Containers
    requires |attempts| == |ids|
    decreases |ids|
  {
    if ids == [] then cs
    else
      var app := FindApp(catalog, ids[0]);
      var next :=
        if ContainerName(ids[0]) in existing || app.None? then cs
        else AfterInstall(cs, WithRecorded(app.value, apps), attempts[0]);
      AfterRecreate(next, existing, ids[1..], apps, catalog, attempts[1..])
  }

  function IdSet(ids: seq<string>): set<string> {
    set i | i in ids
  }

  /**
   Docker's answers to a pass: the listing for pruning and the removals that fail, whether the second listing answers,
   and the installations.
   */
  datatype Answers = Answers(pruning: Option<seq<string>>, stuck: set<string>, listing: bool, attempts: seq<Attempt>)

  function Pruned(cs: Containers, apps: AppsValue, answers: Answers): Containers {
    if answers.pruning.Some? then AfterPrune(cs, answers.pruning.value, IdSet(RecordedIds(apps)), answers.stuck) else cs
  }

  /** One pass of the reconciler; a second listing that fails counts as no containers. */
  function Reconciled(cs: Containers, apps: AppsValue, catalog: seq<AppSpec>, answers: Answers): Containers
    requires |answers.attempts| == |RecordedIds(apps)|
  {
    var pruned := Pruned(cs, apps, answers);
    var existing := if answers.listing then pruned.Keys else {};
    AfterRecreate(pruned, existing, RecordedIds(apps), apps, catalog, answers.attempts)
  }

  // ---- the adapter and the pass ----------------------------------------------------------------

  class Docker {
    var containers: Containers

    constructor (containers: Containers)
      ensures this.containers == containers
    {
      this.containers := containers;
    }

    /** `prune_unrecorded_app_containers` over Docker's listing; a removal that fails ends it. */
    method Prune(order: seq<string>, recorded: set<string>, stuck: set<string>) returns (removed: set<string>)
      requires ListsContainers(order, containers)
      modifies this
      ensures containers == AfterPrune(old(containers), order, recorded, stuck)
      ensures removed == old(containers).Keys - containers.Keys
    {
      hide Prunable, AfterPrune;
      removed := {};
      ghost var before := containers;
      for i := 0 to |order|
        invariant removed == before.Keys - containers.Keys && containers.Keys <= before.Keys
        invariant forall j | i <= j < |order| :: order[j] in containers
        invariant AfterPrune(before, order, recorded, stuck) == AfterPrune(containers, order[i..], recorded, stuck)
      {
        var name := order[i];
        PruneFirst(containers, order, i, recorded, stuck);
        if Prunable(name, containers[name], recorded) {
          if name in stuck {
            return;
          }
          containers := containers - {name};
          removed := removed + {name};
        }
      }
      assert order[|order|..] == [];
      PruneNothing(containers, recorded, stuck);
    }

    /** `install_app`. */
    method InstallApp(app: AppSpec, attempt: Attempt)
      modifies this
      ensures containers == AfterInstall(old(containers), app, attempt)
    {
      if attempt.Refused? {
        return;
      }
      containers := containers - {ContainerName(app.id)};
      if attempt.Done? {
        containers := containers[ContainerName(app.id) := Created(app, attempt.id)];
      }
    }

    /** `spawn_app_reconciler`, after its migrations. */
    method Reconcile(apps: AppsValue, catalog: seq<AppSpec>, answers: Answers)
      requires |answers.attempts| == |RecordedIds(apps)|
      requires answers.pruning.Some? ==> ListsContainers(answers.pruning.value, containers)
      modifies this
      ensures containers == Reconciled(old(containers), apps, catalog, answers)
    {
      hide AfterInstall, RecordedAppEnv, AfterPrune;
      var ids := RecordedIds(apps);
      if answers.pruning.Some? {
        var removed := Prune(answers.pruning.value, IdSet(ids), answers.stuck);
      }
      var existing := if answers.listing then containers.Keys else {};
      ghost var pruned := containers;
      for i := 0 to |ids|
        invariant AfterRecreate(pruned, existing, ids, apps, catalog, answers.attempts)
               == AfterRecreate(containers, existing, ids[i..], apps, catalog, answers.attempts[i..])
      {
        assert ids[i..][0] == ids[i] && ids[i..][1..] == ids[i + 1..];
        assert answers.attempts[i..][0] == answers.attempts[i]
          && answers.attempts[i..][1..] == answers.attempts[i + 1..];
        if ContainerName(ids[i]) in existing {
          continue;
        }
        var app := FindApp(catalog, ids[i]);
        if app.Some? {
          InstallApp(WithRecorded(app.value, apps), answers.attempts[i]);
        }
      }
    }
  }

  lemma PruneFirst(cs: Containers, order: seq<string>, i: nat, recorded: set<string>, stuck: set<string>)
    requires i < |order| && order[i] in cs
    ensures AfterPrune(cs, order[i..], recorded, stuck) ==
      if !Prunable(order[i], cs[order[i]], recorded) then AfterPrune(cs, order[i + 1..], recorded, stuck)
      else if order[i] in stuck then cs
      else AfterPrune(cs - {order[i]}, order[i + 1..], recorded, stuck)
  {
    assert order[i..][1..] == order[i + 1..];
  }

  lemma PruneNothing(cs: Containers, recorded: set<string>, stuck: set<string>)
    ensures AfterPrune(cs, [], recorded, stuck) == cs
  {
  }

  // ---- convergence -----------------------------------------------------------------------------

  lemma NamesAreInjective(a: string, b: string)
    requires ContainerName(a) == ContainerName(b)
    ensures a == b
  {
    assert a == ContainerName(a)[|PREFIX|..];
  }

  /** The installation at position `k` is for this name and gets as far as removing the old container. */
  predicate Reaches(ids: seq<string>, catalog: seq<AppSpec>, attempts: seq<Attempt>, name: string, k: nat)
    requires |attempts| == |ids|
  {
    k < |ids| && ContainerName(ids[k]) == name && FindApp(catalog, ids[k]).Some? && !attempts[k].Refused?
  }

  ghost predicate Reinstalled(ids: seq<string>, catalog: seq<AppSpec>, attempts: seq<Attempt>, name: string)
    requires |attempts| == |ids|
  {
    exists k: nat :: Reaches(ids, catalog, attempts, name, k)
  }

  /** The container of this name in `r` is the work of one of the installations. */
  ghost predicate IsNew(r: Containers, ids: seq<string>, apps: AppsValue, catalog: seq<AppSpec>, attempts: seq<Attempt>,
      name: string)
    requires |attempts| == |ids|
  {
    name in r && exists k: nat ::
      Reaches(ids, catalog, attempts, name, k) && attempts[k].Done?
      && r[name] == Created(WithRecorded(FindApp(catalog, ids[k]).value, apps), attempts[k].id)
  }

  ghost predicate AllDone(ids: seq<string>, catalog: seq<AppSpec>, attempts: seq<Attempt>, name: string)
    requires |attempts| == |ids|
  {
    forall k: nat :: Reaches(ids, catalog, attempts, name, k) ==> attempts[k].Done?
  }

  lemma ReachesShift(ids: seq<string>, catalog: seq<AppSpec>, attempts: seq<Attempt>, name: string, k: nat)
    requires |attempts| == |ids| > 0
    ensures Reaches(ids, catalog, attempts, name, k + 1) <==> Reaches(ids[1..], catalog, attempts[1..], name, k)
  {
  }

  /** Recreation at a name is that of the rest of the list after the first installation. */
  lemma ReinstalledShift(ids: seq<string>, catalog: seq<AppSpec>, attempts: seq<Attempt>, name: string)
    requires |attempts| == |ids| > 0
    ensures Reinstalled(ids, catalog, attempts, name) <==>
      Reaches(ids, catalog, attempts, name, 0) || Reinstalled(ids[1..], catalog, attempts[1..], name)
    ensures AllDone(ids, catalog, attempts, name) ==> AllDone(ids[1..], catalog, attempts[1..], name)
  {
    assert AllDone(ids, catalog, attempts, name) ==> AllDone(ids[1..], catalog, attempts[1..], name) by {
      forall k: nat | Reaches(ids[1..], catalog, attempts[1..], name, k)
        ensures Reaches(ids, catalog, attempts, name, k + 1) && attempts[1..][k] == attempts[k + 1]
      {
      }
    }
    hide Reaches;
    if Reinstalled(ids, catalog, attempts, name) && !Reaches(ids, catalog, attempts, name, 0) {
      var k: nat :| Reaches(ids, catalog, attempts, name, k);
      ReachesShift(ids, catalog, attempts, name, k - 1);
    }
    forall k: nat | Reaches(ids[1..], catalog, attempts[1..], name, k)
      ensures Reaches(ids, catalog, attempts, name, k + 1)
    {
      ReachesShift(ids, catalog, attempts, name, k);
    }
  }

  lemma NewShift(r: Containers, ids: seq<string>, apps: AppsValue, catalog: seq<AppSpec>, attempts: seq<Attempt>,
      name: string)
    requires |attempts| == |ids| > 0 && IsNew(r, ids[1..], apps, catalog, attempts[1..], name)
    ensures IsNew(r, ids, apps, catalog, attempts, name)
  {
    hide Created, WithRecorded, FindApp;
    var k: nat :| Reaches(ids[1..], catalog, attempts[1..], name, k) && attempts[1..][k].Done?
      && r[name] == Created(WithRecorded(FindApp(catalog, ids[1..][k]).value, apps), attempts[1..][k].id);
    assert Reaches(ids, catalog, attempts, name, k + 1) && attempts[k + 1].Done?;
  }

  /** What recreation does to each name. */
  lemma {:induction false} RecreateAt(cs: Containers, existing: set<string>, ids: seq<string>, apps: AppsValue,
      catalog: seq<AppSpec>, attempts: seq<Attempt>, name: string)
    requires |attempts| == |ids|
    ensures var r := AfterRecreate(cs, existing, ids, apps, catalog, attempts);
      && (name in existing || !Reinstalled(ids, catalog, attempts, name) ==>
        (name in r <==> name in cs) && (name in cs ==> r[name] == cs[name]))
      && (name !in existing && Reinstalled(ids, catalog, attempts, name) ==>
            && (name in r ==> IsNew(r, ids, apps, catalog, attempts, name))
            && (AllDone(ids, catalog, attempts, name) ==> name in r))
    decreases |ids|
  {
    hide Created, WithRecorded, FindApp, IsNew, Reinstalled, AllDone;
    if ids == [] {
      NothingReinstalled(catalog, name);
    } else {
      var next :=
        if ContainerName(ids[0]) in existing || FindApp(catalog, ids[0]).None? then cs
        else AfterInstall(cs, WithRecorded(FindApp(catalog, ids[0]).value, apps), attempts[0]);
      var r := AfterRecreate(next, existing, ids[1..], apps, catalog, attempts[1..]);
      RecreateAt(next, existing, ids[1..], apps, catalog, attempts[1..], name);
      ReinstalledShift(ids, catalog, attempts, name);
      if IsNew(r, ids[1..], apps, catalog, attempts[1..], name) {
        NewShift(r, ids, apps, catalog, attempts, name);
      }
      FirstInstall(cs, existing, ids, apps, catalog, attempts, name, next);
      if name in next && name in r && r[name] == next[name] && IsNew(next, ids, apps, catalog, attempts, name) {
        NewDepends(next, r, ids, apps, catalog, attempts, name);
      }
    }
  }

  lemma NothingReinstalled(catalog: seq<AppSpec>, name: string)
    ensures !Reinstalled([], catalog, [], name)
  {
  }

  lemma NewDepends(q: Containers, r: Containers, ids: seq<string>, apps: AppsValue, catalog: seq<AppSpec>,
      attempts: seq<Attempt>, name: string)
    requires |attempts| == |ids| && IsNew(q, ids, apps, catalog, attempts, name) && name in r && r[name] == q[name]
    ensures IsNew(r, ids, apps, catalog, attempts, name)
  {
  }

  /** The first installation, seen from one name. */
  lemma FirstInstall(cs: Containers, existing: set<string>, ids: seq<string>, apps: AppsValue, catalog: seq<AppSpec>,
                     attempts: seq<Attempt>, name: string, next: Containers)
    requires |attempts| == |ids| > 0
    requires next == if ContainerName(ids[0]) in existing || FindApp(catalog, ids[0]).None? then cs
                     else AfterInstall(cs, WithRecorded(FindApp(catalog, ids[0]).value, apps), attempts[0])
    ensures name in existing || !Reaches(ids, catalog, attempts, name, 0) ==>
      (name in next <==> name in cs) && (name in cs ==> next[name] == cs[name])
    ensures name !in existing && Reaches(ids, catalog, attempts, name, 0) ==>
      && (name in next ==> IsNew(next, ids, apps, catalog, attempts, name))
      && (AllDone(ids, catalog, attempts, name) ==> name in next)
  {
    hide ContainerEnv, RecordedAppEnv;
  }

  lemma {:induction false} PruneAt(cs: Containers, order: seq<string>, recorded: set<string>, stuck: set<string>,
      name: string)
    ensures var r := AfterPrune(cs, order, recorded, stuck);
      && (name in r ==> name in cs && r[name] == cs[name])
      && (name in cs && !Prunable(name, cs[name], recorded) ==> name in r)
      && ((forall n | n in cs && Prunable(n, cs[n], recorded) :: n !in stuck) ==>
            name in order && name in cs && Prunable(name, cs[name], recorded) ==> name !in r)
    decreases |order|
  {
    hide Prunable;
    if order != [] {
      assert order == [order[0]] + order[1..];
      PruneAt(cs, order[1..], recorded, stuck, name);
      PruneAt(cs - {order[0]}, order[1..], recorded, stuck, name);
    }
  }

  /** Docker never gives a new container the id of an existing one. */
  ghost predicate FreshIds(cs: Containers, attempts: seq<Attempt>) {
    forall k, n | 0 <= k < |attempts| && attempts[k].Done? && n in cs :: cs[n].id != attempts[k].id
  }

  /**
   A container that is not a managed app container survives a pass untouched exactly when the second listing answers, or
   no installation of a recorded catalog app with its name gets as far as removing the old container.
   */
  lemma UnmanagedUntouchedExactly(cs: Containers, apps: AppsValue, catalog: seq<AppSpec>, answers: Answers,
      name: string)
    requires |answers.attempts| == |RecordedIds(apps)| && FreshIds(cs, answers.attempts)
    requires name in cs && !IsManaged(name, cs[name])
    ensures var r := Reconciled(cs, apps, catalog, answers);
      name in r && r[name] == cs[name] <==>
        answers.listing || !Reinstalled(RecordedIds(apps), catalog, answers.attempts, name)
  {
    hide AfterPrune, AfterRecreate, Reinstalled, AllDone, IsManaged, ContainerEnv, RecordedAppEnv;
    var ids := RecordedIds(apps);
    var pruned := Pruned(cs, apps, answers);
    assert name in pruned && pruned[name] == cs[name] by {
      if answers.pruning.Some? {
        NotPrunable(name, cs[name], IdSet(ids));
        PruneAt(cs, answers.pruning.value, IdSet(ids), answers.stuck, name);
      }
    }
    RecreateAt(pruned, if answers.listing then pruned.Keys else {}, ids, apps, catalog, answers.attempts, name);
  }

  lemma NotPrunable(name: string, c: Container, recorded: set<string>)
    requires !IsManaged(name, c)
    ensures !Prunable(name, c, recorded)
  {
  }

  /** Docker lists all containers for pruning and removes what it is told to. */
  ghost predicate PrunesFully(cs: Containers, apps: AppsValue, answers: Answers) {
    && answers.pruning.Some? && ListsContainers(answers.pruning.value, cs)
    && forall n | n in cs && Prunable(n, cs[n], IdSet(RecordedIds(apps))) :: n !in answers.stuck
  }

  /**
   Full pruning takes exactly the app containers of apps without a record: named with the prefix, labelled as ours, and
   neither the manager nor the gateway. The app is the one of the label, or else what the name says.
   */
  lemma PrunedExactly(cs: Containers, apps: AppsValue, answers: Answers, name: string, app: string, n: nat)
    requires PrunesFully(cs, apps, answers) && name in cs
    requires cs[name].appId == Some(app) || (cs[name].appId.None? && !(PREFIX <= app) && name == Prefixes(n) + app)
    ensures name in Pruned(cs, apps, answers) <==>
      !(&& (exists rest: string :: name == "airwaves-" + rest)
        && name !in ["airwaves-manager", "airwaves-gateway"] && cs[name].managedBy == Some("airwaves")
        && !(apps.AppArray? && exists r | r in apps.records :: r.id == Some(app)))
    ensures name in Pruned(cs, apps, answers) ==> Pruned(cs, apps, answers)[name] == cs[name]
  {
    hide AfterPrune, NamedIds;
    if cs[name].appId.None? {
      TrimPrefixExactly(n, app);
    }
    if apps.AppArray? {
      NamedIdsExactly(apps.records, app);
    }
    assert PREFIX <= name <==> exists rest: string :: name == "airwaves-" + rest by {
      if PREFIX <= name {
        assert name == "airwaves-" + name[|PREFIX|..];
      }
    }
    PruneAt(cs, answers.pruning.value, IdSet(RecordedIds(apps)), answers.stuck, name);
  }

  /** After a pass no managed app container is unrecorded, whatever the second listing and the installations do. */
  lemma NoUnrecordedContainer(cs: Containers, apps: AppsValue, catalog: seq<AppSpec>, answers: Answers, name: string)
    requires |answers.attempts| == |RecordedIds(apps)| && PrunesFully(cs, apps, answers)
    requires name in Reconciled(cs, apps, catalog, answers)
    ensures !Prunable(name, Reconciled(cs, apps, catalog, answers)[name], IdSet(RecordedIds(apps)))
  {
    hide AfterPrune, AfterRecreate, Reinstalled, AllDone, ContainerEnv, RecordedAppEnv;
    var ids := RecordedIds(apps);
    var pruned := Pruned(cs, apps, answers);
    PruneAt(cs, answers.pruning.value, IdSet(ids), answers.stuck, name);
    RecreateAt(pruned, if answers.listing then pruned.Keys else {}, ids, apps, catalog, answers.attempts, name);
    if IsNew(Reconciled(cs, apps, catalog, answers), ids, apps, catalog, answers.attempts, name) {
      var k: nat :| Reaches(ids, catalog, answers.attempts, name, k);
      assert ids[k] in ids;
    }
  }

  /**
   A recorded catalog app whose installations succeed ends with its container: the one it had, if the listing shows it,
   or a new one with the recorded values over the defaults.
   */
  lemma RecordedAppRuns(cs: Containers, apps: AppsValue, catalog: seq<AppSpec>, answers: Answers, id: string)
    requires |answers.attempts| == |RecordedIds(apps)| && id in RecordedIds(apps) && FindApp(catalog, id).Some?
    requires forall k | 0 <= k < |RecordedIds(apps)| && RecordedIds(apps)[k] == id :: answers.attempts[k].Done?
    ensures var r, name := Reconciled(cs, apps, catalog, answers), ContainerName(id);
      && name in r
      && (if answers.listing && name in Pruned(cs, apps, answers) then r[name] == Pruned(cs, apps, answers)[name]
          else exists newId :: r[name] == Created(WithRecorded(FindApp(catalog, id).value, apps), newId))
  {
    hide AfterPrune, AfterRecreate, Pruned, ContainerEnv, RecordedAppEnv, FindApp;
    var ids, name := RecordedIds(apps), ContainerName(id);
    var pruned := Pruned(cs, apps, answers);
    RecreateAt(pruned, if answers.listing then pruned.Keys else {}, ids, apps, catalog, answers.attempts, name);
    var j: nat :| j < |ids| && ids[j] == id;
    assert Reaches(ids, catalog, answers.attempts, name, j);
    forall k: nat | Reaches(ids, catalog, answers.attempts, name, k)
      ensures ids[k] == id
    {
      NamesAreInjective(ids[k], id);
    }
  }

  /**
   Every recorded value that is meant for the container reaches a recreated one, over the default (acarsdec aside).
   */
  lemma RecordedValuesReachContainer(app: AppSpec, apps: AppsValue, key: string, id: string)
    requires app.id != "acarsdec" && key in RecordedAppEnv(apps, app.id)
    requires !(SDR_ID_ENV_PREFIX <= key) && key != "AIRWAVES_SDR_USB_ACCESS"
    ensures var env := Created(WithRecorded(app, apps), id).env;
      key in env && env[key] == RecordedAppEnv(apps, app.id)[key]
  {
    hide RecordedAppEnv;
  }

  /** No exact id and no USB access flag ever reaches a container. */
  lemma InternalKeysStayOut(app: AppSpec, key: string)
    requires SDR_ID_ENV_PREFIX <= key || key == "AIRWAVES_SDR_USB_ACCESS"
    ensures key !in ContainerEnv(app)
  {
    hide RuntimeEnv;
  }

  predicate IsAgcAlias(gain: string) {
    ToLower(Trim(gain)) in ["auto", "autogain", "agc"]
  }

  /** acarsdec's gain: a name of the automatic gain becomes -10, a blank one goes, and any other stays. */
  lemma AcarsdecGain(app: AppSpec)
    requires app.id == "acarsdec"
    ensures var env := ContainerEnv(app);
      && ("GAIN" in env ==> "GAIN" in app.env)
      && ("GAIN" in app.env ==>
            && ("GAIN" in env <==> Trim(app.env["GAIN"]) != "")
            && ("GAIN" in env ==> env["GAIN"] == if IsAgcAlias(app.env["GAIN"]) then "-10" else app.env["GAIN"]))
  {
    hide SerialFromSdrValue, DriverFromSdrValue, EqualsIgnoreCase;
    assert |"GAIN"| == 4 && |"SOAPYSDR"| == 8 && |"RTL_SERIAL"| == 10 && |SDR_ID_ENV_PREFIX| == 17;
    assert |"AIRWAVES_SDR_USB_ACCESS"| == 23;
  }

  /** Every other variable of acarsdec reaches its container as it is. */
  lemma AcarsdecKeepsOthers(app: AppSpec, key: string)
    requires app.id == "acarsdec" && key !in ["GAIN", "SOAPYSDR", "RTL_SERIAL", "AIRWAVES_SDR_USB_ACCESS"]
    requires !(SDR_ID_ENV_PREFIX <= key)
    ensures key in ContainerEnv(app) <==> key in app.env
    ensures key in app.env ==> ContainerEnv(app)[key] == app.env[key]
  {
    hide SerialFromSdrValue, DriverFromSdrValue, EqualsIgnoreCase, Trim;
  }

  /**
   The variables that acarsdec's container gets: no gain alias, no internal key, and an RTL radio opened by its
   serial.
   */
  lemma AcarsdecContainer(app: AppSpec)
    requires app.id == "acarsdec"
    ensures var env := ContainerEnv(app);
      && (forall k | k in env :: !(SDR_ID_ENV_PREFIX <= k) && k != "AIRWAVES_SDR_USB_ACCESS")
      && ("GAIN" in env ==> Trim(env["GAIN"]) != "" && ToLower(Trim(env["GAIN"])) !in ["auto", "autogain", "agc"])
      && ("SOAPYSDR" in app.env && OpensNatively(app.env["SOAPYSDR"]) ==>
            "SOAPYSDR" !in env && "RTL_SERIAL" in env
              && Some(env["RTL_SERIAL"]) == SerialFromSdrValue(app.env["SOAPYSDR"]))
      && ("SOAPYSDR" in app.env && !OpensNatively(app.env["SOAPYSDR"]) ==>
            "SOAPYSDR" in env && env["SOAPYSDR"] == app.env["SOAPYSDR"])
  {
    hide SerialFromSdrValue, DriverFromSdrValue, EqualsIgnoreCase;
    AgcValue();
    assert |"GAIN"| == 4 && |"SOAPYSDR"| == 8 && |"RTL_SERIAL"| == 10 && |SDR_ID_ENV_PREFIX| == 17;
    assert |"AIRWAVES_SDR_USB_ACCESS"| == 23;
  }

  /** A tuner that acarsdec's container can open through `RTL_SERIAL`, which has no exact id. */
  predicate OpensBySerial(env: Env, d: SdrDevice) {
    "RTL_SERIAL" in env && HasSerialKey(d, SerialKey(env["RTL_SERIAL"]))
  }

  /**
   A natively opened radio whose record names a connected tuner by id: the container can open exactly the recorded tuner
   if and only if no other connected device has its serial. Without a recorded id it opens what the record can use.
   */
  lemma NativeRadioIsTheRecordedExactly(app: AppSpec, devices: seq<SdrDevice>)
    requires DeviceTable(devices) && app.id == "acarsdec"
    requires "SOAPYSDR" in app.env && OpensNatively(app.env["SOAPYSDR"])
    ensures ReferenceAt(app.env, "SOAPYSDR").Some?
    ensures var r := ReferenceAt(app.env, "SOAPYSDR").value;
      Coherent(r, devices) ==>
        ((forall d | d in devices :: OpensBySerial(ContainerEnv(app), d) <==> CanUse(r, d))
         <==> r.deviceId.None? || |Matching(devices, SerialKey(r.serial.value))| == 1)
  {
    hide SerialFromSdrValue, DriverFromSdrValue, EqualsIgnoreCase, ContainerEnv, SerialKey, Matching, MetadataId,
      OpensNatively, Trim;
    AcarsdecContainer(app);
    NativeSerial(app.env);
    var r := ReferenceAt(app.env, "SOAPYSDR").value;
    var key := SerialKey(r.serial.value);
    if Coherent(r, devices) && r.deviceId.Some? {
      var d: SdrDevice :| d in devices && Names(r, d);
      if |Matching(devices, key)| == 1 {
        UniqueMatch(devices, key);
      }
      if forall e | e in devices && HasSerialKey(e, key) :: e == d {
        OnlyMatch(devices, key, d);
      }
      forall e | e in devices && CanUse(r, e)
        ensures e == d
      {
        SameIdSameDevice(devices, d, e);
      }
    }
  }

  lemma NativeSerial(env: Env)
    requires "SOAPYSDR" in env && OpensNatively(env["SOAPYSDR"])
    ensures ReferenceAt(env, "SOAPYSDR").Some?
    ensures ReferenceAt(env, "SOAPYSDR").value.serial == SerialFromSdrValue(env["SOAPYSDR"])
  {
    hide SerialFromSdrValue, DriverFromSdrValue, EqualsIgnoreCase, MetadataId, Trim;
    assert |"SOAPYSDR"| == 8 && |SDR_ID_ENV_PREFIX| == 17;
  }

  predicate OpensNatively(soapy: string) {
    (DriverFromSdrValue(soapy).None? || EqualsIgnoreCase(DriverFromSdrValue(soapy).value, "rtlsdr"))
      && SerialFromSdrValue(soapy).Some?
  }

  lemma AgcValue()
    ensures Trim("-10") == "-10" && ToLower("-10") !in ["auto", "autogain", "agc"]
  {
    assert TrimStart("-10") == "-10" && TrimEnd("-10") == "-10";
    assert ToLower("-10")[0] == '-';
  }

  /** When Docker answers and the installations succeed, a second pass changes nothing. */
  lemma SecondPassChangesNothing(cs: Containers, apps: AppsValue, catalog: seq<AppSpec>, first: Answers,
      second: Answers)
    requires |first.attempts| == |RecordedIds(apps)| == |second.attempts| && PrunesFully(cs, apps, first)
      && first.listing
    requires forall a | a in first.attempts :: a.Done?
    requires var once := Reconciled(cs, apps, catalog, first); PrunesFully(once, apps, second) && second.listing
    ensures var once := Reconciled(cs, apps, catalog, first); Reconciled(once, apps, catalog, second) == once
  {
    hide Prunable, Created, WithRecorded, FindApp, AfterRecreate, AfterPrune, Reaches;
    var ids := RecordedIds(apps);
    var once := Reconciled(cs, apps, catalog, first);
    var pruned := Pruned(once, apps, second);
    forall n
      ensures (n in pruned <==> n in once) && (n in once ==> pruned[n] == once[n])
    {
      PruneAt(once, second.pruning.value, IdSet(ids), second.stuck, n);
      if n in once {
        NoUnrecordedContainer(cs, apps, catalog, first, n);
      }
    }
    assert pruned == once;
    forall n
      ensures var twice := Reconciled(once, apps, catalog, second);
      (n in twice <==> n in once) && (n in once ==> twice[n] == once[n])
    {
      RecreateAt(once, once.Keys, ids, apps, catalog, second.attempts, n);
      if Reinstalled(ids, catalog, second.attempts, n) {
        var k: nat :| Reaches(ids, catalog, second.attempts, n, k);
        ReachedIsRecorded(ids, catalog, second.attempts, n, k);
        RecordedAppRuns(cs, apps, catalog, first, ids[k]);
      }
    }
  }

  lemma ReachedIsRecorded(ids: seq<string>, catalog: seq<AppSpec>, attempts: seq<Attempt>, name: string, k: nat)
    requires |attempts| == |ids| && Reaches(ids, catalog, attempts, name, k)
    ensures k < |ids| && ids[k] in ids && FindApp(catalog, ids[k]).Some? && name == ContainerName(ids[k])
  {
  }
}
