/**
 Installing, reconfiguring, uninstalling and migrating apps (`handlers/apps.rs`), and radio exclusivity
 over every run of those operations.
 */
module AppLifecycle {
  import opened Values
  import opened Text
  import opened Sdr
  import opened SdrEnrich
  import opened Tuners

  // ---- preparing a request ---------------------------------------------------------------------

  datatype Request =
    | Install(appId: string, env: Env)
    | UpdateConfig(pathId: string, env: Env)

  datatype RequestError = NotInCatalog(id: string) | HubNotInstalled

  const FORWARD_TO_HUB := "AIRWAVES_FORWARD_TO_ACARSHUB"

  function FindApp(catalog: seq<AppSpec>, id: string): (r: Option<AppSpec>)
    ensures r.Some? ==> r.value in catalog && r.value.id == id
  {
    if catalog == [] then None
    else if catalog[0].id == id then Some(catalog[0])
    else FindApp(catalog[1..], id)
  }

  predicate IsRecorded(apps: AppsValue, id: string) {
    apps.AppArray? && exists r | r in apps.records :: r.id == Some(id)
  }

  function FirstRecord(records: seq<AppRecord>, id: string): Option<AppRecord> {
    if records == [] then None
    else if records[0].id == Some(id) then Some(records[0])
    else FirstRecord(records[1..], id)
  }

  /** `recorded_app_env`: the environment of the first record with the id. */
  function RecordedAppEnv(apps: AppsValue, id: string): Env {
    if apps.AppArray? && FirstRecord(apps.records, id).Some? then EnvOf(FirstRecord(apps.records, id).value) else map[]
  }

  predicate EnvEnabled(env: Env, key: string) {
    key in env && var v := Trim(env[key]); EqualsIgnoreCase(v, "true") || v == "1" || EqualsIgnoreCase(v, "yes")
  }

  function EnvValueOr(env: Env, key: string, default: string): string {
    if key in env && Trim(env[key]) != "" then Trim(env[key]) else default
  }

  predicate IsLocalAcarshubTarget(value: string) {
    ToLower(Trim(value)) in ["airwaves-acarshub", "acarshub", "localhost", "127.0.0.1"]
  }

  function HubOutput(env: Env): Env {
    env["OUTPUT_SERVER" := "airwaves-acarshub"]["OUTPUT_SERVER_PORT" := "5550"]["OUTPUT_SERVER_MODE" := "udp"]
  }

  function ClearedOutput(env: Env): Env {
    env["OUTPUT_SERVER" := ""]["OUTPUT_SERVER_PORT" := ""]["OUTPUT_SERVER_MODE" := ""][FORWARD_TO_HUB := "false"]
  }

  function ConfigureAcarsdecOutputPolicy(app: AppSpec, hubInstalled: bool): Result<AppSpec, RequestError> {
    if app.id != "acarsdec" then Ok(app)
    else if EnvEnabled(app.env, FORWARD_TO_HUB) then
      if hubInstalled then Ok(app.(env := HubOutput(app.env))) else Err(HubNotInstalled)
    else
      var server := if "OUTPUT_SERVER" in app.env then Trim(app.env["OUTPUT_SERVER"]) else "";
      if server == "" || IsLocalAcarshubTarget(server) then Ok(app.(env := ClearedOutput(app.env))) else Ok(app)
  }

  /** `copy_sdr_metadata`. */
  function CopySdrMetadata(source: Env, sourceKey: string, target: Env, targetKey: string): Env {
    if MetadataId(source, sourceKey).Some? then target[SdrIdEnvKey(targetKey) := MetadataId(source, sourceKey).value]
    else target
  }

  const ACARS_FREQUENCIES := "130.025;130.450;131.125;131.550"
  const VDL2_FREQUENCIES := "136.650;136.800;136.975"

  function TimeZone(hub: Env, source: Env): string {
    EnvValueOr(hub, "TZ", if "TZ" in source then source["TZ"] else "UTC")
  }

  function BundledAcarsdec(source: AppSpec, hub: Env): AppSpec {
    var e := source.env["SOAPYSDR" := EnvValueOr(hub, "LOCAL_ACARSDEC_SDR", "driver=rtlsdr")];
    var e := CopySdrMetadata(hub, "LOCAL_ACARSDEC_SDR", e, "SOAPYSDR");
    var e := e["FREQUENCIES" := EnvValueOr(hub, "LOCAL_ACARSDEC_FREQUENCIES", ACARS_FREQUENCIES)];
    var e := e["FEED_ID" := EnvValueOr(hub, "LOCAL_ACARSDEC_FEED_ID", "airwaves-acarsdec")][FORWARD_TO_HUB := "true"];
    var e := HubOutput(e)["QUIET_LOGS" := "true"];
    source.(env := e["TZ" := TimeZone(hub, e)])
  }

  function BundledDumpvdl2(source: AppSpec, hub: Env): AppSpec {
    var e := source.env["SOAPYSDR" := EnvValueOr(hub, "LOCAL_DUMPVDL2_SDR", "driver=rtlsdr")];
    var e := CopySdrMetadata(hub, "LOCAL_DUMPVDL2_SDR", e, "SOAPYSDR");
    var e := e["FREQUENCIES" := EnvValueOr(hub, "LOCAL_DUMPVDL2_FREQUENCIES", VDL2_FREQUENCIES)];
    var e := e["FEED_ID" := EnvValueOr(hub, "LOCAL_DUMPVDL2_FEED_ID", "airwaves-dumpvdl2")];
    var e := e["SERVER" := "airwaves-acarshub"]["SERVER_PORT" := "5555"] - {"ZMQ_MODE", "ZMQ_ENDPOINT"};
    source.(env := e["TZ" := TimeZone(hub, e)])
  }

  function HubEnv(hub: Env): Env {
    var e := if EnvEnabled(hub, "ENABLE_LOCAL_ACARSDEC") then
               hub["ENABLE_ACARS" := "true"]
                  ["ACARS_CONNECTIONS" := EnvValueOr(hub, "ACARS_CONNECTIONS", "udp://0.0.0.0:5550")]
             else hub;
    if EnvEnabled(e, "ENABLE_LOCAL_DUMPVDL2") then
      e["ENABLE_VDLM" := "true"]["VDLM_CONNECTIONS" := EnvValueOr(e, "VDLM_CONNECTIONS", "udp://0.0.0.0:5555")]
    else e
  }

  /** `prepare_acarshub_bundle`: the hub as it will be recorded, then the local decoders it brings along. */
  function PrepareAcarshubBundle(catalog: seq<AppSpec>, hub: AppSpec): seq<AppSpec> {
    var env := HubEnv(hub.env);
    [hub.(env := env)]
    + (if EnvEnabled(hub.env, "ENABLE_LOCAL_ACARSDEC") && FindApp(catalog, "acarsdec").Some?
       then [BundledAcarsdec(FindApp(catalog, "acarsdec").value, env)] else [])
    + (if EnvEnabled(env, "ENABLE_LOCAL_DUMPVDL2") && FindApp(catalog, "dumpvdl2").Some?
       then [BundledDumpvdl2(FindApp(catalog, "dumpvdl2").value, env)] else [])
  }

  function StripAirwaves(id: string): string {
    if "airwaves-" <= id then id[|"airwaves-"|..] else id
  }

  /** The apps a request is about, with all overrides merged, before completion with device ids. */
  function Prepared(catalog: seq<AppSpec>, apps: AppsValue, request: Request): Result<seq<AppSpec>, RequestError> {
    var id := if request.Install? then request.appId else StripAirwaves(request.pathId);
    match FindApp(catalog, id)
    case None => Err(NotInCatalog(id))
    case Some(found) =>
      var kept := if request.Install? then map[] else RecordedAppEnv(apps, id);
      match ConfigureAcarsdecOutputPolicy(found.(env := found.env + kept + request.env), IsRecorded(apps, "acarshub"))
      case Err(e) => Err(e)
      case Ok(app) => Ok(if app.id == "acarshub" then PrepareAcarshubBundle(catalog, app) else [app])
  }

  function Completed(targets: seq<AppSpec>, devices: seq<SdrDevice>): seq<AppSpec> {
    seq(|targets|, i requires 0 <= i < |targets| => targets[i].(env := Enriched(targets[i].env, devices)))
  }

  // ---- recording -------------------------------------------------------------------------------

  function RecordOf(app: AppSpec): AppRecord {
    AppRecord(Some(app.id), Env(app.env))
  }

  /** The records whose id is not in `ids`, in order (`retain`). */
  function Without(records: seq<AppRecord>, ids: set<string>): seq<AppRecord> {
    if records == [] then []
    else
      var last := records[|records| - 1];
      Without(records[..|records| - 1], ids) + if last.id.Some? && last.id.value in ids then [] else [last]
  }

  /** `record_installed_app`. */
  function RecordInstalled(apps: AppsValue, app: AppSpec): AppsValue {
    AppArray(Without(if apps.AppArray? then apps.records else [], {app.id}) + [RecordOf(app)])
  }

  /** `forget_installed_app`. */
  function Forgotten(apps: AppsValue, id: string): AppsValue {
    if apps.AppArray? then AppArray(Without(apps.records, {id})) else apps
  }

  /** What Docker and the config file did with one target. */
  datatype Outcome = DockerFailed | RecordFailed | Installed

  /** The records after the targets are installed in turn; a Docker failure ends the handler. */
  function RecordTargets(apps: AppsValue, targets: seq<AppSpec>, outcomes: seq<Outcome>): AppsValue
    requires |outcomes| == |targets|
    decreases |targets|
  {
    if targets == [] || outcomes[0].DockerFailed? then apps
    else
      var next := if outcomes[0].Installed? then RecordInstalled(apps, targets[0]) else apps;
      RecordTargets(next, targets[1..], outcomes[1..])
  }

  ghost predicate Accepted(apps: AppsValue, targets: seq<AppSpec>, devices: seq<SdrDevice>) {
    Verdict(Records(apps), targets, devices, Ok(()))
  }

  /** The recorded apps after an install or update-config request. */
  ghost function Submitted(catalog: seq<AppSpec>, devices: seq<SdrDevice>, apps: AppsValue, request: Request,
      outcomes: seq<Outcome>): AppsValue {
    match Prepared(catalog, apps, request)
    case Err(_) => apps
    case Ok(prepared) =>
      var targets := Completed(prepared, devices);
      if Accepted(apps, targets, devices) && |outcomes| == |targets| then RecordTargets(apps, targets, outcomes)
      else apps
  }

  function MigratedRecord(record: AppRecord, devices: seq<SdrDevice>): AppRecord {
    if record.id.Some? && record.env.Env? then record.(env := Env(Enriched(record.env.vars, devices))) else record
  }

  function Migrated(apps: AppsValue, devices: seq<SdrDevice>): AppsValue {
    if apps.AppArray? then
      AppArray(seq(|apps.records|, i requires 0 <= i < |apps.records| => MigratedRecord(apps.records[i], devices)))
    else apps
  }

  /**
   `rest` is the records at the ascending positions `at`: all whose id is not in `ids`, unchanged and in their
   order.
   */
  ghost predicate Selects(at: seq<nat>, records: seq<AppRecord>, rest: seq<AppRecord>, ids: set<string>) {
    && |at| == |rest| && (forall k | 0 <= k < |at| :: at[k] < |records| && records[at[k]] == rest[k])
    && (forall j, k | 0 <= j < k < |at| :: at[j] < at[k])
    && (forall i: nat | i < |records| :: i in at <==> !(records[i].id.Some? && records[i].id.value in ids))
  }

  lemma SelectionSnoc(at: seq<nat>, records: seq<AppRecord>, rest: seq<AppRecord>, ids: set<string>, r: AppRecord)
    requires Selects(at, records, rest, ids)
    ensures if r.id.Some? && r.id.value in ids then Selects(at, records + [r], rest, ids)
            else Selects(at + [|records|], records + [r], rest + [r], ids)
  {
    var more := at + [|records|];
    assert forall k | 0 <= k < |at| :: more[k] == at[k] && at[k] in at;
    assert forall i: nat | i < |records| :: (records + [r])[i] == records[i];
    assert forall i: nat :: i in more <==> i in at || i == |records|;
  }

  lemma {:induction false} WithoutIsSelection(records: seq<AppRecord>, ids: set<string>) returns (at: seq<nat>)
    ensures Selects(at, records, Without(records, ids), ids)
  {
    at := [];
    if records != [] {
      hide Selects;
      var front, last := records[..|records| - 1], records[|records| - 1];
      at := WithoutIsSelection(front, ids);
      SelectionSnoc(at, front, Without(front, ids), ids, last);
      assert front + [last] == records && Without(front, ids) + [] == Without(front, ids);
      if !(last.id.Some? && last.id.value in ids) {
        at := at + [|front|];
      }
    }
  }

  // ---- the handlers ----------------------------------------------------------------------------

  /** The manager's app handlers over the persisted `config.apps`. */
  class AppHandlers {
    const catalog: seq<AppSpec>
    const devices: seq<SdrDevice>
    var apps: AppsValue

    constructor (catalog: seq<AppSpec>, devices: seq<SdrDevice>, apps: AppsValue)
      ensures this.catalog == catalog && this.devices == devices && this.apps == apps
    {
      this.catalog, this.devices, this.apps := catalog, devices, apps;
    }

    /** Clone each prepared app and complete it with device ids. */
    method CompleteTargets(prepared: seq<AppSpec>) returns (targets: seq<AppSpec>)
      ensures targets == Completed(prepared, devices)
    {
      hide Enriched;
      targets := [];
      for i := 0 to |prepared|
        invariant targets == Completed(prepared, devices)[..i]
      {
        var app := new CatalogApp(prepared[i]);
        var changed := EnrichAppSdrMetadata(app, devices);
        targets := targets + [app.Spec()];
      }
    }

    /** Install and record the accepted targets in turn: `outcomes` is what Docker and the disk do with each. */
    method InstallTargets(targets: seq<AppSpec>, outcomes: seq<Outcome>)
      requires |outcomes| == |targets|
      modifies this
      ensures apps == RecordTargets(old(apps), targets, outcomes)
    {
      hide RecordInstalled;
      for i := 0 to |targets|
        invariant RecordTargets(old(apps), targets, outcomes) == RecordTargets(apps, targets[i..], outcomes[i..])
      {
        if outcomes[i].DockerFailed? {
          return;
        }
        if outcomes[i].Installed? {
          apps := RecordInstalled(apps, targets[i]);
        }
        assert targets[i..][1..] == targets[i + 1..] && outcomes[i..][1..] == outcomes[i + 1..];
      }
    }

    /** `install_app` and `update_app_config`. */
    method Submit(request: Request, outcomes: seq<Outcome>)
      modifies this
      ensures apps == Submitted(catalog, devices, old(apps), request, outcomes)
    {
      hide Verdict, Prepared, Completed, RecordTargets;
      var prepared := Prepared(catalog, apps, request);
      if prepared.Err? {
        return;
      }
      var targets := CompleteTargets(prepared.value);
      var verdict := ValidateAppSdrAssignments(apps, targets, devices);
      assert verdict.Ok? ==> verdict.value == ();
      VerdictIsUnique(Records(apps), targets, devices, verdict, Ok(()));
      if verdict.Ok? && |outcomes| == |targets| {
        InstallTargets(targets, outcomes);
      }
    }

    /** Only the records of this id go; nothing changes when removal or writing fails. */
    method UninstallApp(id: string, removed: bool, written: bool)
      modifies this
      ensures apps == if removed && written then Forgotten(old(apps), id) else old(apps)
      ensures removed && written && old(apps).AppArray? ==>
        apps.AppArray? && exists at :: Selects(at, old(apps).records, apps.records, {id})
    {
      if removed && written {
        if apps.AppArray? {
          ghost var at := WithoutIsSelection(apps.records, {id});
        }
        apps := Forgotten(apps, id);
      }
    }

    /** `migrate_sdr_assignment_metadata`: one pass over the records, written back only if some record changed. */
    method MigrateSdrAssignmentMetadata(written: bool)
      modifies this
      ensures apps == if written then Migrated(old(apps), devices) else old(apps)
    {
      hide Enriched;
      if !apps.AppArray? {
        return;
      }
      var records := apps.records;
      var anyChanged := false;
      for i := 0 to |records|
        invariant apps == old(apps) && |records| == |apps.records|
        invariant forall j | 0 <= j < i :: records[j] == MigratedRecord(apps.records[j], devices)
        invariant forall j | i <= j < |records| :: records[j] == apps.records[j]
        invariant anyChanged <==> records != apps.records
      {
        if records[i].id.Some? && records[i].env.Env? {
          var app := new CatalogApp(AppSpec(records[i].id.value, false, records[i].env.vars));
          var changed := EnrichAppSdrMetadata(app, devices);
          if changed {
            records := records[i := records[i].(env := Env(app.env))];
            anyChanged := true;
            assert records[i] != apps.records[i];
          }
        }
      }
      assert AppArray(records) == Migrated(apps, devices);
      if anyChanged && written {
        apps := AppArray(records);
      }
    }
  }

  lemma VerdictIsUnique(records: seq<AppRecord>, targets: seq<AppSpec>, devices: seq<SdrDevice>, r: Result<(), Refusal>,
      s: Result<(), Refusal>)
    requires Verdict(records, targets, devices, r)
    ensures Verdict(records, targets, devices, s) <==> r == s
  {
  }

  // ---- exclusivity -----------------------------------------------------------------------------

  /** No tuner can be reached both through a reference of `a` and through one of `b`. */
  ghost predicate Apart(a: Env, b: Env, devices: seq<SdrDevice>) {
    forall f, g :: ReferenceAt(a, f).Some? && ReferenceAt(b, g).Some? ==>
      !SharesTuner(ReferenceAt(a, f).value, ReferenceAt(b, g).value, devices)
  }

  ghost predicate SelfApart(a: Env, devices: seq<SdrDevice>) {
    forall f, g :: f != g && ReferenceAt(a, f).Some? && ReferenceAt(a, g).Some? ==>
      !SharesTuner(ReferenceAt(a, f).value, ReferenceAt(a, g).value, devices)
  }

  /** No tuner can be reached through two different recorded references. */
  ghost predicate Exclusive(records: seq<AppRecord>, devices: seq<SdrDevice>) {
    && (forall i: nat, j: nat | i < j < |records| :: Apart(EnvOf(records[i]), EnvOf(records[j]), devices))
    && (forall i: nat | i < |records| :: SelfApart(EnvOf(records[i]), devices))
  }

  ghost predicate SettledRecords(records: seq<AppRecord>, devices: seq<SdrDevice>) {
    forall r | r in records :: AllSettled(EnvOf(r), devices)
  }

  ghost predicate CoherentRecords(records: seq<AppRecord>, devices: seq<SdrDevice>) {
    forall r | r in records :: AllCoherent(EnvOf(r), devices)
  }

  /** Every way of sharing a tuner between the two environments is one that the conflict test sees. */
  ghost predicate Detected(a: Env, b: Env, devices: seq<SdrDevice>) {
    (AllSettled(a, devices) && AllSettled(b, devices)) || (AllCoherent(a, devices) && AllCoherent(b, devices))
  }

  lemma DetectedSharingConflicts(a: Env, f: string, b: Env, g: string, devices: seq<SdrDevice>)
    requires DeviceTable(devices) && Detected(a, b, devices)
    requires ReferenceAt(a, f).Some? && ReferenceAt(b, g).Some?
    requires SharesTuner(ReferenceAt(a, f).value, ReferenceAt(b, g).value, devices)
    ensures Conflicting(a, f, b, g)
  {
  }

  /** What acceptance gives for any two of the targets. */
  lemma AcceptedTargetsApart(apps: AppsValue, targets: seq<AppSpec>, devices: seq<SdrDevice>, i: nat, j: nat)
    requires DeviceTable(devices) && Accepted(apps, targets, devices) && i < |targets| && j < |targets|
    requires Detected(targets[i].env, targets[j].env, devices)
    ensures i != j ==> Apart(targets[i].env, targets[j].env, devices)
    ensures SelfApart(targets[i].env, devices) || !Detected(targets[i].env, targets[i].env, devices)
  {
    hide ReferenceAt, SharesTuner, FirstMissing, AllSettled, AllCoherent, Conflicting;
    forall f, g | ReferenceAt(targets[i].env, f).Some? && ReferenceAt(targets[j].env, g).Some? && (i != j || f != g)
      && SharesTuner(ReferenceAt(targets[i].env, f).value, ReferenceAt(targets[j].env, g).value, devices)
      ensures false
    {
      DetectedSharingConflicts(targets[i].env, f, targets[j].env, g, devices);
    }
    forall f, g | Detected(targets[i].env, targets[i].env, devices) && f != g
      && ReferenceAt(targets[i].env, f).Some? && ReferenceAt(targets[i].env, g).Some?
      && SharesTuner(ReferenceAt(targets[i].env, f).value, ReferenceAt(targets[i].env, g).value, devices)
      ensures false
    {
      DetectedSharingConflicts(targets[i].env, f, targets[i].env, g, devices);
    }
  }



  // ---- recording keeps exclusivity -------------------------------------------------------------

  lemma {:induction false} WithoutElements(records: seq<AppRecord>, ids: set<string>)
    ensures forall r :: r in Without(records, ids) <==> r in records && !(r.id.Some? && r.id.value in ids)
  {
    if records != [] {
      WithoutElements(records[..|records| - 1], ids);
      assert records == records[..|records| - 1] + [records[|records| - 1]];
    }
  }

  lemma ExclusiveConcat(front: seq<AppRecord>, back: seq<AppRecord>, devices: seq<SdrDevice>)
    ensures Exclusive(front + back, devices) <==>
      (&& Exclusive(front, devices) && Exclusive(back, devices)
       && forall x, y | x in front && y in back :: Apart(EnvOf(x), EnvOf(y), devices))
  {
    hide Apart, SelfApart;
    var all := front + back;
    assert forall i: nat | i < |front| :: all[i] == front[i];
    assert forall i: nat | i < |back| :: all[|front| + i] == back[i];
    if Exclusive(all, devices) {
      forall x, y | x in front && y in back
        ensures Apart(EnvOf(x), EnvOf(y), devices)
      {
        var i :| 0 <= i < |front| && front[i] == x;
        var j :| 0 <= j < |back| && back[j] == y;
        assert Apart(EnvOf(all[i]), EnvOf(all[|front| + j]), devices);
      }
    }
  }

  lemma {:induction false} WithoutKeepsExclusive(records: seq<AppRecord>, ids: set<string>, devices: seq<SdrDevice>)
    requires Exclusive(records, devices)
    ensures Exclusive(Without(records, ids), devices)
  {
    hide Exclusive;
    if records != [] {
      var front, last := records[..|records| - 1], records[|records| - 1];
      assert records == front + [last];
      ExclusiveConcat(front, [last], devices);
      WithoutKeepsExclusive(front, ids, devices);
      WithoutElements(front, ids);
      ExclusiveConcat(Without(front, ids), [last], devices);
      assert Without(front, ids) + [] == Without(front, ids);
    }
  }

  lemma {:induction false} WithoutTwice(records: seq<AppRecord>, a: set<string>, b: set<string>)
    ensures Without(Without(records, a), b) == Without(records, a + b)
  {
    if records != [] {
      var front, last := records[..|records| - 1], records[|records| - 1];
      WithoutTwice(front, a, b);
      assert (Without(front, a) + [last])[..|Without(front, a)|] == Without(front, a);
      assert Without(front, a) + [] == Without(front, a) && Without(front, a + b) + [] == Without(front, a + b);
      assert Without(Without(front, a), b) + [] == Without(Without(front, a), b);
    }
  }

  lemma {:induction false} WithoutConcat(records: seq<AppRecord>, more: seq<AppRecord>, ids: set<string>)
    requires forall r | r in more :: !(r.id.Some? && r.id.value in ids)
    ensures Without(records + more, ids) == Without(records, ids) + more
  {
    if more != [] {
      var front, last := more[..|more| - 1], more[|more| - 1];
      assert (records + more)[..|records + more| - 1] == records + front;
      assert last in more && forall r | r in front :: r in more;
      WithoutConcat(records, front, ids);
      assert front + [last] == more;
    } else {
      assert records + more == records;
    }
  }

  function TargetIds(targets: seq<AppSpec>): set<string> {
    set t | t in targets :: t.id
  }

  predicate DistinctIds(targets: seq<AppSpec>) {
    forall i, j | 0 <= i < j < |targets| :: targets[i].id != targets[j].id
  }

  function TargetRecords(targets: seq<AppSpec>): seq<AppRecord> {
    seq(|targets|, i requires 0 <= i < |targets| => RecordOf(targets[i]))
  }

  lemma RecordOne(base: seq<AppRecord>, done: seq<AppSpec>, t: AppSpec)
    requires DistinctIds(done + [t])
    ensures RecordInstalled(AppArray(Without(base, TargetIds(done)) + TargetRecords(done)), t)
         == AppArray(Without(base, TargetIds(done + [t])) + TargetRecords(done + [t]))
  {
    hide Without;
    var recorded, next := TargetRecords(done), done + [t];
    assert next[|done|] == t && forall i | 0 <= i < |done| :: next[i] == done[i];
    forall r | r in recorded
      ensures !(r.id.Some? && r.id.value in {t.id})
    {
      var i :| 0 <= i < |recorded| && recorded[i] == r;
      assert next[i].id != next[|done|].id;
    }
    WithoutConcat(Without(base, TargetIds(done)), recorded, {t.id});
    WithoutTwice(base, TargetIds(done), {t.id});
    assert TargetIds(next) == TargetIds(done) + {t.id} by {
      assert forall x :: x in next <==> x in done || x == t;
    }
    assert TargetRecords(next) == recorded + [RecordOf(t)];
  }

  /** The targets that end up recorded: those installed and written before Docker fails. */
  function Recorded(targets: seq<AppSpec>, outcomes: seq<Outcome>): seq<AppSpec>
    requires |outcomes| == |targets|
  {
    if targets == [] || outcomes[0].DockerFailed? then []
    else (if outcomes[0].Installed? then [targets[0]] else []) + Recorded(targets[1..], outcomes[1..])
  }

  /** Positions of the recorded targets among the targets. */
  lemma {:induction false} RecordedAt(targets: seq<AppSpec>, outcomes: seq<Outcome>) returns (at: seq<nat>)
    requires |outcomes| == |targets|
    ensures |at| == |Recorded(targets, outcomes)| && forall k | 0 <= k < |at| ::
      at[k] < |targets| && targets[at[k]] == Recorded(targets, outcomes)[k]
    ensures forall j, k | 0 <= j < k < |at| :: at[j] < at[k]
  {
    at := [];
    if targets != [] && !outcomes[0].DockerFailed? {
      var rest := RecordedAt(targets[1..], outcomes[1..]);
      at := (if outcomes[0].Installed? then [0] else []) + seq(|rest|, k requires 0 <= k < |rest| => rest[k] + 1);
    }
  }

  /** Recording the targets one by one replaces the old records of those that end up recorded at once. */
  lemma {:induction false} RecordAll(base: seq<AppRecord>, done: seq<AppSpec>, targets: seq<AppSpec>,
      outcomes: seq<Outcome>)
    requires DistinctIds(done + targets) && |outcomes| == |targets|
    ensures var recorded := Recorded(targets, outcomes);
      RecordTargets(AppArray(Without(base, TargetIds(done)) + TargetRecords(done)), targets, outcomes)
         == AppArray(Without(base, TargetIds(done + recorded)) + TargetRecords(done + recorded))
    decreases |targets|
  {
    hide Without, TargetIds, TargetRecords, RecordInstalled, DistinctIds;
    if targets == [] || outcomes[0].DockerFailed? {
      assert done + [] == done;
    } else {
      var first, rest := targets[0], targets[1..];
      var later := Recorded(rest, outcomes[1..]);
      DistinctWithoutFirst(done, targets);
      if outcomes[0].Installed? {
        assert (done + [first]) + rest == done + targets;
        RecordOne(base, done, first);
        RecordAll(base, done + [first], rest, outcomes[1..]);
        assert (done + [first]) + later == done + ([first] + later);
      } else {
        RecordAll(base, done, rest, outcomes[1..]);
        assert [] + later == later;
      }
    }
  }

  lemma DistinctWithoutFirst(done: seq<AppSpec>, targets: seq<AppSpec>)
    requires DistinctIds(done + targets) && targets != []
    ensures DistinctIds(done + targets[1..]) && DistinctIds(done + [targets[0]])
  {
    assert done + [targets[0]] == (done + targets)[..|done| + 1];
    var all, fewer := done + targets, done + targets[1..];
    assert forall i | 0 <= i < |fewer| :: fewer[i] == all[if i < |done| then i else i + 1];
  }

  lemma {:induction false} AllRecorded(targets: seq<AppSpec>, outcomes: seq<Outcome>)
    requires |outcomes| == |targets|
    ensures (forall o | o in outcomes :: o.Installed?) ==> Recorded(targets, outcomes) == targets
    ensures (forall o | o in outcomes :: !o.Installed?) ==> Recorded(targets, outcomes) == []
  {
    if targets != [] {
      AllRecorded(targets[1..], outcomes[1..]);
      assert outcomes[0] in outcomes && forall o | o in outcomes[1..] :: o in outcomes;
      assert targets == [targets[0]] + targets[1..];
    }
  }

  lemma BundleIdsAreDistinct(catalog: seq<AppSpec>, hub: AppSpec)
    requires hub.id == "acarshub"
    ensures DistinctIds(PrepareAcarshubBundle(catalog, hub))
  {
    hide HubEnv, EnvEnabled, BundledAcarsdec, BundledDumpvdl2;
    assert "acarshub"[5] == 'h' && "acarsdec"[5] == 'd' && "dumpvdl2"[0] == 'd' && "acarshub"[0] == 'a'
      && "acarsdec"[0] == 'a';
    forall source: AppSpec, env: Env
      ensures BundledAcarsdec(source, env).id == source.id && BundledDumpvdl2(source, env).id == source.id
    {
      BundlingKeepsId(source, env);
    }
  }

  lemma BundlingKeepsId(source: AppSpec, env: Env)
    ensures BundledAcarsdec(source, env).id == source.id && BundledDumpvdl2(source, env).id == source.id
  {
  }

  lemma PreparedIdsAreDistinct(catalog: seq<AppSpec>, apps: AppsValue, request: Request, devices: seq<SdrDevice>)
    requires Prepared(catalog, apps, request).Ok?
    ensures DistinctIds(Prepared(catalog, apps, request).value)
    ensures DistinctIds(Completed(Prepared(catalog, apps, request).value, devices))
  {
    hide PrepareAcarshubBundle, ConfigureAcarsdecOutputPolicy, Enriched;
    forall hub: AppSpec | hub.id == "acarshub"
      ensures DistinctIds(PrepareAcarshubBundle(catalog, hub))
    {
      BundleIdsAreDistinct(catalog, hub);
    }
  }




  // ---- runs ------------------------------------------------------------------------------------

  datatype Step =
    | Submit(request: Request, outcomes: seq<Outcome>)
    | Uninstall(id: string, removed: bool, written: bool)
    | Migrate(written: bool)

  ghost function Next(catalog: seq<AppSpec>, devices: seq<SdrDevice>, apps: AppsValue, step: Step): AppsValue {
    match step
    case Submit(request, outcomes) => Submitted(catalog, devices, apps, request, outcomes)
    case Uninstall(id, removed, written) => if removed && written then Forgotten(apps, id) else apps
    case Migrate(written) => if written then Migrated(apps, devices) else apps
  }

  ghost function Run(catalog: seq<AppSpec>, devices: seq<SdrDevice>, apps: AppsValue, steps: seq<Step>): AppsValue
    decreases |steps|
  {
    if steps == [] then apps else Run(catalog, devices, Next(catalog, devices, apps, steps[0]), steps[1..])
  }

  /** A request's targets are all recorded or none is: an ACARS Hub bundle did not stop half way. */
  predicate Whole(step: Step) {
    step.Submit? ==>
      (forall o | o in step.outcomes :: o.Installed?) || (forall o | o in step.outcomes :: !o.Installed?)
  }

  /** The targets of a request, once merged with defaults and recorded values, are coherent. */
  ghost predicate CoherentRequest(catalog: seq<AppSpec>, devices: seq<SdrDevice>, apps: AppsValue, step: Step) {
    step.Submit? && Prepared(catalog, apps, step.request).Ok? ==>
      forall t | t in Prepared(catalog, apps, step.request).value :: AllCoherent(t.env, devices)
  }

  lemma MigrationKeepsExclusive(apps: AppsValue, devices: seq<SdrDevice>)
    requires DeviceTable(devices) && Exclusive(Records(apps), devices)
    ensures Exclusive(Records(Migrated(apps, devices)), devices)
  {
    hide Apart, SelfApart, Enriched;
    var before, after := Records(apps), Records(Migrated(apps, devices));
    forall i: nat | i < |after|
      ensures SelfApart(EnvOf(after[i]), devices)
    {
      MigratedSelfApart(before[i], devices);
    }
    forall i: nat, j: nat | i < j < |after|
      ensures Apart(EnvOf(after[i]), EnvOf(after[j]), devices)
    {
      MigratedApart(before[i], before[j], devices);
    }
  }

  lemma MigratedTuners(r: AppRecord, devices: seq<SdrDevice>, f: string)
    requires DeviceTable(devices)
    ensures ReferenceAt(EnvOf(MigratedRecord(r, devices)), f).Some? <==> ReferenceAt(EnvOf(r), f).Some?
    ensures ReferenceAt(EnvOf(r), f).Some? ==> forall d | d in devices ::
      CanUse(ReferenceAt(EnvOf(MigratedRecord(r, devices)), f).value, d) <==> CanUse(ReferenceAt(EnvOf(r), f).value, d)
  {
    hide ReferenceAt, CanUse, Enriched;
    EnrichmentKeepsReferences(EnvOf(r), devices, f);
    if ReferenceAt(EnvOf(r), f).Some? {
      forall d | d in devices
        ensures CanUse(ReferenceAt(EnvOf(MigratedRecord(r, devices)), f).value, d) <==>
          CanUse(ReferenceAt(EnvOf(r), f).value, d)
      {
        EnrichmentKeepsTuners(EnvOf(r), devices, f, d);
      }
    }
  }

  lemma MigratedApart(a: AppRecord, b: AppRecord, devices: seq<SdrDevice>)
    requires DeviceTable(devices) && Apart(EnvOf(a), EnvOf(b), devices)
    ensures Apart(EnvOf(MigratedRecord(a, devices)), EnvOf(MigratedRecord(b, devices)), devices)
  {
    hide ReferenceAt, CanUse, MigratedRecord;
    var x, y := EnvOf(MigratedRecord(a, devices)), EnvOf(MigratedRecord(b, devices));
    forall f, g | ReferenceAt(x, f).Some? && ReferenceAt(y, g).Some?
      ensures !SharesTuner(ReferenceAt(x, f).value, ReferenceAt(y, g).value, devices)
    {
      MigratedTuners(a, devices, f);
      MigratedTuners(b, devices, g);
    }
  }

  lemma MigratedSelfApart(a: AppRecord, devices: seq<SdrDevice>)
    requires DeviceTable(devices) && SelfApart(EnvOf(a), devices)
    ensures SelfApart(EnvOf(MigratedRecord(a, devices)), devices)
  {
    hide ReferenceAt, CanUse, MigratedRecord;
    var x := EnvOf(MigratedRecord(a, devices));
    forall f, g | f != g && ReferenceAt(x, f).Some? && ReferenceAt(x, g).Some?
      ensures !SharesTuner(ReferenceAt(x, f).value, ReferenceAt(x, g).value, devices)
    {
      MigratedTuners(a, devices, f);
      MigratedTuners(a, devices, g);
    }
  }

  lemma MigrationKeepsReferences(apps: AppsValue, devices: seq<SdrDevice>)
    requires DeviceTable(devices)
    ensures SettledRecords(Records(apps), devices) ==> SettledRecords(Records(Migrated(apps, devices)), devices)
    ensures CoherentRecords(Records(apps), devices) ==> CoherentRecords(Records(Migrated(apps, devices)), devices)
  {
    hide ReferenceAt, CanUse, Enriched, AllCoherent;
    var before, after := Records(apps), Records(Migrated(apps, devices));
    forall r | r in after
      ensures SettledRecords(before, devices) ==> AllSettled(EnvOf(r), devices)
      ensures CoherentRecords(before, devices) ==> AllCoherent(EnvOf(r), devices)
    {
      var i :| 0 <= i < |after| && after[i] == r;
      assert before[i] in before;
      if CoherentRecords(before, devices) {
        EnrichmentKeepsCoherence(EnvOf(before[i]), devices);
      }
      if SettledRecords(before, devices) {
        forall f | ReferenceAt(EnvOf(r), f).Some?
          ensures Settled(ReferenceAt(EnvOf(r), f).value, devices)
        {
          EnrichmentKeepsReferences(EnvOf(before[i]), devices, f);
          MigratedTuners(before[i], devices, f);
        }
      }
    }
  }

  /** The targets that completion and acceptance leave are settled, whatever was requested. */
  lemma AcceptedTargetsSettled(apps: AppsValue, prepared: seq<AppSpec>, devices: seq<SdrDevice>)
    requires DeviceTable(devices) && Accepted(apps, Completed(prepared, devices), devices)
    ensures forall t | t in Completed(prepared, devices) :: AllSettled(t.env, devices)
  {
    hide ReferenceAt, FirstMissing, AnyTargetPair, AnyTaken, Settled, Enriched, Ambiguous;
    var targets := Completed(prepared, devices);
    forall t, f | t in targets && ReferenceAt(t.env, f).Some?
      ensures Settled(ReferenceAt(t.env, f).value, devices)
    {
      var i :| 0 <= i < |targets| && targets[i] == t;
      assert !Ambiguous(targets[i].env, f, devices);
      UnambiguousIsSettled(prepared[i].env, devices, f);
    }
  }

  /** Every record is settled, or every record is coherent. */
  ghost predicate Governed(apps: AppsValue, devices: seq<SdrDevice>, coherent: bool) {
    && Exclusive(Records(apps), devices)
    && if coherent then CoherentRecords(Records(apps), devices) else SettledRecords(Records(apps), devices)
  }

  lemma GovernedTargets(apps: AppsValue, prepared: seq<AppSpec>, devices: seq<SdrDevice>, coherent: bool)
    requires DeviceTable(devices) && Accepted(apps, Completed(prepared, devices), devices)
    requires coherent ==> forall t | t in prepared :: AllCoherent(t.env, devices)
    ensures forall t | t in Completed(prepared, devices) ::
      if coherent then AllCoherent(t.env, devices) else AllSettled(t.env, devices)
  {
    hide AllCoherent, AllSettled, Accepted, Exclusive, Enriched;
    AcceptedTargetsSettled(apps, prepared, devices);
    var targets := Completed(prepared, devices);
    if coherent {
      forall t | t in targets
        ensures AllCoherent(t.env, devices)
      {
        var i :| 0 <= i < |targets| && targets[i] == t;
        assert prepared[i] in prepared;
        EnrichmentKeepsCoherence(prepared[i].env, devices);
      }
    }
  }

  /** Recording starts from an empty array when `config.apps` is not one. */
  function Replaced(apps: AppsValue, targets: seq<AppSpec>): seq<AppRecord> {
    Kept(apps, targets) + TargetRecords(targets)
  }

  lemma {:induction false} RecordAllFrom(apps: AppsValue, targets: seq<AppSpec>, outcomes: seq<Outcome>)
    requires DistinctIds(targets) && |outcomes| == |targets|
    ensures Recorded(targets, outcomes) != [] ==>
      Records(RecordTargets(apps, targets, outcomes)) == Replaced(apps, Recorded(targets, outcomes))
    ensures Recorded(targets, outcomes) == [] ==> RecordTargets(apps, targets, outcomes) == apps
    decreases |targets|
  {
    if targets != [] && outcomes[0].RecordFailed? {
      assert [] + Recorded(targets[1..], outcomes[1..]) == Recorded(targets[1..], outcomes[1..]);
      RecordAllFrom(apps, targets[1..], outcomes[1..]);
    } else if targets != [] && outcomes[0].Installed? {
      var base := if apps.AppArray? then apps.records else [];
      WithoutNothing(base);
      assert TargetIds([]) == {};
      assert Without(base, TargetIds([])) + TargetRecords([]) == base;
      assert [] + targets == targets && [] + Recorded(targets, outcomes) == Recorded(targets, outcomes);
      assert RecordTargets(apps, targets, outcomes) == RecordTargets(AppArray(base), targets, outcomes);
      assert apps.AppArray? || Without(base, TargetIds(Recorded(targets, outcomes))) == [];
      RecordAll(base, [], targets, outcomes);
    }
  }

  lemma {:induction false} WithoutNothing(records: seq<AppRecord>)
    ensures Without(records, {}) == records
  {
    if records != [] {
      WithoutNothing(records[..|records| - 1]);
    }
  }

  lemma CompletedLength(prepared: seq<AppSpec>, devices: seq<SdrDevice>)
    ensures |Completed(prepared, devices)| == |prepared|
  {
  }

  /** After recording, a record is an old one or one of a target. */
  lemma ReplacedRecord(apps: AppsValue, recorded: seq<AppSpec>, r: AppRecord)
    requires r in Replaced(apps, recorded)
    ensures r in Records(apps) || exists t | t in recorded :: EnvOf(r) == t.env
  {
    WithoutElements(Records(apps), TargetIds(recorded));
    RecordEnvs(recorded);
  }

  /** The records that a request leaves when these targets end up recorded. */
  function Kept(apps: AppsValue, recorded: seq<AppSpec>): seq<AppRecord> {
    if apps.AppArray? then Without(apps.records, TargetIds(recorded)) else []
  }

  /** No reference of `b` reaches by serial alone a tuner that `a` names by an id without that serial. */
  ghost predicate NoHiddenOverlap(a: Env, b: Env, devices: seq<SdrDevice>) {
    forall f, g :: ReferenceAt(a, f).Some? && ReferenceAt(b, g).Some? ==>
      !HiddenOverlap(ReferenceAt(a, f).value, ReferenceAt(b, g).value, devices)
  }

  ghost predicate NoneHidden(apps: AppsValue, targets: seq<AppSpec>, recorded: seq<AppSpec>, devices: seq<SdrDevice>) {
    forall x, t | x in Kept(apps, recorded) && t in recorded ::
      IsTarget(targets, x.id) || NoHiddenOverlap(t.env, EnvOf(x), devices)
  }

  /** The old records of targets that did not end up recorded share no tuner with those that did. */
  ghost predicate LeftoversApart(apps: AppsValue, targets: seq<AppSpec>, recorded: seq<AppSpec>,
      devices: seq<SdrDevice>) {
    forall x, t | x in Kept(apps, recorded) && t in recorded ::
      !IsTarget(targets, x.id) || Apart(EnvOf(x), t.env, devices)
  }

  /** Completed and accepted targets are apart from each other, whatever was requested. */
  lemma AcceptedPairApart(apps: AppsValue, prepared: seq<AppSpec>, devices: seq<SdrDevice>, i: nat, j: nat)
    requires DeviceTable(devices) && Accepted(apps, Completed(prepared, devices), devices) && i < |prepared|
      && j < |prepared|
    ensures var targets := Completed(prepared, devices);
      (i != j ==> Apart(targets[i].env, targets[j].env, devices)) && SelfApart(targets[i].env, devices)
  {
    hide Apart, SelfApart, Accepted, AllSettled, Enriched;
    AcceptedTargetsSettled(apps, prepared, devices);
    var targets := Completed(prepared, devices);
    assert targets[i] in targets && targets[j] in targets;
    AcceptedTargetsApart(apps, targets, devices, i, j);
  }

  lemma RecordedExclusive(apps: AppsValue, prepared: seq<AppSpec>, devices: seq<SdrDevice>, outcomes: seq<Outcome>)
    requires DeviceTable(devices) && Accepted(apps, Completed(prepared, devices), devices) && |outcomes| == |prepared|
    ensures Exclusive(TargetRecords(Recorded(Completed(prepared, devices), outcomes)), devices)
  {
    hide Apart, SelfApart, Accepted, Enriched;
    var targets := Completed(prepared, devices);
    var at := RecordedAt(targets, outcomes);
    var all := TargetRecords(Recorded(targets, outcomes));
    forall i: nat, j: nat | i < j < |all|
      ensures Apart(EnvOf(all[i]), EnvOf(all[j]), devices)
    {
      AcceptedPairApart(apps, prepared, devices, at[i], at[j]);
    }
    forall i: nat | i < |all|
      ensures SelfApart(EnvOf(all[i]), devices)
    {
      AcceptedPairApart(apps, prepared, devices, at[i], at[i]);
    }
  }

  /**
   An accepted target is apart from the record of another app exactly when no overlap is hidden from the conflict
   test.
   */
  lemma ApartExactly(apps: AppsValue, prepared: seq<AppSpec>, devices: seq<SdrDevice>, i: nat, r: nat)
    requires DeviceTable(devices) && Accepted(apps, Completed(prepared, devices), devices) && i < |prepared|
      && r < |Records(apps)|
    requires !IsTarget(Completed(prepared, devices), Records(apps)[r].id)
    ensures var t, env := Completed(prepared, devices)[i].env, EnvOf(Records(apps)[r]);
      Apart(env, t, devices) <==> NoHiddenOverlap(t, env, devices)
  {
    hide ReferenceAt, FirstMissing, AllSettled, Enriched, ReferencesConflict, SharesTuner, HiddenOverlap, Completed;
    var t, env := CompletedAt(prepared, devices, i).env, EnvOf(Records(apps)[r]);
    AcceptedTargetsSettled(apps, prepared, devices);
    forall f, g | ReferenceAt(t, f).Some? && ReferenceAt(env, g).Some?
      ensures SharesTuner(ReferenceAt(env, g).value, ReferenceAt(t, f).value, devices) <==>
        HiddenOverlap(ReferenceAt(t, f).value, ReferenceAt(env, g).value, devices)
    {
      SettledSharingIsHidden(t, f, env, g, devices);
    }
  }

  function CompletedAt(prepared: seq<AppSpec>, devices: seq<SdrDevice>, i: nat): (t: AppSpec)
    requires i < |prepared|
    ensures |Completed(prepared, devices)| == |prepared| && t == Completed(prepared, devices)[i]
      && t in Completed(prepared, devices)
  {
    Completed(prepared, devices)[i]
  }

  lemma SettledSharingIsHidden(t: Env, f: string, env: Env, g: string, devices: seq<SdrDevice>)
    requires AllSettled(t, devices) && ReferenceAt(t, f).Some? && ReferenceAt(env, g).Some?
      && !Conflicting(t, f, env, g)
    ensures SharesTuner(ReferenceAt(env, g).value, ReferenceAt(t, f).value, devices) <==>
      HiddenOverlap(ReferenceAt(t, f).value, ReferenceAt(env, g).value, devices)
  {
    hide ReferenceAt, SerialKey, ReferencesConflict;
    var x, y := ReferenceAt(t, f).value, ReferenceAt(env, g).value;
    UndetectedSharingExactly(x, y, devices);
    assert Settled(x, devices);
  }

  /** The exact condition of one accepted request, whatever Docker and the disk do with its targets. */
  lemma RecordingExclusiveExactly(apps: AppsValue, prepared: seq<AppSpec>, devices: seq<SdrDevice>,
      outcomes: seq<Outcome>)
    requires DeviceTable(devices) && Exclusive(Records(apps), devices)
    requires Accepted(apps, Completed(prepared, devices), devices) && |outcomes| == |prepared|
    ensures var targets := Completed(prepared, devices); var recorded := Recorded(targets, outcomes);
      Exclusive(Kept(apps, recorded) + TargetRecords(recorded), devices) <==>
        NoneHidden(apps, targets, recorded, devices) && LeftoversApart(apps, targets, recorded, devices)
  {
    hide Exclusive, Accepted, Apart, NoHiddenOverlap, Without, DeviceTable, Completed;
    CompletedLength(prepared, devices);
    var targets := Completed(prepared, devices);
    var recorded := Recorded(targets, outcomes);
    RecordedExclusive(apps, prepared, devices, outcomes);
    KeptExclusive(apps, recorded, devices);
    ExclusiveConcat(Kept(apps, recorded), TargetRecords(recorded), devices);
    forall x, t | x in Kept(apps, recorded) && t in recorded && !IsTarget(targets, x.id)
      ensures Apart(EnvOf(x), t.env, devices) <==> NoHiddenOverlap(t.env, EnvOf(x), devices)
    {
      var r, i := KeptAt(apps, targets, outcomes, x, t);
      ApartExactly(apps, prepared, devices, i, r);
    }
    RecordEnvs(recorded);
  }

  lemma RecordEnvs(recorded: seq<AppSpec>)
    ensures forall t | t in recorded :: RecordOf(t) in TargetRecords(recorded) && EnvOf(RecordOf(t)) == t.env
    ensures forall y | y in TargetRecords(recorded) :: exists t | t in recorded :: y == RecordOf(t)
  {
    forall t | t in recorded
      ensures RecordOf(t) in TargetRecords(recorded)
    {
      var i :| 0 <= i < |recorded| && recorded[i] == t;
      assert TargetRecords(recorded)[i] == RecordOf(t);
    }
  }

  lemma KeptExclusive(apps: AppsValue, recorded: seq<AppSpec>, devices: seq<SdrDevice>)
    requires Exclusive(Records(apps), devices)
    ensures Exclusive(Kept(apps, recorded), devices)
  {
    hide Apart, SelfApart;
    if apps.AppArray? {
      WithoutKeepsExclusive(apps.records, TargetIds(recorded), devices);
    }
  }

  /** Where a kept record and a recorded target come from. */
  lemma KeptAt(apps: AppsValue, targets: seq<AppSpec>, outcomes: seq<Outcome>, x: AppRecord, t: AppSpec)
      returns (r: nat, i: nat)
    requires |outcomes| == |targets| && x in Kept(apps, Recorded(targets, outcomes)) && t in Recorded(targets, outcomes)
    ensures r < |Records(apps)| && Records(apps)[r] == x && i < |targets| && targets[i] == t
  {
    WithoutElements(apps.records, TargetIds(Recorded(targets, outcomes)));
    r :| 0 <= r < |apps.records| && apps.records[r] == x;
    var at := RecordedAt(targets, outcomes);
    var k :| 0 <= k < |at| && Recorded(targets, outcomes)[k] == t;
    i := at[k];
  }

  /** The step is a request that passes the validator. */
  ghost predicate Takes(catalog: seq<AppSpec>, devices: seq<SdrDevice>, apps: AppsValue, step: Step) {
    step.Submit? && Prepared(catalog, apps, step.request).Ok?
    && var prepared := Prepared(catalog, apps, step.request).value;
       |step.outcomes| == |prepared| && Accepted(apps, Completed(prepared, devices), devices)
  }

  function TargetsOf(catalog: seq<AppSpec>, devices: seq<SdrDevice>, apps: AppsValue,
      step: Step): (targets: seq<AppSpec>)
    requires step.Submit? && Prepared(catalog, apps, step.request).Ok?
    ensures |targets| == |Prepared(catalog, apps, step.request).value|
  {
    Completed(Prepared(catalog, apps, step.request).value, devices)
  }

  ghost predicate StepTidy(catalog: seq<AppSpec>, devices: seq<SdrDevice>, apps: AppsValue, step: Step) {
    Takes(catalog, devices, apps, step) ==>
      var targets := TargetsOf(catalog, devices, apps, step);
      LeftoversApart(apps, targets, Recorded(targets, step.outcomes), devices)
  }

  ghost predicate StepHidesNothing(catalog: seq<AppSpec>, devices: seq<SdrDevice>, apps: AppsValue, step: Step) {
    Takes(catalog, devices, apps, step) ==>
      var targets := TargetsOf(catalog, devices, apps, step);
      NoneHidden(apps, targets, Recorded(targets, step.outcomes), devices)
  }

  /** The records after a request that passes. */
  lemma TakenRecords(catalog: seq<AppSpec>, devices: seq<SdrDevice>, apps: AppsValue, step: Step)
    requires step.Submit?
    ensures !Takes(catalog, devices, apps, step) ==> Next(catalog, devices, apps, step) == apps
    ensures Takes(catalog, devices, apps, step) ==>
      var recorded := Recorded(TargetsOf(catalog, devices, apps, step), step.outcomes);
      var next := Next(catalog, devices, apps, step);
      (recorded == [] ==> next == apps)
        && (recorded != [] ==> Records(next) == Kept(apps, recorded) + TargetRecords(recorded))
  {
    hide Prepared, Accepted, RecordTargets, Completed;
    if Prepared(catalog, apps, step.request).Ok? {
      CompletedLength(Prepared(catalog, apps, step.request).value, devices);
      if Takes(catalog, devices, apps, step) {
        PreparedIdsAreDistinct(catalog, apps, step.request, devices);
        RecordAllFrom(apps, TargetsOf(catalog, devices, apps, step), step.outcomes);
      }
    }
  }

  /**
   For exclusive records and any step at all, the step keeps them exclusive exactly when no target overlaps another
   app's record in a way that the conflict test misses, and no old record of a target that failed shares a tuner with
   one that was recorded.
   */
  lemma StepExclusiveExactly(catalog: seq<AppSpec>, devices: seq<SdrDevice>, apps: AppsValue, step: Step)
    requires DeviceTable(devices) && Exclusive(Records(apps), devices)
    ensures Exclusive(Records(Next(catalog, devices, apps, step)), devices) <==>
      StepHidesNothing(catalog, devices, apps, step) && StepTidy(catalog, devices, apps, step)
  {
    hide Exclusive, Takes, Accepted, Prepared, Completed, Submitted, Migrated, Without, NoneHidden, LeftoversApart,
      RecordTargets;
    match step
    case Submit(_, _) =>
      TakenRecords(catalog, devices, apps, step);
      if Takes(catalog, devices, apps, step) {
        TakenExclusiveExactly(catalog, devices, apps, step);
      }
    case Uninstall(id, _, _) =>
      OnlySubmitTakes(catalog, devices, apps, step);
      if apps.AppArray? {
        WithoutKeepsExclusive(apps.records, {id}, devices);
      }
    case Migrate(_) =>
      OnlySubmitTakes(catalog, devices, apps, step);
      MigrationKeepsExclusive(apps, devices);
  }

  lemma OnlySubmitTakes(catalog: seq<AppSpec>, devices: seq<SdrDevice>, apps: AppsValue, step: Step)
    requires !step.Submit?
    ensures !Takes(catalog, devices, apps, step)
  {
  }

  lemma TakenExclusiveExactly(catalog: seq<AppSpec>, devices: seq<SdrDevice>, apps: AppsValue, step: Step)
    requires DeviceTable(devices) && Exclusive(Records(apps), devices) && Takes(catalog, devices, apps, step)
    ensures var targets := TargetsOf(catalog, devices, apps, step); var recorded := Recorded(targets, step.outcomes);
      && (Exclusive(Kept(apps, recorded) + TargetRecords(recorded), devices) <==>
            NoneHidden(apps, targets, recorded, devices) && LeftoversApart(apps, targets, recorded, devices))
      && (recorded == [] ==>
        NoneHidden(apps, targets, recorded, devices) && LeftoversApart(apps, targets, recorded, devices))
  {
    hide Exclusive, Prepared, Accepted, Completed, Apart, NoHiddenOverlap;
    RecordingExclusiveExactly(apps, Prepared(catalog, apps, step.request).value, devices, step.outcomes);
  }

  /** A request whose targets are all recorded, or none, leaves no old record of a target next to a recorded one. */
  lemma WholeIsTidy(catalog: seq<AppSpec>, devices: seq<SdrDevice>, apps: AppsValue, step: Step)
    requires Whole(step)
    ensures StepTidy(catalog, devices, apps, step)
  {
    hide Prepared, Accepted, Completed, Apart, Without;
    if Takes(catalog, devices, apps, step) {
      var targets := TargetsOf(catalog, devices, apps, step);
      AllRecorded(targets, step.outcomes);
      var recorded := Recorded(targets, step.outcomes);
      if apps.AppArray? {
        WithoutElements(apps.records, TargetIds(recorded));
      }
      forall x | x in Kept(apps, recorded) && recorded == targets
        ensures !IsTarget(targets, x.id)
      {
      }
    }
  }

  /** Settled or coherent references on both sides leave nothing that the conflict test misses. */
  lemma DetectedHidesNothing(a: Env, b: Env, devices: seq<SdrDevice>)
    requires DeviceTable(devices) && Detected(a, b, devices)
    ensures NoHiddenOverlap(a, b, devices)
  {
    hide ReferenceAt, Coherent, Settled, HiddenOverlap;
    forall f, g | ReferenceAt(a, f).Some? && ReferenceAt(b, g).Some?
      ensures !HiddenOverlap(ReferenceAt(a, f).value, ReferenceAt(b, g).value, devices)
    {
      if AllSettled(a, devices) && AllSettled(b, devices) {
        SettledHidesNothing(ReferenceAt(a, f).value, ReferenceAt(b, g).value, devices);
      } else {
        CoherentHidesNothing(ReferenceAt(a, f).value, ReferenceAt(b, g).value, devices);
      }
    }
  }

  lemma GovernedHidesNothing(catalog: seq<AppSpec>, devices: seq<SdrDevice>, apps: AppsValue, step: Step,
      coherent: bool)
    requires DeviceTable(devices) && Governed(apps, devices, coherent)
    requires coherent ==> CoherentRequest(catalog, devices, apps, step)
    ensures StepHidesNothing(catalog, devices, apps, step)
  {
    hide Prepared, Accepted, Completed, AllCoherent, AllSettled, NoHiddenOverlap, Exclusive;
    if Takes(catalog, devices, apps, step) {
      var prepared, targets := Prepared(catalog, apps, step.request).value, TargetsOf(catalog, devices, apps, step);
      GovernedTargets(apps, prepared, devices, coherent);
      forall x, t | x in Kept(apps, Recorded(targets, step.outcomes)) && t in Recorded(targets, step.outcomes)
        ensures NoHiddenOverlap(t.env, EnvOf(x), devices)
      {
        var r, i := KeptAt(apps, targets, step.outcomes, x, t);
        assert Records(apps)[r] in Records(apps) && targets[i] in targets;
        DetectedHidesNothing(t.env, EnvOf(x), devices);
      }
    }
  }

  /** A step keeps the records settled, or coherent if the request is. */
  lemma StepKeepsKind(catalog: seq<AppSpec>, devices: seq<SdrDevice>, apps: AppsValue, step: Step, coherent: bool)
    requires DeviceTable(devices) && if coherent then CoherentRecords(Records(apps), devices)
      else SettledRecords(Records(apps), devices)
    requires coherent ==> CoherentRequest(catalog, devices, apps, step)
    ensures var next := Records(Next(catalog, devices, apps, step));
      if coherent then CoherentRecords(next, devices) else SettledRecords(next, devices)
  {
    hide AllCoherent, AllSettled, Submitted, Migrated, Without, Prepared, Accepted, Completed;
    match step
    case Submit(_, _) =>
      TakenRecords(catalog, devices, apps, step);
      if Takes(catalog, devices, apps, step) {
        var prepared, targets := Prepared(catalog, apps, step.request).value, TargetsOf(catalog, devices, apps, step);
        GovernedTargets(apps, prepared, devices, coherent);
        RecordedAreTargets(targets, step.outcomes);
        forall r | r in Replaced(apps, Recorded(targets, step.outcomes))
          ensures if coherent then AllCoherent(EnvOf(r), devices) else AllSettled(EnvOf(r), devices)
        {
          ReplacedRecord(apps, Recorded(targets, step.outcomes), r);
        }
      }
    case Uninstall(id, removed, written) =>
      if apps.AppArray? {
        WithoutElements(apps.records, {id});
      }
    case Migrate(written) =>
      MigrationKeepsReferences(apps, devices);
  }

  lemma RecordedAreTargets(targets: seq<AppSpec>, outcomes: seq<Outcome>)
    requires |outcomes| == |targets|
    ensures forall t | t in Recorded(targets, outcomes) :: t in targets
  {
    var at := RecordedAt(targets, outcomes);
  }

  lemma StepKeepsGoverned(catalog: seq<AppSpec>, devices: seq<SdrDevice>, apps: AppsValue, step: Step, coherent: bool)
    requires DeviceTable(devices) && Governed(apps, devices, coherent) && StepTidy(catalog, devices, apps, step)
    requires coherent ==> CoherentRequest(catalog, devices, apps, step)
    ensures Governed(Next(catalog, devices, apps, step), devices, coherent)
  {
    hide Exclusive, CoherentRecords, SettledRecords, Next, StepTidy, StepHidesNothing, CoherentRequest;
    GovernedHidesNothing(catalog, devices, apps, step, coherent);
    StepExclusiveExactly(catalog, devices, apps, step);
    StepKeepsKind(catalog, devices, apps, step, coherent);
  }

  /** At every request of a run, the old records of targets that failed share no tuner with those that were recorded. */
  ghost predicate TidyRun(catalog: seq<AppSpec>, devices: seq<SdrDevice>, apps: AppsValue, steps: seq<Step>)
    decreases |steps|
  {
    steps != [] ==>
      StepTidy(catalog, devices, apps, steps[0])
        && TidyRun(catalog, devices, Next(catalog, devices, apps, steps[0]), steps[1..])
  }

  ghost predicate HidesNothing(catalog: seq<AppSpec>, devices: seq<SdrDevice>, apps: AppsValue, steps: seq<Step>)
    decreases |steps|
  {
    steps != [] ==>
      StepHidesNothing(catalog, devices, apps, steps[0])
        && HidesNothing(catalog, devices, Next(catalog, devices, apps, steps[0]), steps[1..])
  }

  ghost predicate AlwaysExclusive(catalog: seq<AppSpec>, devices: seq<SdrDevice>, apps: AppsValue, steps: seq<Step>)
    decreases |steps|
  {
    && Exclusive(Records(apps), devices)
    && (steps != [] ==> AlwaysExclusive(catalog, devices, Next(catalog, devices, apps, steps[0]), steps[1..]))
  }

  /**
   From exclusive records, a run stays exclusive throughout exactly when each of its requests is tidy and hides
   nothing.
   */
  lemma {:induction false} RunsStayExclusiveExactly(catalog: seq<AppSpec>, devices: seq<SdrDevice>, apps: AppsValue,
      steps: seq<Step>)
    requires DeviceTable(devices) && Exclusive(Records(apps), devices)
    ensures AlwaysExclusive(catalog, devices, apps, steps) <==>
      HidesNothing(catalog, devices, apps, steps) && TidyRun(catalog, devices, apps, steps)
    decreases |steps|
  {
    hide Exclusive, Next, StepTidy, StepHidesNothing;
    if steps != [] {
      var next := Next(catalog, devices, apps, steps[0]);
      StepExclusiveExactly(catalog, devices, apps, steps[0]);
      if Exclusive(Records(next), devices) {
        RunsStayExclusiveExactly(catalog, devices, next, steps[1..]);
      } else {
        assert !AlwaysExclusive(catalog, devices, next, steps[1..]);
      }
    }
  }

  /** Runs in which every request is recorded wholly or not at all are tidy. */
  /** Only a hub brings further apps along; any other request has one target, and one outcome is always whole. */
  lemma OneTargetIsWhole(catalog: seq<AppSpec>, devices: seq<SdrDevice>, apps: AppsValue, step: Step)
    requires Takes(catalog, devices, apps, step)
    ensures Prepared(catalog, apps, step.request).value[0].id != "acarshub" ==> Whole(step)
  {
    hide Accepted, Completed, ConfigureAcarsdecOutputPolicy, PrepareAcarshubBundle;
    forall hub: AppSpec
      ensures PrepareAcarshubBundle(catalog, hub) != [] && PrepareAcarshubBundle(catalog, hub)[0].id == hub.id
    {
      HubComesFirst(catalog, hub);
    }
  }

  lemma HubComesFirst(catalog: seq<AppSpec>, hub: AppSpec)
    ensures PrepareAcarshubBundle(catalog, hub) != [] && PrepareAcarshubBundle(catalog, hub)[0].id == hub.id
  {
    hide HubEnv, BundledAcarsdec, BundledDumpvdl2, FindApp, EnvEnabled;
  }

  lemma {:induction false} WholeRunsAreTidy(catalog: seq<AppSpec>, devices: seq<SdrDevice>, apps: AppsValue,
      steps: seq<Step>)
    requires forall s | s in steps :: Whole(s)
    ensures TidyRun(catalog, devices, apps, steps)
    decreases |steps|
  {
    hide Next, StepTidy, Whole;
    if steps != [] {
      assert steps[0] in steps && forall s | s in steps[1..] :: s in steps;
      WholeIsTidy(catalog, devices, apps, steps[0]);
      WholeRunsAreTidy(catalog, devices, Next(catalog, devices, apps, steps[0]), steps[1..]);
    }
  }

  /**
   Radio exclusivity for any requests at all: once every recorded reference that reaches a connected tuner
   carries an exact id, no run lets two recorded references reach the same tuner.
   */
  lemma {:induction false} SettledRunsStayExclusive(catalog: seq<AppSpec>, devices: seq<SdrDevice>, apps: AppsValue,
      steps: seq<Step>)
    requires DeviceTable(devices) && Exclusive(Records(apps), devices) && SettledRecords(Records(apps), devices)
    requires TidyRun(catalog, devices, apps, steps)
    ensures Exclusive(Records(Run(catalog, devices, apps, steps)), devices)
    ensures SettledRecords(Records(Run(catalog, devices, apps, steps)), devices)
    decreases |steps|
  {
    hide Exclusive, SettledRecords, StepTidy;
    if steps != [] {
      StepKeepsGoverned(catalog, devices, apps, steps[0], false);
      SettledRunsStayExclusive(catalog, devices, Next(catalog, devices, apps, steps[0]), steps[1..]);
    }
  }

  ghost predicate CoherentRequests(catalog: seq<AppSpec>, devices: seq<SdrDevice>, apps: AppsValue, steps: seq<Step>)
    decreases |steps|
  {
    steps != [] ==>
      && CoherentRequest(catalog, devices, apps, steps[0])
      && CoherentRequests(catalog, devices, Next(catalog, devices, apps, steps[0]), steps[1..])
  }

  /** Radio exclusivity when every recorded and requested id names a connected device of the same serial. */
  lemma {:induction false} CoherentRunsStayExclusive(catalog: seq<AppSpec>, devices: seq<SdrDevice>, apps: AppsValue,
      steps: seq<Step>)
    requires DeviceTable(devices) && Exclusive(Records(apps), devices) && CoherentRecords(Records(apps), devices)
    requires TidyRun(catalog, devices, apps, steps) && CoherentRequests(catalog, devices, apps, steps)
    ensures Exclusive(Records(Run(catalog, devices, apps, steps)), devices)
    ensures CoherentRecords(Records(Run(catalog, devices, apps, steps)), devices)
    decreases |steps|
  {
    hide Exclusive, CoherentRecords, StepTidy;
    if steps != [] {
      StepKeepsGoverned(catalog, devices, apps, steps[0], true);
      CoherentRunsStayExclusive(catalog, devices, Next(catalog, devices, apps, steps[0]), steps[1..]);
    }
  }

  /** No two different recorded references conflict. */
  ghost predicate ConflictFree(records: seq<AppRecord>) {
    forall i: nat, f, j: nat, g | i < |records| && j < |records| && (i != j || f != g) ::
      !Conflicting(EnvOf(records[i]), f, EnvOf(records[j]), g)
  }

  /** For coherent or settled records, passing the conflict test pairwise is exclusivity. */
  lemma ConflictFreeIsExclusive(records: seq<AppRecord>, devices: seq<SdrDevice>)
    requires DeviceTable(devices) && ConflictFree(records)
    requires SettledRecords(records, devices) || CoherentRecords(records, devices)
    ensures Exclusive(records, devices)
  {
    hide ReferenceAt, SharesTuner, AllSettled, AllCoherent, Conflicting;
    forall i: nat, f, j: nat, g | i < |records| && j < |records| && (i != j || f != g)
      && ReferenceAt(EnvOf(records[i]), f).Some? && ReferenceAt(EnvOf(records[j]), g).Some?
      && SharesTuner(ReferenceAt(EnvOf(records[i]), f).value, ReferenceAt(EnvOf(records[j]), g).value, devices)
      ensures false
    {
      assert records[i] in records && records[j] in records;
      DetectedSharingConflicts(EnvOf(records[i]), f, EnvOf(records[j]), g, devices);
    }
  }

  /** The boot-time migration settles an array of named records exactly when no reference is ambiguous. */
  lemma MigrationSettlesExactly(apps: AppsValue, devices: seq<SdrDevice>)
    requires DeviceTable(devices) && apps.AppArray? && forall r | r in apps.records :: r.id.Some?
    ensures SettledRecords(Records(Migrated(apps, devices)), devices) <==>
      forall r, f | r in apps.records :: !Ambiguous(EnvOf(r), f, devices)
  {
    hide ReferenceAt, Settled, Enriched, Ambiguous;
    var before, after := apps.records, Records(Migrated(apps, devices));
    assert forall i | 0 <= i < |before| :: after[i] in after && before[i] in before;
    forall i, f | 0 <= i < |before|
      ensures Ambiguous(EnvOf(before[i]), f, devices) ==> !AllSettled(EnvOf(after[i]), devices)
      ensures ReferenceAt(EnvOf(after[i]), f).Some? && !Ambiguous(EnvOf(before[i]), f, devices)
        ==> Settled(ReferenceAt(EnvOf(after[i]), f).value, devices)
    {
      assert EnvOf(after[i]) == Enriched(EnvOf(before[i]), devices) by { EnrichedEmpty(devices); }
      AmbiguityKept(EnvOf(before[i]), devices, f);
      if Ambiguous(EnvOf(before[i]), f, devices) {
        AmbiguousIsUnsettled(EnvOf(after[i]), devices, f);
        assert ReferenceAt(EnvOf(after[i]), f).Some? by {
          EnrichmentKeepsReferences(EnvOf(before[i]), devices, f);
          AmbiguousHasReference(EnvOf(before[i]), f, devices);
        }
      } else if ReferenceAt(EnvOf(after[i]), f).Some? {
        UnambiguousIsSettled(EnvOf(before[i]), devices, f);
      }
    }
  }

  lemma AmbiguousHasReference(env: Env, f: string, devices: seq<SdrDevice>)
    requires Ambiguous(env, f, devices)
    ensures ReferenceAt(env, f).Some?
  {
  }

  lemma EnrichedEmpty(devices: seq<SdrDevice>)
    ensures Enriched(map[], devices) == map[]
  {
  }

  lemma AmbiguityKept(env: Env, devices: seq<SdrDevice>, f: string)
    ensures Ambiguous(Enriched(env, devices), f, devices) <==> Ambiguous(env, f, devices)
  {
    hide SerialOf, MetadataId, Trim, SerialKey, Matching, Enriched;
    EnrichmentKeepsReferences(env, devices, f);
  }

  // ---- what a bundle carries -------------------------------------------------------------------

  lemma HubNameIsLocal()
    ensures IsLocalAcarshubTarget("airwaves-acarshub") && !IsLocalAcarshubTarget("")
    ensures Trim("airwaves-acarshub") == "airwaves-acarshub"
  {
    var hub := "airwaves-acarshub";
    assert TrimStart(hub) == hub && TrimEnd(hub) == hub;
    assert ToLower(hub) == hub;
    assert Trim("") == "" && ToLower("") == "";
  }

  /**
   The output policy is refused exactly when acarsdec is to forward to a hub that is not installed; otherwise
   acarsdec ends up pointed at the local hub exactly when it is to forward to it.
   */
  lemma ForwardsExactlyWhenEnabled(app: AppSpec, hubInstalled: bool)
    requires app.id == "acarsdec"
    ensures var r := ConfigureAcarsdecOutputPolicy(app, hubInstalled);
      && (r.Err? <==> EnvEnabled(app.env, FORWARD_TO_HUB) && !hubInstalled)
      && (r.Ok? ==>
            && r.value.id == app.id && r.value.requiresSdr == app.requiresSdr
            && ("OUTPUT_SERVER" in r.value.env && IsLocalAcarshubTarget(r.value.env["OUTPUT_SERVER"]) <==>
              EnvEnabled(app.env, FORWARD_TO_HUB))
            && (EnvEnabled(r.value.env, FORWARD_TO_HUB) <==> EnvEnabled(app.env, FORWARD_TO_HUB)))
  {
    hide Trim, ToLower, IsLocalAcarshubTarget;
    HubNameIsLocal();
    FalseIsNotEnabled(app.env);
    OutputKeysDiffer();
    if "OUTPUT_SERVER" in app.env {
      TrimmedTarget(app.env["OUTPUT_SERVER"]);
    }
  }

  lemma TrimmedTarget(value: string)
    ensures IsLocalAcarshubTarget(Trim(value)) <==> IsLocalAcarshubTarget(value)
    ensures Trim(value) == "" ==> !IsLocalAcarshubTarget(value)
  {
    TrimIsIdempotent(value);
    HubNameIsLocal();
  }

  lemma OutputKeysDiffer()
    ensures "OUTPUT_SERVER" != "OUTPUT_SERVER_PORT" && "OUTPUT_SERVER" != "OUTPUT_SERVER_MODE"
      && "OUTPUT_SERVER" != FORWARD_TO_HUB
    ensures FORWARD_TO_HUB != "OUTPUT_SERVER_PORT" && FORWARD_TO_HUB != "OUTPUT_SERVER_MODE"
  {
  }

  lemma FalseIsNotEnabled(env: Env)
    ensures !EnvEnabled(env[FORWARD_TO_HUB := "false"], FORWARD_TO_HUB)
  {
  }

  /** The output policy leaves the app's radio alone. */
  lemma PolicyKeepsRadio(app: AppSpec, hubInstalled: bool, f: string)
    requires ConfigureAcarsdecOutputPolicy(app, hubInstalled).Ok? && !("OUTPUT_SERVER" <= f) && f != FORWARD_TO_HUB
    ensures ReferenceAt(ConfigureAcarsdecOutputPolicy(app, hubInstalled).value.env, f) == ReferenceAt(app.env, f)
  {
    hide SerialOf, Trim, ToLower, IsLocalAcarshubTarget, EnvEnabled;
    assert "OUTPUT_SERVER"[0] == 'O' && FORWARD_TO_HUB[9] == 'F' && SdrIdEnvKey(f)[0] == 'A'
      && SdrIdEnvKey(f)[9] == 'S';
    assert "OUTPUT_SERVER_PORT"[..13] == "OUTPUT_SERVER" && "OUTPUT_SERVER_MODE"[..13] == "OUTPUT_SERVER";
  }

  /** No other key that bundling writes or removes is as long as the two keys that carry the radio. */
  lemma RadioKeysApart(k: string)
    requires |k| == 8 || |k| == 25
    ensures k != "FREQUENCIES" && k != "FEED_ID" && k != FORWARD_TO_HUB && k != "OUTPUT_SERVER"
      && k != "OUTPUT_SERVER_PORT"
    ensures k != "OUTPUT_SERVER_MODE" && k != "QUIET_LOGS" && k != "TZ" && k != "SERVER" && k != "SERVER_PORT"
    ensures k != "ZMQ_MODE" || |k| == 8
    ensures k != "ZMQ_ENDPOINT"
  {
  }

  /** The bundled decoder's environment once the radio is in it. */
  function WithRadio(source: Env, hub: Env, field: string): Env {
    CopySdrMetadata(hub, field, source["SOAPYSDR" := EnvValueOr(hub, field, "driver=rtlsdr")], "SOAPYSDR")
  }

  lemma AcarsdecRadioKeys(source: AppSpec, hub: Env, k: string)
    requires k == "SOAPYSDR" || k == SdrIdEnvKey("SOAPYSDR")
    ensures var env, radio := BundledAcarsdec(source, hub).env, WithRadio(source.env, hub, "LOCAL_ACARSDEC_SDR");
      (k in env <==> k in radio) && (k in env ==> env[k] == radio[k])
  {
    hide EnvValueOr, TimeZone, CopySdrMetadata;
    assert |SdrIdEnvKey("SOAPYSDR")| == 25 && |"SOAPYSDR"| == 8;
    RadioKeysApart(k);
  }

  lemma Dumpvdl2RadioKeys(source: AppSpec, hub: Env, k: string)
    requires k == "SOAPYSDR" || k == SdrIdEnvKey("SOAPYSDR")
    ensures var env, radio := BundledDumpvdl2(source, hub).env, WithRadio(source.env, hub, "LOCAL_DUMPVDL2_SDR");
      (k in env <==> k in radio) && (k in env ==> env[k] == radio[k])
  {
    hide EnvValueOr, TimeZone, CopySdrMetadata;
    assert |SdrIdEnvKey("SOAPYSDR")| == 25 && |"SOAPYSDR"| == 8 && "SOAPYSDR"[0] == 'S' && "ZMQ_MODE"[0] == 'Z';
    RadioKeysApart(k);
  }

  lemma RadioTaken(source: Env, hub: Env, field: string, later: Env)
    requires forall k | k == "SOAPYSDR" || k == SdrIdEnvKey("SOAPYSDR") ::
      (k in later <==> k in WithRadio(source, hub, field))
        && (k in later ==> later[k] == WithRadio(source, hub, field)[k])
    ensures SerialAt(later, "SOAPYSDR") == SerialOf("SOAPYSDR", EnvValueOr(hub, field, "driver=rtlsdr"))
    ensures MetadataId(hub, field).Some? ==> MetadataId(later, "SOAPYSDR") == MetadataId(hub, field)
  {
    hide SerialOf, Trim, EnvValueOr;
    assert |SdrIdEnvKey("SOAPYSDR")| == 25 && |"SOAPYSDR"| == 8 && |SDR_ID_ENV_PREFIX| == 17;
    if MetadataId(hub, field).Some? {
      TrimIsIdempotent(hub[SdrIdEnvKey(field)]);
    }
  }

  /**
   The radio picked for a hub's local ACARS decoder becomes that decoder's, by value and by exact id; the hub keeps
   none.
   */
  lemma AcarsdecTakesTheRadio(source: AppSpec, hub: Env)
    ensures ReferenceAt(hub, "LOCAL_ACARSDEC_SDR").None?
    ensures SerialAt(BundledAcarsdec(source, hub).env, "SOAPYSDR")
         == SerialOf("SOAPYSDR", EnvValueOr(hub, "LOCAL_ACARSDEC_SDR", "driver=rtlsdr"))
    ensures MetadataId(hub, "LOCAL_ACARSDEC_SDR").Some? ==>
      MetadataId(BundledAcarsdec(source, hub).env, "SOAPYSDR") == MetadataId(hub, "LOCAL_ACARSDEC_SDR")
  {
    hide SerialOf, EnvValueOr, MetadataId, BundledAcarsdec, WithRadio, SerialAt;
    AcarsdecRadioKeys(source, hub, "SOAPYSDR");
    AcarsdecRadioKeys(source, hub, SdrIdEnvKey("SOAPYSDR"));
    RadioTaken(source.env, hub, "LOCAL_ACARSDEC_SDR", BundledAcarsdec(source, hub).env);
  }

  lemma Dumpvdl2TakesTheRadio(source: AppSpec, hub: Env)
    ensures ReferenceAt(hub, "LOCAL_DUMPVDL2_SDR").None?
    ensures SerialAt(BundledDumpvdl2(source, hub).env, "SOAPYSDR")
         == SerialOf("SOAPYSDR", EnvValueOr(hub, "LOCAL_DUMPVDL2_SDR", "driver=rtlsdr"))
    ensures MetadataId(hub, "LOCAL_DUMPVDL2_SDR").Some? ==>
      MetadataId(BundledDumpvdl2(source, hub).env, "SOAPYSDR") == MetadataId(hub, "LOCAL_DUMPVDL2_SDR")
  {
    hide SerialOf, EnvValueOr, MetadataId, BundledDumpvdl2, WithRadio, SerialAt;
    Dumpvdl2RadioKeys(source, hub, "SOAPYSDR");
    Dumpvdl2RadioKeys(source, hub, SdrIdEnvKey("SOAPYSDR"));
    RadioTaken(source.env, hub, "LOCAL_DUMPVDL2_SDR", BundledDumpvdl2(source, hub).env);
  }
}
