/** Which value each variable of a requested app ends up with: the request's, the recorded one, or the catalog's. */
module RequestedValues {
  import opened Values
  import opened Text
  import opened Sdr
  import opened SdrEnrich
  import opened AppLifecycle

  // ---- the app and the records a request is about ----------------------------------------------

  /** An install names the app; an update names it, or its container. */
  predicate NamesApp(request: Request, id: string) {
    match request
    case Install(appId, _) => appId == id
    case UpdateConfig(pathId, _) => pathId == "airwaves-" + id || (pathId == id && !("airwaves-" <= id))
  }

  lemma OneAppIsNamed(request: Request)
    ensures NamesApp(request, if request.Install? then request.appId else StripAirwaves(request.pathId))
    ensures forall x, y | NamesApp(request, x) && NamesApp(request, y) :: x == y
  {
    if request.UpdateConfig? && "airwaves-" <= request.pathId {
      assert request.pathId == "airwaves-" + StripAirwaves(request.pathId);
    }
    forall x, y | NamesApp(request, x) && NamesApp(request, y)
      ensures x == y
    {
      if request.UpdateConfig? && request.pathId == "airwaves-" + x {
        assert request.pathId[|"airwaves-"|..] == x;
      }
      if request.UpdateConfig? && request.pathId == "airwaves-" + y {
        assert request.pathId[|"airwaves-"|..] == y;
      }
    }
  }

  /** The first catalog entry of an app. */
  predicate FirstEntry(catalog: seq<AppSpec>, id: string, c: nat) {
    c < |catalog| && catalog[c].id == id && forall j | 0 <= j < c :: catalog[j].id != id
  }

  lemma {:induction false} FoundIsFirst(catalog: seq<AppSpec>, id: string, c: nat)
    requires FirstEntry(catalog, id, c)
    ensures FindApp(catalog, id) == Some(catalog[c])
  {
    if c > 0 {
      assert forall j | 0 <= j < c - 1 :: catalog[1..][j] == catalog[j + 1];
      FoundIsFirst(catalog[1..], id, c - 1);
    }
  }

  lemma {:induction false} NoneFound(catalog: seq<AppSpec>, id: string)
    ensures FindApp(catalog, id).None? <==> forall a | a in catalog :: a.id != id
  {
    if catalog != [] {
      NoneFound(catalog[1..], id);
      assert catalog == [catalog[0]] + catalog[1..];
    }
  }

  predicate FirstRecordAt(apps: AppsValue, id: string, i: nat) {
    && apps.AppArray? && i < |apps.records| && apps.records[i].id == Some(id)
    && forall j | 0 <= j < i :: apps.records[j].id != Some(id)
  }

  /** The environment of the first record of an app, or an empty one when there is none. */
  ghost predicate RecordedBefore(apps: AppsValue, id: string, env: Env) {
    && (forall i: nat | FirstRecordAt(apps, id, i) :: env == EnvOf(apps.records[i]))
    && ((forall i: nat :: !FirstRecordAt(apps, id, i)) ==> env == map[])
  }

  lemma {:induction false} FirstRecordIsFirst(records: seq<AppRecord>, id: string) returns (i: nat)
    ensures FirstRecord(records, id).Some? ==>
      FirstRecordAt(AppArray(records), id, i) && FirstRecord(records, id) == Some(records[i])
    ensures FirstRecord(records, id).None? ==> forall k :: !FirstRecordAt(AppArray(records), id, k)
  {
    i := 0;
    if records != [] && records[0].id != Some(id) {
      var rest := records[1..];
      var k := FirstRecordIsFirst(rest, id);
      i := k + 1;
      assert forall j | 0 <= j < |rest| :: records[j + 1] == rest[j];
      if FirstRecord(rest, id).Some? {
        assert forall j | 0 < j < i :: records[j] == rest[j - 1];
      } else {
        forall k: nat
          ensures !FirstRecordAt(AppArray(records), id, k)
        {
          if FirstRecordAt(AppArray(records), id, k) {
            assert FirstRecordAt(AppArray(rest), id, k - 1);
          }
        }
      }
    }
  }

  lemma RecordedEnvExactly(apps: AppsValue, id: string, env: Env)
    ensures RecordedBefore(apps, id, env) <==> env == RecordedAppEnv(apps, id)
  {
    hide FirstRecord;
    if apps.AppArray? {
      var i := FirstRecordIsFirst(apps.records, id);
      assert apps == AppArray(apps.records);
      forall k: nat | FirstRecordAt(apps, id, k) && FirstRecordAt(apps, id, i)
        ensures k == i
      {
      }
    }
  }

  // ---- the values ------------------------------------------------------------------------------

  /** Variables that the handler sets itself: acarsdec's output policy, and the inputs that a hub opens for decoders. */
  predicate IsDerived(id: string, k: string) {
    || (id == "acarsdec" && k in ["OUTPUT_SERVER", "OUTPUT_SERVER_PORT", "OUTPUT_SERVER_MODE", FORWARD_TO_HUB])
    || (id == "acarshub" && k in ["ENABLE_ACARS", "ACARS_CONNECTIONS", "ENABLE_VDLM", "VDLM_CONNECTIONS"])
  }

  function ValueAt(env: Env, k: string): Option<string> {
    if k in env then Some(env[k]) else None
  }

  /** What the user asks for: the request's value, else on an update the recorded one, else the catalog's default. */
  function WantedValue(request: Request, recorded: Env, entry: AppSpec, k: string): Option<string> {
    if k in request.env then Some(request.env[k])
    else if request.UpdateConfig? && k in recorded then Some(recorded[k])
    else ValueAt(entry.env, k)
  }

  lemma MergedValue(request: Request, recorded: Env, entry: AppSpec, k: string)
    ensures var kept := if request.Install? then map[] else recorded;
      ValueAt(entry.env + kept + request.env, k) == WantedValue(request, recorded, entry, k)
  {
  }

  lemma PolicyKeepsValue(app: AppSpec, hubInstalled: bool, k: string)
    requires !IsDerived(app.id, k)
    ensures var r := ConfigureAcarsdecOutputPolicy(app, hubInstalled);
      r.Ok? ==>
        && r.value.id == app.id && r.value.requiresSdr == app.requiresSdr
        && ValueAt(r.value.env, k) == ValueAt(app.env, k)
  {
    hide EnvEnabled, Trim, IsLocalAcarshubTarget;
  }

  lemma HubKeepsValue(catalog: seq<AppSpec>, hub: AppSpec, k: string)
    requires hub.id == "acarshub" && !IsDerived(hub.id, k)
    ensures PrepareAcarshubBundle(catalog, hub) != []
    ensures var t := PrepareAcarshubBundle(catalog, hub)[0];
      t.id == hub.id && t.requiresSdr == hub.requiresSdr && ValueAt(t.env, k) == ValueAt(hub.env, k)
  {
    hide EnvEnabled, EnvValueOr, FindApp, BundledAcarsdec, BundledDumpvdl2;
  }

  /** The requested app is prepared first, with every variable at the wanted value. */
  lemma PreparedValues(catalog: seq<AppSpec>, apps: AppsValue, request: Request, id: string, c: nat, recorded: Env,
      k: string)
    requires Prepared(catalog, apps, request).Ok? && NamesApp(request, id)
    requires FirstEntry(catalog, id, c) && RecordedBefore(apps, id, recorded) && !IsDerived(id, k)
    ensures Prepared(catalog, apps, request).value != []
    ensures var t := Prepared(catalog, apps, request).value[0];
      t.id == id && t.requiresSdr == catalog[c].requiresSdr
      && ValueAt(t.env, k) == WantedValue(request, recorded, catalog[c], k)
  {
    hide FirstEntry, RecordedBefore, RecordedAppEnv, IsDerived, PrepareAcarshubBundle, ConfigureAcarsdecOutputPolicy;
    hide NamesApp, FindApp, StripAirwaves, ValueAt, WantedValue, IsRecorded;
    OneAppIsNamed(request);
    FoundIsFirst(catalog, id, c);
    RecordedEnvExactly(apps, id, recorded);
    EntryIsNamed(catalog, id, c);
    var kept := if request.Install? then map[] else recorded;
    MergedValue(request, recorded, catalog[c], k);
    var app := catalog[c].(env := catalog[c].env + kept + request.env);
    PolicyKeepsValue(app, IsRecorded(apps, "acarshub"), k);
    if id == "acarshub" {
      HubKeepsValue(catalog, ConfigureAcarsdecOutputPolicy(app, IsRecorded(apps, "acarshub")).value, k);
    }
  }

  lemma EntryIsNamed(catalog: seq<AppSpec>, id: string, c: nat)
    requires FirstEntry(catalog, id, c)
    ensures c < |catalog| && catalog[c].id == id
  {
  }

  // ---- when a request is refused ---------------------------------------------------------------

  predicate Truthy(v: string) {
    ToLower(Trim(v)) in ["true", "1", "yes"]
  }

  lemma EnabledExactly(env: Env, k: string)
    ensures EnvEnabled(env, k) <==> ValueAt(env, k).Some? && Truthy(ValueAt(env, k).value)
  {
    hide Trim;
    assert ToLower("true") == "true" && ToLower("yes") == "yes";
    if k in env {
      OneHasNoCase(Trim(env[k]));
    }
  }

  lemma OneHasNoCase(s: string)
    ensures ToLower(s) == "1" <==> s == "1"
  {
    if |s| == 1 {
      assert ToLower(s)[0] == LowerChar(s[0]);
    }
    if ToLower(s) == "1" {
      assert |s| == 1 && LowerChar(s[0]) == '1';
      assert s == [s[0]];
    }
  }

  /** Besides the radio check, a request is refused in two ways: no catalog app has the name, or the hub is missing. */
  lemma NotInCatalogExactly(catalog: seq<AppSpec>, apps: AppsValue, request: Request, id: string)
    requires NamesApp(request, id)
    ensures Prepared(catalog, apps, request) == Err(NotInCatalog(id)) <==> forall a | a in catalog :: a.id != id
    ensures Prepared(catalog, apps, request).Err? ==>
      Prepared(catalog, apps, request).error in [NotInCatalog(id), HubNotInstalled]
  {
    hide PrepareAcarshubBundle, EnvEnabled, NamesApp, FindApp, StripAirwaves, Trim, IsLocalAcarshubTarget;
    OneAppIsNamed(request);
    NoneFound(catalog, id);
  }

  /** The hub is missing exactly when acarsdec is to forward to it and no record has its id. */
  lemma HubMissingExactly(catalog: seq<AppSpec>, apps: AppsValue, request: Request, id: string, c: nat, recorded: Env)
    requires NamesApp(request, id) && FirstEntry(catalog, id, c) && RecordedBefore(apps, id, recorded)
    ensures var v := WantedValue(request, recorded, catalog[c], FORWARD_TO_HUB);
      Prepared(catalog, apps, request) == Err(HubNotInstalled) <==>
        && id == "acarsdec" && v.Some? && Truthy(v.value)
        && !(apps.AppArray? && exists r | r in apps.records :: r.id == Some("acarshub"))
  {
    hide RecordedBefore, RecordedAppEnv, PrepareAcarshubBundle, EnvEnabled, FirstEntry, Truthy;
    hide NamesApp, FindApp, StripAirwaves, ValueAt, WantedValue, Trim, IsLocalAcarshubTarget;
    OneAppIsNamed(request);
    FoundIsFirst(catalog, id, c);
    EntryIsNamed(catalog, id, c);
    RecordedEnvExactly(apps, id, recorded);
    var kept := if request.Install? then map[] else recorded;
    MergedValue(request, recorded, catalog[c], FORWARD_TO_HUB);
    EnabledExactly(catalog[c].env + kept + request.env, FORWARD_TO_HUB);
  }

  // ---- through completion and recording --------------------------------------------------------

  /** Completion leaves every variable that is no metadata, and every exact id that is stated. */
  lemma CompletionKeepsValue(env: Env, devices: seq<SdrDevice>, k: string)
    requires !IsSdrIdEnvKey(k) || (k in env && Trim(env[k]) != "")
    ensures ValueAt(Enriched(env, devices), k) == ValueAt(env, k)
  {
    hide Trim, Matching, SerialKey, SerialOf, Enriched;
    EnrichedLookup(env, devices);
    if IsSdrIdEnvKey(k) {
      KeyOfField(k);
      assert MetadataId(env, FieldOf(k)).Some?;
    }
  }

  /** The records of an app after a request that recorded it are exactly one: that of the first target. */
  lemma RecordedTarget(catalog: seq<AppSpec>, devices: seq<SdrDevice>, apps: AppsValue, step: Step)
    requires Takes(catalog, devices, apps, step) && step.outcomes != [] && step.outcomes[0].Installed?
    ensures var t := TargetsOf(catalog, devices, apps, step)[0]; var now := Records(Next(catalog, devices, apps, step));
      RecordOf(t) in now && forall x | x in now && x.id == Some(t.id) :: x == RecordOf(t)
  {
    hide Takes, Prepared, Completed, Next, TargetsOf, Without;
    TakesItsTargets(catalog, devices, apps, step);
    var targets := TargetsOf(catalog, devices, apps, step);
    var recorded := Recorded(targets, step.outcomes);
    TakenRecords(catalog, devices, apps, step);
    assert recorded == [targets[0]] + Recorded(targets[1..], step.outcomes[1..]);
    RecordedIdsAreDistinct(targets, step.outcomes);
    assert recorded[0] in recorded && TargetRecords(recorded)[0] == RecordOf(targets[0]);
    if apps.AppArray? {
      WithoutElements(apps.records, TargetIds(recorded));
    }
    forall x | x in TargetRecords(recorded) && x.id == Some(targets[0].id)
      ensures x == RecordOf(targets[0])
    {
      var i :| 0 <= i < |recorded| && x == TargetRecords(recorded)[i];
      assert x == RecordOf(recorded[i]);
    }
  }

  lemma TakesItsTargets(catalog: seq<AppSpec>, devices: seq<SdrDevice>, apps: AppsValue, step: Step)
    requires Takes(catalog, devices, apps, step)
    ensures step.Submit? && Prepared(catalog, apps, step.request).Ok?
    ensures |TargetsOf(catalog, devices, apps, step)| == |step.outcomes|
    ensures DistinctIds(TargetsOf(catalog, devices, apps, step))
  {
    hide Prepared;
    PreparedIdsAreDistinct(catalog, apps, step.request, devices);
  }

  lemma RecordedIdsAreDistinct(targets: seq<AppSpec>, outcomes: seq<Outcome>)
    requires |outcomes| == |targets| && DistinctIds(targets)
    ensures DistinctIds(Recorded(targets, outcomes))
  {
    var at := RecordedAt(targets, outcomes);
  }

  /**
   After an accepted request whose app was installed and recorded, the one record of the app holds every wanted value:
   all but the variables the handler sets itself, and exact ids that were left blank.
   */
  lemma RequestedValuesAreRecorded(catalog: seq<AppSpec>, devices: seq<SdrDevice>, apps: AppsValue, step: Step,
      id: string, c: nat, recorded: Env, k: string)
    requires Takes(catalog, devices, apps, step) && step.outcomes != [] && step.outcomes[0].Installed?
    requires NamesApp(step.request, id) && FirstEntry(catalog, id, c) && RecordedBefore(apps, id, recorded)
    requires var v := WantedValue(step.request, recorded, catalog[c], k);
      !IsDerived(id, k) && (!IsSdrIdEnvKey(k) || (v.Some? && Trim(v.value) != ""))
    ensures var now := Records(Next(catalog, devices, apps, step));
      && (exists x | x in now :: x.id == Some(id))
      && forall x | x in now && x.id == Some(id) ::
           ValueAt(EnvOf(x), k) == WantedValue(step.request, recorded, catalog[c], k)
  {
    hide Prepared, Next, FirstEntry, RecordedBefore, WantedValue, IsDerived, NamesApp, Accepted, Enriched, Trim;
    TakesItsTargets(catalog, devices, apps, step);
    PreparedValues(catalog, apps, step.request, id, c, recorded, k);
    var prepared := Prepared(catalog, apps, step.request).value;
    var t := TargetsOf(catalog, devices, apps, step)[0];
    assert t == prepared[0].(env := Enriched(prepared[0].env, devices));
    CompletionKeepsValue(prepared[0].env, devices, k);
    RecordedTarget(catalog, devices, apps, step);
    assert EnvOf(RecordOf(t)) == t.env;
  }

  /** The value of acarsdec's output server names a machine other than the local hub. */
  predicate IsRemote(server: Option<string>) {
    server.Some? && Trim(server.value) != ""
    && ToLower(Trim(server.value)) !in ["airwaves-acarshub", "acarshub", "localhost", "127.0.0.1"]
  }

  /** acarsdec's output: the local hub when it forwards; a remote server as it is; and otherwise none. */
  lemma OutputExactly(app: AppSpec, hubInstalled: bool)
    requires app.id == "acarsdec" && ConfigureAcarsdecOutputPolicy(app, hubInstalled).Ok?
    ensures var env := ConfigureAcarsdecOutputPolicy(app, hubInstalled).value.env;
      && (EnvEnabled(app.env, FORWARD_TO_HUB) ==>
            && ValueAt(env, "OUTPUT_SERVER") == Some("airwaves-acarshub")
            && ValueAt(env, "OUTPUT_SERVER_PORT") == Some("5550") && ValueAt(env, "OUTPUT_SERVER_MODE") == Some("udp"))
      && (!EnvEnabled(app.env, FORWARD_TO_HUB) && IsRemote(ValueAt(app.env, "OUTPUT_SERVER")) ==> env == app.env)
      && (!EnvEnabled(app.env, FORWARD_TO_HUB) && !IsRemote(ValueAt(app.env, "OUTPUT_SERVER")) ==>
            && ValueAt(env, "OUTPUT_SERVER") == Some("") && ValueAt(env, "OUTPUT_SERVER_PORT") == Some("")
            && ValueAt(env, "OUTPUT_SERVER_MODE") == Some("") && ValueAt(env, FORWARD_TO_HUB) == Some("false"))
  {
    hide EnvEnabled, Trim;
    OutputKeysAreApart();
    assert |"OUTPUT_SERVER"| == 13 && |"OUTPUT_SERVER_PORT"| == 18 && |"OUTPUT_SERVER_MODE"| == 18;
    assert "OUTPUT_SERVER_PORT"[14] == 'P' && "OUTPUT_SERVER_MODE"[14] == 'M';
    assert FORWARD_TO_HUB[0] == 'A' && "OUTPUT_SERVER"[0] == 'O';
    if "OUTPUT_SERVER" in app.env {
      TrimIsIdempotent(app.env["OUTPUT_SERVER"]);
    }
  }

  // ---- what a hub brings along -----------------------------------------------------------------

  /** A value taken over from the hub's variable, trimmed, or a default when that is missing or blank. */
  predicate TakenOver(hub: Env, key: string, default: string, v: Option<string>) {
    if key in hub && Trim(hub[key]) != "" then v == Some(Trim(hub[key])) else v == Some(default)
  }

  lemma EnvValueIsTakenOver(hub: Env, key: string, default: string)
    ensures TakenOver(hub, key, default, Some(EnvValueOr(hub, key, default)))
  {
    hide Trim;
  }

  lemma DecoderKeysDiffer()
    ensures "FREQUENCIES" != "FEED_ID" && "FREQUENCIES" != "TZ" && "FEED_ID" != "TZ" && "SOAPYSDR" != "TZ"
    ensures "SOAPYSDR" != "FREQUENCIES" && "SOAPYSDR" != "FEED_ID" && "SOAPYSDR" != "QUIET_LOGS"
    ensures forall f, k | k in ["FREQUENCIES", "FEED_ID", "TZ", "SOAPYSDR", "QUIET_LOGS"] ::
      SdrIdEnvKey(f) != k && k != FORWARD_TO_HUB
    ensures forall f, k | k in ["SERVER", "SERVER_PORT", "ZMQ_MODE", "ZMQ_ENDPOINT"] ::
      SdrIdEnvKey(f) != k
    ensures forall f :: SdrIdEnvKey(f) != FORWARD_TO_HUB
  {
    assert SDR_ID_ENV_PREFIX[9] == 'S' && FORWARD_TO_HUB[9] == 'F';
    assert "FREQUENCIES"[0] == 'F' && "FEED_ID"[0] == 'F' && "FEED_ID"[1] == 'E' && "FREQUENCIES"[1] == 'R';
    assert "TZ"[0] == 'T' && "SOAPYSDR"[0] == 'S' && "QUIET_LOGS"[0] == 'Q' && "SERVER"[0] == 'S'
      && "SERVER_PORT"[0] == 'S';
    assert "ZMQ_MODE"[0] == 'Z' && "ZMQ_ENDPOINT"[0] == 'Z' && FORWARD_TO_HUB[0] == 'A' && SDR_ID_ENV_PREFIX[0] == 'A';
  }

  /** The decoder's own time zone, or UTC. */
  function DefaultZone(source: AppSpec): string {
    if "TZ" in source.env then source.env["TZ"] else "UTC"
  }

  lemma AcarsdecZone(source: AppSpec, hub: Env)
    ensures TakenOver(hub, "TZ", DefaultZone(source), ValueAt(BundledAcarsdec(source, hub).env, "TZ"))
  {
    hide EnvValueOr, MetadataId, SdrIdEnvKey, TakenOver;
    DecoderKeysDiffer();
    OutputKeysAreApart();
    var keys := ["FREQUENCIES", "FEED_ID", "TZ", "SOAPYSDR", "QUIET_LOGS"];
    assert keys[2] in keys && SdrIdEnvKey("SOAPYSDR") != "TZ" && "QUIET_LOGS"[0] == 'Q' && "TZ"[0] == 'T';
    EnvValueIsTakenOver(hub, "TZ", DefaultZone(source));
  }

  lemma Dumpvdl2Zone(source: AppSpec, hub: Env)
    ensures TakenOver(hub, "TZ", DefaultZone(source), ValueAt(BundledDumpvdl2(source, hub).env, "TZ"))
  {
    hide EnvValueOr, MetadataId, SdrIdEnvKey, TakenOver;
    DecoderKeysDiffer();
    ServerKeysAreApart();
    var keys := ["FREQUENCIES", "FEED_ID", "TZ", "SOAPYSDR", "QUIET_LOGS"];
    assert keys[2] in keys && SdrIdEnvKey("SOAPYSDR") != "TZ";
    EnvValueIsTakenOver(hub, "TZ", DefaultZone(source));
  }

  /** The local ACARS decoder: radio, frequencies and feed id from the hub or by default, and output to the hub. */
  lemma AcarsdecSettings(source: AppSpec, hub: Env)
    ensures var env := BundledAcarsdec(source, hub).env;
      && BundledAcarsdec(source, hub).id == source.id
      && TakenOver(hub, "LOCAL_ACARSDEC_SDR", "driver=rtlsdr", ValueAt(env, "SOAPYSDR"))
      && TakenOver(hub, "LOCAL_ACARSDEC_FREQUENCIES", ACARS_FREQUENCIES, ValueAt(env, "FREQUENCIES"))
      && TakenOver(hub, "LOCAL_ACARSDEC_FEED_ID", "airwaves-acarsdec", ValueAt(env, "FEED_ID"))
      && TakenOver(hub, "TZ", DefaultZone(source), ValueAt(env, "TZ"))
      && ValueAt(env, FORWARD_TO_HUB) == Some("true") && ValueAt(env, "QUIET_LOGS") == Some("true")
  {
    hide EnvValueOr, Trim, MetadataId, SdrIdEnvKey, TimeZone, TakenOver, DefaultZone;
    AcarsdecZone(source, hub);
    DecoderKeysDiffer();
    OutputKeysAreApart();
    EnvValueIsTakenOver(hub, "LOCAL_ACARSDEC_SDR", "driver=rtlsdr");
    var keys := ["FREQUENCIES", "FEED_ID", "TZ", "SOAPYSDR", "QUIET_LOGS"];
    assert keys[3] in keys && SdrIdEnvKey("SOAPYSDR") != "SOAPYSDR" && FORWARD_TO_HUB != "SOAPYSDR";
    EnvValueIsTakenOver(hub, "LOCAL_ACARSDEC_FREQUENCIES", ACARS_FREQUENCIES);
    EnvValueIsTakenOver(hub, "LOCAL_ACARSDEC_FEED_ID", "airwaves-acarsdec");
  }

  lemma OutputKeysAreApart()
    ensures forall k, o |
      && k in ["FREQUENCIES", "FEED_ID", "TZ", "SOAPYSDR", "QUIET_LOGS", FORWARD_TO_HUB]
      && o in ["OUTPUT_SERVER", "OUTPUT_SERVER_PORT", "OUTPUT_SERVER_MODE"] :: k != o
  {
    assert "FREQUENCIES"[0] == 'F' && "FEED_ID"[0] == 'F' && "TZ"[0] == 'T' && "SOAPYSDR"[0] == 'S';
    assert "QUIET_LOGS"[0] == 'Q' && FORWARD_TO_HUB[0] == 'A';
    assert "OUTPUT_SERVER"[0] == 'O' && "OUTPUT_SERVER_PORT"[0] == 'O' && "OUTPUT_SERVER_MODE"[0] == 'O';
  }

  /** What a hub brings along already has the output that the policy would give it: a later update changes nothing. */
  lemma BundledAcarsdecForwards(source: AppSpec, hub: Env)
    requires source.id == "acarsdec"
    ensures ConfigureAcarsdecOutputPolicy(BundledAcarsdec(source, hub), true) == Ok(BundledAcarsdec(source, hub))
  {
    hide EnvValueOr, MetadataId, SdrIdEnvKey, TimeZone, TakenOver, Trim;
    AcarsdecSettings(source, hub);
    var app := BundledAcarsdec(source, hub);
    EnabledExactly(app.env, FORWARD_TO_HUB);
    assert Truthy("true") by { TrueIsTruthy(); }
    BundledOutput(source, hub);
    assert HubOutput(app.env) == app.env;
  }

  lemma TrueIsTruthy()
    ensures Truthy("true")
  {
    assert TrimStart("true") == "true" && TrimEnd("true") == "true" && ToLower("true") == "true";
  }

  lemma BundledOutput(source: AppSpec, hub: Env)
    ensures var env := BundledAcarsdec(source, hub).env;
      && ValueAt(env, "OUTPUT_SERVER") == Some("airwaves-acarshub")
      && ValueAt(env, "OUTPUT_SERVER_PORT") == Some("5550")
      && ValueAt(env, "OUTPUT_SERVER_MODE") == Some("udp")
  {
    hide EnvValueOr, MetadataId, SdrIdEnvKey, TimeZone, Trim;
    OutputKeysAreApart();
    assert |"OUTPUT_SERVER"| == 13 && |"OUTPUT_SERVER_PORT"| == 18 && |"OUTPUT_SERVER_MODE"| == 18;
    assert "OUTPUT_SERVER_PORT"[14] == 'P' && "OUTPUT_SERVER_MODE"[14] == 'M';
  }

  /** The local VDL2 decoder: likewise, with the hub as its server and no ZeroMQ output of its own. */
  lemma Dumpvdl2Settings(source: AppSpec, hub: Env)
    ensures var env := BundledDumpvdl2(source, hub).env;
      && BundledDumpvdl2(source, hub).id == source.id
      && TakenOver(hub, "LOCAL_DUMPVDL2_SDR", "driver=rtlsdr", ValueAt(env, "SOAPYSDR"))
      && TakenOver(hub, "LOCAL_DUMPVDL2_FREQUENCIES", VDL2_FREQUENCIES, ValueAt(env, "FREQUENCIES"))
      && TakenOver(hub, "LOCAL_DUMPVDL2_FEED_ID", "airwaves-dumpvdl2", ValueAt(env, "FEED_ID"))
      && TakenOver(hub, "TZ", DefaultZone(source), ValueAt(env, "TZ"))
      && ValueAt(env, "SERVER") == Some("airwaves-acarshub") && ValueAt(env, "SERVER_PORT") == Some("5555")
      && "ZMQ_MODE" !in env && "ZMQ_ENDPOINT" !in env
  {
    hide EnvValueOr, Trim, MetadataId, SdrIdEnvKey, TimeZone, TakenOver, DefaultZone;
    Dumpvdl2Zone(source, hub);
    DecoderKeysDiffer();
    ServerKeysAreApart();
    EnvValueIsTakenOver(hub, "LOCAL_DUMPVDL2_SDR", "driver=rtlsdr");
    var keys := ["FREQUENCIES", "FEED_ID", "TZ", "SOAPYSDR", "QUIET_LOGS"];
    assert keys[3] in keys && SdrIdEnvKey("SOAPYSDR") != "SOAPYSDR" && FORWARD_TO_HUB != "SOAPYSDR";
    EnvValueIsTakenOver(hub, "LOCAL_DUMPVDL2_FREQUENCIES", VDL2_FREQUENCIES);
    EnvValueIsTakenOver(hub, "LOCAL_DUMPVDL2_FEED_ID", "airwaves-dumpvdl2");
  }

  lemma ServerKeysAreApart()
    ensures forall k, o | k in ["FREQUENCIES", "FEED_ID", "TZ", "SOAPYSDR"] && o in ["SERVER", "SERVER_PORT"] :: k != o
    ensures forall k, o |
      && k in ["FREQUENCIES", "FEED_ID", "TZ", "SOAPYSDR", "SERVER", "SERVER_PORT"]
      && o in ["ZMQ_MODE", "ZMQ_ENDPOINT"] :: k != o
    ensures "SERVER" != "SERVER_PORT"
  {
    assert "FREQUENCIES"[0] == 'F' && "FEED_ID"[0] == 'F' && "TZ"[0] == 'T' && "SOAPYSDR"[1] == 'O';
    assert "SERVER"[1] == 'E' && "SERVER_PORT"[1] == 'E' && |"SERVER"| == 6 && |"SERVER_PORT"| == 11;
    assert "ZMQ_MODE"[0] == 'Z' && "ZMQ_ENDPOINT"[0] == 'Z' && "SERVER"[0] == 'S' && "SERVER_PORT"[0] == 'S';
    assert "SOAPYSDR"[0] == 'S';
  }

  /** The decoders that come along are exactly the enabled ones that the catalog has. */
  lemma BundleIsAsEnabled(catalog: seq<AppSpec>, hub: AppSpec, id: string)
    requires hub.id == "acarshub"
    ensures var targets := PrepareAcarshubBundle(catalog, hub);
      (exists t | t in targets :: t.id == id) <==>
        || id == "acarshub"
        || (id == "acarsdec" && EnvEnabled(hub.env, "ENABLE_LOCAL_ACARSDEC") && exists a | a in catalog :: a.id == id)
        || (id == "dumpvdl2" && EnvEnabled(hub.env, "ENABLE_LOCAL_DUMPVDL2") && exists a | a in catalog :: a.id == id)
  {
    hide EnvEnabled, FindApp, BundledAcarsdec, BundledDumpvdl2, HubEnv;
    HubSwitches(hub.env);
    NoneFound(catalog, "acarsdec");
    NoneFound(catalog, "dumpvdl2");
    forall a: AppSpec, env
      ensures BundledAcarsdec(a, env).id == a.id && BundledDumpvdl2(a, env).id == a.id
    {
      BundledIds(a, env);
    }
    var targets, env := PrepareAcarshubBundle(catalog, hub), HubEnv(hub.env);
    assert hub.(env := env) in targets;
    if EnvEnabled(hub.env, "ENABLE_LOCAL_ACARSDEC") && FindApp(catalog, "acarsdec").Some? {
      assert BundledAcarsdec(FindApp(catalog, "acarsdec").value, env) in targets;
    }
    if EnvEnabled(env, "ENABLE_LOCAL_DUMPVDL2") && FindApp(catalog, "dumpvdl2").Some? {
      assert BundledDumpvdl2(FindApp(catalog, "dumpvdl2").value, env) in targets;
    }
  }

  lemma BundledIds(a: AppSpec, env: Env)
    ensures BundledAcarsdec(a, env).id == a.id && BundledDumpvdl2(a, env).id == a.id
  {
    hide EnvValueOr, TimeZone, CopySdrMetadata, HubOutput;
  }

  /** The hub opens an input for each enabled decoder, where its connections say or at the default port. */
  lemma HubInputs(hub: Env)
    ensures var env := HubEnv(hub);
      && (EnvEnabled(hub, "ENABLE_LOCAL_ACARSDEC") ==>
            && ValueAt(env, "ENABLE_ACARS") == Some("true")
            && TakenOver(hub, "ACARS_CONNECTIONS", "udp://0.0.0.0:5550", ValueAt(env, "ACARS_CONNECTIONS")))
      && (EnvEnabled(hub, "ENABLE_LOCAL_DUMPVDL2") ==>
            && ValueAt(env, "ENABLE_VDLM") == Some("true")
            && TakenOver(hub, "VDLM_CONNECTIONS", "udp://0.0.0.0:5555", ValueAt(env, "VDLM_CONNECTIONS")))
      && (!EnvEnabled(hub, "ENABLE_LOCAL_ACARSDEC") && !EnvEnabled(hub, "ENABLE_LOCAL_DUMPVDL2") ==> env == hub)
  {
    hide EnvEnabled, EnvValueOr, Trim;
    HubKeysDiffer();
    HubSwitches(hub);
    EnvValueIsTakenOver(hub, "ACARS_CONNECTIONS", "udp://0.0.0.0:5550");
    var first := hub["ENABLE_ACARS" := "true"]
      ["ACARS_CONNECTIONS" := EnvValueOr(hub, "ACARS_CONNECTIONS", "udp://0.0.0.0:5550")];
    EnvValueIsTakenOver(hub, "VDLM_CONNECTIONS", "udp://0.0.0.0:5555");
    EnvValueIsTakenOver(first, "VDLM_CONNECTIONS", "udp://0.0.0.0:5555");
    SwitchStays(hub, first);
  }

  lemma SwitchStays(hub: Env, next: Env)
    requires ValueAt(next, "ENABLE_LOCAL_DUMPVDL2") == ValueAt(hub, "ENABLE_LOCAL_DUMPVDL2")
    ensures EnvEnabled(next, "ENABLE_LOCAL_DUMPVDL2") <==> EnvEnabled(hub, "ENABLE_LOCAL_DUMPVDL2")
  {
  }

  lemma HubKeysDiffer()
    ensures forall k, o |
      && k in ["ENABLE_LOCAL_DUMPVDL2", "ENABLE_VDLM", "VDLM_CONNECTIONS"]
      && o in ["ENABLE_ACARS", "ACARS_CONNECTIONS"] :: k != o
    ensures "ENABLE_ACARS" != "ACARS_CONNECTIONS" && "ENABLE_VDLM" != "VDLM_CONNECTIONS"
  {
    assert |"ENABLE_LOCAL_DUMPVDL2"| == 21 && |"ENABLE_VDLM"| == 11 && |"VDLM_CONNECTIONS"| == 16;
    assert |"ENABLE_ACARS"| == 12 && |"ACARS_CONNECTIONS"| == 17;
  }

  /** Opening inputs does not touch the decoders' switches. */
  lemma HubSwitches(hub: Env)
    ensures EnvEnabled(HubEnv(hub), "ENABLE_LOCAL_DUMPVDL2") <==> EnvEnabled(hub, "ENABLE_LOCAL_DUMPVDL2")
  {
    hide EnvValueOr, Trim, EqualsIgnoreCase;
    assert |"ENABLE_LOCAL_DUMPVDL2"| == 21 && |"ENABLE_ACARS"| == 12 && |"ACARS_CONNECTIONS"| == 17;
    assert |"ENABLE_VDLM"| == 11 && |"VDLM_CONNECTIONS"| == 16;
  }
}
