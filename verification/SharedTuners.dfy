/**
 Concrete requests after which two recorded apps reach the same tuner: the two ways that `AppLifecycle` leaves open.
 */
module SharedTuners {
  import opened Values
  import opened Text
  import opened Sdr
  import opened SdrEnrich
  import opened Tuners
  import opened AppLifecycle
  import opened RequestedValues

  // ---- entries that name no serial -------------------------------------------------------------

  lemma {:induction false} TrimStartWithin(s: string)
    ensures forall c | c in TrimStart(s) :: c in s
  {
    if s != "" && IsWhite(s[0]) {
      TrimStartWithin(s[1..]);
    }
  }

  lemma {:induction false} TrimEndWithin(s: string)
    ensures forall c | c in TrimEnd(s) :: c in s
  {
    if s != "" && IsWhite(s[|s| - 1]) {
      TrimEndWithin(s[..|s| - 1]);
    }
  }

  lemma {:induction false} SplitWithin(s: string, sep: char)
    ensures forall p, c | p in Split(s, sep) && c in p :: c in s
  {
    if s != "" {
      SplitWithin(s[1..], sep);
      var rest := Split(s[1..], sep);
      assert rest == [rest[0]] + rest[1..];
    }
  }

  lemma {:induction false} NoPairs(parts: seq<string>, key: string)
    requires forall p | p in parts :: '=' !in p
    ensures FirstValueFor(parts, key) == None
  {
    if parts != [] {
      assert parts[0] in parts && forall p | p in parts[1..] :: p in parts;
      SplitPlain(parts[0], '=');
      NoPairs(parts[1..], key);
    }
  }

  lemma NoEqualsNoSerial(v: string)
    requires '=' !in v
    ensures SerialFromSdrValue(v) == None
  {
    TrimStartWithin(v);
    TrimEndWithin(TrimStart(v));
    SplitWithin(Trim(v), ',');
    NoPairs(Split(Trim(v), ','), "serial");
  }

  lemma {:induction false} SplitAtFirst(before: string, after: string, sep: char)
    requires sep !in before
    ensures SplitOnce(before + [sep] + after, sep) == Some((before, after))
  {
    var s := before + [sep] + after;
    if before != "" {
      SplitAtFirst(before[1..], after, sep);
      assert s[1..] == before[1..] + [sep] + after && [before[0]] + before[1..] == before;
    } else {
      assert s[1..] == after;
    }
  }

  lemma OtherPair(part: string, before: string, after: string, key: string)
    requires SplitOnce(part, '=') == Some((before, after)) && !EqualsIgnoreCase(Trim(before), key)
    ensures FirstValueFor([part], key) == None
  {
    hide SplitOnce, Trim, EqualsIgnoreCase;
    assert [part][1..] == [];
  }

  lemma DriverIsNotSerial()
    ensures Trim("driver") == "driver" && !EqualsIgnoreCase(Trim("driver"), "serial")
    ensures Trim("driver=rtlsdr") == "driver=rtlsdr"
  {
    assert TrimStart("driver") == "driver" && TrimEnd("driver") == "driver";
    assert TrimStart("driver=rtlsdr") == "driver=rtlsdr" && TrimEnd("driver=rtlsdr") == "driver=rtlsdr";
    assert ToLower("driver")[0] == 'd' && ToLower("serial")[0] == 's';
  }

  lemma DefaultRadioHasNoSerial()
    ensures SerialFromSdrValue("driver=rtlsdr") == None
  {
    hide SplitOnce, Split, Trim, EqualsIgnoreCase, FirstValueFor;
    var v := "driver=rtlsdr";
    DriverIsNotSerial();
    SplitPlain(v, ',');
    SplitAtFirst("driver", "rtlsdr", '=');
    assert v == "driver" + ['='] + "rtlsdr";
    OtherPair(v, "driver", "rtlsdr", "serial");
  }

  /** An upper-case key that does not ask for a bare serial. */
  predicate PlainKey(k: string) {
    && k != "" && (forall i | 0 <= i < |k| :: !('a' <= k[i] <= 'z'))
    && k[|k| - 1] != 'L' && !(|k| > 1 && k[|k| - 1] == 'E' && k[|k| - 2] == 'C')
    && ('T' !in k || 'L' !in k || 'R' !in k)
  }

  lemma EndingShows(s: string, p: string)
    requires |p| > 1 && EndsWith(s, p)
    ensures |s| > 1 && s[|s| - 1] == p[|p| - 1] && s[|s| - 2] == p[|p| - 2]
  {
    var tail := s[|s| - |p|..];
    assert tail[|p| - 1] == s[|s| - 1] && tail[|p| - 2] == s[|s| - 2];
  }

  lemma RadioDeviceLetters(k: string)
    requires Contains(k, "RTLSDR_DEVICE")
    ensures 'R' in k && 'T' in k && 'L' in k
  {
    var i: nat :| i <= |k| && OccursAt(k, "RTLSDR_DEVICE", i);
    var found := k[i..i + 13];
    assert k[i] == found[0] && k[i + 1] == found[1] && k[i + 2] == found[2];
  }

  lemma PlainKeyNoSerial(k: string)
    requires PlainKey(k)
    ensures !KeyAllowsBareSerial(k)
  {
    assert ToUpper(k) == k;
    if Contains(k, "RTLSDR_DEVICE") {
      RadioDeviceLetters(k);
    }
    assert "RTL_SERIAL"[9] == 'L' && "AIRSPY_SERIAL"[12] == 'L' && "SERIAL"[5] == 'L' && "_SERIAL"[6] == 'L';
    assert "_DEVICE"[6] == 'E' && "_DEVICE"[5] == 'C';
    if EndsWith(k, "RTL_SERIAL") { EndingShows(k, "RTL_SERIAL"); }
    if EndsWith(k, "AIRSPY_SERIAL") { EndingShows(k, "AIRSPY_SERIAL"); }
    if EndsWith(k, "_SERIAL") { EndingShows(k, "_SERIAL"); }
    if EndsWith(k, "_DEVICE") { EndingShows(k, "_DEVICE"); }
  }

  /** No variable of the environment names a serial. */
  predicate SerialFree(env: Env) {
    forall k | k in env && !IsSdrIdEnvKey(k) :: SerialOf(k, env[k]) == None
  }

  /** A variable that names no radio. */
  predicate PlainEntry(k: string, v: string) {
    RadioFreeKey(k) && ('=' !in v || v == "driver=rtlsdr")
  }

  predicate RadioFreeKey(k: string) {
    PlainKey(k) && !IsSdrIdEnvKey(k)
  }

  /** One more variable without a serial, which is no metadata either. */
  lemma PutPlain(env: Env, k: string, v: string)
    requires SerialFree(env) && PlainEntry(k, v)
    ensures SerialFree(env[k := v]) && forall f :: MetadataId(env[k := v], f) == MetadataId(env, f)
  {
    hide Trim, PlainKey, SerialFromSdrValue, KeyAllowsBareSerial, LooksLikeBareSerial;
    PlainKeyNoSerial(k);
    if '=' !in v {
      NoEqualsNoSerial(v);
    } else {
      DefaultRadioHasNoSerial();
    }
    forall f
      ensures SdrIdEnvKey(f) != k
    {
      FieldOfKey(f);
    }
  }

  /** One more exact id. */
  lemma PutId(env: Env, field: string, id: string)
    requires SerialFree(env) && PlainId(id)
    ensures var next := env[SdrIdEnvKey(field) := id];
      SerialFree(next) && forall f :: MetadataId(next, f) == if f == field then Some(id) else MetadataId(env, f)
  {
    hide SerialOf;
    assert TrimStart(id) == id && TrimEnd(id) == id;
    FieldOfKey(field);
    forall f
      ensures SdrIdEnvKey(f) == SdrIdEnvKey(field) <==> f == field
    {
      FieldOfKey(f);
    }
  }

  /** The only reference is this field's, by this id. */
  ghost predicate OnlyId(env: Env, field: string, id: string) {
    forall f :: ReferenceAt(env, f) == if f == field then Some(SdrReference(None, f, None, Some(id))) else None
  }

  ghost predicate NoReference(env: Env) {
    forall f :: ReferenceAt(env, f) == None
  }

  lemma SerialFreeReferences(env: Env, f: string)
    requires SerialFree(env)
    ensures ReferenceAt(env, f) ==
      if IsBundlePlanningSdrKey(f) || MetadataId(env, f).None? then None
      else Some(SdrReference(None, f, None, MetadataId(env, f)))
  {
    hide SerialOf, MetadataId;
  }

  // ---- an app that names its tuner by id alone -------------------------------------------------

  lemma BareSerialOne()
    ensures SerialOf("SERIAL", "1") == Some("1")
  {
    assert TrimStart("1") == "1" && TrimEnd("1") == "1";
    SplitPlain("1", ',');
    SplitPlain("1", '=');
    assert SerialFromSdrValue("1") == None by {
      assert FirstValueFor([], "serial") == None;
      assert ["1"][1..] == [];
    }
    var key := ToUpper("SERIAL");
    assert key == "SERIAL";
    forall p | p in ["TYPE", "FREQUENC", "GAIN", "PPM"]
      ensures !Contains(key, p)
    {
      if Contains(key, p) {
        ContainedStart(key, p);
      }
    }
    assert KeyAllowsBareSerial("SERIAL") by {
      assert !Contains(key, ["TYPE", "FREQUENC", "GAIN", "PPM"][0])
        && !Contains(key, ["TYPE", "FREQUENC", "GAIN", "PPM"][1]);
      assert !Contains(key, ["TYPE", "FREQUENC", "GAIN", "PPM"][2])
        && !Contains(key, ["TYPE", "FREQUENC", "GAIN", "PPM"][3]);
    }
    assert ToLower("1") == "1" && |ToLower("rtlsdr")| == 6 && |ToLower("airspy")| == 6;
  }

  lemma SerialRecord(f: string)
    ensures ReferenceAt(map["SERIAL" := "1"], f) == if f == "SERIAL" then Some(SdrReference(None, f, Some("1"), None))
      else None
  {
    hide SerialOf, Trim;
    BareSerialOne();
    assert |SdrIdEnvKey(f)| >= 17 && |"SERIAL"| == 6;
  }

  /** An environment that names a tuner by its id alone. */
  function ById(id: string): Env {
    map["AIRWAVES_SDR_ID__X" := id]
  }

  predicate PlainId(id: string) {
    |id| == 1 && !IsWhite(id[0])
  }

  lemma BareIdTarget(id: string, f: string)
    requires PlainId(id)
    ensures ReferenceAt(ById(id), f) == if f == "X" then Some(SdrReference(None, f, None, Some(id))) else None
    ensures Trim(id) == id
  {
    hide SerialOf;
    assert TrimStart(id) == id && TrimEnd(id) == id;
    assert SdrIdEnvKey("X") == "AIRWAVES_SDR_ID__X";
    FieldOfKey(f);
    FieldOfKey("X");
  }

  /** It is complete as it stands, and does name a radio. */
  lemma BareIdIsComplete(id: string, devices: seq<SdrDevice>)
    requires PlainId(id)
    ensures Enriched(ById(id), devices) == ById(id) && HasReference(ById(id))
  {
    hide ReferenceAt, Enriched, ById, PlainId;
    forall f
      ensures Fill(ById(id), devices, f) == None
    {
      BareIdTarget(id, f);
    }
    BareIdTarget(id, "X");
    assert ReferenceAt(ById(id), "X").Some?;
    EnrichedLookup(ById(id), devices);
  }

  /** The catalog and the request of an app with one radio and no defaults. */
  function OneApp(): seq<AppSpec> {
    [AppSpec("b", true, map[])]
  }

  function ByIdRequest(): Step {
    Submit(Install("b", ById("d")), [Installed])
  }

  lemma OneAppPrepared(apps: AppsValue)
    ensures Prepared(OneApp(), apps, Install("b", ById("d"))) == Ok([AppSpec("b", true, ById("d"))])
  {
    hide PrepareAcarshubBundle, ById;
    assert OneApp()[0] == AppSpec("b", true, map[]);
    assert |"b"| == 1 && |"acarsdec"| == 8 && |"acarshub"| == 8;
    assert map[] + map[] + ById("d") == ById("d");
  }

  /** Installing an app that names tuner "d" by its id alone is accepted next to a record that reaches it by serial. */
  lemma {:induction false} BareIdBreaksExclusivity(devices: seq<SdrDevice>, apps: AppsValue)
    requires devices == [SdrDevice("d", Some("1"), "available", None)]
    requires apps == AppArray([AppRecord(Some("a"), Env(map["SERIAL" := "1"]))])
    ensures DeviceTable(devices) && Exclusive(Records(apps), devices)
    ensures Takes(OneApp(), devices, apps, ByIdRequest())
    ensures !StepHidesNothing(OneApp(), devices, apps, ByIdRequest())
    ensures !Exclusive(Records(Next(OneApp(), devices, apps, ByIdRequest())), devices)
  {
    hide SerialOf, Trim, ReferenceAt, Enriched, ById, OneApp, Prepared, Next, Exclusive, Without;
    var targets := [AppSpec("b", true, ById("d"))];
    var env, recorded := ById("d"), EnvOf(apps.records[0]);
    forall f
      ensures ReferenceAt(env, f) == if f == "X" then Some(SdrReference(None, f, None, Some("d"))) else None
      ensures ReferenceAt(recorded, f) == if f == "SERIAL" then Some(SdrReference(None, f, Some("1"), None)) else None
    {
      SerialRecord(f);
      BareIdTarget("d", f);
    }
    BareIdTarget("d", "X");
    BareIdIsComplete("d", devices);
    OneAppPrepared(apps);
    assert Completed(targets, devices) == targets;
    OneIdAccepted(devices, apps, targets);
    OneRecordExclusive(apps.records, "SERIAL", devices);
    BareIdHidden(devices, apps, targets);
    StepExclusiveExactly(OneApp(), devices, apps, ByIdRequest());
  }

  /** One record with one reference is exclusive. */
  lemma OneRecordExclusive(records: seq<AppRecord>, field: string, devices: seq<SdrDevice>)
    requires |records| == 1 && forall f | ReferenceAt(EnvOf(records[0]), f).Some? :: f == field
    ensures Exclusive(records, devices)
  {
    hide ReferenceAt, SharesTuner;
  }

  lemma OneIdAccepted(devices: seq<SdrDevice>, apps: AppsValue, targets: seq<AppSpec>)
    requires |targets| == 1 && HasReference(targets[0].env)
    requires forall f | ReferenceAt(targets[0].env, f).Some? ::
      f == "X" && ReferenceAt(targets[0].env, f).value.deviceId.Some?
        && ReferenceAt(targets[0].env, f).value.serial.None?
    requires forall r, g | r in Records(apps) && ReferenceAt(EnvOf(r), g).Some? ::
      ReferenceAt(EnvOf(r), g).value.deviceId.None?
    ensures Accepted(apps, targets, devices)
  {
    hide ReferenceAt;
    forall i: nat, f, r: nat, g | i < |targets| && r < |Records(apps)|
      ensures !Conflicting(targets[i].env, f, EnvOf(Records(apps)[r]), g)
    {
      assert Records(apps)[r] in Records(apps);
    }
  }

  lemma {:induction false} BareIdHidden(devices: seq<SdrDevice>, apps: AppsValue, targets: seq<AppSpec>)
    requires devices == [SdrDevice("d", Some("1"), "available", None)]
    requires apps.AppArray? && |apps.records| == 1 && apps.records[0].id == Some("a")
      && targets == [AppSpec("b", true, ById("d"))]
    requires ReferenceAt(EnvOf(apps.records[0]), "SERIAL") == Some(SdrReference(None, "SERIAL", Some("1"), None))
    requires ReferenceAt(ById("d"), "X") == Some(SdrReference(None, "X", None, Some("d")))
    ensures Recorded(targets, [Installed]) == targets && !NoneHidden(apps, targets, targets, devices)
  {
    hide ReferenceAt, SerialKey, ById;
    assert [Installed][1..] == [] && targets[1..] == [];
    WithoutElements(apps.records, TargetIds(targets));
    var x := apps.records[0];
    assert x in Kept(apps, targets) && targets[0] in targets;
    var a, b := ReferenceAt(ById("d"), "X").value, ReferenceAt(EnvOf(x), "SERIAL").value;
    assert devices[0] in devices && CanUse(b, devices[0]);
    assert HiddenOverlap(a, b, devices);
    assert !NoHiddenOverlap(targets[0].env, EnvOf(x), devices);
  }

  // ---- the variables of a bundle ---------------------------------------------------------------

  const PICKED_ACARSDEC := "LOCAL_ACARSDEC_SDR"
  const PICKED_DUMPVDL2 := "LOCAL_DUMPVDL2_SDR"

  lemma RadioFreeShort()
    ensures RadioFreeKey("SOAPYSDR") && RadioFreeKey("TZ") && RadioFreeKey("FEED_ID")
  {
  }

  lemma RadioFreeFrequencies()
    ensures RadioFreeKey("FREQUENCIES") && RadioFreeKey("QUIET_LOGS")
  {
  }

  lemma RadioFreeServer()
    ensures RadioFreeKey("SERVER") && RadioFreeKey("SERVER_PORT")
  {
  }

  lemma RadioFreeOutput()
    ensures RadioFreeKey("OUTPUT_SERVER")
  {
  }

  lemma RadioFreeOutputPort()
    ensures RadioFreeKey("OUTPUT_SERVER_PORT")
  {
    assert "OUTPUT_SERVER_PORT"[0] == 'O' && SDR_ID_ENV_PREFIX[0] == 'A';
  }

  lemma RadioFreeOutputMode()
    ensures RadioFreeKey("OUTPUT_SERVER_MODE")
  {
    assert "OUTPUT_SERVER_MODE"[0] == 'O' && SDR_ID_ENV_PREFIX[0] == 'A';
  }

  lemma RadioFreeForwarding()
    ensures RadioFreeKey(FORWARD_TO_HUB)
  {
    assert SDR_ID_ENV_PREFIX[9] == 'S' && FORWARD_TO_HUB[9] == 'F';
  }

  lemma RadioFreeEnables()
    ensures RadioFreeKey("ENABLE_ACARS") && RadioFreeKey("ENABLE_VDLM")
  {
  }

  lemma RadioFreeAcarsdecSwitch()
    ensures RadioFreeKey("ENABLE_LOCAL_ACARSDEC")
  {
    assert "ENABLE_LOCAL_ACARSDEC"[0] == 'E' && SDR_ID_ENV_PREFIX[0] == 'A';
  }

  lemma RadioFreeDumpvdl2Switch()
    ensures RadioFreeKey("ENABLE_LOCAL_DUMPVDL2")
  {
    assert "ENABLE_LOCAL_DUMPVDL2"[0] == 'E' && SDR_ID_ENV_PREFIX[0] == 'A';
  }

  lemma RadioFreeAcarsConnections()
    ensures RadioFreeKey("ACARS_CONNECTIONS")
  {
    assert "ACARS_CONNECTIONS"[1] == 'C' && SDR_ID_ENV_PREFIX[1] == 'I';
  }

  lemma RadioFreeVdlmConnections()
    ensures RadioFreeKey("VDLM_CONNECTIONS")
  {
  }

  /** No value has an equals sign. */
  predicate NoEquals(env: Env) {
    forall k | k in env :: '=' !in env[k]
  }

  lemma ValueHasNoEquals(env: Env, key: string, default: string)
    requires NoEquals(env)
    ensures EnvValueOr(env, key, default) == default || '=' !in EnvValueOr(env, key, default)
  {
    hide Trim;
    if key in env {
      TrimWithin(env[key]);
    }
  }

  lemma TrimWithin(s: string)
    ensures forall c | c in Trim(s) :: c in s
  {
    TrimStartWithin(s);
    TrimEndWithin(TrimStart(s));
  }

  lemma FrequenciesHaveNoEquals()
    ensures '=' !in ACARS_FREQUENCIES && '=' !in VDL2_FREQUENCIES
  {
  }

  lemma DefaultsHaveNoEquals()
    ensures '=' !in "airwaves-acarsdec" && '=' !in "airwaves-dumpvdl2" && '=' !in "airwaves-acarshub"
    ensures '=' !in "UTC" && '=' !in "true" && '=' !in "5550" && '=' !in "5555" && '=' !in "udp"
    ensures '=' !in "udp://0.0.0.0:5550" && '=' !in "udp://0.0.0.0:5555"
  {
  }

  lemma NoMetadata(f: string)
    ensures MetadataId(map[], f) == None
  {
  }

  lemma NothingNamed()
    ensures SerialFree(map[])
  {
  }

  // ---- the decoders ----------------------------------------------------------------------------

  /** The environment of a decoder as far as it is built: no serial, no id but the radio's, no equals sign elsewhere. */
  ghost predicate RadioOnly(env: Env, id: string) {
    && SerialFree(env) && (forall f :: MetadataId(env, f) == if f == "SOAPYSDR" then Some(id) else None)
    && forall k | k in env && k != "SOAPYSDR" :: '=' !in env[k]
  }

  lemma RadioOnlyReference(env: Env, id: string)
    requires RadioOnly(env, id)
    ensures OnlyId(env, "SOAPYSDR", id)
  {
    hide MetadataId, SerialFree;
    assert "SOAPYSDR"[0] == 'S' && PICKED_ACARSDEC[0] == 'L' && PICKED_DUMPVDL2[0] == 'L';
    forall f
      ensures ReferenceAt(env, f) == if f == "SOAPYSDR" then Some(SdrReference(None, f, None, Some(id))) else None
    {
      SerialFreeReferences(env, f);
    }
  }

  lemma PutMore(env: Env, k: string, v: string, id: string)
    requires RadioOnly(env, id) && RadioFreeKey(k) && '=' !in v
    ensures RadioOnly(env[k := v], id)
  {
    hide MetadataId, SerialFree, RadioFreeKey;
    PutPlain(env, k, v);
    var next := env[k := v];
    forall f
      ensures MetadataId(next, f) == if f == "SOAPYSDR" then Some(id) else None
    {
      assert MetadataId(next, f) == MetadataId(env, f);
    }
  }

  lemma PutRadio(v: string, id: string)
    requires PlainId(id) && '=' !in id && ('=' !in v || v == "driver=rtlsdr")
    ensures RadioOnly(map[]["SOAPYSDR" := v][SdrIdEnvKey("SOAPYSDR") := id], id)
  {
    hide MetadataId, SdrIdEnvKey, RadioFreeKey, SerialFree, PlainId;
    var e: Env := map[]["SOAPYSDR" := v];
    RadioFreeShort();
    NothingNamed();
    PutPlain(map[], "SOAPYSDR", v);
    PutId(e, "SOAPYSDR", id);
    var next := e[SdrIdEnvKey("SOAPYSDR") := id];
    forall f
      ensures MetadataId(next, f) == if f == "SOAPYSDR" then Some(id) else None
    {
      NoMetadata(f);
      assert MetadataId(e, f) == MetadataId(map[], f);
    }
  }

  lemma TimeZoneHasNoEquals(hub: Env, env: Env, id: string)
    requires NoEquals(hub) && RadioOnly(env, id)
    ensures '=' !in TimeZone(hub, env)
  {
    hide MetadataId, SerialFree, EnvValueOr;
    assert |"TZ"| == 2 && |"SOAPYSDR"| == 8;
    DefaultsHaveNoEquals();
    ValueHasNoEquals(hub, "TZ", if "TZ" in env then env["TZ"] else "UTC");
  }

  /** The ACARS decoder that a hub brings along has one reference, the picked id. */
  lemma AcarsdecReference(source: AppSpec, hub: Env, id: string)
    requires source.env == map[] && NoEquals(hub) && PlainId(id) && '=' !in id
      && MetadataId(hub, PICKED_ACARSDEC) == Some(id)
    ensures OnlyId(BundledAcarsdec(source, hub).env, "SOAPYSDR", id)
  {
    hide MetadataId, RadioOnly, RadioFreeKey, SdrIdEnvKey, PlainId, OnlyId, NoEquals, EnvValueOr, TimeZone;
    FrequenciesHaveNoEquals();
    DefaultsHaveNoEquals();
    RadioFreeShort();
    RadioFreeFrequencies();
    RadioFreeForwarding();
    RadioFreeOutput();
    RadioFreeOutputPort();
    RadioFreeOutputMode();
    var radio := EnvValueOr(hub, PICKED_ACARSDEC, "driver=rtlsdr");
    var frequencies := EnvValueOr(hub, "LOCAL_ACARSDEC_FREQUENCIES", ACARS_FREQUENCIES);
    var feed := EnvValueOr(hub, "LOCAL_ACARSDEC_FEED_ID", "airwaves-acarsdec");
    ValueHasNoEquals(hub, PICKED_ACARSDEC, "driver=rtlsdr");
    ValueHasNoEquals(hub, "LOCAL_ACARSDEC_FREQUENCIES", ACARS_FREQUENCIES);
    ValueHasNoEquals(hub, "LOCAL_ACARSDEC_FEED_ID", "airwaves-acarsdec");
    var e2 := map[]["SOAPYSDR" := radio][SdrIdEnvKey("SOAPYSDR") := id];
    var e3 := e2["FREQUENCIES" := frequencies];
    var e4 := e3["FEED_ID" := feed];
    var e5 := e4[FORWARD_TO_HUB := "true"];
    var e6 := e5["OUTPUT_SERVER" := "airwaves-acarshub"];
    var e7 := e6["OUTPUT_SERVER_PORT" := "5550"];
    var e8 := e7["OUTPUT_SERVER_MODE" := "udp"];
    var e9 := e8["QUIET_LOGS" := "true"];
    PutRadio(radio, id);
    PutMore(e2, "FREQUENCIES", frequencies, id);
    PutMore(e3, "FEED_ID", feed, id);
    PutMore(e4, FORWARD_TO_HUB, "true", id);
    PutMore(e5, "OUTPUT_SERVER", "airwaves-acarshub", id);
    PutMore(e6, "OUTPUT_SERVER_PORT", "5550", id);
    PutMore(e7, "OUTPUT_SERVER_MODE", "udp", id);
    PutMore(e8, "QUIET_LOGS", "true", id);
    TimeZoneHasNoEquals(hub, e9, id);
    PutMore(e9, "TZ", TimeZone(hub, e9), id);
    RadioOnlyReference(e9["TZ" := TimeZone(hub, e9)], id);
  }

  lemma Dumpvdl2Reference(source: AppSpec, hub: Env, id: string)
    requires source.env == map[] && NoEquals(hub) && PlainId(id) && '=' !in id
      && MetadataId(hub, PICKED_DUMPVDL2) == Some(id)
    ensures OnlyId(BundledDumpvdl2(source, hub).env, "SOAPYSDR", id)
  {
    hide MetadataId, RadioOnly, RadioFreeKey, SdrIdEnvKey, PlainId, OnlyId, NoEquals, EnvValueOr, TimeZone;
    FrequenciesHaveNoEquals();
    DefaultsHaveNoEquals();
    RadioFreeShort();
    RadioFreeFrequencies();
    RadioFreeServer();
    var radio := EnvValueOr(hub, PICKED_DUMPVDL2, "driver=rtlsdr");
    var frequencies := EnvValueOr(hub, "LOCAL_DUMPVDL2_FREQUENCIES", VDL2_FREQUENCIES);
    var feed := EnvValueOr(hub, "LOCAL_DUMPVDL2_FEED_ID", "airwaves-dumpvdl2");
    ValueHasNoEquals(hub, PICKED_DUMPVDL2, "driver=rtlsdr");
    ValueHasNoEquals(hub, "LOCAL_DUMPVDL2_FREQUENCIES", VDL2_FREQUENCIES);
    ValueHasNoEquals(hub, "LOCAL_DUMPVDL2_FEED_ID", "airwaves-dumpvdl2");
    var e2 := map[]["SOAPYSDR" := radio][SdrIdEnvKey("SOAPYSDR") := id];
    var e3 := e2["FREQUENCIES" := frequencies];
    var e4 := e3["FEED_ID" := feed];
    var e5 := e4["SERVER" := "airwaves-acarshub"];
    var e6 := e5["SERVER_PORT" := "5555"];
    PutRadio(radio, id);
    PutMore(e2, "FREQUENCIES", frequencies, id);
    PutMore(e3, "FEED_ID", feed, id);
    PutMore(e4, "SERVER", "airwaves-acarshub", id);
    PutMore(e5, "SERVER_PORT", "5555", id);
    NoZmqKeys(radio, id, frequencies, feed);
    TimeZoneHasNoEquals(hub, e6, id);
    PutMore(e6, "TZ", TimeZone(hub, e6), id);
    RadioOnlyReference(e6["TZ" := TimeZone(hub, e6)], id);
  }

  lemma NoZmqKeys(radio: string, id: string, frequencies: string, feed: string)
    ensures var e :=
      map[]["SOAPYSDR" := radio][SdrIdEnvKey("SOAPYSDR") := id]["FREQUENCIES" := frequencies]["FEED_ID" := feed]
      ["SERVER" := "airwaves-acarshub"]["SERVER_PORT" := "5555"];
      e - {"ZMQ_MODE", "ZMQ_ENDPOINT"} == e
  {
    assert "ZMQ_MODE"[0] == 'Z' && "ZMQ_ENDPOINT"[0] == 'Z' && SdrIdEnvKey("SOAPYSDR")[0] == 'A';
    assert "SOAPYSDR"[0] == 'S' && "FREQUENCIES"[0] == 'F' && "FEED_ID"[0] == 'F' && "SERVER"[0] == 'S'
      && "SERVER_PORT"[0] == 'S';
  }

  // ---- the hub ---------------------------------------------------------------------------------

  /** A hub's environment: no serial, and the two picked ids under their planning fields. */
  ghost predicate PlansOnly(env: Env) {
    && SerialFree(env)
    && forall f ::
      MetadataId(env, f) == if f == PICKED_ACARSDEC then Some("d") else if f == PICKED_DUMPVDL2 then Some("e") else None
  }

  lemma PutPlanned(env: Env, k: string, v: string)
    requires PlansOnly(env) && NoEquals(env) && RadioFreeKey(k) && '=' !in v
    ensures PlansOnly(env[k := v]) && NoEquals(env[k := v])
  {
    hide MetadataId, SerialFree, RadioFreeKey;
    PutPlain(env, k, v);
    var next := env[k := v];
    forall f
      ensures MetadataId(next, f) == if f == PICKED_ACARSDEC then Some("d") else if f == PICKED_DUMPVDL2 then Some("e")
        else None
    {
      assert MetadataId(next, f) == MetadataId(env, f);
    }
  }

  lemma HubStaysPlanned(hub: Env)
    requires PlansOnly(hub) && NoEquals(hub)
    ensures PlansOnly(HubEnv(hub)) && NoEquals(HubEnv(hub))
  {
    hide PlansOnly, NoEquals, RadioFreeKey, EnvValueOr, EnvEnabled;
    DefaultsHaveNoEquals();
    RadioFreeEnables();
    RadioFreeAcarsConnections();
    RadioFreeVdlmConnections();
    var acars := EnvValueOr(hub, "ACARS_CONNECTIONS", "udp://0.0.0.0:5550");
    ValueHasNoEquals(hub, "ACARS_CONNECTIONS", "udp://0.0.0.0:5550");
    PutPlanned(hub, "ENABLE_ACARS", "true");
    PutPlanned(hub["ENABLE_ACARS" := "true"], "ACARS_CONNECTIONS", acars);
    var e := if EnvEnabled(hub, "ENABLE_LOCAL_ACARSDEC")
      then hub["ENABLE_ACARS" := "true"]["ACARS_CONNECTIONS" := acars] else hub;
    var vdlm := EnvValueOr(e, "VDLM_CONNECTIONS", "udp://0.0.0.0:5555");
    ValueHasNoEquals(e, "VDLM_CONNECTIONS", "udp://0.0.0.0:5555");
    PutPlanned(e, "ENABLE_VDLM", "true");
    PutPlanned(e["ENABLE_VDLM" := "true"], "VDLM_CONNECTIONS", vdlm);
  }

  /** A hub with both local decoders, the ACARS one on tuner "d" and the VDL2 one on tuner "e". */
  ghost predicate MovesDecoder(hub: Env) {
    && EnvEnabled(hub, "ENABLE_LOCAL_ACARSDEC") && EnvEnabled(hub, "ENABLE_LOCAL_DUMPVDL2")
    && PlansOnly(hub) && NoEquals(hub)
  }

  function HubCatalog(): seq<AppSpec> {
    [AppSpec("acarshub", false, map[]), AppSpec("acarsdec", true, map[]), AppSpec("dumpvdl2", true, map[])]
  }

  /** The targets of a request for such a hub. */
  function MovingTargets(hub: Env): seq<AppSpec> {
    [AppSpec("acarshub", false, HubEnv(hub)),
     BundledAcarsdec(AppSpec("acarsdec", true, map[]), HubEnv(hub)),
     BundledDumpvdl2(AppSpec("dumpvdl2", true, map[]), HubEnv(hub))]
  }

  lemma FoundDecoders()
    ensures FindApp(HubCatalog(), "acarshub") == Some(AppSpec("acarshub", false, map[]))
    ensures FindApp(HubCatalog(), "acarsdec") == Some(AppSpec("acarsdec", true, map[]))
    ensures FindApp(HubCatalog(), "dumpvdl2") == Some(AppSpec("dumpvdl2", true, map[]))
  {
    var catalog := HubCatalog();
    assert "acarshub"[5] == 'h' && "acarsdec"[5] == 'd' && "dumpvdl2"[0] == 'd' && "acarsdec"[0] == 'a'
      && "acarshub"[0] == 'a';
    assert FindApp(catalog, "acarsdec") == FindApp(catalog[1..], "acarsdec");
    assert FindApp(catalog, "dumpvdl2") == FindApp(catalog[1..], "dumpvdl2") == FindApp(catalog[1..][1..], "dumpvdl2");
  }

  lemma MovingPrepared(apps: AppsValue, hub: Env)
    requires MovesDecoder(hub)
    ensures Prepared(HubCatalog(), apps, Install("acarshub", hub)) == Ok(MovingTargets(hub))
  {
    hide HubEnv, BundledAcarsdec, BundledDumpvdl2, EnvEnabled, HubCatalog, FindApp, PlansOnly, NoEquals;
    HubSwitches(hub);
    FoundDecoders();
    assert "acarshub" != "acarsdec" by { assert "acarshub"[5] == 'h' && "acarsdec"[5] == 'd'; }
    assert map[] + map[] + hub == hub;
    assert PrepareAcarshubBundle(HubCatalog(), AppSpec("acarshub", false, hub)) == MovingTargets(hub);
  }

  lemma MovingReferences(hub: Env)
    requires MovesDecoder(hub)
    ensures NoReference(MovingTargets(hub)[0].env)
    ensures OnlyId(MovingTargets(hub)[1].env, "SOAPYSDR", "d") && OnlyId(MovingTargets(hub)[2].env, "SOAPYSDR", "e")
  {
    hide MetadataId, SerialFree, OnlyId, BundledAcarsdec, BundledDumpvdl2, NoEquals, HubEnv, EnvEnabled;
    HubStaysPlanned(hub);
    var env := HubEnv(hub);
    assert PICKED_ACARSDEC[6] == 'A' && PICKED_DUMPVDL2[6] == 'D';
    AcarsdecReference(AppSpec("acarsdec", true, map[]), env, "d");
    Dumpvdl2Reference(AppSpec("dumpvdl2", true, map[]), env, "e");
    forall f
      ensures ReferenceAt(env, f) == None
    {
      SerialFreeReferences(env, f);
    }
  }

  /** An environment without a bare serial is complete as it stands. */
  lemma NothingToComplete(env: Env, devices: seq<SdrDevice>)
    requires forall f | ReferenceAt(env, f).Some? :: ReferenceAt(env, f).value.serial.None?
    ensures Enriched(env, devices) == env
  {
    hide ReferenceAt, Enriched;
    EnrichedLookup(env, devices);
    forall f
      ensures Fill(env, devices, f) == None
    {
    }
  }

  /** A concrete hub of this kind. */
  function MovingHub(): Env {
    map["ENABLE_LOCAL_ACARSDEC" := "1"]["ENABLE_LOCAL_DUMPVDL2" := "1"]
      [SdrIdEnvKey(PICKED_ACARSDEC) := "d"][SdrIdEnvKey(PICKED_DUMPVDL2) := "e"]
  }

  lemma OneIsEnabled(env: Env, key: string)
    requires key in env && env[key] == "1"
    ensures EnvEnabled(env, key)
  {
    assert TrimStart("1") == "1" && TrimEnd("1") == "1";
  }

  lemma MovingHubPlans()
    ensures PlansOnly(MovingHub())
  {
    hide MetadataId, SdrIdEnvKey, RadioFreeKey, SerialFree;
    var e1: Env := map["ENABLE_LOCAL_ACARSDEC" := "1"];
    var e2 := e1["ENABLE_LOCAL_DUMPVDL2" := "1"];
    var e3 := e2[SdrIdEnvKey(PICKED_ACARSDEC) := "d"];
    var e4 := e3[SdrIdEnvKey(PICKED_DUMPVDL2) := "e"];
    RadioFreeAcarsdecSwitch();
    RadioFreeDumpvdl2Switch();
    NothingNamed();
    assert map[]["ENABLE_LOCAL_ACARSDEC" := "1"] == e1;
    PutPlain(map[], "ENABLE_LOCAL_ACARSDEC", "1");
    PutPlain(e1, "ENABLE_LOCAL_DUMPVDL2", "1");
    PutId(e2, PICKED_ACARSDEC, "d");
    PutId(e3, PICKED_DUMPVDL2, "e");
    assert PICKED_ACARSDEC[6] == 'A' && PICKED_DUMPVDL2[6] == 'D';
    forall f
      ensures MetadataId(e4, f) == if f == PICKED_ACARSDEC then Some("d") else if f == PICKED_DUMPVDL2 then Some("e")
        else None
    {
      NoMetadata(f);
      assert MetadataId(e2, f) == MetadataId(e1, f) == MetadataId(map[], f);
      assert MetadataId(e4, f) == if f == PICKED_DUMPVDL2 then Some("e") else MetadataId(e3, f);
    }
  }

  /** A concrete hub of this kind. */
  lemma MovingHubMoves()
    ensures MovesDecoder(MovingHub())
  {
    hide MetadataId, SerialFree, EnvEnabled, PlansOnly;
    MovingHubPlans();
    assert "ENABLE_LOCAL_ACARSDEC"[13] == 'A' && "ENABLE_LOCAL_DUMPVDL2"[13] == 'D';
    assert |"ENABLE_LOCAL_ACARSDEC"| == 21 && |"ENABLE_LOCAL_DUMPVDL2"| == 21;
    assert |SdrIdEnvKey(PICKED_ACARSDEC)| == 35 && |SdrIdEnvKey(PICKED_DUMPVDL2)| == 35;
    OneIsEnabled(MovingHub(), "ENABLE_LOCAL_ACARSDEC");
    OneIsEnabled(MovingHub(), "ENABLE_LOCAL_DUMPVDL2");
  }

  // ---- the half-failed bundle ------------------------------------------------------------------

  /** Docker installs the hub and the ACARS decoder, and fails at the VDL2 decoder. */
  function MovingRequest(hub: Env): Step {
    Submit(Install("acarshub", hub), [Installed, Installed, DockerFailed])
  }

  lemma {:induction false} MovingAccepted(devices: seq<SdrDevice>, apps: AppsValue, targets: seq<AppSpec>)
    requires apps.AppArray? && |apps.records| == 1 && |targets| == 3 && apps.records[0].id == Some(targets[2].id)
    requires !targets[0].requiresSdr && NoReference(targets[0].env)
    requires OnlyId(targets[1].env, "SOAPYSDR", "d") && OnlyId(targets[2].env, "SOAPYSDR", "e")
    ensures Accepted(apps, targets, devices)
  {
    hide ReferenceAt;
    assert ReferenceAt(targets[1].env, "SOAPYSDR").Some? && ReferenceAt(targets[2].env, "SOAPYSDR").Some?;
    assert HasReference(targets[1].env) && HasReference(targets[2].env);
    assert "d"[0] == 'd' && "e"[0] == 'e';
  }

  lemma {:induction false} FirstTwoRecorded(targets: seq<AppSpec>)
    requires |targets| == 3
    ensures Recorded(targets, [Installed, Installed, DockerFailed]) == [targets[0], targets[1]]
  {
    var outcomes := [Installed, Installed, DockerFailed];
    assert outcomes[1..] == [Installed, DockerFailed] && outcomes[1..][1..] == [DockerFailed];
    var rest := targets[1..];
    assert Recorded(rest[1..], [DockerFailed]) == [] && rest[0] == targets[1];
    assert Recorded(rest, outcomes[1..]) == [targets[1]];
  }

  /** The hub and the ACARS decoder are recorded; the VDL2 decoder's old record stays. */
  lemma {:induction false} MovingLeftover(devices: seq<SdrDevice>, apps: AppsValue, targets: seq<AppSpec>)
    requires |devices| == 2 && devices[0].id == "d"
    requires apps == AppArray([AppRecord(Some("dumpvdl2"), Env(ById("d")))])
    requires |targets| == 3 && targets[0].id == "acarshub" && targets[1].id == "acarsdec" && targets[2].id == "dumpvdl2"
    requires OnlyId(targets[1].env, "SOAPYSDR", "d")
      && ReferenceAt(ById("d"), "X") == Some(SdrReference(None, "X", None, Some("d")))
    ensures !LeftoversApart(apps, targets, [targets[0], targets[1]], devices)
  {
    hide ReferenceAt, ById;
    var recorded := [targets[0], targets[1]];
    assert "dumpvdl2"[0] == 'd' && "acarshub"[0] == 'a' && "acarsdec"[0] == 'a';
    WithoutElements(apps.records, TargetIds(recorded));
    var x, t := apps.records[0], targets[1];
    assert x in Kept(apps, recorded) && t in recorded && targets[2] in targets && IsTarget(targets, x.id);
    var a, b := ReferenceAt(ById("d"), "X").value, ReferenceAt(t.env, "SOAPYSDR").value;
    assert devices[0] in devices && CanUse(a, devices[0]) && CanUse(b, devices[0]);
    assert SharesTuner(a, b, devices);
    assert !Apart(EnvOf(x), t.env, devices);
  }

  lemma MovingComplete(hub: Env, devices: seq<SdrDevice>)
    requires MovesDecoder(hub)
    ensures Completed(MovingTargets(hub), devices) == MovingTargets(hub)
  {
    hide ReferenceAt, Enriched, MovesDecoder, HubEnv, BundledAcarsdec, BundledDumpvdl2;
    MovingReferences(hub);
    NothingToComplete(MovingTargets(hub)[0].env, devices);
    NothingToComplete(MovingTargets(hub)[1].env, devices);
    NothingToComplete(MovingTargets(hub)[2].env, devices);
  }

  /** One record that names its tuner by id alone is exclusive and settled. */
  lemma ByIdStart(records: seq<AppRecord>, id: string, devices: seq<SdrDevice>)
    requires PlainId(id) && |records| == 1 && EnvOf(records[0]) == ById(id)
    ensures Exclusive(records, devices) && SettledRecords(records, devices)
  {
    hide ReferenceAt, Exclusive, ById;
    forall f
      ensures ReferenceAt(ById(id), f) == if f == "X" then Some(SdrReference(None, f, None, Some(id))) else None
    {
      BareIdTarget(id, f);
    }
    OneRecordExclusive(records, "X", devices);
  }

  /** What a request takes, when its targets are known. */
  lemma TakesTargets(catalog: seq<AppSpec>, devices: seq<SdrDevice>, apps: AppsValue, step: Step, targets: seq<AppSpec>)
    requires step.Submit? && Prepared(catalog, apps, step.request) == Ok(targets)
      && Completed(targets, devices) == targets
    requires |step.outcomes| == |targets| && Accepted(apps, targets, devices)
    ensures Takes(catalog, devices, apps, step)
    ensures StepTidy(catalog, devices, apps, step) <==>
      LeftoversApart(apps, targets, Recorded(targets, step.outcomes), devices)
  {
    hide Prepared, Completed, Accepted, LeftoversApart, Recorded;
  }

  /**
   The VDL2 decoder is recorded on tuner "d". A hub request that gives "d" to the ACARS decoder and moves the VDL2
   decoder to "e" is accepted; if Docker fails at the VDL2 decoder, its old record and the new one of the ACARS decoder
   share "d", although every reference carries an exact id.
   */
  lemma {:induction false} HalfBundleBreaksExclusivity(devices: seq<SdrDevice>, apps: AppsValue, hub: Env)
    requires devices == [SdrDevice("d", None, "available", None), SdrDevice("e", None, "available", None)]
    requires apps == AppArray([AppRecord(Some("dumpvdl2"), Env(ById("d")))])
    requires MovesDecoder(hub)
    ensures DeviceTable(devices) && Exclusive(Records(apps), devices) && SettledRecords(Records(apps), devices)
    ensures Takes(HubCatalog(), devices, apps, MovingRequest(hub))
    ensures !StepTidy(HubCatalog(), devices, apps, MovingRequest(hub))
    ensures !Exclusive(Records(Next(HubCatalog(), devices, apps, MovingRequest(hub))), devices)
  {
    hide ReferenceAt, Enriched, ById, HubCatalog, Prepared, Next, Exclusive, Without, MovesDecoder, MovingTargets, Trim;
    hide Takes, StepTidy, StepHidesNothing, Accepted, Completed, LeftoversApart, Recorded, SettledRecords, HubEnv,
      NoReference, OnlyId;
    var targets := MovingTargets(hub);
    MovingPrepared(apps, hub);
    MovingReferences(hub);
    BareIdTarget("d", "X");
    BareIdTarget("e", "X");
    ByIdStart(apps.records, "d", devices);
    MovingComplete(hub, devices);
    TargetIdsKept(hub);
    MovingAccepted(devices, apps, targets);
    TakesTargets(HubCatalog(), devices, apps, MovingRequest(hub), targets);
    FirstTwoRecorded(targets);
    MovingLeftover(devices, apps, targets);
    StepExclusiveExactly(HubCatalog(), devices, apps, MovingRequest(hub));
  }

  lemma TargetIdsKept(hub: Env)
    ensures |MovingTargets(hub)| == 3 && !MovingTargets(hub)[0].requiresSdr
    ensures MovingTargets(hub)[0].id == "acarshub" && MovingTargets(hub)[1].id == "acarsdec"
      && MovingTargets(hub)[2].id == "dumpvdl2"
  {
    hide HubEnv, EnvValueOr, TimeZone, CopySdrMetadata, HubOutput;
  }
}
