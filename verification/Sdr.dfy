/**
 The radio allocator (`sdr.rs`): references to tuners in an app's environment, completion with exact
 device ids, and the validator that refuses an assignment.
 */
module Sdr {
  import opened Values
  import opened Text

  type Env = map<string, string>

  datatype SdrReference = SdrReference(appId: Option<string>, fieldKey: string, serial: Option<string>,
      deviceId: Option<string>)

  datatype SdrDevice = SdrDevice(id: string, serial: Option<string>, status: string, assignedTo: Option<string>)

  /** The part of a catalog app that decides about radios. */
  datatype AppSpec = AppSpec(id: string, requiresSdr: bool, env: Env)

  /** The `env` member of a recorded app: absent, not a map of strings, or usable. */
  datatype EnvValue = NoEnv | MalformedEnv | Env(vars: Env)

  datatype AppRecord = AppRecord(id: Option<string>, env: EnvValue)

  /** The JSON value under `config.apps`. */
  datatype AppsValue =
    | AppArray(records: seq<AppRecord>)
    | AppObject(members: seq<(string, AppRecord)>)
    | OtherApps

  const SDR_ID_ENV_PREFIX := "AIRWAVES_SDR_ID__"

  function SdrIdEnvKey(fieldKey: string): string {
    SDR_ID_ENV_PREFIX + fieldKey
  }

  predicate IsSdrIdEnvKey(key: string) {
    SDR_ID_ENV_PREFIX <= key
  }

  function FieldOf(idKey: string): string
    requires IsSdrIdEnvKey(idKey)
  {
    idKey[|SDR_ID_ENV_PREFIX|..]
  }

  predicate IsBundlePlanningSdrKey(key: string) {
    key == "LOCAL_ACARSDEC_SDR" || key == "LOCAL_DUMPVDL2_SDR"
  }

  function SerialKey(serial: string): string {
    ToLower(Trim(serial))
  }

  /** The first non-empty value under a key of a `k=v,k=v` list. */
  function FirstValueFor(parts: seq<string>, key: string): Option<string> {
    if parts == [] then None
    else
      match SplitOnce(parts[0], '=')
      case Some((k, v)) =>
        if EqualsIgnoreCase(Trim(k), key) && Trim(v) != "" then Some(Trim(v)) else FirstValueFor(parts[1..], key)
      case None => FirstValueFor(parts[1..], key)
  }

  function DriverFromSdrValue(value: string): Option<string> {
    if Trim(value) == "" then None else FirstValueFor(Split(Trim(value), ','), "driver")
  }

  function SerialFromSdrValue(value: string): Option<string> {
    if Trim(value) == "" then None else FirstValueFor(Split(Trim(value), ','), "serial")
  }

  predicate KeyAllowsBareSerial(key: string) {
    var k := ToUpper(key);
    if Contains(k, "TYPE") || Contains(k, "FREQUENC") || Contains(k, "GAIN") || Contains(k, "PPM")
      || k == "DEVICE_INDEX"
    then false
    else
      || Contains(k, "RTLSDR_DEVICE")
      || EndsWith(k, "RTL_SERIAL")
      || EndsWith(k, "AIRSPY_SERIAL")
      || k == "SERIAL"
      || EndsWith(k, "_SERIAL")
      || (Contains(k, "SDR") && EndsWith(k, "_DEVICE"))
  }

  /** Words that keep a variable from naming a radio by a bare serial. */
  ghost predicate NamesASetting(k: string) {
    Mentions(k, "TYPE") || Mentions(k, "FREQUENC") || Mentions(k, "GAIN") || Mentions(k, "PPM") || k == "DEVICE_INDEX"
  }

  /**
   A variable takes a bare serial, whatever its case, when it mentions RTLSDR_DEVICE, is or ends in a serial, or is some
   SDR's device, unless it names a setting.
   */
  lemma BareSerialKeysExactly(key: string)
    ensures KeyAllowsBareSerial(key) <==>
      var k := ToUpper(key);
      && !NamesASetting(k)
      && (|| Mentions(k, "RTLSDR_DEVICE") || k == "SERIAL" || (exists a: string :: k == a + "_SERIAL")
          || (exists a: string :: k == a + "RTL_SERIAL" || k == a + "AIRSPY_SERIAL")
          || (Mentions(k, "SDR") && exists a: string :: k == a + "_DEVICE"))
  {
    hide Contains, EndsWith, Mentions;
    var k := ToUpper(key);
    ContainsExactly(k, "TYPE");
    ContainsExactly(k, "FREQUENC");
    ContainsExactly(k, "GAIN");
    ContainsExactly(k, "PPM");
    ContainsExactly(k, "RTLSDR_DEVICE");
    ContainsExactly(k, "SDR");
    EndsWithExactly(k, "RTL_SERIAL");
    EndsWithExactly(k, "AIRSPY_SERIAL");
    EndsWithExactly(k, "_SERIAL");
    EndsWithExactly(k, "_DEVICE");
  }

  predicate IsSerialChar(c: char) {
    '0' <= c <= '9' || 'a' <= c <= 'z' || 'A' <= c <= 'Z' || c in "-_:."
  }

  predicate LooksLikeBareSerial(value: string) {
    var v := Trim(value);
    && v != "" && |v| <= 64
    && !EqualsIgnoreCase(v, "rtlsdr") && !EqualsIgnoreCase(v, "airspy")
    && forall c | c in v :: IsSerialChar(c)
  }

  /** The serial that one environment entry names, if any. */
  function SerialOf(key: string, value: string): Option<string> {
    if SerialFromSdrValue(value).Some? then SerialFromSdrValue(value)
    else if KeyAllowsBareSerial(key) && LooksLikeBareSerial(value) then Some(Trim(value))
    else None
  }

  /** The non-blank exact device id recorded for a field, if any. */
  function MetadataId(env: Env, field: string): Option<string> {
    if SdrIdEnvKey(field) in env && Trim(env[SdrIdEnvKey(field)]) != "" then Some(Trim(env[SdrIdEnvKey(field)]))
    else None
  }

  function SerialAt(env: Env, field: string): Option<string> {
    if field in env && !IsSdrIdEnvKey(field) then SerialOf(field, env[field]) else None
  }

  /** What an environment says about one field: the meaning that the two loops of `references_from_env` list. */
  function ReferenceAt(env: Env, field: string): Option<SdrReference> {
    if IsBundlePlanningSdrKey(field) || (SerialAt(env, field).None? && MetadataId(env, field).None?) then None
    else Some(SdrReference(None, field, SerialAt(env, field), MetadataId(env, field)))
  }

  /** A duplicate-free listing of exactly the references of an environment. */
  ghost predicate Lists(refs: seq<SdrReference>, env: Env) {
    && (forall i | 0 <= i < |refs| :: ReferenceAt(env, refs[i].fieldKey) == Some(refs[i]))
    && (forall f :: ReferenceAt(env, f).Some? ==> ReferenceAt(env, f).value in refs)
    && (forall i, j | 0 <= i < j < |refs| :: refs[i].fieldKey != refs[j].fieldKey)
  }

  lemma FieldOfKey(field: string)
    ensures IsSdrIdEnvKey(SdrIdEnvKey(field)) && FieldOf(SdrIdEnvKey(field)) == field
  {
  }

  lemma KeyOfField(key: string)
    requires IsSdrIdEnvKey(key)
    ensures SdrIdEnvKey(FieldOf(key)) == key
  {
  }

  /** A duplicate-free listing of the references with a serial at the fields in `keys`. */
  ghost predicate ListsSerials(refs: seq<SdrReference>, keys: set<string>, env: Env) {
    && (forall i | 0 <= i < |refs| ::
          ReferenceAt(env, refs[i].fieldKey) == Some(refs[i]) && refs[i].serial.Some? && refs[i].fieldKey in keys)
    && (forall f | f in keys ::
          ReferenceAt(env, f).Some? && ReferenceAt(env, f).value.serial.Some? ==> ReferenceAt(env, f).value in refs)
    && (forall i, j | 0 <= i < j < |refs| :: refs[i].fieldKey != refs[j].fieldKey)
  }

  /** A duplicate-free listing of the id-only references whose metadata key is in `keys`. */
  ghost predicate ListsIdOnly(refs: seq<SdrReference>, keys: set<string>, env: Env) {
    && (forall i | 0 <= i < |refs| ::
          && ReferenceAt(env, refs[i].fieldKey) == Some(refs[i]) && refs[i].serial.None?
          && SdrIdEnvKey(refs[i].fieldKey) in keys)
    && (forall f | SdrIdEnvKey(f) in keys ::
          ReferenceAt(env, f).Some? && ReferenceAt(env, f).value.serial.None? ==> ReferenceAt(env, f).value in refs)
    && (forall i, j | 0 <= i < j < |refs| :: refs[i].fieldKey != refs[j].fieldKey)
  }

  predicate HasBoth(env: Env, f: string) {
    ReferenceAt(env, f).Some? && ReferenceAt(env, f).value.serial.Some? && ReferenceAt(env, f).value.deviceId.Some?
  }

  lemma ListsAppend(refs: seq<SdrReference>, r: SdrReference)
    ensures forall i | 0 <= i < |refs| :: (refs + [r])[i] == refs[i]
    ensures forall x :: x in refs + [r] <==> x in refs || x == r
  {
  }

  /** The first loop of `references_from_env`, whatever order the hash map yields its keys in. */
  method SerialReferences(env: Env) returns (refs: seq<SdrReference>, fieldsWithMetadata: set<string>)
    ensures ListsSerials(refs, env.Keys, env)
    ensures forall f :: f in fieldsWithMetadata <==> f in env && HasBoth(env, f)
  {
    hide SerialOf, MetadataId;
    refs, fieldsWithMetadata := [], {};
    var todo := env.Keys;
    while todo != {}
      invariant todo <= env.Keys
      invariant ListsSerials(refs, env.Keys - todo, env)
      invariant forall f :: f in fieldsWithMetadata <==> f in env.Keys - todo && HasBoth(env, f)
    {
      var key :| key in todo;
      todo := todo - {key};
      if IsSdrIdEnvKey(key) || IsBundlePlanningSdrKey(key) {
        continue;
      }
      var serial := SerialOf(key, env[key]);
      if serial.None? {
        continue;
      }
      var deviceId := MetadataId(env, key);
      if deviceId.Some? {
        fieldsWithMetadata := fieldsWithMetadata + {key};
      }
      var reference := SdrReference(None, key, serial, deviceId);
      assert ReferenceAt(env, key) == Some(reference);
      ListsAppend(refs, reference);
      refs := refs + [reference];
    }
    assert env.Keys - todo == env.Keys;
  }

  /** The second loop of `references_from_env`. */
  method IdOnlyReferences(env: Env, fieldsWithMetadata: set<string>) returns (refs: seq<SdrReference>)
    requires forall f :: f in fieldsWithMetadata <==> f in env && HasBoth(env, f)
    ensures ListsIdOnly(refs, env.Keys, env)
  {
    hide SerialOf;
    refs := [];
    var todo := env.Keys;
    while todo != {}
      invariant todo <= env.Keys
      invariant ListsIdOnly(refs, env.Keys - todo, env)
    {
      var key :| key in todo;
      todo := todo - {key};
      if !IsSdrIdEnvKey(key) {
        continue;
      }
      var fieldKey := FieldOf(key);
      KeyOfField(key);
      if IsBundlePlanningSdrKey(fieldKey) || Trim(env[key]) == "" || fieldKey in fieldsWithMetadata {
        continue;
      }
      var reference := SdrReference(None, fieldKey, None, Some(Trim(env[key])));
      assert ReferenceAt(env, fieldKey) == Some(reference);
      ListsAppend(refs, reference);
      refs := refs + [reference];
    }
    assert env.Keys - todo == env.Keys;
  }

  method ReferencesFromEnv(env: Env) returns (refs: seq<SdrReference>)
    ensures Lists(refs, env)
  {
    hide SerialOf, Trim;
    var withSerial, fieldsWithMetadata := SerialReferences(env);
    var idOnly := IdOnlyReferences(env, fieldsWithMetadata);
    refs := withSerial + idOnly;
    forall f | ReferenceAt(env, f).Some?
      ensures ReferenceAt(env, f).value in refs
    {
      assert ReferenceAt(env, f).value in withSerial || ReferenceAt(env, f).value in idOnly;
    }
  }

  // ---- recorded assignments --------------------------------------------------------------------

  function MemberRecords(members: seq<(string, AppRecord)>): (rs: seq<AppRecord>)
    ensures |rs| == |members|
  {
    seq(|members|, i requires 0 <= i < |members| => members[i].1)
  }

  /** The app records that count as assignments: array items, or the values of an object. */
  function Records(apps: AppsValue): seq<AppRecord> {
    match apps
    case AppArray(records) => records
    case AppObject(members) => MemberRecords(members)
    case OtherApps => []
  }

  function EnvOf(record: AppRecord): Env {
    if record.env.Env? then record.env.vars else map[]
  }

  /** Some record with this app id has this reference. */
  ghost predicate IsAssignment(a: SdrReference, records: seq<AppRecord>) {
    exists r | r in records :: IsReferenceOf(a, r)
  }

  ghost predicate IsReferenceOf(a: SdrReference, r: AppRecord) {
    a.appId == r.id && ReferenceAt(EnvOf(r), a.fieldKey) == Some(a.(appId := None))
  }

  /** The list holds exactly the assignments of the records. */
  ghost predicate Assigns(refs: seq<SdrReference>, records: seq<AppRecord>) {
    forall a :: a in refs <==> IsAssignment(a, records)
  }

  lemma AppendRecord(refs: seq<SdrReference>, records: seq<AppRecord>, r: AppRecord, found: seq<SdrReference>,
      named: seq<SdrReference>)
    requires Assigns(refs, records) && Lists(found, EnvOf(r)) && |named| == |found|
    requires forall k | 0 <= k < |found| :: named[k] == found[k].(appId := r.id)
    ensures Assigns(refs + named, records + [r])
  {
    hide ReferenceAt, Lists;
    forall a
      ensures a in named <==> IsReferenceOf(a, r)
    {
      NamedReferences(found, named, r, a);
    }
    assert forall x :: x in records + [r] <==> x in records || x == r;
  }

  lemma NamedReferences(found: seq<SdrReference>, named: seq<SdrReference>, r: AppRecord, a: SdrReference)
    requires Lists(found, EnvOf(r)) && |named| == |found|
    requires forall k | 0 <= k < |found| :: named[k] == found[k].(appId := r.id)
    ensures a in named <==> IsReferenceOf(a, r)
  {
    hide ReferenceAt;
    if a in named {
      var k :| 0 <= k < |named| && named[k] == a;
      FoundIsAnonymous(found, EnvOf(r), k);
    }
    if IsReferenceOf(a, r) {
      ReferenceIsListed(found, EnvOf(r), a.fieldKey);
      var k :| 0 <= k < |found| && found[k] == a.(appId := None);
      assert named[k] == a;
    }
  }

  method AssignmentsFromConfig(apps: AppsValue) returns (refs: seq<SdrReference>)
    ensures Assigns(refs, Records(apps))
  {
    hide Assigns, Lists;
    var records := Records(apps);
    refs := [];
    NothingAssigned();
    assert records[..0] == [];
    for i := 0 to |records|
      invariant Assigns(refs, records[..i])
    {
      var found := ReferencesFromEnv(EnvOf(records[i]));
      var named := seq(|found|, k requires 0 <= k < |found| => found[k].(appId := records[i].id));
      AppendRecord(refs, records[..i], records[i], found, named);
      refs := refs + named;
      assert records[..i] + [records[i]] == records[..i + 1];
    }
    assert records[..|records|] == records;
  }

  lemma NothingAssigned()
    ensures Assigns([], [])
  {
  }

  // ---- connected devices -----------------------------------------------------------------------

  predicate HasSerialKey(d: SdrDevice, key: string) {
    d.serial.Some? && SerialKey(d.serial.value) == key
  }

  /** The connected devices whose serial has a given key, in order. */
  function Matching(devices: seq<SdrDevice>, key: string): seq<SdrDevice> {
    if devices == [] then []
    else
      var last := devices[|devices| - 1];
      Matching(devices[..|devices| - 1], key) + if HasSerialKey(last, key) then [last] else []
  }

  lemma {:induction false} MatchingIsFilter(devices: seq<SdrDevice>, key: string)
    ensures forall d :: d in Matching(devices, key) <==> d in devices && HasSerialKey(d, key)
  {
    if devices != [] {
      MatchingIsFilter(devices[..|devices| - 1], key);
      assert devices == devices[..|devices| - 1] + [devices[|devices| - 1]];
    }
  }

  method CountSerials(devices: seq<SdrDevice>) returns (counts: map<string, nat>)
    ensures forall k :: |Matching(devices, k)| == if k in counts then counts[k] else 0
  {
    counts := map[];
    for i := 0 to |devices|
      invariant forall k :: |Matching(devices[..i], k)| == if k in counts then counts[k] else 0
    {
      assert devices[..i + 1][..i] == devices[..i];
      if devices[i].serial.Some? {
        var key := SerialKey(devices[i].serial.value);
        counts := counts[key := (if key in counts then counts[key] else 0) + 1];
      }
    }
    assert devices[..|devices|] == devices;
  }

  // ---- validation ------------------------------------------------------------------------------

  predicate ReferencesConflict(a: SdrReference, b: SdrReference) {
    if a.deviceId.Some? && b.deviceId.Some? then a.deviceId == b.deviceId
    else a.serial.Some? && b.serial.Some? && SerialKey(a.serial.value) == SerialKey(b.serial.value)
  }

  datatype Refusal = NeedsRadio(app: string) | AmbiguousSerial | SharedByTargets | TakenByRecord

  ghost predicate Conflicting(a: Env, f: string, b: Env, g: string) {
    && ReferenceAt(a, f).Some? && ReferenceAt(b, g).Some?
    && ReferencesConflict(ReferenceAt(a, f).value, ReferenceAt(b, g).value)
  }

  ghost predicate HasReference(env: Env) {
    exists f :: ReferenceAt(env, f).Some?
  }

  ghost predicate RadioMissing(app: AppSpec) {
    app.requiresSdr && !HasReference(app.env)
  }

  /** A target names a serial without an exact id, and more than one connected device carries that serial. */
  ghost predicate Ambiguous(env: Env, f: string, devices: seq<SdrDevice>) {
    && ReferenceAt(env, f).Some? && ReferenceAt(env, f).value.deviceId.None? && ReferenceAt(env, f).value.serial.Some?
    && |Matching(devices, SerialKey(ReferenceAt(env, f).value.serial.value))| > 1
  }

  ghost predicate AnyAmbiguous(targets: seq<AppSpec>, devices: seq<SdrDevice>) {
    exists i: nat, f :: i < |targets| && Ambiguous(targets[i].env, f, devices)
  }

  /** Two different references of the targets conflict, in two targets or in one. */
  ghost predicate AnyTargetPair(targets: seq<AppSpec>) {
    exists i: nat, f, j: nat, g :: i < |targets| && j < |targets| && (i != j || f != g)
      && Conflicting(targets[i].env, f, targets[j].env, g)
  }

  predicate IsTarget(targets: seq<AppSpec>, id: Option<string>) {
    id.Some? && exists t | t in targets :: t.id == id.value
  }

  ghost predicate AnyTaken(records: seq<AppRecord>, targets: seq<AppSpec>) {
    exists i: nat, f, r: nat, g :: i < |targets| && r < |records| && !IsTarget(targets, records[r].id)
      && Conflicting(targets[i].env, f, EnvOf(records[r]), g)
  }

  ghost predicate FirstMissing(targets: seq<AppSpec>, i: nat) {
    i < |targets| && RadioMissing(targets[i]) && forall j: nat | j < i :: !RadioMissing(targets[j])
  }

  /** The validator's verdict, without any order of iteration: the first class of fault wins. */
  ghost predicate Verdict(records: seq<AppRecord>, targets: seq<AppSpec>, devices: seq<SdrDevice>,
      r: Result<(), Refusal>) {
    if exists i: nat :: FirstMissing(targets, i) then
      exists i: nat :: FirstMissing(targets, i) && r == Err(NeedsRadio(targets[i].id))
    else if AnyAmbiguous(targets, devices) then r == Err(AmbiguousSerial)
    else if AnyTargetPair(targets) then r == Err(SharedByTargets)
    else if AnyTaken(records, targets) then r == Err(TakenByRecord)
    else r == Ok(())
  }

  /** The targets' references in one list; `at` gives the target of each, and each (target, field) comes once. */
  ghost predicate ListsTargets(refs: seq<SdrReference>, at: seq<nat>, targets: seq<AppSpec>) {
    && |at| == |refs|
    && (forall i | 0 <= i < |refs| ::
          at[i] < |targets| && ReferenceAt(targets[at[i]].env, refs[i].fieldKey) == Some(refs[i].(appId := None)))
    && (forall t: nat, f: string | t < |targets| && ReferenceAt(targets[t].env, f).Some? ::
          exists i :: 0 <= i < |refs| && at[i] == t && refs[i].fieldKey == f)
    && (forall i, j | 0 <= i < j < |refs| :: at[i] != at[j] || refs[i].fieldKey != refs[j].fieldKey)
  }

  method CollectTargetReferences(targets: seq<AppSpec>)
      returns (missing: Option<string>, refs: seq<SdrReference>, ghost at: seq<nat>)
    ensures missing.None? ==> ListsTargets(refs, at, targets) && forall t | t in targets :: !RadioMissing(t)
    ensures missing.Some? ==> exists i: nat :: FirstMissing(targets, i) && missing.value == targets[i].id
  {
    refs, at := [], [];
    for i := 0 to |targets|
      invariant ListsTargets(refs, at, targets[..i])
      invariant forall j: nat | j < i :: !RadioMissing(targets[j])
    {
      var found := ReferencesFromEnv(targets[i].env);
      if targets[i].requiresSdr && found == [] {
        return Some(targets[i].id), [], [];
      }
      assert found != [] ==> ReferenceAt(targets[i].env, found[0].fieldKey).Some?;
      var named := seq(|found|, k requires 0 <= k < |found| => found[k].(appId := Some(targets[i].id)));
      AppendTarget(refs, at, targets[..i], targets[i], found, named);
      refs, at := refs + named, at + seq(|named|, k => i);
      assert targets[..i] + [targets[i]] == targets[..i + 1];
    }
    assert targets[..|targets|] == targets;
    missing := None;
  }

  lemma AppendTarget(refs: seq<SdrReference>, at: seq<nat>, targets: seq<AppSpec>, t: AppSpec, found: seq<SdrReference>,
      named: seq<SdrReference>)
    requires ListsTargets(refs, at, targets) && Lists(found, t.env) && |named| == |found|
    requires forall k | 0 <= k < |found| :: named[k] == found[k].(appId := Some(t.id))
    ensures ListsTargets(refs + named, at + seq(|named|, k => |targets|), targets + [t])
  {
    hide ReferenceAt;
    var refs', at', targets' := refs + named, at + seq(|named|, k => |targets|), targets + [t];
    AppendedOnce(refs, at, targets, t, found, named);
    forall i | 0 <= i < |refs'|
      ensures at'[i] < |targets'|
        && ReferenceAt(targets'[at'[i]].env, refs'[i].fieldKey) == Some(refs'[i].(appId := None))
    {
      if i >= |refs| {
        FoundIsAnonymous(found, t.env, i - |refs|);
      }
    }
    forall u: nat, f: string | u < |targets'| && ReferenceAt(targets'[u].env, f).Some?
      ensures exists i :: 0 <= i < |refs'| && at'[i] == u && refs'[i].fieldKey == f
    {
      AppendedIsListed(refs, at, targets, t, found, named, u, f);
    }
  }

  lemma AppendedOnce(refs: seq<SdrReference>, at: seq<nat>, targets: seq<AppSpec>, t: AppSpec, found: seq<SdrReference>,
      named: seq<SdrReference>)
    requires ListsTargets(refs, at, targets) && Lists(found, t.env) && |named| == |found|
    requires forall k | 0 <= k < |found| :: named[k] == found[k].(appId := Some(t.id))
    ensures var refs', at' := refs + named, at + seq(|named|, k => |targets|);
      forall i, j | 0 <= i < j < |refs'| :: at'[i] != at'[j] || refs'[i].fieldKey != refs'[j].fieldKey
  {
  }

  lemma AppendedIsListed(refs: seq<SdrReference>, at: seq<nat>, targets: seq<AppSpec>, t: AppSpec,
      found: seq<SdrReference>, named: seq<SdrReference>, u: nat, f: string)
    requires ListsTargets(refs, at, targets) && Lists(found, t.env) && |named| == |found|
    requires forall k | 0 <= k < |found| :: named[k] == found[k].(appId := Some(t.id))
    requires u <= |targets| && ReferenceAt((targets + [t])[u].env, f).Some?
    ensures var refs', at' := refs + named, at + seq(|named|, k => |targets|);
      exists i :: 0 <= i < |refs'| && at'[i] == u && refs'[i].fieldKey == f
  {
    hide ReferenceAt;
    var refs' := refs + named;
    if u < |targets| {
      var i :| 0 <= i < |refs| && at[i] == u && refs[i].fieldKey == f;
      assert refs'[i].fieldKey == f;
    } else {
      ReferenceIsListed(found, t.env, f);
      var k :| 0 <= k < |found| && found[k].fieldKey == f;
      assert refs'[|refs| + k].fieldKey == f;
    }
  }

  lemma FoundIsAnonymous(found: seq<SdrReference>, env: Env, k: nat)
    requires Lists(found, env) && k < |found|
    ensures found[k].appId == None && ReferenceAt(env, found[k].fieldKey) == Some(found[k])
  {
  }

  lemma ReferenceIsListed(found: seq<SdrReference>, env: Env, f: string)
    requires Lists(found, env) && ReferenceAt(env, f).Some?
    ensures exists k :: 0 <= k < |found| && found[k].fieldKey == f && found[k] == ReferenceAt(env, f).value
  {
  }

  /** The serial-count loop of the validator. */
  method FindAmbiguous(refs: seq<SdrReference>, ghost at: seq<nat>, targets: seq<AppSpec>, devices: seq<SdrDevice>)
      returns (found: bool)
    requires ListsTargets(refs, at, targets)
    ensures found <==> AnyAmbiguous(targets, devices)
  {
    hide ReferenceAt, Matching, SerialKey;
    var counts := CountSerials(devices);
    for i := 0 to |refs|
      invariant forall j | 0 <= j < i :: !Ambiguous(targets[at[j]].env, refs[j].fieldKey, devices)
    {
      if refs[i].deviceId.None? && refs[i].serial.Some? {
        var key := SerialKey(refs[i].serial.value);
        if key in counts && counts[key] > 1 {
          assert Ambiguous(targets[at[i]].env, refs[i].fieldKey, devices);
          return true;
        }
      }
    }
    return false;
  }

  /** The pairwise loops over the targets' references. */
  method FindTargetPair(refs: seq<SdrReference>, ghost at: seq<nat>, targets: seq<AppSpec>) returns (found: bool)
    requires ListsTargets(refs, at, targets)
    ensures found <==> AnyTargetPair(targets)
  {
    hide ReferenceAt;
    for i := 0 to |refs|
      invariant forall a, b | 0 <= a < i && a < b < |refs| :: !ReferencesConflict(refs[a], refs[b])
    {
      for j := i + 1 to |refs|
        invariant forall b | i < b < j :: !ReferencesConflict(refs[i], refs[b])
      {
        if ReferencesConflict(refs[i], refs[j]) {
          assert Conflicting(targets[at[i]].env, refs[i].fieldKey, targets[at[j]].env, refs[j].fieldKey);
          return true;
        }
      }
    }
    NoTargetPair(refs, at, targets);
    return false;
  }

  /** The loops over the targets' references and those recorded for other apps. */
  method FindTaken(refs: seq<SdrReference>, ghost at: seq<nat>, targets: seq<AppSpec>, apps: AppsValue)
      returns (found: bool)
    requires ListsTargets(refs, at, targets)
    ensures found <==> AnyTaken(Records(apps), targets)
  {
    hide ReferenceAt;
    var existing := AssignmentsFromConfig(apps);
    for i := 0 to |refs|
      invariant forall a, b | 0 <= a < i && 0 <= b < |existing| ::
        !IsTarget(targets, existing[b].appId) ==> !ReferencesConflict(refs[a], existing[b])
    {
      for j := 0 to |existing|
        invariant forall b | 0 <= b < j ::
          !IsTarget(targets, existing[b].appId) ==> !ReferencesConflict(refs[i], existing[b])
      {
        if !IsTarget(targets, existing[j].appId) && ReferencesConflict(refs[i], existing[j]) {
          OneTaken(refs, at, targets, existing, Records(apps), i, j);
          return true;
        }
      }
    }
    NoneTaken(refs, at, targets, existing, Records(apps));
    return false;
  }

  method ValidateAppSdrAssignments(apps: AppsValue, targets: seq<AppSpec>, devices: seq<SdrDevice>)
      returns (r: Result<(), Refusal>)
    ensures Verdict(Records(apps), targets, devices, r)
  {
    hide AnyAmbiguous, AnyTargetPair, AnyTaken;
    var missing, refs, at := CollectTargetReferences(targets);
    if missing.Some? {
      return Err(NeedsRadio(missing.value));
    }
    var ambiguous := FindAmbiguous(refs, at, targets, devices);
    if ambiguous {
      return Err(AmbiguousSerial);
    }
    var pair := FindTargetPair(refs, at, targets);
    if pair {
      return Err(SharedByTargets);
    }
    var taken := FindTaken(refs, at, targets, apps);
    return if taken then Err(TakenByRecord) else Ok(());
  }

  lemma NoTargetPair(refs: seq<SdrReference>, at: seq<nat>, targets: seq<AppSpec>)
    requires ListsTargets(refs, at, targets)
    requires forall a, b | 0 <= a < b < |refs| :: !ReferencesConflict(refs[a], refs[b])
    ensures !AnyTargetPair(targets)
  {
  }

  lemma OneTaken(refs: seq<SdrReference>, at: seq<nat>, targets: seq<AppSpec>, existing: seq<SdrReference>,
      records: seq<AppRecord>, i: nat, j: nat)
    requires ListsTargets(refs, at, targets) && Assigns(existing, records) && i < |refs| && j < |existing|
    requires !IsTarget(targets, existing[j].appId) && ReferencesConflict(refs[i], existing[j])
    ensures AnyTaken(records, targets)
  {
    hide ReferenceAt, IsTarget;
    assert existing[j] in existing;
    var r :| 0 <= r < |records| && IsReferenceOf(existing[j], records[r]);
    assert Conflicting(targets[at[i]].env, refs[i].fieldKey, EnvOf(records[r]), existing[j].fieldKey);
  }

  lemma NoneTaken(refs: seq<SdrReference>, at: seq<nat>, targets: seq<AppSpec>, existing: seq<SdrReference>,
      records: seq<AppRecord>)
    requires ListsTargets(refs, at, targets) && Assigns(existing, records)
    requires forall a, b | 0 <= a < |refs| && 0 <= b < |existing| ::
      !IsTarget(targets, existing[b].appId) ==> !ReferencesConflict(refs[a], existing[b])
    ensures !AnyTaken(records, targets)
  {
    hide ReferenceAt, IsTarget, Assigns;
    forall i: nat, f, r: nat, g | i < |targets| && r < |records| && !IsTarget(targets, records[r].id)
      ensures !Conflicting(targets[i].env, f, EnvOf(records[r]), g)
    {
      if ReferenceAt(targets[i].env, f).Some? && ReferenceAt(EnvOf(records[r]), g).Some? {
        var a :| 0 <= a < |refs| && at[a] == i && refs[a].fieldKey == f;
        var b := Assigned(existing, records, r, g);
        assert !ReferencesConflict(refs[a], existing[b]);
      }
    }
  }

  lemma Assigned(existing: seq<SdrReference>, records: seq<AppRecord>, r: nat, g: string) returns (b: nat)
    requires Assigns(existing, records) && r < |records| && ReferenceAt(EnvOf(records[r]), g).Some?
    ensures b < |existing| && existing[b] == ReferenceAt(EnvOf(records[r]), g).value.(appId := records[r].id)
  {
    hide SerialAt, MetadataId;
    var e := ReferenceAt(EnvOf(records[r]), g).value.(appId := records[r].id);
    assert records[r] in records && IsReferenceOf(e, records[r]);
    assert e in existing;
    b :| 0 <= b < |existing| && existing[b] == e;
  }
}
