/**
 Completion of an app's environment with exact device ids (`enrich_app_sdr_metadata`), and the relation
 between a reference and the tuners it can use, which completion leaves unchanged.
 */
module SdrEnrich {
  import opened Values
  import opened Text
  import opened Sdr

  /** A catalog app while a request is prepared; only its environment changes. */
  class CatalogApp {
    const id: string
    const requiresSdr: bool
    var env: Env

    constructor (spec: AppSpec)
      ensures Spec() == spec
    {
      id, requiresSdr, env := spec.id, spec.requiresSdr, spec.env;
    }

    function Spec(): AppSpec
      reads this
    {
      AppSpec(id, requiresSdr, env)
    }
  }

  /** The id that completion records for a field: that of the only connected device with the field's serial. */
  function Fill(env: Env, devices: seq<SdrDevice>, field: string): Option<string> {
    match ReferenceAt(env, field)
    case Some(SdrReference(_, _, Some(serial), None)) =>
      var matches := Matching(devices, SerialKey(serial));
      if |matches| == 1 then Some(matches[0].id) else None
    case _ => None
  }

  predicate IsFilled(env: Env, devices: seq<SdrDevice>, key: string) {
    IsSdrIdEnvKey(key) && Fill(env, devices, FieldOf(key)).Some?
  }

  /** The completed environment: the insertions of the loop, in no particular order. */
  function Enriched(env: Env, devices: seq<SdrDevice>): Env {
    var keys := env.Keys + set f | f in env && Fill(env, devices, f).Some? :: SdrIdEnvKey(f);
    map k | k in keys :: if IsFilled(env, devices, k) then Fill(env, devices, FieldOf(k)).value else env[k]
  }

  lemma FilledFieldIsPresent(env: Env, devices: seq<SdrDevice>, field: string)
    requires Fill(env, devices, field).Some?
    ensures field in env && !IsSdrIdEnvKey(field)
  {
  }

  lemma EnrichedLookup(env: Env, devices: seq<SdrDevice>)
    ensures forall k :: k in Enriched(env, devices) <==> k in env || IsFilled(env, devices, k)
    ensures forall k | k in Enriched(env, devices) ::
      Enriched(env, devices)[k] == if IsFilled(env, devices, k) then Fill(env, devices, FieldOf(k)).value else env[k]
  {
    hide Fill;
    forall k | IsFilled(env, devices, k)
      ensures k in Enriched(env, devices)
    {
      FilledFieldIsPresent(env, devices, FieldOf(k));
      KeyOfField(k);
    }
    forall f | f in env && Fill(env, devices, f).Some?
      ensures IsFilled(env, devices, SdrIdEnvKey(f))
    {
      FieldOfKey(f);
    }
  }

  /** How an inserted id is read back. */
  function ReadBack(id: Option<string>): Option<string> {
    if id.Some? && Trim(id.value) != "" then Some(Trim(id.value)) else None
  }

  /** Completion keeps every reference's field and serial, never replaces an id, and adds only ids it looked up. */
  lemma EnrichmentKeepsReferences(env: Env, devices: seq<SdrDevice>, f: string)
    ensures ReferenceAt(Enriched(env, devices), f).Some? <==> ReferenceAt(env, f).Some?
    ensures ReferenceAt(env, f).Some? ==>
      var before, after := ReferenceAt(env, f).value, ReferenceAt(Enriched(env, devices), f).value;
      && after.fieldKey == before.fieldKey && after.serial == before.serial
      && (before.deviceId.Some? ==> after.deviceId == before.deviceId)
      && (before.deviceId.None? ==> after.deviceId == ReadBack(Fill(env, devices, f)))
  {
    hide SerialOf, Trim, Matching, SerialKey;
    EnrichedLookup(env, devices);
    FieldOfKey(f);
    assert SerialAt(Enriched(env, devices), f) == SerialAt(env, f);
    assert IsFilled(env, devices, SdrIdEnvKey(f)) <==> Fill(env, devices, f).Some?;
  }

  /** A second completion changes nothing. */
  lemma EnrichmentIsIdempotent(env: Env, devices: seq<SdrDevice>)
    ensures Enriched(Enriched(env, devices), devices) == Enriched(env, devices)
  {
    hide SerialOf, Trim, Matching, SerialKey;
    var once := Enriched(env, devices);
    EnrichedLookup(env, devices);
    EnrichedLookup(once, devices);
    forall k | IsFilled(once, devices, k)
      ensures k in once && once[k] == Fill(once, devices, FieldOf(k)).value
    {
      EnrichmentKeepsReferences(env, devices, FieldOf(k));
      KeyOfField(k);
    }
  }

  /** The `by_serial` index. */
  method IndexBySerial(devices: seq<SdrDevice>) returns (bySerial: map<string, seq<SdrDevice>>)
    ensures forall k :: Matching(devices, k) == if k in bySerial then bySerial[k] else []
  {
    bySerial := map[];
    for i := 0 to |devices|
      invariant forall k :: Matching(devices[..i], k) == if k in bySerial then bySerial[k] else []
    {
      assert devices[..i + 1][..i] == devices[..i];
      if devices[i].serial.Some? {
        var key := SerialKey(devices[i].serial.value);
        bySerial := bySerial[key := (if key in bySerial then bySerial[key] else []) + [devices[i]]];
      }
    }
    assert devices[..|devices|] == devices;
  }

  /** What has been inserted once the references in `done` are dealt with. */
  ghost predicate PartlyEnriched(now: Env, env: Env, devices: seq<SdrDevice>, done: set<string>) {
    && (forall k :: k in now <==> k in env || (IsFilled(env, devices, k) && FieldOf(k) in done))
    && (forall k | k in now ::
          now[k] == if IsFilled(env, devices, k) && FieldOf(k) in done then Fill(env, devices, FieldOf(k)).value
            else env[k])
  }

  lemma PartlyEnrichedStep(now: Env, env: Env, devices: seq<SdrDevice>, done: set<string>, f: string, next: Env)
    requires PartlyEnriched(now, env, devices, done)
    requires next == match Fill(env, devices, f) case Some(id) => now[SdrIdEnvKey(f) := id] case None => now
    ensures PartlyEnriched(next, env, devices, done + {f})
  {
    hide Fill;
    FieldOfKey(f);
    forall k | IsSdrIdEnvKey(k) && FieldOf(k) == f
      ensures k == SdrIdEnvKey(f)
    {
      KeyOfField(k);
    }
  }

  /** The loop body for one reference: insert the looked-up id unless the key already holds it. */
  method EnrichField(app: CatalogApp, reference: SdrReference, bySerial: map<string, seq<SdrDevice>>,
                     ghost devices: seq<SdrDevice>, ghost env: Env, ghost done: set<string>)
    returns (changed: bool)
    requires forall k :: Matching(devices, k) == if k in bySerial then bySerial[k] else []
    requires ReferenceAt(env, reference.fieldKey) == Some(reference)
    requires PartlyEnriched(app.env, env, devices, done)
    modifies app
    ensures PartlyEnriched(app.env, env, devices, done + {reference.fieldKey})
    ensures changed <==> app.env != old(app.env)
  {
    hide Fill, PartlyEnriched, ReferenceAt, SerialKey, Matching, SdrIdEnvKey;
    MatchingOne(bySerial, devices, env, reference);
    changed := false;
    ghost var now := app.env;
    if reference.deviceId.None? && reference.serial.Some? {
      var key := SerialKey(reference.serial.value);
      if key in bySerial && |bySerial[key]| == 1 {
        var idKey := SdrIdEnvKey(reference.fieldKey);
        var deviceId := bySerial[key][0].id;
        if idKey !in app.env || app.env[idKey] != deviceId {
          app.env := app.env[idKey := deviceId];
          changed := true;
        }
        assert app.env == now[idKey := deviceId];
      }
    }
    PartlyEnrichedStep(now, env, devices, done, reference.fieldKey, app.env);
  }

  method EnrichAppSdrMetadata(app: CatalogApp, devices: seq<SdrDevice>) returns (changed: bool)
    modifies app
    ensures app.env == Enriched(old(app.env), devices)
    ensures changed <==> app.env != old(app.env)
  {
    hide Fill, ReferenceAt, IsFilled;
    var bySerial := IndexBySerial(devices);
    ghost var env := app.env;
    changed := false;
    var refs := ReferencesFromEnv(app.env);
    ghost var done: set<string> := {};
    for i := 0 to |refs|
      invariant PartlyEnriched(app.env, env, devices, done)
      invariant done == set j | 0 <= j < i :: refs[j].fieldKey
      invariant changed <==> app.env != env
    {
      ghost var now := app.env;
      var inserted := EnrichField(app, refs[i], bySerial, devices, env, done);
      ChangeStays(now, app.env, env, devices, done, done + {refs[i].fieldKey});
      done := done + {refs[i].fieldKey};
      if inserted {
        changed := true;
      }
    }
    AllDone(refs, env, devices, done);
    FullyEnriched(app.env, env, devices, done);
  }

  lemma AllDone(refs: seq<SdrReference>, env: Env, devices: seq<SdrDevice>, done: set<string>)
    requires Lists(refs, env) && done == set j | 0 <= j < |refs| :: refs[j].fieldKey
    ensures forall f | Fill(env, devices, f).Some? :: f in done
  {
  }

  lemma FullyEnriched(now: Env, env: Env, devices: seq<SdrDevice>, done: set<string>)
    requires PartlyEnriched(now, env, devices, done) && forall f | Fill(env, devices, f).Some? :: f in done
    ensures now == Enriched(env, devices)
  {
    hide Fill;
    EnrichedLookup(env, devices);
  }

  /** An insertion that changed the environment is never undone. */
  lemma ChangeStays(now: Env, next: Env, env: Env, devices: seq<SdrDevice>, done: set<string>, more: set<string>)
    requires PartlyEnriched(now, env, devices, done) && PartlyEnriched(next, env, devices, more) && done <= more
    ensures next == env ==> now == env
  {
  }

  /** What the loop body reads off the index is exactly `Fill`. */
  lemma MatchingOne(bySerial: map<string, seq<SdrDevice>>, devices: seq<SdrDevice>, env: Env, r: SdrReference)
    requires forall k :: Matching(devices, k) == if k in bySerial then bySerial[k] else []
    requires ReferenceAt(env, r.fieldKey) == Some(r)
    ensures Fill(env, devices, r.fieldKey) ==
      if r.deviceId.None? && r.serial.Some? && SerialKey(r.serial.value) in bySerial
        && |bySerial[SerialKey(r.serial.value)]| == 1
      then Some(bySerial[SerialKey(r.serial.value)][0].id) else None
  {
  }


  // ---- the tuners a reference can use ----------------------------------------------------------

  /** A reference selects a tuner by its exact id when it has one, and by serial otherwise. */
  predicate CanUse(r: SdrReference, d: SdrDevice) {
    if r.deviceId.Some? then r.deviceId.value == d.id
    else r.serial.Some? && HasSerialKey(d, SerialKey(r.serial.value))
  }

  /** Connected devices have distinct ids, and no id is blank or padded (what `DeviceId` proves of printed ids). */
  predicate DeviceTable(devices: seq<SdrDevice>) {
    && (forall i, j | 0 <= i < j < |devices| :: devices[i].id != devices[j].id)
    && (forall d | d in devices :: d.id != "" && Trim(d.id) == d.id)
  }

  /** With exactly one connected device of a serial, the match is that device. */
  lemma UniqueMatch(devices: seq<SdrDevice>, key: string)
    requires |Matching(devices, key)| == 1
    ensures var d := Matching(devices, key)[0];
      d in devices && HasSerialKey(d, key) && forall e | e in devices && HasSerialKey(e, key) :: e == d
  {
    MatchingIsFilter(devices, key);
    assert Matching(devices, key) == [Matching(devices, key)[0]];
  }

  /** The only device of a serial is a unique match. */
  lemma {:induction false} OnlyMatch(devices: seq<SdrDevice>, key: string, d: SdrDevice)
    requires DeviceTable(devices) && d in devices && HasSerialKey(d, key)
    requires forall e | e in devices && HasSerialKey(e, key) :: e == d
    ensures |Matching(devices, key)| == 1
  {
    hide Trim, HasSerialKey;
    var rest, last := devices[..|devices| - 1], devices[|devices| - 1];
    assert devices == rest + [last];
    assert forall e | e in rest :: e in devices && e.id != last.id;
    MatchingIsFilter(rest, key);
    if last != d {
      OnlyMatch(rest, key, d);
    }
    var found := Matching(rest, key);
    assert found == [] || found[0] in found;
  }

  /** Completion never changes which tuners a reference can use. */
  lemma EnrichmentKeepsTuners(env: Env, devices: seq<SdrDevice>, f: string, d: SdrDevice)
    requires DeviceTable(devices) && d in devices && ReferenceAt(env, f).Some?
    ensures ReferenceAt(Enriched(env, devices), f).Some?
    ensures CanUse(ReferenceAt(Enriched(env, devices), f).value, d) <==> CanUse(ReferenceAt(env, f).value, d)
  {
    hide SerialOf, MetadataId, Trim, SerialKey, Matching, Enriched;
    EnrichmentKeepsReferences(env, devices, f);
    if Fill(env, devices, f).Some? {
      UniqueMatch(devices, SerialKey(ReferenceAt(env, f).value.serial.value));
    }
  }
}
