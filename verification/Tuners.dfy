/** When two radio assignments can reach the same physical tuner, and what the conflict test sees of that. */
module Tuners {
  import opened Values
  import opened Text
  import opened Sdr
  import opened SdrEnrich

  /** Some connected tuner can be used through both references. */
  ghost predicate SharesTuner(a: SdrReference, b: SdrReference, devices: seq<SdrDevice>) {
    exists d :: d in devices && CanUse(a, d) && CanUse(b, d)
  }

  /** A reference without an id reaches no connected tuner. */
  ghost predicate Settled(r: SdrReference, devices: seq<SdrDevice>) {
    r.deviceId.None? ==> forall d | d in devices :: !CanUse(r, d)
  }

  ghost predicate Names(r: SdrReference, d: SdrDevice) {
    r.deviceId == Some(d.id) && r.serial.Some? && HasSerialKey(d, SerialKey(r.serial.value))
  }

  /** An exact id, if there is one, names a connected device of the stated serial. */
  ghost predicate Coherent(r: SdrReference, devices: seq<SdrDevice>)
  {
    r.deviceId.Some? ==> exists d :: d in devices && Names(r, d)
  }

  predicate SameSerial(a: SdrReference, b: SdrReference) {
    a.serial.Some? && b.serial.Some? && SerialKey(a.serial.value) == SerialKey(b.serial.value)
  }

  /** `a` names a tuner by id, `b` reaches the same tuner by serial, and `a` does not state that serial. */
  ghost predicate HiddenOverlap(a: SdrReference, b: SdrReference, devices: seq<SdrDevice>) {
    a.deviceId.Some? && b.deviceId.None? && !SameSerial(a, b)
    && exists d :: d in devices && d.id == a.deviceId.value && CanUse(b, d)
  }

  /**
   What the conflict test misses: two references that pass it share a tuner exactly when one names the tuner
   by an id without its serial and the other reaches it by serial alone.
   */
  lemma UndetectedSharingExactly(a: SdrReference, b: SdrReference, devices: seq<SdrDevice>)
    requires !ReferencesConflict(a, b)
    ensures SharesTuner(a, b, devices) <==> HiddenOverlap(a, b, devices) || HiddenOverlap(b, a, devices)
  {
  }

  /** Between coherent references, sharing a tuner is always detected. */
  lemma CoherentSharingConflicts(a: SdrReference, b: SdrReference, devices: seq<SdrDevice>)
    requires DeviceTable(devices) && Coherent(a, devices) && Coherent(b, devices) && SharesTuner(a, b, devices)
    ensures ReferencesConflict(a, b)
  {
  }

  /** Between settled references, sharing a tuner is always detected. */
  lemma SettledSharingConflicts(a: SdrReference, b: SdrReference, devices: seq<SdrDevice>)
    requires Settled(a, devices) && Settled(b, devices) && SharesTuner(a, b, devices)
    ensures ReferencesConflict(a, b)
  {
  }

  lemma SettledHidesNothing(a: SdrReference, b: SdrReference, devices: seq<SdrDevice>)
    requires Settled(b, devices)
    ensures !HiddenOverlap(a, b, devices)
  {
  }

  lemma CoherentHidesNothing(a: SdrReference, b: SdrReference, devices: seq<SdrDevice>)
    requires DeviceTable(devices) && Coherent(a, devices)
    ensures !HiddenOverlap(a, b, devices)
  {
    hide SerialKey;
    if HiddenOverlap(a, b, devices) {
      var d :| d in devices && d.id == a.deviceId.value && CanUse(b, d);
      var e: SdrDevice :| e in devices && Names(a, e);
      SameIdSameDevice(devices, d, e);
    }
  }

  lemma SameIdSameDevice(devices: seq<SdrDevice>, d: SdrDevice, e: SdrDevice)
    requires DeviceTable(devices) && d in devices && e in devices && d.id == e.id
    ensures d == e
  {
  }

  ghost predicate AllCoherent(env: Env, devices: seq<SdrDevice>) {
    forall f :: ReferenceAt(env, f).Some? ==> Coherent(ReferenceAt(env, f).value, devices)
  }

  ghost predicate AllSettled(env: Env, devices: seq<SdrDevice>) {
    forall f :: ReferenceAt(env, f).Some? ==> Settled(ReferenceAt(env, f).value, devices)
  }

  /** A completed id names the device whose serial the reference states. */
  lemma FilledIsNamed(env: Env, devices: seq<SdrDevice>, f: string) returns (d: SdrDevice)
    requires DeviceTable(devices) && Fill(env, devices, f).Some?
    ensures ReferenceAt(env, f).Some? && ReferenceAt(Enriched(env, devices), f).Some?
    ensures d in devices && Names(ReferenceAt(Enriched(env, devices), f).value, d)
    ensures ReferenceAt(Enriched(env, devices), f).value.deviceId == Some(d.id)
  {
    hide SerialOf, MetadataId, Trim, SerialKey, Matching, Enriched;
    EnrichmentKeepsReferences(env, devices, f);
    d := Matching(devices, SerialKey(ReferenceAt(env, f).value.serial.value))[0];
    UniqueMatch(devices, SerialKey(ReferenceAt(env, f).value.serial.value));
  }

  lemma EnrichmentKeepsCoherence(env: Env, devices: seq<SdrDevice>)
    requires DeviceTable(devices) && AllCoherent(env, devices)
    ensures AllCoherent(Enriched(env, devices), devices)
  {
    hide ReferenceAt, Fill, Enriched, Coherent;
    forall f | ReferenceAt(Enriched(env, devices), f).Some?
      ensures Coherent(ReferenceAt(Enriched(env, devices), f).value, devices)
    {
      CoherentAfterEnrichment(env, devices, f);
    }
  }

  lemma CoherentAfterEnrichment(env: Env, devices: seq<SdrDevice>, f: string)
    requires DeviceTable(devices) && AllCoherent(env, devices)
    ensures ReferenceAt(Enriched(env, devices), f).Some? ==>
      Coherent(ReferenceAt(Enriched(env, devices), f).value, devices)
  {
    hide ReferenceAt, Fill, Enriched, Trim, SerialKey;
    EnrichmentKeepsReferences(env, devices, f);
    if ReferenceAt(env, f).Some? {
      var before := ReferenceAt(env, f).value;
      if before.deviceId.Some? {
        var d :| d in devices && Names(before, d);
        assert Names(ReferenceAt(Enriched(env, devices), f).value, d);
      } else if Fill(env, devices, f).Some? {
        var d := FilledIsNamed(env, devices, f);
      }
    }
  }

  /** Completing both sides creates no conflict between coherent references. */
  lemma EnrichmentCreatesNoConflict(a: Env, f: string, b: Env, g: string, devices: seq<SdrDevice>)
    requires DeviceTable(devices) && AllCoherent(a, devices) && AllCoherent(b, devices)
    ensures Conflicting(Enriched(a, devices), f, Enriched(b, devices), g) ==> Conflicting(a, f, b, g)
  {
    hide ReferenceAt, Fill, Enriched, Trim, SerialKey;
    EnrichmentKeepsReferences(a, devices, f);
    EnrichmentKeepsReferences(b, devices, g);
    if Conflicting(Enriched(a, devices), f, Enriched(b, devices), g) {
      var x, y := ReferenceAt(Enriched(a, devices), f).value, ReferenceAt(Enriched(b, devices), g).value;
      CoherentAfterEnrichment(a, devices, f);
      CoherentAfterEnrichment(b, devices, g);
      if x.deviceId.Some? && y.deviceId.Some? {
        var d :| d in devices && Names(x, d);
        var e :| e in devices && Names(y, e);
        assert d == e;
      }
    }
  }

  /** After completion, a reference is settled exactly when the ambiguity test lets it through. */
  lemma UnambiguousIsSettled(env: Env, devices: seq<SdrDevice>, f: string)
    requires DeviceTable(devices)
    ensures ReferenceAt(Enriched(env, devices), f).Some? ==>
      (Settled(ReferenceAt(Enriched(env, devices), f).value, devices) <==>
        !Ambiguous(Enriched(env, devices), f, devices))
  {
    hide ReferenceAt, Enriched, Matching, SerialKey, CanUse, Fill, DeviceTable;
    if ReferenceAt(Enriched(env, devices), f).Some? {
      if Ambiguous(Enriched(env, devices), f, devices) {
        AmbiguousIsUnsettled(Enriched(env, devices), devices, f);
      } else {
        forall d | d in devices && ReferenceAt(Enriched(env, devices), f).value.deviceId.None?
          ensures !CanUse(ReferenceAt(Enriched(env, devices), f).value, d)
        {
          PassedReachesNothing(env, devices, f, d);
        }
      }
    }
  }

  lemma PassedReachesNothing(env: Env, devices: seq<SdrDevice>, f: string, d: SdrDevice)
    requires DeviceTable(devices) && d in devices
    ensures var after := Enriched(env, devices);
      ReferenceAt(after, f).Some? && !Ambiguous(after, f, devices) && ReferenceAt(after, f).value.deviceId.None? ==>
        !CanUse(ReferenceAt(after, f).value, d)
  {
    hide SerialOf, MetadataId, Trim, SerialKey, Matching, Enriched;
    EnrichmentKeepsReferences(env, devices, f);
    if Fill(env, devices, f).Some? {
      var e := FilledIsNamed(env, devices, f);
    } else if ReferenceAt(env, f).Some? && ReferenceAt(env, f).value.serial.Some? {
      MatchingIsFilter(devices, SerialKey(ReferenceAt(env, f).value.serial.value));
    }
  }

  /** An ambiguous reference is not settled: more than one connected tuner carries its serial. */
  lemma AmbiguousIsUnsettled(env: Env, devices: seq<SdrDevice>, f: string)
    requires Ambiguous(env, f, devices)
    ensures !Settled(ReferenceAt(env, f).value, devices)
  {
    hide ReferenceAt, SerialKey, Matching;
    var r := ReferenceAt(env, f).value;
    var key := SerialKey(r.serial.value);
    MatchingIsFilter(devices, key);
    var d := Matching(devices, key)[0];
    assert d in Matching(devices, key);
    assert CanUse(r, d);
  }
}
