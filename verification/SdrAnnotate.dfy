/** The device list shown to the user (`annotate_sdr_devices`): hash indexes against the plain relation. */
module SdrAnnotate {
  import opened Values
  import opened Text
  import opened Sdr
  import opened SdrEnrich
  import opened Tuners
  import opened AppLifecycle

  // ---- sorted user lists -----------------------------------------------------------------------

  predicate Before(a: string, b: string) {
    b != "" && (a == "" || a[0] < b[0] || (a[0] == b[0] && Before(a[1..], b[1..])))
  }

  lemma {:induction false} BeforeIsTransitive(a: string, b: string, c: string)
    requires Before(a, b) && Before(b, c)
    ensures Before(a, c)
  {
    if a != "" && a[0] == b[0] && b[0] == c[0] {
      BeforeIsTransitive(a[1..], b[1..], c[1..]);
    }
  }

  lemma {:induction false} BeforeIsTotal(a: string, b: string)
    ensures a == b || Before(a, b) || Before(b, a)
    ensures !Before(a, a)
  {
    if a != "" && b != "" && a[0] == b[0] {
      BeforeIsTotal(a[1..], b[1..]);
      assert a == [a[0]] + a[1..] && b == [b[0]] + b[1..];
    } else if a != "" {
      BeforeIsTotal(a[1..], a[1..]);
    }
  }

  predicate Ascending(users: seq<string>) {
    forall i, j | 0 <= i < j < |users| :: Before(users[i], users[j])
  }

  function Insert(users: seq<string>, user: string): seq<string> {
    if users == [] then [user]
    else if user == users[0] then users
    else if Before(user, users[0]) then [user] + users
    else [users[0]] + Insert(users[1..], user)
  }

  lemma {:induction false} InsertKeepsAscending(users: seq<string>, user: string)
    requires Ascending(users)
    ensures Ascending(Insert(users, user))
    ensures forall u :: u in Insert(users, user) <==> u in users || u == user
  {
    if users != [] {
      BeforeIsTotal(user, users[0]);
      if user == users[0] {
      } else if Before(user, users[0]) {
        forall j | 0 < j < |users|
          ensures Before(user, users[j])
        {
          BeforeIsTransitive(user, users[0], users[j]);
        }
      } else {
        var rest := Insert(users[1..], user);
        InsertKeepsAscending(users[1..], user);
        forall j | 0 <= j < |rest|
          ensures Before(users[0], rest[j])
        {
          assert rest[j] in rest;
        }
      }
    }
  }

  /** `sort` and `dedup`. */
  method SortAndDedup(users: seq<string>) returns (sorted: seq<string>)
    ensures Ascending(sorted) && forall u :: u in sorted <==> u in users
  {
    sorted := [];
    for i := 0 to |users|
      invariant Ascending(sorted) && forall u :: u in sorted <==> u in users[..i]
    {
      InsertKeepsAscending(sorted, users[i]);
      sorted := Insert(sorted, users[i]);
    }
    assert users[..|users|] == users;
  }

  function Join(users: seq<string>): string {
    if users == [] then "" else if |users| == 1 then users[0] else users[0] + ", " + Join(users[1..])
  }

  // ---- the relation ----------------------------------------------------------------------------

  function NameOf(id: Option<string>): string {
    if id.Some? then id.value else "unknown"
  }

  /** A reference by which an app uses a device; a repeated device id gives its exact users to the first device only. */
  predicate UsesBy(r: SdrReference, d: SdrDevice, firstWithId: bool) {
    CanUse(r, d) && (r.deviceId.Some? ==> firstWithId)
  }

  /** Some record under this name has such a reference. */
  ghost predicate Uses(records: seq<AppRecord>, name: string, d: SdrDevice, firstWithId: bool) {
    exists i: nat, f :: i < |records| && NameOf(records[i].id) == name
      && ReferenceAt(EnvOf(records[i]), f).Some? && UsesBy(ReferenceAt(EnvOf(records[i]), f).value, d, firstWithId)
  }

  /** The sorted names of exactly the apps that use a device. */
  ghost predicate UsersOf(users: seq<string>, records: seq<AppRecord>, d: SdrDevice, firstWithId: bool) {
    Ascending(users) && forall n :: n in users <==> Uses(records, n, d, firstWithId)
  }

  function WithUsers(d: SdrDevice, users: seq<string>, duplicate: bool): SdrDevice {
    if users != [] then
      d.(assignedTo := Some(Join(users)),
         status := if |users| > 1 then "conflict" else if duplicate then "ambiguous" else "assigned")
    else if duplicate then d.(assignedTo := None, status := "ambiguous")
    else d
  }

  predicate Duplicated(devices: seq<SdrDevice>, d: SdrDevice) {
    d.serial.Some? && |Matching(devices, SerialKey(d.serial.value))| > 1
  }

  predicate FirstWithId(devices: seq<SdrDevice>, i: nat)
    requires i < |devices|
  {
    forall j | 0 <= j < i :: devices[j].id != devices[i].id
  }

  // ---- the algorithm ---------------------------------------------------------------------------

  type Index = map<string, seq<string>>

  predicate IndexHas(index: Index, key: string, name: string) {
    key in index && name in index[key]
  }

  function Push(index: Index, key: string, name: string): Index {
    index[key := (if key in index then index[key] else []) + [name]]
  }

  predicate IsExactUser(r: SdrReference, id: string, name: string) {
    NameOf(r.appId) == name && r.deviceId == Some(id)
  }

  predicate IsSerialUser(r: SdrReference, key: string, name: string) {
    NameOf(r.appId) == name && r.deviceId.None? && r.serial.Some? && SerialKey(r.serial.value) == key
  }

  ghost predicate HasExactUser(refs: seq<SdrReference>, id: string, name: string) {
    exists r | r in refs :: IsExactUser(r, id, name)
  }

  ghost predicate HasSerialUser(refs: seq<SdrReference>, key: string, name: string) {
    exists r | r in refs :: IsSerialUser(r, key, name)
  }

  ghost predicate IndexesExact(exact: Index, refs: seq<SdrReference>) {
    forall id, n :: IndexHas(exact, id, n) <==> HasExactUser(refs, id, n)
  }

  ghost predicate IndexesSerial(serial: Index, refs: seq<SdrReference>) {
    forall key, n :: IndexHas(serial, key, n) <==> HasSerialUser(refs, key, n)
  }

  lemma IndexStep(exact: Index, serial: Index, refs: seq<SdrReference>, r: SdrReference)
    requires IndexesExact(exact, refs) && IndexesSerial(serial, refs)
    ensures IndexesExact(if r.deviceId.Some? then Push(exact, r.deviceId.value, NameOf(r.appId)) else exact, refs + [r])
    ensures IndexesSerial(if r.deviceId.None? && r.serial.Some?
      then Push(serial, SerialKey(r.serial.value), NameOf(r.appId)) else serial,
                          refs + [r])
  {
    hide SerialKey;
    assert r in refs + [r] && forall x :: x in refs + [r] <==> x in refs || x == r;
    forall id, n
      ensures HasExactUser(refs + [r], id, n) <==> IsExactUser(r, id, n) || HasExactUser(refs, id, n)
    {
    }
    forall key, n
      ensures HasSerialUser(refs + [r], key, n) <==> IsSerialUser(r, key, n) || HasSerialUser(refs, key, n)
    {
    }
  }

  lemma EmptyIndexes()
    ensures IndexesExact(map[], []) && IndexesSerial(map[], [])
  {
  }

  /** The `exact` and `serial` hash maps. */
  method BuildIndexes(refs: seq<SdrReference>) returns (exact: Index, serial: Index)
    ensures IndexesExact(exact, refs) && IndexesSerial(serial, refs)
  {
    hide SerialKey, IndexesExact, IndexesSerial;
    exact, serial := map[], map[];
    assert IndexesExact(exact, refs[..0]) && IndexesSerial(serial, refs[..0]) by {
      EmptyIndexes();
      assert refs[..0] == [];
    }
    for i := 0 to |refs|
      invariant IndexesExact(exact, refs[..i]) && IndexesSerial(serial, refs[..i])
    {
      assert refs[..i + 1] == refs[..i] + [refs[i]];
      IndexStep(exact, serial, refs[..i], refs[i]);
      if refs[i].deviceId.Some? {
        exact := Push(exact, refs[i].deviceId.value, NameOf(refs[i].appId));
      } else if refs[i].serial.Some? {
        serial := Push(serial, SerialKey(refs[i].serial.value), NameOf(refs[i].appId));
      }
    }
    assert refs[..|refs|] == refs;
  }

  /** The listed assignments use a device exactly as the records do. */
  lemma AssignedUses(refs: seq<SdrReference>, records: seq<AppRecord>, n: string, d: SdrDevice, first: bool)
    requires Assigns(refs, records)
    ensures Uses(records, n, d, first) <==> exists a | a in refs :: NameOf(a.appId) == n && UsesBy(a, d, first)
  {
    hide ReferenceAt, SerialKey, CanUse;
    forall a | a in refs && NameOf(a.appId) == n && UsesBy(a, d, first)
      ensures Uses(records, n, d, first)
    {
      var i :| 0 <= i < |records| && IsReferenceOf(a, records[i]);
      SameTuners(a, a.(appId := None), d, first);
      assert UsesBy(ReferenceAt(EnvOf(records[i]), a.fieldKey).value, d, first);
    }
    if Uses(records, n, d, first) {
      var i: nat, f :| i < |records| && NameOf(records[i].id) == n
        && ReferenceAt(EnvOf(records[i]), f).Some? && UsesBy(ReferenceAt(EnvOf(records[i]), f).value, d, first);
      var a := ReferenceAt(EnvOf(records[i]), f).value.(appId := records[i].id);
      ReferenceIsAnonymous(EnvOf(records[i]), f);
      assert IsReferenceOf(a, records[i]) && records[i] in records;
      SameTuners(ReferenceAt(EnvOf(records[i]), f).value, a, d, first);
      assert a in refs;
    }
  }

  lemma ReferenceIsAnonymous(env: Env, f: string)
    requires ReferenceAt(env, f).Some?
    ensures ReferenceAt(env, f).value.appId == None && ReferenceAt(env, f).value.fieldKey == f
  {
    hide SerialAt, MetadataId;
  }

  lemma SameTuners(r: SdrReference, s: SdrReference, d: SdrDevice, first: bool)
    requires r.serial == s.serial && r.deviceId == s.deviceId
    ensures UsesBy(r, d, first) <==> UsesBy(s, d, first)
  {
  }

  /** What is left of the exact index once the ids in `taken` have been removed. */
  ghost predicate Remaining(exact: Index, whole: Index, taken: set<string>) {
    forall id, n :: IndexHas(exact, id, n) <==> id !in taken && IndexHas(whole, id, n)
  }

  method UsersFromIndexes(d: SdrDevice, exact: Index, serial: Index, ghost whole: Index, ghost taken: set<string>,
                          ghost refs: seq<SdrReference>, ghost records: seq<AppRecord>, ghost first: bool)
    returns (users: seq<string>)
    requires Assigns(refs, records) && IndexesExact(whole, refs) && IndexesSerial(serial, refs)
    requires Remaining(exact, whole, taken) && (first <==> d.id !in taken)
    ensures UsersOf(users, records, d, first)
  {
    hide SerialKey, Ascending, ReferenceAt, Assigns;
    var all := if d.id in exact then exact[d.id] else [];
    if d.serial.Some? && SerialKey(d.serial.value) in serial {
      all := all + serial[SerialKey(d.serial.value)];
    }
    users := SortAndDedup(all);
    forall n
      ensures n in users <==> Uses(records, n, d, first)
    {
      AssignedUses(refs, records, n, d, first);
      assert n in users <==>
        IndexHas(exact, d.id, n) || (d.serial.Some? && IndexHas(serial, SerialKey(d.serial.value), n));
      IndexedUses(refs, d, n, first);
    }
  }

  lemma IndexedUses(refs: seq<SdrReference>, d: SdrDevice, n: string, first: bool)
    ensures (exists r | r in refs :: NameOf(r.appId) == n && UsesBy(r, d, first)) <==>
      ((first && HasExactUser(refs, d.id, n)) || (d.serial.Some? && HasSerialUser(refs, SerialKey(d.serial.value), n)))
  {
  }

  lemma RemoveUsers(exact: Index, whole: Index, taken: set<string>, id: string)
    requires Remaining(exact, whole, taken)
    ensures Remaining(exact - {id}, whole, taken + {id})
  {
  }

  /** `after` is `before` with the status and the user list that the records give it. */
  ghost predicate Annotated(before: SdrDevice, after: SdrDevice, records: seq<AppRecord>, first: bool,
      duplicate: bool) {
    exists users :: UsersOf(users, records, before, first) && after == WithUsers(before, users, duplicate)
  }

  method AnnotateSdrDevices(devices: array<SdrDevice>, apps: AppsValue)
    modifies devices
    ensures forall i | 0 <= i < devices.Length ::
      Annotated(old(devices[i]), devices[i], Records(apps), FirstWithId(old(devices[..]), i),
                Duplicated(old(devices[..]), old(devices[i])))
  {
    hide SerialKey, Assigns, UsersOf, Matching, IndexesExact, IndexesSerial, WithUsers, IndexHas, Records;
    ghost var before := devices[..];
    var counts := CountSerials(devices[..]);
    var refs := AssignmentsFromConfig(apps);
    var exact, serial := BuildIndexes(refs);
    ghost var whole, taken := exact, {};
    for i := 0 to devices.Length
      invariant Remaining(exact, whole, taken) && taken == set j | 0 <= j < i :: before[j].id
      invariant forall j | i <= j < devices.Length :: devices[j] == before[j]
      invariant forall j | 0 <= j < i ::
        Annotated(before[j], devices[j], Records(apps), FirstWithId(before, j), Duplicated(before, before[j]))
    {
      var d := devices[i];
      assert FirstWithId(before, i) <==> d.id !in taken;
      var users := UsersFromIndexes(d, exact, serial, whole, taken, refs, Records(apps), FirstWithId(before, i));
      RemoveUsers(exact, whole, taken, d.id);
      exact := exact - {d.id};
      taken := taken + {d.id};
      var key := if d.serial.Some? then SerialKey(d.serial.value) else "";
      var duplicate := d.serial.Some? && key in counts && counts[key] > 1;
      assert duplicate <==> Duplicated(before, d);
      devices[i] := WithUsers(d, users, duplicate);
    }
  }

  // ---- what "conflict" means -------------------------------------------------------------------

  /**
   With distinct device ids, a device is marked "conflict" exactly when records of two different names can use it.
   */
  lemma ConflictExactlyWhenShared(before: SdrDevice, after: SdrDevice, records: seq<AppRecord>, duplicate: bool)
    requires Annotated(before, after, records, true, duplicate) && before.status != "conflict"
    ensures after.status == "conflict" <==>
      exists m, n :: m != n && Uses(records, m, before, true) && Uses(records, n, before, true)
  {
    hide Uses, Before;
    var users :| UsersOf(users, records, before, true) && after == WithUsers(before, users, duplicate);
    assert "ambiguous" != "conflict" && "assigned" != "conflict" by {
      assert "ambiguous"[0] == 'a' && "assigned"[0] == 'a' && "conflict"[0] == 'c';
    }
    if |users| > 1 {
      assert Before(users[0], users[1]);
      BeforeIsTotal(users[0], users[1]);
      assert users[0] in users && users[1] in users && users[0] != users[1];
    }
    if m, n :| m != n && Uses(records, m, before, true) && Uses(records, n, before, true) {
      assert m in users && n in users;
    }
  }

  ghost predicate Used(records: seq<AppRecord>, d: SdrDevice, first: bool) {
    exists n :: Uses(records, n, d, first)
  }

  ghost predicate Shared(records: seq<AppRecord>, d: SdrDevice, first: bool) {
    exists m, n :: m != n && Uses(records, m, d, first) && Uses(records, n, d, first)
  }

  /** Another connected device has the same serial. */
  ghost predicate SerialRepeated(devices: seq<SdrDevice>, i: nat)
    requires i < |devices|
  {
    devices[i].serial.Some? && exists j ::
      0 <= j < |devices| && j != i && HasSerialKey(devices[j], SerialKey(devices[i].serial.value))
  }

  lemma {:induction false} MatchingSize(devices: seq<SdrDevice>, key: string, i: nat)
    requires i < |devices| && HasSerialKey(devices[i], key)
    ensures |Matching(devices, key)| > 0
    ensures |Matching(devices, key)| > 1 <==> exists j :: 0 <= j < |devices| && j != i && HasSerialKey(devices[j], key)
  {
    hide HasSerialKey;
    var last := |devices| - 1;
    var front := devices[..last];
    assert forall j | 0 <= j < last :: front[j] == devices[j];
    if i < last {
      MatchingSize(front, key, i);
    } else {
      MatchingIsFilter(front, key);
      var found := Matching(front, key);
      assert found == [] || found[0] in found;
      if j :| 0 <= j < last && HasSerialKey(front[j], key) {
        assert front[j] in front && front[j] in found;
      }
    }
  }

  /**
   What the annotation says of every device, repeated device ids included: "conflict" for users of two names;
   otherwise "ambiguous" when another connected device has its serial; otherwise "assigned" when it is used; and a
   device that is neither used nor repeated stays as it is.
   */
  lemma AnnotationExactly(devices: seq<SdrDevice>, i: nat, after: SdrDevice, records: seq<AppRecord>)
    requires i < |devices|
    requires Annotated(devices[i], after, records, FirstWithId(devices, i), Duplicated(devices, devices[i]))
    ensures var d, first, repeated := devices[i], FirstWithId(devices, i), SerialRepeated(devices, i);
      && after.id == d.id && after.serial == d.serial
      && (Shared(records, d, first) ==> after.status == "conflict")
      && (Used(records, d, first) && !Shared(records, d, first) ==>
            after.status == if repeated then "ambiguous" else "assigned")
      && (!Used(records, d, first) && repeated ==> after.status == "ambiguous" && after.assignedTo == None)
      && (!Used(records, d, first) && !repeated ==> after == d)
      && (Used(records, d, first) ==> after.assignedTo.Some?)
      && (forall n | Uses(records, n, d, first) && !Shared(records, d, first) :: after.assignedTo == Some(n))
  {
    hide Uses, Before, SerialKey;
    var d, first := devices[i], FirstWithId(devices, i);
    if d.serial.Some? {
      MatchingSize(devices, SerialKey(d.serial.value), i);
    }
    var users :| UsersOf(users, records, d, first) && after == WithUsers(d, users, Duplicated(devices, d));
    if |users| > 1 {
      assert Before(users[0], users[1]);
      BeforeIsTotal(users[0], users[1]);
      assert users[0] in users && users[1] in users && users[0] != users[1];
    } else if |users| == 1 {
      assert users[0] in users;
    }
    forall n | Uses(records, n, d, first)
      ensures n in users
    {
    }
  }

  /** A device as it comes from the scan, "available" and without users, gets each status exactly when it applies. */
  lemma StatusExactly(devices: seq<SdrDevice>, i: nat, after: SdrDevice, records: seq<AppRecord>)
    requires i < |devices| && devices[i].status == "available" && devices[i].assignedTo == None
    requires Annotated(devices[i], after, records, FirstWithId(devices, i), Duplicated(devices, devices[i]))
    ensures var d, first, repeated := devices[i], FirstWithId(devices, i), SerialRepeated(devices, i);
      && (after.status == "conflict" <==> Shared(records, d, first))
      && (after.status == "assigned" <==> Used(records, d, first) && !Shared(records, d, first) && !repeated)
      && (after.status == "ambiguous" <==> !Shared(records, d, first) && repeated)
      && (after.status == "available" <==> !Used(records, d, first) && !repeated)
      && (after.assignedTo.Some? <==> Used(records, d, first))
  {
    hide Uses, SerialRepeated, FirstWithId, Annotated;
    AnnotationExactly(devices, i, after, records);
    StatusesDiffer();
    if Shared(records, devices[i], FirstWithId(devices, i)) {
      assert Used(records, devices[i], FirstWithId(devices, i));
    }
  }

  lemma StatusesDiffer()
    ensures "conflict" != "assigned" && "conflict" != "ambiguous" && "conflict" != "available"
    ensures "assigned" != "ambiguous" && "assigned" != "available" && "ambiguous" != "available"
  {
    assert "conflict"[0] == 'c' && "assigned"[1] == 's' && "ambiguous"[1] == 'm' && "available"[1] == 'v';
    assert "assigned"[0] == 'a' && "ambiguous"[0] == 'a' && "available"[0] == 'a';
  }

  /** The two names agree up to position `k`, where the first one ends or has the smaller character. */
  predicate DecidedAt(a: string, b: string, k: nat) {
    k <= |a| && k < |b| && a[..k] == b[..k] && (k == |a| || a[k] < b[k])
  }

  /** The order of the user list is the lexicographic one. */
  lemma {:induction false} BeforeIsLexicographic(a: string, b: string)
    ensures Before(a, b) <==> exists k: nat :: DecidedAt(a, b, k)
  {
    if a != "" && b != "" && a[0] == b[0] {
      BeforeIsLexicographic(a[1..], b[1..]);
      if k: nat :| DecidedAt(a[1..], b[1..], k) {
        assert a[..k + 1] == [a[0]] + a[1..][..k] && b[..k + 1] == [b[0]] + b[1..][..k];
        assert DecidedAt(a, b, k + 1);
      }
      if k: nat :| DecidedAt(a, b, k) {
        assert a[..k] == [a[0]] + a[1..][..k - 1] && b[..k] == [b[0]] + b[1..][..k - 1];
        assert DecidedAt(a[1..], b[1..], k - 1);
      }
    } else if b != "" {
      assert a[..0] == b[..0] && (Before(a, b) ==> DecidedAt(a, b, 0));
      if k: nat :| DecidedAt(a, b, k) && k > 0 {
        assert a[..k][0] == b[..k][0];
      }
    }
  }

  /** The user list joins the names with a comma and a space. */
  lemma {:induction false} JoinParts(front: seq<string>, back: seq<string>)
    requires front != [] && back != []
    ensures Join(front + back) == Join(front) + ", " + Join(back)
  {
    if |front| > 1 {
      JoinParts(front[1..], back);
      assert (front + back)[1..] == front[1..] + back;
    } else {
      assert (front + back)[1..] == back;
    }
  }

  /** For exclusive records no connected device is ever marked "conflict". */
  lemma ExclusiveNeverConflicts(before: SdrDevice, after: SdrDevice, records: seq<AppRecord>, devices: seq<SdrDevice>,
      duplicate: bool)
    requires Annotated(before, after, records, true, duplicate) && before.status != "conflict"
    requires before in devices && Exclusive(records, devices)
    ensures after.status != "conflict"
  {
    hide ReferenceAt, CanUse;
    ConflictExactlyWhenShared(before, after, records, duplicate);
    if m, n :| m != n && Uses(records, m, before, true) && Uses(records, n, before, true) {
      TwoNamesAreNotExclusive(records, devices, before, m, n);
    }
  }

  lemma TwoNamesAreNotExclusive(records: seq<AppRecord>, devices: seq<SdrDevice>, d: SdrDevice, m: string, n: string)
    requires d in devices && m != n
    ensures Uses(records, m, d, true) && Uses(records, n, d, true) ==> !Exclusive(records, devices)
  {
    hide ReferenceAt, CanUse;
    if Uses(records, m, d, true) && Uses(records, n, d, true) {
      var i: nat, f :| i < |records| && NameOf(records[i].id) == m
        && ReferenceAt(EnvOf(records[i]), f).Some? && UsesBy(ReferenceAt(EnvOf(records[i]), f).value, d, true);
      var j: nat, g :| j < |records| && NameOf(records[j].id) == n
        && ReferenceAt(EnvOf(records[j]), g).Some? && UsesBy(ReferenceAt(EnvOf(records[j]), g).value, d, true);
      var x, y := ReferenceAt(EnvOf(records[i]), f).value, ReferenceAt(EnvOf(records[j]), g).value;
      assert SharesTuner(x, y, devices) && SharesTuner(y, x, devices);
      if i < j {
        assert !Apart(EnvOf(records[i]), EnvOf(records[j]), devices);
      } else {
        assert !Apart(EnvOf(records[j]), EnvOf(records[i]), devices);
      }
    }
  }
}
