/** Redacting secrets in an exported backup and merging them back on import (`handlers/config.rs`). */
module ConfigBackup {
  import opened Values
  import opened Text

  datatype Json =
    | Null
    | Bool(b: bool)
    | Number(literal: string)
    | Str(text: string)
    | Arr(items: seq<Json>)
    | Obj(members: map<string, Json>)

  const REDACTED := "__REDACTED__"

  predicate IsSensitiveKey(key: string) {
    var k := ToLower(key);
    if Contains(k, "public") then false
    else
      || k == "key" || k == "psk" || k == "apikey"
      || EndsWith(k, "_key") || EndsWith(k, "-key")
      || Contains(k, "password") || Contains(k, "passphrase") || Contains(k, "secret") || Contains(k, "token")
  }

  /**
   A key is secret, whatever its case, when it is one of three names, ends in "key" after a separator, or mentions one
   of four words, unless it mentions "public".
   */
  lemma SensitiveExactly(key: string)
    ensures IsSensitiveKey(key) <==>
      && !Mentions(ToLower(key), "public")
      && (|| ToLower(key) in ["key", "psk", "apikey"]
          || (exists a: string :: ToLower(key) == a + "_key" || ToLower(key) == a + "-key")
          || (exists w | w in ["password", "passphrase", "secret", "token"] :: Mentions(ToLower(key), w)))
  {
    hide Contains, EndsWith, Mentions;
    var k := ToLower(key);
    ContainsExactly(k, "public");
    EndsWithExactly(k, "_key");
    EndsWithExactly(k, "-key");
    ContainsExactly(k, "password");
    ContainsExactly(k, "passphrase");
    ContainsExactly(k, "secret");
    ContainsExactly(k, "token");
    var words := ["password", "passphrase", "secret", "token"];
    assert words[0] in words && words[1] in words && words[2] in words && words[3] in words;
  }

  /** `value.get(key)` and `value.get(index)`. */
  function Member(v: Json, key: string): Option<Json> {
    if v.Obj? && key in v.members then Some(v.members[key]) else None
  }

  function Item(v: Json, i: nat): Option<Json> {
    if v.Arr? && i < |v.items| then Some(v.items[i]) else None
  }

  function OrNull(v: Option<Json>): Json {
    if v.Some? then v.value else Null
  }

  /** What `redact_secrets` leaves in place of a tree. */
  function Redacted(v: Json): Json {
    match v
    case Obj(m) =>
      Obj(map k | k in m :: if IsSensitiveKey(k) && !m[k].Null? then Str(REDACTED) else Redacted(m[k]))
    case Arr(items) =>
      Arr(seq(|items|, i requires 0 <= i < |items| => Redacted(items[i])))
    case _ => v
  }

  /** What `restore_redacted` leaves in place of an uploaded tree. */
  function Restored(uploaded: Json, current: Json): Json {
    match uploaded
    case Obj(m) =>
      Obj(map k | k in m && (m[k] == Str(REDACTED) ==> Member(current, k).Some?) ::
        if m[k] == Str(REDACTED) then Member(current, k).value else Restored(m[k], OrNull(Member(current, k))))
    case Arr(items) =>
      Arr(seq(|items|, i requires 0 <= i < |items| => Restored(items[i], OrNull(Item(current, i)))))
    case _ => uploaded
  }

  // ---- the in-place walks ----------------------------------------------------------------------

  method RedactSecrets(value: Json) returns (r: Json)
    ensures r == Redacted(value)
  {
    hide IsSensitiveKey;
    match value
    case Obj(m) =>
      var out := m;
      var todo := m.Keys;
      while todo != {}
        invariant todo <= m.Keys && out.Keys == m.Keys
        invariant forall k | k in m :: out[k] == if k in todo then m[k] else Redacted(value).members[k]
      {
        var k :| k in todo;
        todo := todo - {k};
        if IsSensitiveKey(k) && !out[k].Null? {
          out := out[k := Str(REDACTED)];
        } else {
          var inner := RedactSecrets(m[k]);
          out := out[k := inner];
        }
      }
      r := Obj(out);
    case Arr(items) =>
      var out := items;
      for i := 0 to |items|
        invariant |out| == |items|
        invariant forall j | 0 <= j < |items| :: out[j] == if j < i then Redacted(items[j]) else items[j]
      {
        var inner := RedactSecrets(items[i]);
        out := out[i := inner];
      }
      r := Arr(out);
    case _ =>
      r := value;
  }

  /** The object case: sentinels without a counterpart are collected in the walk and removed after it. */
  method RestoreMembers(uploaded: Json, current: Json) returns (out: map<string, Json>)
    requires uploaded.Obj?
    ensures Obj(out) == Restored(uploaded, current)
    decreases uploaded, 0
  {
    hide Member;
    var m := uploaded.members;
    out := m;
    var orphaned: set<string> := {};
    var todo := m.Keys;
    ghost var restored := Restored(uploaded, current).members;
    while todo != {}
      invariant todo <= m.Keys && out.Keys == m.Keys
      invariant forall k :: k in orphaned <==> k in m && k !in todo && m[k] == Str(REDACTED) && Member(current, k).None?
      invariant forall k | k in todo :: out[k] == m[k]
      invariant forall k | k in restored && k !in todo :: out[k] == restored[k]
    {
      var k :| k in todo;
      todo := todo - {k};
      if out[k] == Str(REDACTED) {
        match Member(current, k) {
          case Some(cur) => out := out[k := cur];
          case None => orphaned := orphaned + {k};
        }
      } else {
        var inner := RestoreRedacted(m[k], OrNull(Member(current, k)));
        out := out[k := inner];
      }
    }
    out := out - orphaned;
    assert out == restored;
  }

  method RestoreRedacted(uploaded: Json, current: Json) returns (r: Json)
    ensures r == Restored(uploaded, current)
    decreases uploaded, 1
  {
    match uploaded
    case Obj(_) =>
      var members := RestoreMembers(uploaded, current);
      r := Obj(members);
    case Arr(items) =>
      hide Item;
      var out := items;
      for i := 0 to |items|
        invariant |out| == |items|
        invariant forall j | 0 <= j < |items| ::
          out[j] == if j < i then Restored(items[j], OrNull(Item(current, j))) else items[j]
      {
        var inner := RestoreRedacted(items[i], OrNull(Item(current, i)));
        out := out[i := inner];
      }
      r := Arr(out);
    case _ =>
      r := uploaded;
  }

  // ---- properties ------------------------------------------------------------------------------

  /** Importing one's own export restores every tree exactly. */
  lemma {:induction false} RoundTrip(v: Json)
    ensures Restored(Redacted(v), v) == v
  {
    hide IsSensitiveKey;
    match v
    case Obj(m) =>
      forall k | k in m && !(IsSensitiveKey(k) && !m[k].Null?)
        ensures Restored(Redacted(m[k]), m[k]) == m[k]
      {
        RoundTrip(m[k]);
      }
      var back := Restored(Redacted(v), v);
      assert back.members.Keys == m.Keys;
      assert forall k | k in m :: back.members[k] == m[k];
    case Arr(items) =>
      forall i | 0 <= i < |items|
        ensures Restored(Redacted(items[i]), items[i]) == items[i]
      {
        RoundTrip(items[i]);
      }
    case _ =>
  }

  lemma {:induction false} RedactionIsIdempotent(v: Json)
    ensures Redacted(Redacted(v)) == Redacted(v)
  {
    hide IsSensitiveKey;
    match v
    case Obj(m) =>
      forall k | k in m
        ensures Redacted(Redacted(m[k])) == Redacted(m[k])
      {
        RedactionIsIdempotent(m[k]);
      }
    case Arr(items) =>
      forall i | 0 <= i < |items|
        ensures Redacted(Redacted(items[i])) == Redacted(items[i])
      {
        RedactionIsIdempotent(items[i]);
      }
    case _ =>
  }

  predicate BothSecret(k: string, a: Json, b: Json) {
    IsSensitiveKey(k) && !a.Null? && !b.Null?
  }

  /** The member is not a secret, or is null in both trees. */
  predicate SecretFree(k: string, a: Json, b: Json) {
    !IsSensitiveKey(k) || (a.Null? && b.Null?)
  }

  /** Two trees that differ only in the values of non-null secrets. */
  predicate SameButSecrets(a: Json, b: Json)
    decreases a
  {
    match (a, b)
    case (Obj(m), Obj(n)) =>
      && m.Keys == n.Keys
      && forall k | k in m :: BothSecret(k, m[k], n[k]) || (SecretFree(k, m[k], n[k]) && SameButSecrets(m[k], n[k]))
    case (Arr(s), Arr(t)) =>
      |s| == |t| && forall i | 0 <= i < |s| :: SameButSecrets(s[i], t[i])
    case (Obj(_), _) => false
    case (Arr(_), _) => false
    case _ => a == b
  }

  function RedactedMember(k: string, v: Json): Json {
    if IsSensitiveKey(k) && !v.Null? then Str(REDACTED) else Redacted(v)
  }

  lemma ExportMember(k: string, v: Json, w: Json)
    requires Redacted(v) == Redacted(w) <==> SameButSecrets(v, w)
    ensures RedactedMember(k, v) == RedactedMember(k, w) <==>
      BothSecret(k, v, w) || (SecretFree(k, v, w) && SameButSecrets(v, w))
  {
  }

  lemma RedactedObject(m: map<string, Json>)
    ensures Redacted(Obj(m)) == Obj(map k | k in m :: RedactedMember(k, m[k]))
  {
  }

  lemma SameObjects(m: map<string, Json>, n: map<string, Json>)
    ensures SameButSecrets(Obj(m), Obj(n)) <==>
      && m.Keys == n.Keys
      && forall k | k in m :: BothSecret(k, m[k], n[k]) || (SecretFree(k, m[k], n[k]) && SameButSecrets(m[k], n[k]))
  {
  }

  lemma ExportObjects(m: map<string, Json>, n: map<string, Json>)
    requires forall k | k in m && k in n :: Redacted(m[k]) == Redacted(n[k]) <==> SameButSecrets(m[k], n[k])
    ensures Redacted(Obj(m)) == Redacted(Obj(n)) <==> SameButSecrets(Obj(m), Obj(n))
  {
    hide IsSensitiveKey, Redacted, SameButSecrets, RedactedMember, BothSecret, SecretFree;
    RedactedObject(m);
    RedactedObject(n);
    SameObjects(m, n);
    var a, b := map k | k in m :: RedactedMember(k, m[k]), map k | k in n :: RedactedMember(k, n[k]);
    assert a.Keys == m.Keys && b.Keys == n.Keys;
    forall k | k in m && k in n
      ensures a[k] == b[k] <==> BothSecret(k, m[k], n[k]) || (SecretFree(k, m[k], n[k]) && SameButSecrets(m[k], n[k]))
    {
      ExportMember(k, m[k], n[k]);
    }
    if SameButSecrets(Obj(m), Obj(n)) {
      assert a == b;
    }
  }

  lemma ExportArrays(s: seq<Json>, t: seq<Json>)
    requires forall i | 0 <= i < |s| && i < |t| :: Redacted(s[i]) == Redacted(t[i]) <==> SameButSecrets(s[i], t[i])
    ensures Redacted(Arr(s)) == Redacted(Arr(t)) <==> SameButSecrets(Arr(s), Arr(t))
  {
    var a, b := Redacted(Arr(s)).items, Redacted(Arr(t)).items;
    assert |a| == |s| && |b| == |t|;
    if SameButSecrets(Arr(s), Arr(t)) {
      assert a == b;
    } else if |s| == |t| {
      var i :| 0 <= i < |s| && !SameButSecrets(s[i], t[i]);
      assert a[i] != b[i];
    }
  }

  /** An export reveals nothing about non-null secrets, and everything else: exports agree exactly for such trees. */
  lemma {:induction false} ExportHidesExactlyTheSecrets(a: Json, b: Json)
    ensures Redacted(a) == Redacted(b) <==> SameButSecrets(a, b)
    decreases a
  {
    if a.Obj? && b.Obj? {
      forall k | k in a.members && k in b.members
        ensures Redacted(a.members[k]) == Redacted(b.members[k]) <==> SameButSecrets(a.members[k], b.members[k])
      {
        ExportHidesExactlyTheSecrets(a.members[k], b.members[k]);
      }
      ExportObjects(a.members, b.members);
    } else if a.Arr? && b.Arr? {
      forall i | 0 <= i < |a.items| && i < |b.items|
        ensures Redacted(a.items[i]) == Redacted(b.items[i]) <==> SameButSecrets(a.items[i], b.items[i])
      {
        ExportHidesExactlyTheSecrets(a.items[i], b.items[i]);
      }
      ExportArrays(a.items, b.items);
    }
  }

  /** No object member, at any depth, is the sentinel. */
  predicate NoSentinel(v: Json) {
    match v
    case Obj(m) => forall k | k in m :: m[k] != Str(REDACTED) && NoSentinel(m[k])
    case Arr(items) => forall i | 0 <= i < |items| :: NoSentinel(items[i])
    case _ => true
  }

  /** If the device's config holds no sentinel, none survives an import, whatever was uploaded. */
  lemma {:induction false} ImportLeavesNoSentinel(uploaded: Json, current: Json)
    requires NoSentinel(current)
    ensures NoSentinel(Restored(uploaded, current))
    ensures uploaded != Str(REDACTED) ==> Restored(uploaded, current) != Str(REDACTED)
    decreases uploaded
  {
    match uploaded
    case Obj(m) =>
      forall k | k in m && m[k] != Str(REDACTED)
        ensures NoSentinel(Restored(m[k], OrNull(Member(current, k))))
          && Restored(m[k], OrNull(Member(current, k))) != Str(REDACTED)
      {
        ImportLeavesNoSentinel(m[k], OrNull(Member(current, k)));
      }
    case Arr(items) =>
      forall i | 0 <= i < |items|
        ensures NoSentinel(Restored(items[i], OrNull(Item(current, i))))
      {
        ImportLeavesNoSentinel(items[i], OrNull(Item(current, i)));
      }
    case _ =>
  }

  /** A tree without sentinels is left alone by an import. */
  lemma {:induction false} NothingToRestore(v: Json, current: Json)
    requires NoSentinel(v)
    ensures Restored(v, current) == v
    decreases v
  {
    match v
    case Obj(m) =>
      forall k | k in m
        ensures Restored(m[k], OrNull(Member(current, k))) == m[k]
      {
        NothingToRestore(m[k], OrNull(Member(current, k)));
      }
      assert Restored(v, current).members == m;
    case Arr(items) =>
      forall i | 0 <= i < |items|
        ensures Restored(items[i], OrNull(Item(current, i))) == items[i]
      {
        NothingToRestore(items[i], OrNull(Item(current, i)));
      }
    case _ =>
  }

  /** Importing the same upload again, over what the first import produced, changes nothing. */
  lemma ImportIsIdempotent(uploaded: Json, current: Json, later: Json)
    requires NoSentinel(current)
    ensures Restored(Restored(uploaded, current), later) == Restored(uploaded, current)
  {
    ImportLeavesNoSentinel(uploaded, current);
    NothingToRestore(Restored(uploaded, current), later);
  }
}
