/** The bounded windows of the forwarding service: seen log lines, and the shared message buffer. */
module MessageWindow {

  const SEEN_LIMIT: nat := 2000
  const BUFFER_LIMIT: nat := 1000

  /** The last `n` elements, or all of them. */
  function LastN<T>(s: seq<T>, n: nat): seq<T> {
    if |s| <= n then s else s[|s| - n..]
  }

  lemma LastNStep<T>(s: seq<T>, x: T, n: nat)
    ensures LastN(s + [x], n) == LastN(LastN(s, n) + [x], n)
  {
  }

  predicate Distinct<T(==)>(s: seq<T>) {
    forall i, j | 0 <= i < j < |s| :: s[i] != s[j]
  }

  // ---- admission of log lines ------------------------------------------------------------------

  /** The history that a plain reading gives: a key is admitted when it is not among the last 2000 admitted. */
  function Admissions(history: seq<string>, keys: seq<string>): seq<string>
    decreases |keys|
  {
    if keys == [] then history
    else if keys[0] in LastN(history, SEEN_LIMIT) then Admissions(history, keys[1..])
    else Admissions(history + [keys[0]], keys[1..])
  }

  /** `seen_log_lines` and `seen_log_set`; `history` is every key admitted so far. */
  class SeenWindow {
    var lines: seq<string>
    var seen: set<string>
    ghost var history: seq<string>

    ghost predicate Valid()
      reads this
    {
      && Distinct(lines) && |lines| <= SEEN_LIMIT
      && (forall k :: k in seen <==> k in lines)
      && lines == LastN(history, SEEN_LIMIT)
    }

    constructor ()
      ensures Valid() && history == []
    {
      lines, seen, history := [], {}, [];
    }

    method Admit(key: string) returns (admitted: bool)
      requires Valid()
      modifies this
      ensures Valid()
      ensures admitted <==> key !in LastN(old(history), SEEN_LIMIT)
      ensures history == if admitted then old(history) + [key] else old(history)
    {
      if key in seen {
        return false;
      }
      seen := seen + {key};
      lines := lines + [key];
      LastNStep(history, key, SEEN_LIMIT);
      history := history + [key];
      ghost var full := lines;
      while |lines| > SEEN_LIMIT
        invariant lines == full || (|full| == SEEN_LIMIT + 1 && lines == full[1..])
        invariant Distinct(lines) && forall k :: k in seen <==> k in lines
        invariant history == old(history) + [key]
      {
        var oldest := lines[0];
        assert lines == [oldest] + lines[1..];
        lines := lines[1..];
        seen := seen - {oldest};
      }
      assert lines == LastN(full, SEEN_LIMIT);
      return true;
    }

    /** One decoder's recent log lines. */
    method AdmitAll(keys: seq<string>) returns (admitted: seq<string>)
      requires Valid()
      modifies this
      ensures Valid()
      ensures history == Admissions(old(history), keys) && history == old(history) + admitted
    {
      admitted := [];
      for i := 0 to |keys|
        invariant Valid() && history == old(history) + admitted
        invariant Admissions(old(history), keys) == Admissions(history, keys[i..])
      {
        assert keys[i..][0] == keys[i] && keys[i..][1..] == keys[i + 1..];
        var isNew := Admit(keys[i]);
        if isNew {
          admitted := admitted + [keys[i]];
        }
      }
    }
  }

  /** No key is admitted twice within any 2001 consecutive admissions. */
  ghost predicate Spaced(history: seq<string>) {
    forall i, j | 0 <= i < j < |history| && j - i <= SEEN_LIMIT :: history[i] != history[j]
  }

  /** Over every input, repeated keys in the admitted history are more than 2000 admissions apart. */
  lemma {:induction false} AdmissionsAreSpaced(history: seq<string>, keys: seq<string>)
    requires Spaced(history)
    ensures Spaced(Admissions(history, keys))
    decreases |keys|
  {
    if keys != [] {
      var next := history + [keys[0]];
      if keys[0] !in LastN(history, SEEN_LIMIT) {
        forall i | 0 <= i < |history| && |history| - i <= SEEN_LIMIT
          ensures history[i] != keys[0]
        {
          assert history[i] == LastN(history, SEEN_LIMIT)[i - (|history| - |LastN(history, SEEN_LIMIT)|)];
        }
        assert Spaced(next);
        AdmissionsAreSpaced(next, keys[1..]);
      } else {
        AdmissionsAreSpaced(history, keys[1..]);
      }
    }
  }

  // ---- the shared buffer -----------------------------------------------------------------------

  function PushOne<T>(buffer: seq<T>, x: T): seq<T> {
    var b := buffer + [x];
    if |b| > BUFFER_LIMIT then b[1..] else b
  }

  /** One critical section: a batch pushed under the lock. */
  function PushBatch<T>(buffer: seq<T>, batch: seq<T>): seq<T>
    decreases |batch|
  {
    if batch == [] then buffer else PushBatch(PushOne(buffer, batch[0]), batch[1..])
  }

  class MessageBuffer<T(==)> {
    var buffer: seq<T>
    ghost var pushed: seq<T>

    ghost predicate Valid()
      reads this
    {
      buffer == LastN(pushed, BUFFER_LIMIT)
    }

    constructor ()
      ensures Valid() && pushed == []
    {
      buffer, pushed := [], [];
    }

    /** The loop that every producer runs while it holds the lock. */
    method Store(messages: seq<T>)
      requires Valid()
      modifies this
      ensures Valid() && pushed == old(pushed) + messages
      ensures buffer == PushBatch(old(buffer), messages)
    {
      for i := 0 to |messages|
        invariant Valid() && pushed == old(pushed) + messages[..i]
        invariant PushBatch(old(buffer), messages) == PushBatch(buffer, messages[i..])
      {
        assert messages[i..][0] == messages[i] && messages[i..][1..] == messages[i + 1..];
        assert messages[..i + 1] == messages[..i] + [messages[i]];
        LastNStep(pushed, messages[i], BUFFER_LIMIT);
        buffer := buffer + [messages[i]];
        if |buffer| > BUFFER_LIMIT {
          buffer := buffer[1..];
        }
        pushed := pushed + [messages[i]];
      }
      assert messages[..|messages|] == messages;
    }
  }

  lemma {:induction false} BatchIsSuffix<T>(pushed: seq<T>, batch: seq<T>)
    ensures PushBatch(LastN(pushed, BUFFER_LIMIT), batch) == LastN(pushed + batch, BUFFER_LIMIT)
    decreases |batch|
  {
    if batch == [] {
      assert pushed + batch == pushed;
    } else {
      LastNStep(pushed, batch[0], BUFFER_LIMIT);
      assert pushed + [batch[0]] + batch[1..] == pushed + batch;
      BatchIsSuffix(pushed + [batch[0]], batch[1..]);
    }
  }

  // ---- interleaved producers -------------------------------------------------------------------

  /** All pushes of a schedule: the batches of the critical sections, in the order the lock was taken. */
  function Pushed<T>(schedule: seq<seq<T>>): seq<T> {
    if schedule == [] then [] else schedule[0] + Pushed(schedule[1..])
  }

  function BufferAfter<T>(buffer: seq<T>, schedule: seq<seq<T>>): seq<T>
    decreases |schedule|
  {
    if schedule == [] then buffer else BufferAfter(PushBatch(buffer, schedule[0]), schedule[1..])
  }

  /** Under any interleaving of the producers the buffer is the last min(1000, n) of all n pushes. */
  lemma {:induction false} BufferIsSuffixOfAllPushes<T>(pushed: seq<T>, schedule: seq<seq<T>>)
    ensures BufferAfter(LastN(pushed, BUFFER_LIMIT), schedule) == LastN(pushed + Pushed(schedule), BUFFER_LIMIT)
    decreases |schedule|
  {
    if schedule == [] {
      assert pushed + Pushed(schedule) == pushed;
    } else {
      var batch := schedule[0];
      BatchIsSuffix(pushed, batch);
      BufferIsSuffixOfAllPushes(pushed + batch, schedule[1..]);
      assert pushed + batch + Pushed(schedule[1..]) == pushed + (batch + Pushed(schedule[1..]));
    }
  }

  /** The messages of one producer in a tagged stream. */
  function Own<T>(stream: seq<(nat, T)>, producer: nat): seq<T> {
    if stream == [] then []
    else (if stream[0].0 == producer then [stream[0].1] else []) + Own(stream[1..], producer)
  }

  lemma {:induction false} OwnConcat<T>(a: seq<(nat, T)>, b: seq<(nat, T)>, producer: nat)
    ensures Own(a + b, producer) == Own(a, producer) + Own(b, producer)
  {
    if a == [] {
      assert a + b == b;
    } else {
      OwnConcat(a[1..], b, producer);
      assert (a + b)[0] == a[0] && (a + b)[1..] == a[1..] + b;
      var head: seq<T> := if a[0].0 == producer then [a[0].1] else [];
      assert Own(a + b, producer) == head + Own(a[1..] + b, producer);
      assert head + (Own(a[1..], producer) + Own(b, producer)) == head + Own(a[1..], producer) + Own(b, producer);
    }
  }

  /** Whatever the interleaving, what survives of one producer is the tail of its own messages, in its own order. */
  lemma SurvivorsAreATail<T>(stream: seq<(nat, T)>, producer: nat)
    ensures exists lost: seq<T> :: Own(stream, producer) == lost + Own(LastN(stream, BUFFER_LIMIT), producer)
  {
    var kept := LastN(stream, BUFFER_LIMIT);
    var cut := stream[..|stream| - |kept|];
    assert stream == cut + kept;
    OwnConcat(cut, kept, producer);
    assert Own(stream, producer) == Own(cut, producer) + Own(kept, producer);
  }
}
