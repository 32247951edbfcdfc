/** nmcli's terse format: the scanner of `handlers/wifi.rs` and the console's three sed passes. */
module Terse {
  import opened Text

  /** Fields after the current one: the scanner's meaning, with the field read so far. */
  function Fields(line: string, cur: string): seq<string>
    decreases |line|
  {
    if line == "" then [cur]
    else if line[0] == '\\' then
      if |line| == 1 then [cur + "\\"] else Fields(line[2..], cur + [line[1]])
    else if line[0] == ':' then [cur] + Fields(line[1..], "")
    else Fields(line[1..], cur + [line[0]])
  }

  method SplitTerse(line: string) returns (fields: seq<string>)
    ensures fields == Fields(line, "")
  {
    fields := [];
    var cur := "";
    var i := 0;
    while i < |line|
      invariant 0 <= i <= |line|
      invariant Fields(line, "") == fields + Fields(line[i..], cur)
    {
      var c := line[i];
      i := i + 1;
      if c == '\\' {
        if i < |line| {
          cur := cur + [line[i]];
          i := i + 1;
        } else {
          cur := cur + "\\";
        }
      } else if c == ':' {
        fields := fields + [cur];
        cur := "";
      } else {
        cur := cur + [c];
      }
    }
    fields := fields + [cur];
  }

  // ---- what nmcli prints -----------------------------------------------------------------------

  function EscapeChar(c: char): string {
    if c == '\\' || c == ':' then ['\\', c] else [c]
  }

  function Escape(field: string): string {
    if field == "" then "" else EscapeChar(field[0]) + Escape(field[1..])
  }

  function JoinFields(fields: seq<string>): string
    requires fields != []
  {
    Escape(fields[0]) + if |fields| == 1 then "" else ":" + JoinFields(fields[1..])
  }

  lemma ScanOne(c: char, tail: string, cur: string)
    ensures Fields(EscapeChar(c) + tail, cur) == Fields(tail, cur + [c])
  {
  }

  lemma {:induction false} ScanEscaped(field: string, rest: string, cur: string)
    ensures Fields(Escape(field) + rest, cur) == Fields(rest, cur + field)
  {
    if field == "" {
      assert Escape(field) + rest == rest && cur + field == cur;
    } else {
      ScanEscaped(field[1..], rest, cur + [field[0]]);
      assert cur + [field[0]] + field[1..] == cur + field;
      ScanOne(field[0], Escape(field[1..]) + rest, cur);
      assert Escape(field) + rest == EscapeChar(field[0]) + (Escape(field[1..]) + rest);
    }
  }

  /** Splitting undoes escaping and joining for every non-empty list of fields. */
  lemma {:induction false} SplitUndoesJoin(fields: seq<string>)
    requires fields != []
    ensures Fields(JoinFields(fields), "") == fields
  {
    assert "" + fields[0] == fields[0];
    if |fields| == 1 {
      ScanEscaped(fields[0], "", "");
      assert JoinFields(fields) == Escape(fields[0]) + "";
    } else {
      var rest := ":" + JoinFields(fields[1..]);
      ScanEscaped(fields[0], rest, "");
      assert rest[0] == ':' && rest[1..] == JoinFields(fields[1..]);
      SplitUndoesJoin(fields[1..]);
    }
  }

  // ---- the console's sed passes ----------------------------------------------------------------

  const PLACEHOLDER := '\U{1}'

  function SedUnescape(s: string): string {
    ReplaceAll(ReplaceAll(ReplaceAll(s, "\\\\", [PLACEHOLDER]), "\\:", ":"), [PLACEHOLDER], "\\")
  }

  /** The field with backslashes hidden and colons still escaped. */
  function Hidden(field: string): string {
    if field == "" then ""
    else (if field[0] == '\\' then [PLACEHOLDER] else if field[0] == ':' then "\\:"
      else [field[0]]) + Hidden(field[1..])
  }

  function Map(field: string, from: char, to: char): (r: string)
    ensures |r| == |field|
  {
    seq(|field|, i requires 0 <= i < |field| => if field[i] == from then to else field[i])
  }

  lemma {:induction false} FirstPass(field: string)
    ensures ReplaceAll(Escape(field), "\\\\", [PLACEHOLDER]) == Hidden(field)
  {
    if field != "" {
      FirstPass(field[1..]);
      var s, tail := EscapeChar(field[0]) + Escape(field[1..]), Escape(field[1..]);
      if field[0] == '\\' {
        assert s == "\\\\" + tail && s[2..] == tail;
      } else if field[0] == ':' {
        assert s == "\\:" + tail && s[1..] == ":" + tail && s[1..][1..] == tail;
        assert s[1] == ':' && !("\\\\" <= s) && !("\\\\" <= s[1..]);
      } else {
        assert s == [field[0]] + tail && s[1..] == tail && !("\\\\" <= s);
      }
    }
  }

  lemma {:induction false} SecondPass(field: string)
    ensures ReplaceAll(Hidden(field), "\\:", ":") == Map(field, '\\', PLACEHOLDER)
  {
    if field != "" {
      SecondPass(field[1..]);
      var s, tail := Hidden(field), Hidden(field[1..]);
      var m := Map(field, '\\', PLACEHOLDER);
      assert m == [m[0]] + Map(field[1..], '\\', PLACEHOLDER);
      if field[0] == ':' {
        assert s == "\\:" + tail && s[2..] == tail;
      } else {
        assert s == [m[0]] + tail && s[1..] == tail && s[0] != '\\' && !("\\:" <= s);
      }
    } else {
      assert Map(field, '\\', PLACEHOLDER) == "";
    }
  }

  lemma {:induction false} ReplaceCharIsMap(s: string, from: char, to: char)
    ensures ReplaceAll(s, [from], [to]) == Map(s, from, to)
  {
    if s != "" {
      ReplaceCharIsMap(s[1..], from, to);
      assert Map(s, from, to) == [if s[0] == from then to else s[0]] + Map(s[1..], from, to);
      assert [from] <= s <==> s[0] == from;
    }
  }

  /** On a single escaped field the three passes agree with the scanner exactly when the field lacks byte 0x01. */
  lemma SedAgreesExactlyWithoutPlaceholder(field: string)
    ensures Fields(Escape(field), "") == [field]
    ensures [SedUnescape(Escape(field))] == Fields(Escape(field), "") <==> PLACEHOLDER !in field
  {
    SplitUndoesJoin([field]);
    assert JoinFields([field]) == Escape(field) + "" == Escape(field);
    FirstPass(field);
    SecondPass(field);
    var hidden := Map(field, '\\', PLACEHOLDER);
    ReplaceCharIsMap(hidden, PLACEHOLDER, '\\');
    var out := Map(hidden, PLACEHOLDER, '\\');
    assert SedUnescape(Escape(field)) == out;
    if PLACEHOLDER in field {
      var i :| 0 <= i < |field| && field[i] == PLACEHOLDER;
      assert out[i] == '\\';
    } else {
      assert out == field;
    }
  }
}
