/** The string operations of the Rust standard library and of sed that the modelled code calls. */
module Text {
  import opened Values

  /** The Unicode White_Space property, which is what `trim` removes. */
  predicate IsWhite(c: char) {
    '\t' <= c <= '\r' || c == ' ' || c == '\U{85}' || c == '\U{A0}' || c == '\U{1680}'
    || '\U{2000}' <= c <= '\U{200A}' || c == '\U{2028}' || c == '\U{2029}' || c == '\U{202F}'
    || c == '\U{205F}' || c == '\U{3000}'
  }

  function TrimStart(s: string): string {
    if s != "" && IsWhite(s[0]) then TrimStart(s[1..]) else s
  }

  function TrimEnd(s: string): string {
    if s != "" && IsWhite(s[|s| - 1]) then TrimEnd(s[..|s| - 1]) else s
  }

  function Trim(s: string): string {
    TrimEnd(TrimStart(s))
  }

  function LowerChar(c: char): char {
    if 'A' <= c <= 'Z' then c - 'A' + 'a' else c
  }

  function UpperChar(c: char): char {
    if 'a' <= c <= 'z' then c - 'a' + 'A' else c
  }

  function ToLower(s: string): string {
    seq(|s|, i requires 0 <= i < |s| => LowerChar(s[i]))
  }

  function ToUpper(s: string): string {
    seq(|s|, i requires 0 <= i < |s| => UpperChar(s[i]))
  }

  predicate EqualsIgnoreCase(a: string, b: string) {
    ToLower(a) == ToLower(b)
  }

  predicate EndsWith(s: string, p: string) {
    |p| <= |s| && s[|s| - |p|..] == p
  }

  predicate OccursAt(s: string, p: string, i: nat) {
    i + |p| <= |s| && s[i..i + |p|] == p
  }

  predicate Contains(s: string, p: string) {
    exists i: nat | i <= |s| :: OccursAt(s, p, i)
  }

  /** `split(sep)`: the pieces between separators, at least one. */
  function Split(s: string, sep: char): (parts: seq<string>)
    ensures |parts| >= 1
  {
    if s == "" then [""]
    else
      var rest := Split(s[1..], sep);
      if s[0] == sep then [""] + rest else [[s[0]] + rest[0]] + rest[1..]
  }

  /** `split_once(sep)`: the text before and after the first separator. */
  function SplitOnce(s: string, sep: char): Option<(string, string)> {
    if s == "" then None
    else if s[0] == sep then Some(("", s[1..]))
    else
      match SplitOnce(s[1..], sep)
      case None => None
      case Some((before, after)) => Some(([s[0]] + before, after))
  }

  /** `rsplit_once(pat)`: the text before and after the last occurrence of a pattern. */
  function RSplitOnce(s: string, pat: string): Option<(string, string)> {
    RSplitFrom(s, pat, |s|)
  }

  function RSplitFrom(s: string, pat: string, i: nat): Option<(string, string)>
    requires i <= |s|
  {
    if OccursAt(s, pat, i) then Some((s[..i], s[i + |pat|..]))
    else if i == 0 then None
    else RSplitFrom(s, pat, i - 1)
  }

  /** `replace(pat, to)`, and sed's `s/pat/to/g` for a literal pattern: left to right, not overlapping. */
  function ReplaceAll(s: string, pat: string, to: string): string
    requires pat != ""
  {
    if s == "" then ""
    else if pat <= s then to + ReplaceAll(s[|pat|..], pat, to)
    else [s[0]] + ReplaceAll(s[1..], pat, to)
  }

  /** The last occurrence splits where no later one starts. */
  lemma {:induction false} RSplitAtLast(s: string, pat: string, at: nat, i: nat)
    requires at <= i <= |s| && OccursAt(s, pat, at)
    requires forall k: nat | at < k <= i :: !OccursAt(s, pat, k)
    ensures RSplitFrom(s, pat, i) == Some((s[..at], s[at + |pat|..]))
  {
    if i > at {
      RSplitAtLast(s, pat, at, i - 1);
    }
  }

  lemma {:induction false} TrimStartStops(s: string)
    ensures TrimStart(s) == "" || !IsWhite(TrimStart(s)[0])
  {
    if s != "" && IsWhite(s[0]) {
      TrimStartStops(s[1..]);
    }
  }

  lemma {:induction false} TrimEndStops(s: string)
    ensures TrimEnd(s) == "" || (!IsWhite(TrimEnd(s)[|TrimEnd(s)| - 1]) && TrimEnd(s)[0] == s[0])
  {
    if s != "" && IsWhite(s[|s| - 1]) {
      TrimEndStops(s[..|s| - 1]);
    }
  }

  lemma TrimIsIdempotent(s: string)
    ensures Trim(Trim(s)) == Trim(s)
  {
    TrimStartStops(s);
    TrimEndStops(TrimStart(s));
  }

  lemma OccursStart(s: string, p: string, i: nat)
    requires p != "" && OccursAt(s, p, i)
    ensures i < |s| && s[i] == p[0]
  {
  }

  lemma ContainedStart(s: string, p: string)
    requires p != "" && Contains(s, p)
    ensures p[0] in s
  {
  }

  /** A text mentions a pattern when it is the pattern with something before and something after it. */
  ghost predicate Mentions(s: string, p: string) {
    exists a: string, b: string :: s == a + p + b
  }

  lemma ContainsExactly(s: string, p: string)
    ensures Contains(s, p) <==> Mentions(s, p)
  {
    if i: nat :| i <= |s| && OccursAt(s, p, i) {
      assert s == s[..i] + p + s[i + |p|..];
    }
    if a: string, b: string :| s == a + p + b {
      assert OccursAt(s, p, |a|);
    }
  }

  lemma EndsWithExactly(s: string, p: string)
    ensures EndsWith(s, p) <==> exists a: string :: s == a + p
  {
    if EndsWith(s, p) {
      assert s == s[..|s| - |p|] + p;
    }
  }

  lemma {:induction false} SplitPlain(s: string, sep: char)
    requires sep !in s
    ensures Split(s, sep) == [s] && SplitOnce(s, sep) == None
  {
    if s != "" {
      SplitPlain(s[1..], sep);
      assert [s[0]] + s[1..] == s;
    }
  }
}
