/** Substitution of `{{KEY}}` tokens in a container command (`install_app` in `docker.rs`). */
module CommandTokens {
  import opened Text

  datatype Piece = Literal(text: string) | Token(key: string)

  predicate BraceFree(s: string) {
    '{' !in s && '}' !in s
  }

  /** A command argument as its author means it. */
  predicate Template(pieces: seq<Piece>) {
    forall p | p in pieces :: BraceFree(if p.Literal? then p.text else p.key)
  }

  /** Keys are free of braces, and so are the values that the template asks for. */
  predicate BraceFreeEnv(env: map<string, string>, pieces: seq<Piece>) {
    (forall k | k in env :: BraceFree(k)) && forall p | p in pieces ::
      p.Token? && p.key in env ==> BraceFree(env[p.key])
  }

  function TokenText(key: string): string {
    "{{" + key + "}}"
  }

  function PieceText(p: Piece): string {
    if p.Literal? then p.text else TokenText(p.key)
  }

  function Rendered(pieces: seq<Piece>): string {
    if pieces == [] then "" else PieceText(pieces[0]) + Rendered(pieces[1..])
  }

  /** Simultaneous substitution of the tokens whose key is in `keys`. */
  function Substituted(pieces: seq<Piece>, env: map<string, string>, keys: set<string>): seq<Piece>
    requires keys <= env.Keys
  {
    seq(|pieces|, i requires 0 <= i < |pieces| =>
      if pieces[i].Token? && pieces[i].key in keys then Literal(env[pieces[i].key]) else pieces[i])
  }

  lemma {:induction false} ReplaceSkipsLiteral(text: string, rest: string, pat: string, value: string)
    requires pat != "" && pat[0] !in text
    ensures ReplaceAll(text + rest, pat, value) == text + ReplaceAll(rest, pat, value)
  {
    if text == "" {
      assert text + rest == rest;
    } else {
      assert (text + rest)[0] == text[0] && (text + rest)[1..] == text[1..] + rest;
      ReplaceSkipsLiteral(text[1..], rest, pat, value);
    }
  }

  lemma TokensDiffer(key: string, other: string, rest: string)
    requires BraceFree(key) && BraceFree(other) && TokenText(key) <= TokenText(other) + rest
    ensures key == other
  {
    var s := TokenText(other) + rest;
    assert forall i | 0 <= i < |key| :: key[i] == s[i + 2];
    assert forall i | 0 <= i < |other| :: other[i] == s[i + 2];
    assert s[|key| + 2] == '}' && s[|other| + 2] == '}';
  }

  lemma ReplaceSkipsOtherToken(key: string, other: string, rest: string, value: string)
    requires BraceFree(key) && BraceFree(other) && key != other
    ensures ReplaceAll(TokenText(other) + rest, TokenText(key), value) ==
      TokenText(other) + ReplaceAll(rest, TokenText(key), value)
  {
    var pat := TokenText(key);
    var s := TokenText(other) + rest;
    if pat <= s {
      TokensDiffer(key, other, rest);
    }
    var s1 := "{" + other + "}}" + rest;
    assert s == ['{'] + s1 && s[1..] == s1;
    assert s1[1] != '{' && pat[1] == '{';
    assert !(pat <= s1);
    var s2 := other + "}}" + rest;
    assert s1[0] == '{' && s1[1..] == s2;
    assert s2 == (other + "}}") + rest;
    ReplaceSkipsLiteral(other + "}}", rest, pat, value);
    assert ReplaceAll(s, pat, value) == ['{'] + (['{'] + ((other + "}}") + ReplaceAll(rest, pat, value)));
    assert TokenText(other) + ReplaceAll(rest, pat, value) ==
      ['{'] + (['{'] + ((other + "}}") + ReplaceAll(rest, pat, value)));
  }

  /** The text of one piece after a round of the loop. */
  lemma ReplaceInPiece(p: Piece, tail: string, key: string, value: string)
    requires BraceFree(if p.Literal? then p.text else p.key) && BraceFree(key)
    ensures ReplaceAll(PieceText(p) + tail, TokenText(key), value)
         == (if p == Token(key) then value else PieceText(p)) + ReplaceAll(tail, TokenText(key), value)
  {
    if p.Literal? {
      ReplaceSkipsLiteral(p.text, tail, TokenText(key), value);
    } else if p.key == key {
      var s := TokenText(key) + tail;
      assert TokenText(key) <= s && s[|TokenText(key)|..] == tail;
    } else {
      ReplaceSkipsOtherToken(key, p.key, tail, value);
    }
  }

  /** One round of the loop replaces exactly the tokens of its key. */
  lemma {:induction false} ReplaceOneKey(pieces: seq<Piece>, env: map<string, string>, key: string)
    requires Template(pieces) && BraceFree(key) && key in env
    ensures ReplaceAll(Rendered(pieces), TokenText(key), env[key]) == Rendered(Substituted(pieces, env, {key}))
  {
    hide ReplaceAll, TokenText, BraceFree;
    if pieces == [] {
      EmptyReplaced(key, env[key]);
    } else {
      var p, rest := pieces[0], pieces[1..];
      assert p in pieces && forall q | q in rest :: q in pieces;
      ReplaceOneKey(rest, env, key);
      assert Substituted(pieces, env, {key})[1..] == Substituted(rest, env, {key});
      ReplaceInPiece(p, Rendered(rest), key, env[key]);
    }
  }

  lemma EmptyReplaced(key: string, value: string)
    ensures ReplaceAll("", TokenText(key), value) == ""
  {
  }

  lemma SubstitutedStaysTemplate(pieces: seq<Piece>, env: map<string, string>, keys: set<string>)
    requires Template(pieces) && BraceFreeEnv(env, pieces) && keys <= env.Keys
    ensures Template(Substituted(pieces, env, keys))
  {
  }

  lemma SubstituteInTurn(pieces: seq<Piece>, env: map<string, string>, done: set<string>, key: string)
    requires done <= env.Keys && key in env
    ensures Substituted(Substituted(pieces, env, done), env, {key}) == Substituted(pieces, env, done + {key})
  {
  }

  /**
   The replace loop over the hash map, in whatever order it yields its entries, substitutes every known token at
   once and leaves unknown ones.
   */
  method SubstituteTokens(arg: string, env: map<string, string>, ghost pieces: seq<Piece>) returns (out: string)
    requires BraceFreeEnv(env, pieces) && Template(pieces) && arg == Rendered(pieces)
    ensures out == Rendered(Substituted(pieces, env, env.Keys))
  {
    out := arg;
    var todo := env.Keys;
    assert Substituted(pieces, env, {}) == pieces;
    assert env.Keys - todo == {};
    while todo != {}
      invariant todo <= env.Keys
      invariant out == Rendered(Substituted(pieces, env, env.Keys - todo))
    {
      var k :| k in todo;
      SubstitutedStaysTemplate(pieces, env, env.Keys - todo);
      ReplaceOneKey(Substituted(pieces, env, env.Keys - todo), env, k);
      SubstituteInTurn(pieces, env, env.Keys - todo, k);
      assert env.Keys - (todo - {k}) == env.Keys - todo + {k};
      out := ReplaceAll(out, TokenText(k), env[k]);
      todo := todo - {k};
    }
    assert env.Keys - todo == env.Keys;
  }

  /** The loop for one order of the keys. */
  function ReplaceInOrder(s: string, env: map<string, string>, order: seq<string>): string
    requires forall k | k in order :: k in env
    decreases |order|
  {
    if order == [] then s
    else
      assert forall k | k in order[1..] :: k in order;
      ReplaceInOrder(ReplaceAll(s, TokenText(order[0]), env[order[0]]), env, order[1..])
  }

  lemma {:induction false} AnyOrderSubstitutes(pieces: seq<Piece>, env: map<string, string>, order: seq<string>,
      done: set<string>)
    requires BraceFreeEnv(env, pieces) && Template(pieces) && done <= env.Keys && forall k | k in order :: k in env
    ensures ReplaceInOrder(Rendered(Substituted(pieces, env, done)), env, order)
         == Rendered(Substituted(pieces, env, done + set k | k in order))
  {
    hide ReplaceAll, Substituted, Rendered, TokenText, Template, BraceFree;
    if order == [] {
      assert done + (set k | k in order) == done;
    } else {
      assert order[0] in order && forall k | k in order[1..] :: k in order;
      SubstitutedStaysTemplate(pieces, env, done);
      ReplaceOneKey(Substituted(pieces, env, done), env, order[0]);
      SubstituteInTurn(pieces, env, done, order[0]);
      AnyOrderSubstitutes(pieces, env, order[1..], done + {order[0]});
      assert done + {order[0]} + (set k | k in order[1..]) == done + set k | k in order by {
        assert order == [order[0]] + order[1..];
      }
    }
  }

  /** With a brace in a value the order shows: `{{A}}` under A = "{{B}}", B = "x". */
  lemma BracesMakeTheOrderVisible(env: map<string, string>)
    requires env == map["A" := "{{B}}", "B" := "x"]
    ensures ReplaceInOrder("{{A}}", env, ["A", "B"]) == "x"
    ensures ReplaceInOrder("{{A}}", env, ["B", "A"]) == "{{B}}"
  {
    ReplaceWhole("{{A}}", "{{B}}");
    ReplaceWhole("{{B}}", "x");
    assert TokenText("A") == "{{A}}" && TokenText("B") == "{{B}}";
    ReplaceSkipsOtherToken("B", "A", "", "x");
    assert TokenText("A") + "" == "{{A}}" && ReplaceAll("", TokenText("B"), "x") == "";
    TwoInOrder("{{A}}", env, "A", "B");
    TwoInOrder("{{A}}", env, "B", "A");
  }

  lemma TwoInOrder(s: string, env: map<string, string>, first: string, second: string)
    requires first in env && second in env
    ensures ReplaceInOrder(s, env, [first, second])
         == ReplaceAll(ReplaceAll(s, TokenText(first), env[first]), TokenText(second), env[second])
  {
    var order := [first, second];
    assert order[1..] == [second] && order[1..][1..] == [];
    var once := ReplaceAll(s, TokenText(first), env[first]);
    assert ReplaceInOrder(once, env, order[1..]) == ReplaceAll(once, TokenText(second), env[second]);
  }

  lemma ReplaceWhole(s: string, value: string)
    requires s != ""
    ensures ReplaceAll(s, s, value) == value
  {
  }
}
