/** Grammar expressions in GBNF, the notation the schema converter emits, and the language
    each of them denotes.

    A rule reference is interpreted by an environment `env(name, text)`: "the rule called
    `name` accepts `text`".  `Solves` ties an environment to a table of rules: what the
    environment says of a name is what the body of that rule accepts. */
module Gbnf {
  import opened Common
  import opened Decimal

  datatype Expr =
    | Lit(text: string)                            // "text"
    | Class(lo: char, hi: char)                    // [lo-hi]
    | NoneOf(chars: string)                        // [^chars]
    | AnyOf(chars: string)                         // [chars]
    | Ref(name: string)                            // name
    | Group(body: Expr)                            // ( body )
    | Seq(first: Expr, second: Expr)               // first second
    | Alt(left: Expr, right: Expr)                 // left | right
    | Repeat(body: Expr, min: nat, max: Limit)     // body{min,max}

  type Env = (string, string) -> bool

  predicate Within(k: nat, min: nat, max: Limit) {
    min <= k && (max.AtMost? ==> k <= max.n)
  }

  /** `w` belongs to the language of `e`. */
  ghost predicate Accepts(env: Env, e: Expr, w: string)
    decreases e
  {
    match e
    case Lit(text) => w == text
    case Class(lo, hi) => |w| == 1 && lo <= w[0] <= hi
    case NoneOf(chars) => |w| == 1 && w[0] !in chars
    case AnyOf(chars) => |w| == 1 && w[0] in chars
    case Ref(name) => env(name, w)
    case Group(body) => Accepts(env, body, w)
    case Seq(first, second) =>
      exists i :: 0 <= i <= |w| && Accepts(env, first, w[..i]) && Accepts(env, second, w[i..])
    case Alt(left, right) => Accepts(env, left, w) || Accepts(env, right, w)
    case Repeat(body, min, max) =>
      exists ws: seq<string> :: Within(|ws|, min, max) && Concat(ws) == w
                                && forall i :: 0 <= i < |ws| ==> Accepts(env, body, ws[i])
  }

  /** The parse of the rendered text is the tree itself: alternation binds loosest, then
      sequencing, and a repetition applies to a single symbol. */
  predicate WellNested(e: Expr) {
    match e
    case Group(body) => WellNested(body)
    case Seq(first, second) =>
      WellNested(first) && WellNested(second) && !first.Alt? && !first.Seq? && !second.Alt?
    case Alt(left, right) => WellNested(left) && WellNested(right)
    case Repeat(body, _, _) =>
      WellNested(body) && !body.Alt? && !body.Seq? && !body.Repeat?
    case _ => true
  }

  /** The GBNF text of an expression whose literals and classes need no escapes. */
  function Show(e: Expr): (text: string)
  {
    match e
    case Lit(text) => "\"" + text + "\""
    case Class(lo, hi) => if lo == hi then "[" + [lo] + "]" else "[" + [lo] + "-" + [hi] + "]"
    case Group(body) => "(" + Show(body) + ")"
    case Seq(first, second) => Show(first) + " " + Show(second)
    case Alt(left, right) => Show(left) + " | " + Show(right)
    case Repeat(body, min, max) =>
      Show(body) + "{" + Numeral(min)
      + (if max == AtMost(min) then "" else "," + if max.AtMost? then Numeral(max.n) else "") + "}"
    case Ref(name) => name
    case NoneOf(chars) => "[^" + chars + "]"
    case AnyOf(chars) => "[" + chars + "]"
  }

  // The clauses of `Accepts` one at a time, for proofs that keep its definition folded.

  lemma AltCases(env: Env, a: Expr, b: Expr, w: string)
    ensures Accepts(env, Alt(a, b), w) <==> Accepts(env, a, w) || Accepts(env, b, w)
  {}

  lemma GroupSame(env: Env, a: Expr, w: string)
    ensures Accepts(env, Group(a), w) <==> Accepts(env, a, w)
  {}

  lemma RefSame(env: Env, name: string, w: string)
    ensures Accepts(env, Ref(name), w) <==> env(name, w)
  {}

  lemma SeqJoin(env: Env, a: Expr, b: Expr, x: string, y: string)
    requires Accepts(env, a, x) && Accepts(env, b, y)
    ensures Accepts(env, Seq(a, b), x + y)
  {
    assert (x + y)[..|x|] == x && (x + y)[|x|..] == y;
  }

  lemma SeqCut(env: Env, a: Expr, b: Expr, w: string) returns (i: nat)
    requires Accepts(env, Seq(a, b), w)
    ensures i <= |w| && Accepts(env, a, w[..i]) && Accepts(env, b, w[i..])
  {
    i :| i <= |w| && Accepts(env, a, w[..i]) && Accepts(env, b, w[i..]);
  }

  /** How a sequence headed by a single-character symbol reads its first character. */
  lemma SeqOfClass(env: Env, lo: char, hi: char, rest: Expr, w: string)
    ensures Accepts(env, Seq(Class(lo, hi), rest), w)
            <==> |w| > 0 && lo <= w[0] <= hi && Accepts(env, rest, w[1..])
  {
    if Accepts(env, Seq(Class(lo, hi), rest), w) {
      var i :| 0 <= i <= |w| && Accepts(env, Class(lo, hi), w[..i]) && Accepts(env, rest, w[i..]);
      assert i == 1;
    }
    if |w| > 0 && lo <= w[0] <= hi && Accepts(env, rest, w[1..]) {
      assert Accepts(env, Class(lo, hi), w[..1]);
    }
  }

  lemma SeqOfLit(env: Env, text: string, rest: Expr, w: string)
    ensures Accepts(env, Seq(Lit(text), rest), w)
            <==> text <= w && Accepts(env, rest, w[|text|..])
  {
    if Accepts(env, Seq(Lit(text), rest), w) {
      var i :| 0 <= i <= |w| && Accepts(env, Lit(text), w[..i]) && Accepts(env, rest, w[i..]);
      assert i == |text|;
    }
    if text <= w && Accepts(env, rest, w[|text|..]) {
      assert Accepts(env, Lit(text), w[..|text|]);
    }
  }

  function Singles(w: string): (ws: seq<string>) {
    seq(|w|, i requires 0 <= i < |w| => [w[i]])
  }

  lemma {:induction false} ConcatSingles(w: string)
    ensures Concat(Singles(w)) == w
  {
    if w != "" {
      ConcatSingles(w[1..]);
      assert Singles(w)[1..] == Singles(w[1..]);
      assert w == [w[0]] + w[1..];
    }
  }

  lemma {:induction false} ConcatOfSingles(ws: seq<string>)
    requires forall i :: 0 <= i < |ws| ==> |ws[i]| == 1
    ensures |Concat(ws)| == |ws|
    ensures forall i :: 0 <= i < |ws| ==> Concat(ws)[i] == ws[i][0]
  {
    if ws != [] {
      ConcatOfSingles(ws[1..]);
      forall i | 0 <= i < |ws| ensures Concat(ws)[i] == ws[i][0] {
        if i > 0 {
          assert ws[i] == ws[1..][i - 1];
        }
      }
    }
  }

  /** A repeated character class accepts exactly the words of its characters with a length
      inside the repetition bounds. */
  lemma RepeatedClass(env: Env, lo: char, hi: char, min: nat, max: Limit, w: string)
    ensures Accepts(env, Repeat(Class(lo, hi), min, max), w)
            <==> Within(|w|, min, max) && forall i :: 0 <= i < |w| ==> lo <= w[i] <= hi
  {
    var body := Class(lo, hi);
    if Accepts(env, Repeat(body, min, max), w) {
      var ws: seq<string> :| Within(|ws|, min, max) && Concat(ws) == w
                             && forall i :: 0 <= i < |ws| ==> Accepts(env, body, ws[i]);
      ConcatOfSingles(ws);
    }
    if Within(|w|, min, max) && forall i :: 0 <= i < |w| ==> lo <= w[i] <= hi {
      ConcatSingles(w);
      var ws := Singles(w);
      assert forall i :: 0 <= i < |ws| ==> Accepts(env, body, ws[i]);
    }
  }

  lemma OptionalGroup(env: Env, x: Expr, k: string)
    ensures Accepts(env, Repeat(Group(x), 0, AtMost(1)), k) <==> k == "" || Accepts(env, x, k)
  {
    if Accepts(env, Repeat(Group(x), 0, AtMost(1)), k) {
      var ws: seq<string> :| Within(|ws|, 0, AtMost(1)) && Concat(ws) == k
                             && forall i :: 0 <= i < |ws| ==> Accepts(env, Group(x), ws[i]);
      if ws != [] {
        assert Concat(ws) == ws[0] + Concat(ws[1..]) && ws[1..] == [];
        assert k == ws[0];
      }
    }
    if k == "" || Accepts(env, x, k) {
      var ws := if k == "" then [] else [k];
      assert ws != [] ==> Concat(ws) == k + Concat(ws[1..]);
      assert Concat(ws) == k;
    }
  }
}
