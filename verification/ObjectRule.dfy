/** The rule written for a JSON object: required members in order, then any of the optional
    ones in order, then additional members, with commas only between members.

    Members are named by their keys; `"*"` stands for the additional ones.  `kv` gives, for
    each key, the rule that accepts one whole member (key, colon and value). */
module ObjectRule {
  import opened Common
  import opened Gbnf

  type Rules = map<string, Expr>

  /** `env` reads every rule of the table as its body. */
  ghost predicate Solves(env: Env, rules: Rules) {
    forall name, w :: name in rules ==> (env(name, w) <==> Accepts(env, rules[name], w))
  }

  /** `w` can be derived from `e` in finitely many steps. */
  least predicate Derives(rules: Rules, e: Expr, w: string) {
    match e
    case Lit(text) => w == text
    case Class(lo, hi) => |w| == 1 && lo <= w[0] <= hi
    case NoneOf(chars) => |w| == 1 && w[0] !in chars
    case AnyOf(chars) => |w| == 1 && w[0] in chars
    case Ref(name) => name in rules && Derives(rules, rules[name], w)
    case Group(body) => Derives(rules, body, w)
    case Seq(first, second) =>
      exists i :: 0 <= i <= |w| && Derives(rules, first, w[..i]) && Derives(rules, second, w[i..])
    case Alt(left, right) => Derives(rules, left, w) || Derives(rules, right, w)
    case Repeat(body, min, max) =>
      exists ws: seq<string> :: Within(|ws|, min, max) && Concat(ws) == w
                                && forall i :: 0 <= i < |ws| ==> Derives(rules, body, ws[i])
  }

  ghost function Derivation(rules: Rules): (env: Env) {
    (name, w) => name in rules && Derives(rules, rules[name], w)
  }

  lemma {:induction false} DerivesIsAccepted(rules: Rules, e: Expr, w: string)
    ensures Accepts(Derivation(rules), e, w) <==> Derives(rules, e, w)
    decreases e
  {
    var env := Derivation(rules);
    match e
    case Group(body) =>
      DerivesIsAccepted(rules, body, w);
    case Alt(left, right) =>
      DerivesIsAccepted(rules, left, w);
      DerivesIsAccepted(rules, right, w);
    case Seq(first, second) =>
      forall x ensures Accepts(env, first, x) <==> Derives(rules, first, x) {
        DerivesIsAccepted(rules, first, x);
      }
      forall x ensures Accepts(env, second, x) <==> Derives(rules, second, x) {
        DerivesIsAccepted(rules, second, x);
      }
    case Repeat(body, _, _) =>
      forall x ensures Accepts(env, body, x) <==> Derives(rules, body, x) {
        DerivesIsAccepted(rules, body, x);
      }
    case _ =>
  }

  /** Every table has a reading, even one with references that lead in a circle. */
  lemma ReadingExists(rules: Rules) returns (env: Env)
    ensures Solves(env, rules)
    ensures forall name, w :: name !in rules ==> !env(name, w)
  {
    env := Derivation(rules);
    forall name, w | name in rules ensures env(name, w) <==> Accepts(env, rules[name], w) {
      DerivesIsAccepted(rules, rules[name], w);
    }
  }

  /** No rule of `old` is lost or changed. */
  ghost predicate Extends(rules: Rules, before: Rules) {
    forall name :: name in before ==> name in rules && rules[name] == before[name]
  }

  const STAR := "*"
  const SPACE := "space"

  // ----- the grammar that is built -----

  function CommaRef(rule: string): (e: Expr) {
    Group(Seq(Lit(","), Seq(Ref(SPACE), Ref(rule))))
  }

  function Head(rule: string, star: bool, optional: bool): (e: Expr) {
    if optional then Repeat(CommaRef(rule), 0, if star then NoLimit else AtMost(1))
    else if star then Seq(Ref(rule), Repeat(CommaRef(rule), 0, NoLimit))
    else Ref(rule)
  }

  predicate Named(kv: map<string, string>, ks: seq<string>) {
    forall k :: k in ks ==> k in kv
  }

  /** `e` is what `get_recursive_refs(ks, optional)` returns, its "-rest" rules included. */
  predicate IsRefs(rules: Rules, kv: map<string, string>, ks: seq<string>, optional: bool, e: Expr)
    requires Named(kv, ks)
    decreases |ks|
  {
    ks != [] &&
    var head := Head(kv[ks[0]], ks[0] == STAR, optional);
    if |ks| == 1 then e == head
    else
      && e.Seq? && e.first == head && e.second.Ref? && e.second.name in rules
      && IsRefs(rules, kv, ks[1..], true, rules[e.second.name])
  }

  lemma {:induction false} RefsStay(rules: Rules, before: Rules, kv: map<string, string>, ks: seq<string>, optional: bool, e: Expr)
    requires Extends(rules, before) && Named(kv, ks) && IsRefs(before, kv, ks, optional, e)
    ensures IsRefs(rules, kv, ks, optional, e)
    decreases |ks|
  {
    if |ks| > 1 {
      RefsStay(rules, before, kv, ks[1..], true, before[e.second.name]);
    }
  }

  function Alternatives(alts: seq<Expr>): (e: Expr)
    requires alts != []
  {
    if |alts| == 1 then alts[0] else Alt(alts[0], Alternatives(alts[1..]))
  }

  function RequiredChain(kv: map<string, string>, ks: seq<string>): (e: Expr)
    requires ks != [] && Named(kv, ks)
  {
    if |ks| == 1 then Ref(kv[ks[0]])
    else Seq(Ref(kv[ks[0]]), Seq(Lit(","), Seq(Ref(SPACE), RequiredChain(kv, ks[1..]))))
  }

  /** What stands between the braces. */
  function Inside(kv: map<string, string>, required: seq<string>, alts: seq<Expr>): (e: Expr)
    requires Named(kv, required)
  {
    if alts == [] then
      if required == [] then Lit("") else RequiredChain(kv, required)
    else if required == [] then
      Repeat(Group(Alternatives(alts)), 0, AtMost(1))
    else
      Seq(RequiredChain(kv, required), BehindGroup(Alternatives(alts)))
  }

  function ObjectBody(kv: map<string, string>, required: seq<string>, alts: seq<Expr>): (e: Expr)
    requires Named(kv, required)
  {
    Seq(Lit("{"), Seq(Ref(SPACE), Seq(Inside(kv, required, alts), Seq(Lit("}"), Ref(SPACE)))))
  }

  /** The alternatives: one for each optional key the selection may start with. */
  predicate AreStarts(rules: Rules, kv: map<string, string>, optional: seq<string>, alts: seq<Expr>)
    requires Named(kv, optional)
  {
    |alts| == |optional|
    && forall i :: 0 <= i < |optional| ==> IsRefs(rules, kv, optional[i..], false, alts[i])
  }

  ghost predicate IsObject(rules: Rules, kv: map<string, string>, required: seq<string>, optional: seq<string>, e: Expr) {
    && Named(kv, required) && Named(kv, optional)
    && exists alts :: AreStarts(rules, kv, optional, alts) && e == ObjectBody(kv, required, alts)
  }

  lemma ObjectStays(rules: Rules, before: Rules, kv: map<string, string>, required: seq<string>, optional: seq<string>, e: Expr)
    requires Extends(rules, before) && IsObject(before, kv, required, optional, e)
    ensures IsObject(rules, kv, required, optional, e)
  {
    var alts :| AreStarts(before, kv, optional, alts) && e == ObjectBody(kv, required, alts);
    forall i | 0 <= i < |optional| ensures IsRefs(rules, kv, optional[i..], false, alts[i]) {
      RefsStay(rules, before, kv, optional[i..], false, alts[i]);
    }
    assert AreStarts(rules, kv, optional, alts);
  }

  // ----- the lists of members it should accept -----

  /** `ms` takes keys from `ks` in order, each at most once, `"*"` any number of times. */
  ghost predicate Picks(ks: seq<string>, ms: seq<string>)
    decreases |ks|
  {
    if ks == [] then ms == []
    else exists n: nat :: CanTake(ks[0], n, ms) && Picks(ks[1..], ms[n..])
  }

  predicate CanTake(k: string, n: nat, ms: seq<string>) {
    n <= |ms| && (k == STAR || n <= 1) && forall i :: 0 <= i < n ==> ms[i] == k
  }

  /** The text of members each preceded by a comma. */
  ghost predicate CommaText(env: Env, kv: map<string, string>, ms: seq<string>, w: string)
    requires Named(kv, ms)
    decreases |ms|
  {
    if ms == [] then w == ""
    else exists x, y :: w == x + y && MemberText(env, kv[ms[0]], x) && CommaText(env, kv, ms[1..], y)
  }

  ghost predicate MemberText(env: Env, rule: string, x: string) {
    exists sp, v :: x == "," + (sp + v) && env(SPACE, sp) && env(rule, v)
  }

  /** The text of members separated by commas. */
  ghost predicate ListText(env: Env, kv: map<string, string>, ms: seq<string>, w: string)
    requires Named(kv, ms)
  {
    if ms == [] then w == ""
    else exists v, y :: w == v + y && env(kv[ms[0]], v) && CommaText(env, kv, ms[1..], y)
  }

  // ----- one step of the grammar -----

  lemma CommaRefExact(env: Env, rule: string, w: string)
    ensures Accepts(env, CommaRef(rule), w) <==> MemberText(env, rule, w)
  {
    hide Accepts;
    var tail := Seq(Ref(SPACE), Ref(rule));
    GroupSame(env, Seq(Lit(","), tail), w);
    SeqOfLit(env, ",", tail, w);
    forall name, v ensures Accepts(env, Ref(name), v) <==> env(name, v) { RefSame(env, name, v); }
    if Accepts(env, CommaRef(rule), w) {
      var u := w[1..];
      var i := SeqCut(env, Ref(SPACE), Ref(rule), u);
      assert w == "," + (u[..i] + u[i..]);
    }
    if MemberText(env, rule, w) {
      var sp, v :| w == "," + (sp + v) && env(SPACE, sp) && env(rule, v);
      SeqJoin(env, Ref(SPACE), Ref(rule), sp, v);
      assert w[1..] == sp + v;
    }
  }

  function Times(k: string, n: nat): (ms: seq<string>)
    ensures |ms| == n && forall i :: 0 <= i < n ==> ms[i] == k
  {
    seq(n, _ => k)
  }

  lemma {:induction false} TextOfConcat(env: Env, kv: map<string, string>, k: string, ws: seq<string>)
    requires k in kv && forall i :: 0 <= i < |ws| ==> MemberText(env, kv[k], ws[i])
    ensures CommaText(env, kv, Times(k, |ws|), Concat(ws))
  {
    if ws != [] {
      TextOfConcat(env, kv, k, ws[1..]);
      assert Times(k, |ws|)[1..] == Times(k, |ws| - 1);
    }
  }

  lemma {:induction false} ConcatOfText(env: Env, kv: map<string, string>, k: string, n: nat, w: string) returns (ws: seq<string>)
    requires k in kv && CommaText(env, kv, Times(k, n), w)
    ensures |ws| == n && Concat(ws) == w && forall i :: 0 <= i < |ws| ==> MemberText(env, kv[k], ws[i])
  {
    if n == 0 {
      ws := [];
    } else {
      var x, y := TimesUncons(env, kv, k, n, w);
      hide *;
      var rest := ConcatOfText(env, kv, k, n - 1, y);
      ws := [x] + rest;
      ConcatCons(x, rest);
    }
  }

  lemma TimesUncons(env: Env, kv: map<string, string>, k: string, n: nat, w: string) returns (x: string, y: string)
    requires k in kv && n > 0 && CommaText(env, kv, Times(k, n), w)
    ensures w == x + y && MemberText(env, kv[k], x) && CommaText(env, kv, Times(k, n - 1), y)
  {
    hide CommaText, MemberText;
    x, y := TextUncons(env, kv, Times(k, n), w);
    TimesTail(k, n);
  }

  lemma TimesTail(k: string, n: nat)
    requires n > 0
    ensures Times(k, n)[1..] == Times(k, n - 1)
  {}

  lemma ConcatCons(x: string, rest: seq<string>)
    ensures Concat([x] + rest) == x + Concat(rest)
  {
    assert ([x] + rest)[1..] == rest;
  }

  /** An optional head accepts the members it may take, each with its comma. */
  lemma OptionalHeadExact(env: Env, kv: map<string, string>, k: string, w: string)
    requires k in kv
    ensures Accepts(env, Head(kv[k], k == STAR, true), w)
            <==> exists n: nat :: (k == STAR || n <= 1) && CommaText(env, kv, Times(k, n), w)
  {
    var lim := if k == STAR then NoLimit else AtMost(1);
    var body := CommaRef(kv[k]);
    forall x ensures Accepts(env, body, x) <==> MemberText(env, kv[k], x) { CommaRefExact(env, kv[k], x); }
    if Accepts(env, Repeat(body, 0, lim), w) {
      var ws: seq<string> :| Within(|ws|, 0, lim) && Concat(ws) == w
                             && forall i :: 0 <= i < |ws| ==> Accepts(env, body, ws[i]);
      TextOfConcat(env, kv, k, ws);
    }
    forall n: nat | (k == STAR || n <= 1) && CommaText(env, kv, Times(k, n), w)
      ensures Accepts(env, Repeat(body, 0, lim), w)
    {
      var ws := ConcatOfText(env, kv, k, n, w);
    }
  }

  lemma TextCons(env: Env, kv: map<string, string>, k: string, ms: seq<string>, x: string, y: string)
    requires k in kv && Named(kv, ms) && MemberText(env, kv[k], x) && CommaText(env, kv, ms, y)
    ensures Named(kv, [k] + ms) && CommaText(env, kv, [k] + ms, x + y)
  {
    assert ([k] + ms)[1..] == ms;
  }

  lemma TextUncons(env: Env, kv: map<string, string>, ms: seq<string>, w: string) returns (x: string, y: string)
    requires ms != [] && Named(kv, ms) && CommaText(env, kv, ms, w)
    ensures w == x + y && MemberText(env, kv[ms[0]], x) && Named(kv, ms[1..]) && CommaText(env, kv, ms[1..], y)
  {
    x, y :| w == x + y && MemberText(env, kv[ms[0]], x) && CommaText(env, kv, ms[1..], y);
  }

  lemma TextNil(env: Env, kv: map<string, string>, w: string)
    ensures CommaText(env, kv, [], w) <==> w == ""
  {}

  lemma {:induction false} CommaTextJoin(env: Env, kv: map<string, string>, a: seq<string>, b: seq<string>, x: string, y: string)
    requires Named(kv, a) && Named(kv, b)
    requires CommaText(env, kv, a, x) && CommaText(env, kv, b, y)
    ensures Named(kv, a + b) && CommaText(env, kv, a + b, x + y)
    decreases |a|
  {
    hide CommaText, MemberText;
    if a == [] {
      TextNil(env, kv, x);
      assert a + b == b && x + y == y;
    } else {
      var x0, x1 := TextUncons(env, kv, a, x);
      CommaTextJoin(env, kv, a[1..], b, x1, y);
      TextCons(env, kv, a[0], a[1..] + b, x0, x1 + y);
      assert a + b == [a[0]] + (a[1..] + b) && x + y == x0 + (x1 + y);
    }
  }

  lemma {:induction false} CommaTextSplit(env: Env, kv: map<string, string>, ms: seq<string>, n: nat, w: string)
    returns (x: string, y: string)
    requires Named(kv, ms) && n <= |ms| && CommaText(env, kv, ms, w)
    ensures w == x + y && CommaText(env, kv, ms[..n], x) && CommaText(env, kv, ms[n..], y)
    decreases |ms|
  {
    hide CommaText, MemberText;
    if n == 0 {
      x, y := "", w;
      TextNil(env, kv, "");
      assert ms[0..] == ms && ms[..0] == [];
    } else {
      var x0, x1 := TextUncons(env, kv, ms, w);
      var a, b := CommaTextSplit(env, kv, ms[1..], n - 1, x1);
      x, y := x0 + a, b;
      TextCons(env, kv, ms[0], ms[1..][..n - 1], x0, a);
      assert ms[..n] == [ms[0]] + ms[1..][..n - 1] && ms[n..] == ms[1..][n - 1..];
      assert w == x + y;
    }
  }

  /** The members a key list may contribute, as text. */
  ghost predicate PickText(env: Env, kv: map<string, string>, ks: seq<string>, w: string) {
    exists ms :: Picks(ks, ms) && Named(kv, ms) && CommaText(env, kv, ms, w)
  }

  lemma PickStep(env: Env, kv: map<string, string>, ks: seq<string>, n: nat, x: string, y: string)
    requires ks != [] && ks[0] in kv && (ks[0] == STAR || n <= 1)
    requires CommaText(env, kv, Times(ks[0], n), x) && PickText(env, kv, ks[1..], y)
    ensures PickText(env, kv, ks, x + y)
  {
    var rest :| Picks(ks[1..], rest) && Named(kv, rest) && CommaText(env, kv, rest, y);
    var taken := Times(ks[0], n);
    CommaTextJoin(env, kv, taken, rest, x, y);
    assert (taken + rest)[n..] == rest;
    assert CanTake(ks[0], n, taken + rest);
    assert Picks(ks, taken + rest);
  }

  lemma PickUnstep(env: Env, kv: map<string, string>, ks: seq<string>, w: string) returns (n: nat, x: string, y: string)
    requires ks != [] && ks[0] in kv && PickText(env, kv, ks, w)
    ensures w == x + y && (ks[0] == STAR || n <= 1)
    ensures CommaText(env, kv, Times(ks[0], n), x) && PickText(env, kv, ks[1..], y)
  {
    var ms :| Picks(ks, ms) && Named(kv, ms) && CommaText(env, kv, ms, w);
    n :| CanTake(ks[0], n, ms) && Picks(ks[1..], ms[n..]);
    x, y := CommaTextSplit(env, kv, ms, n, w);
    assert ms[..n] == Times(ks[0], n);
    assert Named(kv, ms[n..]);
  }

  /** The rest rules accept exactly the selections from their keys. */
  lemma {:induction false} OptionalRefsExact(env: Env, rules: Rules, kv: map<string, string>, ks: seq<string>, e: Expr, w: string)
    requires Solves(env, rules) && Named(kv, ks) && IsRefs(rules, kv, ks, true, e)
    ensures Accepts(env, e, w) <==> PickText(env, kv, ks, w)
    decreases |ks|
  {
    hide Accepts, CommaText, PickText;
    var head := Head(kv[ks[0]], ks[0] == STAR, true);
    NothingPicked(env, kv);
    if |ks| == 1 {
      OptionalHeadExact(env, kv, ks[0], w);
      assert ks[1..] == [];
      if Accepts(env, e, w) {
        var n: nat :| (ks[0] == STAR || n <= 1) && CommaText(env, kv, Times(ks[0], n), w);
        PickStep(env, kv, ks, n, w, "");
        assert w + "" == w;
      }
      if PickText(env, kv, ks, w) {
        var n, x, y := PickUnstep(env, kv, ks, w);
        NothingLeft(env, kv, y);
        assert x + y == x;
      }
    } else {
      var tail := e.second;
      forall y ensures Accepts(env, tail, y) <==> PickText(env, kv, ks[1..], y) {
        OptionalRefsExact(env, rules, kv, ks[1..], rules[tail.name], y);
        RefExact(env, rules, tail.name, y);
      }
      if Accepts(env, e, w) {
        var i := SeqCut(env, head, tail, w);
        OptionalHeadExact(env, kv, ks[0], w[..i]);
        var n: nat :| (ks[0] == STAR || n <= 1) && CommaText(env, kv, Times(ks[0], n), w[..i]);
        PickStep(env, kv, ks, n, w[..i], w[i..]);
        assert w == w[..i] + w[i..];
      }
      if PickText(env, kv, ks, w) {
        var n, x, y := PickUnstep(env, kv, ks, w);
        OptionalHeadExact(env, kv, ks[0], x);
        SeqJoin(env, head, tail, x, y);
      }
    }
  }

  lemma RefExact(env: Env, rules: Rules, name: string, w: string)
    requires Solves(env, rules) && name in rules
    ensures Accepts(env, Ref(name), w) <==> Accepts(env, rules[name], w)
  {}

  lemma NothingPicked(env: Env, kv: map<string, string>)
    ensures PickText(env, kv, [], "")
  {
    var none: seq<string> := [];
    assert Picks([], none) && Named(kv, none) && CommaText(env, kv, none, "");
  }

  lemma NothingLeft(env: Env, kv: map<string, string>, y: string)
    requires PickText(env, kv, [], y)
    ensures y == ""
  {}

  // ----- selections that start with a given key -----

  /** What may follow the first member of a selection starting with `ks[0]`. */
  ghost predicate AfterFirst(env: Env, kv: map<string, string>, ks: seq<string>, y: string)
    requires ks != []
  {
    PickText(env, kv, if ks[0] == STAR then ks else ks[1..], y)
  }

  ghost predicate StartText(env: Env, kv: map<string, string>, ks: seq<string>, w: string)
    requires ks != [] && ks[0] in kv
  {
    exists v, y :: w == v + y && env(kv[ks[0]], v) && AfterFirst(env, kv, ks, y)
  }

  lemma RestExact(env: Env, rules: Rules, kv: map<string, string>, ks: seq<string>, e: Expr)
    requires Solves(env, rules) && Named(kv, ks) && |ks| > 1 && e.Ref? && e.name in rules
    requires IsRefs(rules, kv, ks[1..], true, rules[e.name])
    ensures forall y :: Accepts(env, e, y) <==> PickText(env, kv, ks[1..], y)
  {
    forall y ensures Accepts(env, e, y) <==> PickText(env, kv, ks[1..], y) {
      OptionalRefsExact(env, rules, kv, ks[1..], rules[e.name], y);
      RefExact(env, rules, e.name, y);
    }
  }

  // Repeated additional members, then a selection from the keys behind.

  lemma StarsJoin(env: Env, kv: map<string, string>, ks: seq<string>, s: string, t: string)
    requires ks != [] && ks[0] == STAR && STAR in kv
    requires Accepts(env, Repeat(CommaRef(kv[STAR]), 0, NoLimit), s) && PickText(env, kv, ks[1..], t)
    ensures PickText(env, kv, ks, s + t)
  {
    OptionalHeadExact(env, kv, STAR, s);
    hide Accepts, PickText, CommaText;
    var n: nat :| CommaText(env, kv, Times(STAR, n), s);
    PickStep(env, kv, ks, n, s, t);
  }

  lemma StarsCut(env: Env, kv: map<string, string>, ks: seq<string>, y: string) returns (s: string, t: string)
    requires ks != [] && ks[0] == STAR && STAR in kv && PickText(env, kv, ks, y)
    ensures y == s + t && Accepts(env, Repeat(CommaRef(kv[STAR]), 0, NoLimit), s) && PickText(env, kv, ks[1..], t)
  {
    hide Accepts, PickText, CommaText;
    var n;
    n, s, t := PickUnstep(env, kv, ks, y);
    OptionalHeadExact(env, kv, STAR, s);
  }

  lemma StartRefsExact(env: Env, rules: Rules, kv: map<string, string>, ks: seq<string>, e: Expr, w: string)
    requires Solves(env, rules) && Named(kv, ks) && IsRefs(rules, kv, ks, false, e)
    ensures Accepts(env, e, w) <==> StartText(env, kv, ks, w)
  {
    if |ks| > 1 {
      RestExact(env, rules, kv, ks, e.second);
    } else {
      OnlyNothing(env, kv, ks[1..]);
    }
    if ks[0] == STAR {
      StarStart(env, kv, ks, e, w);
    } else {
      PlainStart(env, kv, ks, e, w);
    }
  }

  lemma OnlyNothing(env: Env, kv: map<string, string>, ks: seq<string>)
    requires ks == []
    ensures forall y :: PickText(env, kv, ks, y) <==> y == ""
  {
    NothingPicked(env, kv);
    forall y | PickText(env, kv, [], y) ensures y == "" { NothingLeft(env, kv, y); }
  }

  /** `e` is a head, followed by something that accepts the selections from `ks[1..]`, or by
      nothing when there are no keys behind. */
  ghost predicate HeadThenRest(env: Env, kv: map<string, string>, ks: seq<string>, head: Expr, e: Expr)
    requires ks != []
  {
    if |ks| == 1 then e == head && forall y :: PickText(env, kv, ks[1..], y) <==> y == ""
    else e.Seq? && e.first == head && forall y :: Accepts(env, e.second, y) <==> PickText(env, kv, ks[1..], y)
  }

  lemma HeadThenRestCut(env: Env, kv: map<string, string>, ks: seq<string>, head: Expr, e: Expr, w: string)
    returns (x: string, t: string)
    requires ks != [] && HeadThenRest(env, kv, ks, head, e) && Accepts(env, e, w)
    ensures w == x + t && Accepts(env, head, x) && PickText(env, kv, ks[1..], t)
  {
    hide Accepts, PickText;
    if |ks| == 1 {
      x, t := w, "";
    } else {
      var i := SeqCut(env, head, e.second, w);
      x, t := w[..i], w[i..];
    }
  }

  lemma HeadThenRestJoin(env: Env, kv: map<string, string>, ks: seq<string>, head: Expr, e: Expr, x: string, t: string)
    requires ks != [] && HeadThenRest(env, kv, ks, head, e)
    requires Accepts(env, head, x) && PickText(env, kv, ks[1..], t)
    ensures Accepts(env, e, x + t)
  {
    hide Accepts, PickText;
    if |ks| == 1 {
      assert x + t == x;
    } else {
      SeqJoin(env, head, e.second, x, t);
    }
  }

  lemma StartCut(env: Env, kv: map<string, string>, ks: seq<string>, w: string) returns (v: string, y: string)
    requires ks != [] && ks[0] in kv && StartText(env, kv, ks, w)
    ensures w == v + y && env(kv[ks[0]], v) && AfterFirst(env, kv, ks, y)
  {
    hide PickText;
    v, y :| w == v + y && env(kv[ks[0]], v) && AfterFirst(env, kv, ks, y);
  }

  lemma StartJoin(env: Env, kv: map<string, string>, ks: seq<string>, v: string, y: string)
    requires ks != [] && ks[0] in kv && env(kv[ks[0]], v) && AfterFirst(env, kv, ks, y)
    ensures StartText(env, kv, ks, v + y)
  {
    hide PickText;
  }

  lemma PlainStart(env: Env, kv: map<string, string>, ks: seq<string>, e: Expr, w: string)
    requires ks != [] && ks[0] in kv && ks[0] != STAR && HeadThenRest(env, kv, ks, Ref(kv[ks[0]]), e)
    ensures Accepts(env, e, w) <==> StartText(env, kv, ks, w)
  {
    hide Accepts, PickText, StartText, HeadThenRest;
    if Accepts(env, e, w) {
      var v, y := HeadThenRestCut(env, kv, ks, Ref(kv[ks[0]]), e, w);
      RefSame(env, kv[ks[0]], v);
      StartJoin(env, kv, ks, v, y);
    }
    if StartText(env, kv, ks, w) {
      var v, y := StartCut(env, kv, ks, w);
      RefSame(env, kv[ks[0]], v);
      HeadThenRestJoin(env, kv, ks, Ref(kv[ks[0]]), e, v, y);
    }
  }

  lemma StarStart(env: Env, kv: map<string, string>, ks: seq<string>, e: Expr, w: string)
    requires ks != [] && ks[0] in kv && ks[0] == STAR
    requires HeadThenRest(env, kv, ks, Head(kv[STAR], true, false), e)
    ensures Accepts(env, e, w) <==> StartText(env, kv, ks, w)
  {
    hide Accepts, PickText, StartText, HeadThenRest;
    var first, stars := Ref(kv[STAR]), Repeat(CommaRef(kv[STAR]), 0, NoLimit);
    var head := Seq(first, stars);
    if Accepts(env, e, w) {
      var x, t := HeadThenRestCut(env, kv, ks, head, e, w);
      var j := SeqCut(env, first, stars, x);
      RefSame(env, kv[STAR], x[..j]);
      StarsJoin(env, kv, ks, x[j..], t);
      StartJoin(env, kv, ks, x[..j], x[j..] + t);
      assert w == x[..j] + (x[j..] + t);
    }
    if StartText(env, kv, ks, w) {
      var v, y := StartCut(env, kv, ks, w);
      RefSame(env, kv[STAR], v);
      var s, t := StarsCut(env, kv, ks, y);
      SeqJoin(env, first, stars, v, s);
      HeadThenRestJoin(env, kv, ks, head, e, v + s, t);
      assert w == (v + s) + t;
    }
  }

  // ----- all selections -----

  /** A non-empty selection from the keys, as separated text. */
  ghost predicate SelectionText(env: Env, kv: map<string, string>, ks: seq<string>, w: string) {
    exists ms :: ms != [] && Picks(ks, ms) && Named(kv, ms) && ListText(env, kv, ms, w)
  }

  lemma {:induction false} PickNone(ks: seq<string>)
    ensures Picks(ks, [])
  {
    if ks != [] {
      PickNone(ks[1..]);
      var none: seq<string> := [];
      assert CanTake(ks[0], 0, none) && none[0..] == none;
    }
  }

  lemma {:induction false} PickLater(ks: seq<string>, i: nat, ms: seq<string>)
    requires i <= |ks| && Picks(ks[i..], ms)
    ensures Picks(ks, ms)
    decreases i
  {
    if i > 0 {
      assert ks[1..][i - 1..] == ks[i..];
      PickLater(ks[1..], i - 1, ms);
      assert CanTake(ks[0], 0, ms) && ms[0..] == ms;
    } else {
      assert ks[0..] == ks;
    }
  }

  /** Putting one more member of the first key in front of a selection. */
  lemma PickFirst(ks: seq<string>, ms: seq<string>)
    requires ks != [] && Picks(if ks[0] == STAR then ks else ks[1..], ms)
    ensures Picks(ks, [ks[0]] + ms)
  {
    var all := [ks[0]] + ms;
    if ks[0] == STAR {
      var n: nat :| CanTake(STAR, n, ms) && Picks(ks[1..], ms[n..]);
      assert all[n + 1..] == ms[n..];
      assert CanTake(STAR, n + 1, all);
    } else {
      assert all[1..] == ms;
      assert CanTake(ks[0], 1, all);
    }
  }

  lemma {:induction false} PickStart(ks: seq<string>, ms: seq<string>) returns (i: nat)
    requires ms != [] && Picks(ks, ms)
    ensures i < |ks| && ks[i] == ms[0] && Picks(if ks[i] == STAR then ks[i..] else ks[i + 1..], ms[1..])
  {
    var n: nat :| CanTake(ks[0], n, ms) && Picks(ks[1..], ms[n..]);
    hide Picks;
    if n == 0 {
      assert ms[0..] == ms;
      var j := PickStart(ks[1..], ms);
      assert ks[1..][j..] == ks[j + 1..] && ks[1..][j + 1..] == ks[j + 2..] && ks[1..][j] == ks[j + 1];
      i := j + 1;
    } else {
      i := 0;
      assert ks[0..] == ks;
      assert ms[1..][n - 1..] == ms[n..];
      if ks[0] == STAR {
        StarAgain(ks, n - 1, ms[1..]);
      } else {
        assert n == 1;
      }
    }
  }

  lemma StarAgain(ks: seq<string>, n: nat, ms: seq<string>)
    requires ks != [] && ks[0] == STAR && CanTake(STAR, n, ms) && Picks(ks[1..], ms[n..])
    ensures Picks(ks, ms)
  {}

  lemma SelectionByStart(env: Env, kv: map<string, string>, ks: seq<string>, w: string)
    requires Named(kv, ks)
    ensures SelectionText(env, kv, ks, w) <==> exists i :: 0 <= i < |ks| && StartText(env, kv, ks[i..], w)
  {
    hide CommaText, Picks;
    if SelectionText(env, kv, ks, w) {
      var ms :| ms != [] && Picks(ks, ms) && Named(kv, ms) && ListText(env, kv, ms, w);
      var i := PickStart(ks, ms);
      var v, y :| w == v + y && env(kv[ms[0]], v) && CommaText(env, kv, ms[1..], y);
      assert ks[i..][0] == ks[i] && ks[i..][1..] == ks[i + 1..];
      assert AfterFirst(env, kv, ks[i..], y);
      assert StartText(env, kv, ks[i..], w);
    }
    forall i | 0 <= i < |ks| && StartText(env, kv, ks[i..], w) ensures SelectionText(env, kv, ks, w) {
      var v, y :| w == v + y && env(kv[ks[i..][0]], v) && AfterFirst(env, kv, ks[i..], y);
      var ms :| Picks(if ks[i..][0] == STAR then ks[i..] else ks[i..][1..], ms) && Named(kv, ms) && CommaText(env, kv, ms, y);
      PickFirst(ks[i..], ms);
      PickLater(ks, i, [ks[i..][0]] + ms);
      assert ([ks[i..][0]] + ms)[1..] == ms;
      assert ListText(env, kv, [ks[i..][0]] + ms, w);
    }
  }

  lemma {:induction false} AlternativesExact(env: Env, alts: seq<Expr>, w: string)
    requires alts != []
    ensures Accepts(env, Alternatives(alts), w) <==> exists i :: 0 <= i < |alts| && Accepts(env, alts[i], w)
  {
    if |alts| > 1 {
      AlternativesExact(env, alts[1..], w);
      AltCases(env, alts[0], Alternatives(alts[1..]), w);
      hide Accepts;
      if exists i :: 0 <= i < |alts[1..]| && Accepts(env, alts[1..][i], w) {
        var i :| 0 <= i < |alts[1..]| && Accepts(env, alts[1..][i], w);
        assert Accepts(env, alts[i + 1], w);
      }
      assert forall i :: 0 < i < |alts| ==> alts[i] == alts[1..][i - 1];
    }
  }

  lemma StartsExact(env: Env, rules: Rules, kv: map<string, string>, optional: seq<string>, alts: seq<Expr>, w: string)
    requires Solves(env, rules) && Named(kv, optional) && AreStarts(rules, kv, optional, alts) && alts != []
    ensures Accepts(env, Alternatives(alts), w) <==> SelectionText(env, kv, optional, w)
  {
    AlternativesExact(env, alts, w);
    SelectionByStart(env, kv, optional, w);
    hide Accepts, StartText, SelectionText;
    forall i | 0 <= i < |optional| ensures Accepts(env, alts[i], w) <==> StartText(env, kv, optional[i..], w) {
      StartRefsExact(env, rules, kv, optional[i..], alts[i], w);
    }
  }

  // ----- required members, and the whole -----

  /** A comma and optional space in front of separated text. */
  ghost predicate Behind(env: Env, kv: map<string, string>, ms: seq<string>, w: string)
    requires Named(kv, ms)
  {
    exists sp, u :: w == "," + (sp + u) && env(SPACE, sp) && ListText(env, kv, ms, u)
  }

  lemma CommaTextIsBehind(env: Env, kv: map<string, string>, ms: seq<string>, w: string)
    requires Named(kv, ms) && ms != []
    ensures CommaText(env, kv, ms, w) <==> Behind(env, kv, ms, w)
  {
    hide CommaText, ListText, MemberText;
    if CommaText(env, kv, ms, w) {
      var x, y := TextUncons(env, kv, ms, w);
      var sp, v := MemberParts(env, kv[ms[0]], x);
      ListCons(env, kv, ms, v, y);
      Regroup(",", sp, v, y);
    }
    if Behind(env, kv, ms, w) {
      var sp, u :| w == "," + (sp + u) && env(SPACE, sp) && ListText(env, kv, ms, u);
      var v, y := ListUncons(env, kv, ms, u);
      Regroup(",", sp, v, y);
      MemberWhole(env, kv[ms[0]], sp, v);
      TextCons(env, kv, ms[0], ms[1..], "," + (sp + v), y);
      assert [ms[0]] + ms[1..] == ms;
    }
  }

  lemma Regroup(a: string, b: string, c: string, d: string)
    ensures (a + (b + c)) + d == a + (b + (c + d))
  {}

  lemma MemberParts(env: Env, rule: string, x: string) returns (sp: string, v: string)
    requires MemberText(env, rule, x)
    ensures x == "," + (sp + v) && env(SPACE, sp) && env(rule, v)
  {
    sp, v :| x == "," + (sp + v) && env(SPACE, sp) && env(rule, v);
  }

  lemma MemberWhole(env: Env, rule: string, sp: string, v: string)
    requires env(SPACE, sp) && env(rule, v)
    ensures MemberText(env, rule, "," + (sp + v))
  {}

  lemma ListCons(env: Env, kv: map<string, string>, ms: seq<string>, v: string, y: string)
    requires ms != [] && Named(kv, ms) && env(kv[ms[0]], v) && CommaText(env, kv, ms[1..], y)
    ensures ListText(env, kv, ms, v + y)
  {
    hide CommaText;
  }

  lemma ListUncons(env: Env, kv: map<string, string>, ms: seq<string>, w: string) returns (v: string, y: string)
    requires ms != [] && Named(kv, ms) && ListText(env, kv, ms, w)
    ensures w == v + y && env(kv[ms[0]], v) && CommaText(env, kv, ms[1..], y)
  {
    hide CommaText;
    v, y :| w == v + y && env(kv[ms[0]], v) && CommaText(env, kv, ms[1..], y);
  }

  lemma BehindExact(env: Env, kv: map<string, string>, ms: seq<string>, e: Expr, w: string)
    requires Named(kv, ms) && forall u :: Accepts(env, e, u) <==> ListText(env, kv, ms, u)
    ensures Accepts(env, Seq(Lit(","), Seq(Ref(SPACE), e)), w) <==> Behind(env, kv, ms, w)
  {
    CommaThen(env, e, w);
  }

  /** `"," space e` accepts a comma, a space, and what `e` accepts. */
  lemma CommaThen(env: Env, e: Expr, w: string)
    ensures Accepts(env, Seq(Lit(","), Seq(Ref(SPACE), e)), w)
            <==> exists sp, u :: w == "," + (sp + u) && env(SPACE, sp) && Accepts(env, e, u)
  {
    hide Accepts;
    var tail := Seq(Ref(SPACE), e);
    SeqOfLit(env, ",", tail, w);
    forall sp ensures Accepts(env, Ref(SPACE), sp) <==> env(SPACE, sp) { RefSame(env, SPACE, sp); }
    if Accepts(env, Seq(Lit(","), tail), w) {
      var i := SeqCut(env, Ref(SPACE), e, w[1..]);
      assert w == "," + (w[1..][..i] + w[1..][i..]);
    }
    forall sp, u | w == "," + (sp + u) && env(SPACE, sp) && Accepts(env, e, u)
      ensures Accepts(env, Seq(Lit(","), tail), w)
    {
      SeqJoin(env, Ref(SPACE), e, sp, u);
      assert w[1..] == sp + u;
    }
  }

  lemma {:induction false} RequiredExact(env: Env, kv: map<string, string>, ks: seq<string>, w: string)
    requires ks != [] && Named(kv, ks)
    ensures Accepts(env, RequiredChain(kv, ks), w) <==> ListText(env, kv, ks, w)
    decreases |ks|
  {
    hide Accepts, CommaText;
    var first := Ref(kv[ks[0]]);
    forall v ensures Accepts(env, first, v) <==> env(kv[ks[0]], v) { RefSame(env, kv[ks[0]], v); }
    if |ks| == 1 {
      assert ks[1..] == [];
      TextNil(env, kv, "");
      assert w == w + "";
      forall v, y | w == v + y && CommaText(env, kv, ks[1..], y) ensures w == v { TextNil(env, kv, y); }
    } else {
      var chain := RequiredChain(kv, ks[1..]);
      var tail := Seq(Lit(","), Seq(Ref(SPACE), chain));
      forall u ensures Accepts(env, chain, u) <==> ListText(env, kv, ks[1..], u) { RequiredExact(env, kv, ks[1..], u); }
      forall y ensures Accepts(env, tail, y) <==> CommaText(env, kv, ks[1..], y) {
        BehindExact(env, kv, ks[1..], chain, y);
        CommaTextIsBehind(env, kv, ks[1..], y);
      }
      if Accepts(env, RequiredChain(kv, ks), w) {
        var i := SeqCut(env, first, tail, w);
        assert w == w[..i] + w[i..];
      }
      forall v, y | w == v + y && env(kv[ks[0]], v) && CommaText(env, kv, ks[1..], y)
        ensures Accepts(env, RequiredChain(kv, ks), w)
      {
        SeqJoin(env, first, tail, v, y);
      }
    }
  }

  /** All required keys in order, then a selection of the optional ones. */
  ghost predicate Members(required: seq<string>, optional: seq<string>, ms: seq<string>) {
    required <= ms && Picks(optional, ms[|required|..])
  }

  ghost predicate InsideText(env: Env, kv: map<string, string>, required: seq<string>, optional: seq<string>, w: string) {
    exists ms :: Members(required, optional, ms) && Named(kv, ms) && ListText(env, kv, ms, w)
  }

  lemma ListJoin(env: Env, kv: map<string, string>, a: seq<string>, b: seq<string>, x: string, y: string)
    requires a != [] && Named(kv, a) && Named(kv, b) && ListText(env, kv, a, x) && CommaText(env, kv, b, y)
    ensures Named(kv, a + b) && ListText(env, kv, a + b, x + y)
  {
    hide CommaText;
    var v, z :| x == v + z && env(kv[a[0]], v) && CommaText(env, kv, a[1..], z);
    CommaTextJoin(env, kv, a[1..], b, z, y);
    assert (a + b)[1..] == a[1..] + b && x + y == v + (z + y);
  }

  lemma ListSplit(env: Env, kv: map<string, string>, a: seq<string>, b: seq<string>, w: string) returns (x: string, y: string)
    requires a != [] && Named(kv, a + b) && Named(kv, a) && Named(kv, b) && ListText(env, kv, a + b, w)
    ensures w == x + y && ListText(env, kv, a, x) && CommaText(env, kv, b, y)
  {
    hide CommaText;
    var v, z :| w == v + z && env(kv[(a + b)[0]], v) && CommaText(env, kv, (a + b)[1..], z);
    assert (a + b)[1..] == a[1..] + b && (a + b)[0] == a[0];
    var p, q := CommaTextSplit(env, kv, a[1..] + b, |a| - 1, z);
    assert (a[1..] + b)[..|a| - 1] == a[1..] && (a[1..] + b)[|a| - 1..] == b;
    x, y := v + p, q;
    assert w == x + y;
  }

  lemma InsideExact(env: Env, rules: Rules, kv: map<string, string>, required: seq<string>, optional: seq<string>, alts: seq<Expr>, w: string)
    requires Solves(env, rules) && Named(kv, required) && Named(kv, optional) && AreStarts(rules, kv, optional, alts)
    ensures Accepts(env, Inside(kv, required, alts), w) <==> InsideText(env, kv, required, optional, w)
  {
    if alts == [] {
      InsideRequiredOnly(env, kv, required, w);
      assert optional == [];
    } else {
      forall u ensures Accepts(env, Alternatives(alts), u) <==> SelectionText(env, kv, optional, u) {
        StartsExact(env, rules, kv, optional, alts, u);
      }
      if required == [] {
        InsideOptionalOnly(env, kv, optional, Alternatives(alts), w);
      } else {
        InsideBoth(env, kv, required, optional, Alternatives(alts), w);
      }
    }
  }

  lemma InsideRequiredOnly(env: Env, kv: map<string, string>, required: seq<string>, w: string)
    requires Named(kv, required)
    ensures Accepts(env, Inside(kv, required, []), w) <==> InsideText(env, kv, required, [], w)
  {
    if required != [] {
      RequiredExact(env, kv, required, w);
    }
    assert Accepts(env, Inside(kv, required, []), w) <==> ListText(env, kv, required, w);
    hide Accepts, ListText;
    assert Members(required, [], required);
    forall ms | Members(required, [], ms) ensures ms == required {
      assert ms == required + ms[|required|..];
    }
  }

  lemma InsideOptionalOnly(env: Env, kv: map<string, string>, optional: seq<string>, e: Expr, w: string)
    requires forall u :: Accepts(env, e, u) <==> SelectionText(env, kv, optional, u)
    ensures Accepts(env, Repeat(Group(e), 0, AtMost(1)), w) <==> InsideText(env, kv, [], optional, w)
  {
    OptionalGroup(env, e, w);
    PickNone(optional);
    hide Accepts, Picks;
    var none: seq<string> := [];
    assert Members([], optional, none) by { assert none[0..] == none; }
    if w == "" {
      assert Named(kv, none) && ListText(env, kv, none, w);
    }
    forall ms ensures Members([], optional, ms) <==> Picks(optional, ms) {
      assert ms[|none|..] == ms;
    }
  }

  /** An optional group `( "," space ( e ) )?`. */
  lemma OptionalBehind(env: Env, kv: map<string, string>, optional: seq<string>, e: Expr, y: string)
    requires forall u :: Accepts(env, e, u) <==> SelectionText(env, kv, optional, u)
    ensures Accepts(env, BehindGroup(e), y) <==> PickText(env, kv, optional, y)
  {
    OptionalGroup(env, Seq(Lit(","), Seq(Ref(SPACE), Group(e))), y);
    CommaThen(env, Group(e), y);
    forall u ensures Accepts(env, Group(e), u) <==> SelectionText(env, kv, optional, u) { GroupSame(env, e, u); }
    PickNone(optional);
    hide Accepts, Picks, CommaText, ListText;
    if y == "" {
      var none: seq<string> := [];
      TextNil(env, kv, y);
      assert Named(kv, none) && PickText(env, kv, optional, y);
    }
    forall sp, u | y == "," + (sp + u) && env(SPACE, sp) && SelectionText(env, kv, optional, u)
      ensures PickText(env, kv, optional, y)
    {
      var ms :| ms != [] && Picks(optional, ms) && Named(kv, ms) && ListText(env, kv, ms, u);
      assert Behind(env, kv, ms, y);
      CommaTextIsBehind(env, kv, ms, y);
    }
    if y != "" && PickText(env, kv, optional, y) {
      var ms :| Picks(optional, ms) && Named(kv, ms) && CommaText(env, kv, ms, y);
      if ms == [] {
        TextNil(env, kv, y);
      } else {
        CommaTextIsBehind(env, kv, ms, y);
        var sp, u :| y == "," + (sp + u) && env(SPACE, sp) && ListText(env, kv, ms, u);
        assert SelectionText(env, kv, optional, u);
      }
    }
  }

  function BehindGroup(e: Expr): (g: Expr) {
    Repeat(Group(Seq(Lit(","), Seq(Ref(SPACE), Group(e)))), 0, AtMost(1))
  }

  lemma InsideBoth(env: Env, kv: map<string, string>, required: seq<string>, optional: seq<string>, e: Expr, w: string)
    requires required != [] && Named(kv, required)
    requires forall u :: Accepts(env, e, u) <==> SelectionText(env, kv, optional, u)
    ensures Accepts(env, Seq(RequiredChain(kv, required), BehindGroup(e)), w)
            <==> InsideText(env, kv, required, optional, w)
  {
    forall x ensures Accepts(env, RequiredChain(kv, required), x) <==> ListText(env, kv, required, x) {
      RequiredExact(env, kv, required, x);
    }
    forall y ensures Accepts(env, BehindGroup(e), y) <==> PickText(env, kv, optional, y) {
      OptionalBehind(env, kv, optional, e, y);
    }
    InsideBothParts(env, kv, required, optional, RequiredChain(kv, required), BehindGroup(e), w);
  }

  lemma InsideBothParts(env: Env, kv: map<string, string>, required: seq<string>, optional: seq<string>, chain: Expr, tail: Expr, w: string)
    requires required != [] && Named(kv, required)
    requires forall x :: Accepts(env, chain, x) <==> ListText(env, kv, required, x)
    requires forall y :: Accepts(env, tail, y) <==> PickText(env, kv, optional, y)
    ensures Accepts(env, Seq(chain, tail), w) <==> InsideText(env, kv, required, optional, w)
  {
    hide Accepts, PickText, ListText, InsideText;
    if Accepts(env, Seq(chain, tail), w) {
      var i := SeqCut(env, chain, tail, w);
      InsideJoin(env, kv, required, optional, w[..i], w[i..]);
      assert w == w[..i] + w[i..];
    }
    if InsideText(env, kv, required, optional, w) {
      var x, y := InsideSplit(env, kv, required, optional, w);
      SeqJoin(env, chain, tail, x, y);
    }
  }

  lemma InsideJoin(env: Env, kv: map<string, string>, required: seq<string>, optional: seq<string>, x: string, y: string)
    requires required != [] && Named(kv, required) && ListText(env, kv, required, x) && PickText(env, kv, optional, y)
    ensures InsideText(env, kv, required, optional, x + y)
  {
    hide Picks, CommaText, ListText;
    var ms :| Picks(optional, ms) && Named(kv, ms) && CommaText(env, kv, ms, y);
    ListJoin(env, kv, required, ms, x, y);
    assert (required + ms)[|required|..] == ms;
    assert Members(required, optional, required + ms);
  }

  lemma InsideSplit(env: Env, kv: map<string, string>, required: seq<string>, optional: seq<string>, w: string)
    returns (x: string, y: string)
    requires required != [] && Named(kv, required) && InsideText(env, kv, required, optional, w)
    ensures w == x + y && ListText(env, kv, required, x) && PickText(env, kv, optional, y)
  {
    hide Picks, CommaText, ListText;
    var ms :| Members(required, optional, ms) && Named(kv, ms) && ListText(env, kv, ms, w);
    var rest := ms[|required|..];
    assert ms == required + rest;
    x, y := ListSplit(env, kv, required, rest, w);
  }

  function Braced(s1: string, x: string, s2: string): (w: string) {
    "{" + (s1 + (x + ("}" + s2)))
  }

  ghost predicate ObjectText(env: Env, kv: map<string, string>, required: seq<string>, optional: seq<string>, w: string) {
    exists s1, x, s2 :: w == Braced(s1, x, s2) && env(SPACE, s1) && env(SPACE, s2)
                        && InsideText(env, kv, required, optional, x)
  }

  /** The object theorem: braces around the separated texts of all required members in order
      and any selection of the optional ones. */
  lemma ObjectExact(env: Env, rules: Rules, kv: map<string, string>, required: seq<string>, optional: seq<string>, e: Expr, w: string)
    requires Solves(env, rules) && IsObject(rules, kv, required, optional, e)
    ensures Accepts(env, e, w) <==> ObjectText(env, kv, required, optional, w)
  {
    var alts :| AreStarts(rules, kv, optional, alts) && e == ObjectBody(kv, required, alts);
    var inside := Inside(kv, required, alts);
    forall x ensures Accepts(env, inside, x) <==> InsideText(env, kv, required, optional, x) {
      InsideExact(env, rules, kv, required, optional, alts, x);
    }
    BracesExact(env, inside, w);
    hide Accepts, InsideText, Braced;
  }

  lemma BracesExact(env: Env, e: Expr, w: string)
    ensures Accepts(env, Seq(Lit("{"), Seq(Ref(SPACE), Seq(e, Seq(Lit("}"), Ref(SPACE))))), w) <==>
      exists s1, x, s2 :: w == Braced(s1, x, s2) && env(SPACE, s1) && env(SPACE, s2) && Accepts(env, e, x)
  {
    hide Accepts;
    if Accepts(env, Seq(Lit("{"), Seq(Ref(SPACE), Seq(e, Seq(Lit("}"), Ref(SPACE))))), w) {
      var s1, x, s2 := BracesCut(env, e, w);
      hide Braced;
    }
    forall s1, x, s2 | w == Braced(s1, x, s2) && env(SPACE, s1) && env(SPACE, s2) && Accepts(env, e, x)
      ensures Accepts(env, Seq(Lit("{"), Seq(Ref(SPACE), Seq(e, Seq(Lit("}"), Ref(SPACE))))), w)
    {
      BracesJoin(env, e, s1, x, s2);
    }
  }

  lemma BracesCut(env: Env, e: Expr, w: string) returns (s1: string, x: string, s2: string)
    requires Accepts(env, Seq(Lit("{"), Seq(Ref(SPACE), Seq(e, Seq(Lit("}"), Ref(SPACE))))), w)
    ensures w == Braced(s1, x, s2) && env(SPACE, s1) && env(SPACE, s2) && Accepts(env, e, x)
  {
    hide Accepts;
    var close := Seq(Lit("}"), Ref(SPACE));
    var body := Seq(e, close);
    SeqOfLit(env, "{", Seq(Ref(SPACE), body), w);
    var u := w[1..];
    var i := SeqCut(env, Ref(SPACE), body, u);
    var v := u[i..];
    var j := SeqCut(env, e, close, v);
    SeqOfLit(env, "}", Ref(SPACE), v[j..]);
    s1, x, s2 := u[..i], v[..j], v[j..][1..];
    RefSame(env, SPACE, s1);
    RefSame(env, SPACE, s2);
    assert v[j..] == "}" + s2;
    assert v == x + v[j..] && u == s1 + v && w == "{" + u;
  }

  lemma BracesJoin(env: Env, e: Expr, s1: string, x: string, s2: string)
    requires env(SPACE, s1) && env(SPACE, s2) && Accepts(env, e, x)
    ensures Accepts(env, Seq(Lit("{"), Seq(Ref(SPACE), Seq(e, Seq(Lit("}"), Ref(SPACE))))), Braced(s1, x, s2))
  {
    hide Accepts;
    var close := Seq(Lit("}"), Ref(SPACE));
    var body := Seq(e, close);
    RefSame(env, SPACE, s1);
    RefSame(env, SPACE, s2);
    SeqOfLit(env, "}", Ref(SPACE), "}" + s2);
    assert ("}" + s2)[1..] == s2;
    SeqJoin(env, e, close, x, "}" + s2);
    SeqJoin(env, Ref(SPACE), body, s1, x + ("}" + s2));
    SeqOfLit(env, "{", Seq(Ref(SPACE), body), Braced(s1, x, s2));
    assert Braced(s1, x, s2)[1..] == s1 + (x + ("}" + s2));
  }

  // ----- the member lists in plain words -----

  /** `sel` is an in-order selection of distinct positions of `ks`. */
  ghost predicate Subsequence(sel: seq<string>, ks: seq<string>)
    decreases |ks|
  {
    if ks == [] then sel == []
    else Subsequence(sel, ks[1..]) || (sel != [] && sel[0] == ks[0] && Subsequence(sel[1..], ks[1..]))
  }

  /** An in-order subset of the keys, then `n` additional members. */
  ghost predicate PlainPick(ks: seq<string>, extra: bool, ms: seq<string>, sel: seq<string>, n: nat) {
    ms == sel + Times(STAR, n) && Subsequence(sel, ks) && (n > 0 ==> extra)
  }

  function WithStar(ks: seq<string>, extra: bool): (all: seq<string>) {
    if extra then ks + [STAR] else ks
  }

  lemma PlainSkip(ks: seq<string>, extra: bool, ms: seq<string>, sel: seq<string>, n: nat)
    requires ks != [] && PlainPick(ks[1..], extra, ms, sel, n)
    ensures PlainPick(ks, extra, ms, sel, n)
  {}

  lemma PlainTake(ks: seq<string>, extra: bool, ms: seq<string>, sel: seq<string>, n: nat)
    requires ks != [] && ms != [] && ms[0] == ks[0] && PlainPick(ks[1..], extra, ms[1..], sel, n)
    ensures PlainPick(ks, extra, ms, [ks[0]] + sel, n)
  {
    assert ([ks[0]] + sel)[1..] == sel;
    assert ms == [ms[0]] + ms[1..];
  }

  lemma PlainCases(ks: seq<string>, extra: bool, ms: seq<string>, sel: seq<string>, n: nat)
    requires ks != [] && PlainPick(ks, extra, ms, sel, n)
    ensures PlainPick(ks[1..], extra, ms, sel, n)
         || (ms != [] && ms[0] == ks[0] && sel != [] && PlainPick(ks[1..], extra, ms[1..], sel[1..], n))
  {
    if !Subsequence(sel, ks[1..]) {
      assert ms[1..] == sel[1..] + Times(STAR, n);
    }
  }

  lemma PicksPlain(ks: seq<string>, ms: seq<string>)
    requires ks != [] && ks[0] != STAR
    ensures Picks(ks, ms) <==> Picks(ks[1..], ms) || (ms != [] && ms[0] == ks[0] && Picks(ks[1..], ms[1..]))
  {
    assert ms[0..] == ms;
    if Picks(ks[1..], ms) { assert CanTake(ks[0], 0, ms); }
    if ms != [] && ms[0] == ks[0] && Picks(ks[1..], ms[1..]) { assert CanTake(ks[0], 1, ms); }
  }

  lemma PicksStars(extra: bool, ms: seq<string>)
    ensures Picks(WithStar([], extra), ms) <==> exists sel, n: nat :: PlainPick([], extra, ms, sel, n)
  {
    var all := WithStar([], extra);
    var none: seq<string> := [];
    if extra {
      assert all == [STAR] && all[1..] == [];
      if Picks(all, ms) {
        var n: nat :| CanTake(STAR, n, ms) && Picks(all[1..], ms[n..]);
        assert PlainPick([], extra, ms, none, n);
      }
      forall sel, n: nat | PlainPick([], extra, ms, sel, n) ensures Picks(all, ms) {
        assert sel == [] && CanTake(STAR, n, ms) && ms[n..] == [];
      }
    } else {
      if ms == [] {
        assert PlainPick([], extra, ms, none, 0);
      }
    }
  }

  // A property that is itself called `"*"`.

  /** No key other than `"*"` follows a `"*"`. */
  predicate StarsLast(ks: seq<string>) {
    forall i, j :: 0 <= i < j < |ks| && ks[i] == STAR ==> ks[j] == STAR
  }

  /** Every selection is an in-order subset of the keys and then additional members. */
  ghost predicate Plain(ks: seq<string>, extra: bool) {
    forall ms :: Picks(WithStar(ks, extra), ms) <==> exists sel, n: nat :: PlainPick(ks, extra, ms, sel, n)
  }

  lemma {:induction false} SubsequenceIn(sel: seq<string>, ks: seq<string>)
    requires Subsequence(sel, ks)
    ensures |sel| <= |ks| && forall k :: k in sel ==> k in ks
    decreases |ks|
  {
    if ks != [] {
      if Subsequence(sel, ks[1..]) {
        SubsequenceIn(sel, ks[1..]);
      } else {
        SubsequenceIn(sel[1..], ks[1..]);
        forall k | k in sel ensures k in ks {
          assert k == sel[0] || k in sel[1..];
        }
      }
    }
  }

  lemma {:induction false} PicksNothing(ks: seq<string>)
    ensures Picks(ks, [])
    decreases |ks|
  {
    if ks != [] {
      PicksNothing(ks[1..]);
      var none: seq<string> := [];
      assert CanTake(ks[0], 0, none) && none[0..] == none;
    }
  }

  /** From a `"*"` on, any number of copies may be taken, then one of any later key. */
  lemma {:induction false} StarRepeats(ks: seq<string>, i: nat, n: nat)
    requires i < |ks| && ks[i] == STAR
    ensures Picks(ks, Times(STAR, n))
    decreases |ks|
  {
    hide Picks;
    var ms := Times(STAR, n);
    if i == 0 {
      PicksNothing(ks[1..]);
      assert ms[n..] == [];
      TakeFirst(ks, n, ms);
    } else {
      StarRepeats(ks[1..], i - 1, n);
      assert ms[0..] == ms;
      TakeFirst(ks, 0, ms);
    }
  }

  lemma TakeFirst(ks: seq<string>, n: nat, ms: seq<string>)
    requires ks != [] && CanTake(ks[0], n, ms) && Picks(ks[1..], ms[n..])
    ensures Picks(ks, ms)
  {}

  lemma {:induction false} StarThenKey(ks: seq<string>, i: nat, j: nat, n: nat)
    requires i < j < |ks| && ks[i] == STAR
    ensures Picks(ks, Times(STAR, n) + [ks[j]])
    decreases |ks|
  {
    hide Picks;
    var ms := Times(STAR, n) + [ks[j]];
    if i == 0 {
      OneKey(ks[1..], j - 1);
      assert ms[n..] == [ks[j]];
      TakeFirst(ks, n, ms);
    } else {
      StarThenKey(ks[1..], i - 1, j - 1, n);
      assert ms[0..] == ms;
      TakeFirst(ks, 0, ms);
    }
  }

  lemma {:induction false} OneKey(ks: seq<string>, j: nat)
    requires j < |ks|
    ensures Picks(ks, [ks[j]])
    decreases |ks|
  {
    hide Picks;
    var ms := [ks[j]];
    if j == 0 {
      PicksNothing(ks[1..]);
      assert ms[1..] == [];
      TakeFirst(ks, 1, ms);
    } else {
      OneKey(ks[1..], j - 1);
      assert ms[0..] == ms;
      TakeFirst(ks, 0, ms);
    }
  }

  lemma WithStarKeeps(ks: seq<string>, extra: bool, i: nat)
    requires i < |ks|
    ensures |ks| <= |WithStar(ks, extra)| && WithStar(ks, extra)[i] == ks[i]
  {}

  /** An in-order subset is not longer than the keys, and a key last means no `"*"` behind. */
  lemma PlainLength(ks: seq<string>, extra: bool, ms: seq<string>, sel: seq<string>, n: nat)
    requires PlainPick(ks, extra, ms, sel, n)
    ensures !extra ==> |ms| <= |ks|
    ensures ms != [] && ms[|ms| - 1] != STAR ==> |ms| <= |ks|
  {
    SubsequenceIn(sel, ks);
    hide Subsequence;
    assert n > 0 ==> (sel + Times(STAR, n))[|sel| + n - 1] == Times(STAR, n)[n - 1];
  }

  lemma NotPlainPick(ks: seq<string>, extra: bool, ms: seq<string>)
    requires |ms| > |ks| && (!extra || ms[|ms| - 1] != STAR)
    ensures !exists sel, n: nat :: PlainPick(ks, extra, ms, sel, n)
  {
    forall sel, n: nat ensures !PlainPick(ks, extra, ms, sel, n) {
      hide PlainPick;
      if PlainPick(ks, extra, ms, sel, n) {
        PlainLength(ks, extra, ms, sel, n);
      }
    }
  }

  /** Without additional members a property called `"*"` may be taken once too often. */
  lemma StarTooOften(ks: seq<string>, i: nat)
    requires i < |ks| && ks[i] == STAR
    ensures !Plain(ks, false)
  {
    hide Picks, PlainPick;
    var ms := Times(STAR, |ks| + 1);
    StarRepeats(ks, i, |ks| + 1);
    NotPlainPick(ks, false, ms);
    assert Picks(WithStar(ks, false), ms);
  }

  /** With them, too many may come in front of a later key. */
  lemma StarsBeforeKey(ks: seq<string>, i: nat, j: nat)
    requires i < j < |ks| && ks[i] == STAR && ks[j] != STAR
    ensures !Plain(ks, true)
  {
    hide Picks, PlainPick;
    var ms := Times(STAR, |ks| + 1) + [ks[j]];
    WithStarKeeps(ks, true, i);
    WithStarKeeps(ks, true, j);
    StarThenKey(WithStar(ks, true), i, j, |ks| + 1);
    NotPlainPick(ks, true, ms);
    assert Picks(WithStar(ks, true), ms);
  }

  /** Keys that are all `"*"`, with `"*"` behind them. */
  lemma {:induction false} OnlyStars(all: seq<string>, ms: seq<string>)
    requires all != [] && forall k :: k in all ==> k == STAR
    ensures Picks(all, ms) <==> ms == Times(STAR, |ms|)
    decreases |all|
  {
    assert all[0] in all && forall k :: k in all[1..] ==> k in all;
    if ms == Times(STAR, |ms|) {
      StarRepeats(all, 0, |ms|);
    }
    if Picks(all, ms) {
      var n: nat :| CanTake(all[0], n, ms) && Picks(all[1..], ms[n..]);
      if |all| > 1 {
        OnlyStars(all[1..], ms[n..]);
        forall i | 0 <= i < |ms| ensures ms[i] == STAR {
          if i >= n { assert ms[i] == ms[n..][i - n]; }
        }
      }
    }
  }

  lemma StarsArePlain(ks: seq<string>, ms: seq<string>)
    requires ks != [] && forall k :: k in ks ==> k == STAR
    ensures Picks(WithStar(ks, true), ms) <==> exists sel, n: nat :: PlainPick(ks, true, ms, sel, n)
  {
    hide Picks, Subsequence;
    OnlyStars(WithStar(ks, true), ms);
    var none: seq<string> := [];
    if ms == Times(STAR, |ms|) {
      NoneSelected(ks);
      assert ms == none + Times(STAR, |ms|);
      assert PlainPick(ks, true, ms, none, |ms|);
    }
    if sel, n: nat :| PlainPick(ks, true, ms, sel, n) {
      SubsequenceIn(sel, ks);
      forall i | 0 <= i < |ms| ensures ms[i] == STAR {
        if i < |sel| { assert ms[i] == sel[i] && sel[i] in sel; }
      }
    }
  }

  lemma {:induction false} NoneSelected(ks: seq<string>)
    ensures Subsequence([], ks)
    decreases |ks|
  {
    if ks != [] { NoneSelected(ks[1..]); }
  }

  /** One more plain key in front. */
  lemma PlainMore(ks: seq<string>, extra: bool, ms: seq<string>)
    requires ks != [] && ks[0] != STAR && Plain(ks[1..], extra)
    ensures Picks(WithStar(ks, extra), ms) <==> exists sel, n: nat :: PlainPick(ks, extra, ms, sel, n)
  {
    var all, rest := WithStar(ks, extra), ks[1..];
    assert all[0] == ks[0] && all[1..] == WithStar(rest, extra);
    hide Picks, PlainPick;
    PicksPlain(all, ms);
    if Picks(all[1..], ms) {
      var sel, n: nat :| PlainPick(rest, extra, ms, sel, n);
      PlainSkip(ks, extra, ms, sel, n);
    }
    if ms != [] && ms[0] == ks[0] && Picks(all[1..], ms[1..]) {
      var sel, n: nat :| PlainPick(rest, extra, ms[1..], sel, n);
      PlainTake(ks, extra, ms, sel, n);
    }
    if sel, n: nat :| PlainPick(ks, extra, ms, sel, n) {
      PlainCases(ks, extra, ms, sel, n);
    }
  }

  lemma {:induction false} StarsLastPlain(ks: seq<string>)
    requires StarsLast(ks)
    ensures Plain(ks, true)
    decreases |ks|
  {
    if ks == [] {
      forall ms ensures Picks(WithStar([], true), ms) <==> exists sel, n: nat :: PlainPick([], true, ms, sel, n) {
        PicksStars(true, ms);
      }
    } else if ks[0] == STAR {
      assert forall k :: k in ks ==> k == STAR;
      forall ms ensures Picks(WithStar(ks, true), ms) <==> exists sel, n: nat :: PlainPick(ks, true, ms, sel, n) {
        StarsArePlain(ks, ms);
      }
    } else {
      StarsLastPlain(ks[1..]);
      forall ms ensures Picks(WithStar(ks, true), ms) <==> exists sel, n: nat :: PlainPick(ks, true, ms, sel, n) {
        PlainMore(ks, true, ms);
      }
    }
  }

  lemma {:induction false} NoStarPlain(ks: seq<string>)
    requires STAR !in ks
    ensures Plain(ks, false)
    decreases |ks|
  {
    if ks == [] {
      forall ms ensures Picks(WithStar([], false), ms) <==> exists sel, n: nat :: PlainPick([], false, ms, sel, n) {
        PicksStars(false, ms);
      }
    } else {
      NoStarPlain(ks[1..]);
      forall ms ensures Picks(WithStar(ks, false), ms) <==> exists sel, n: nat :: PlainPick(ks, false, ms, sel, n) {
        PlainMore(ks, false, ms);
      }
    }
  }

  /** Exactly when a property called `"*"` does no harm. */
  lemma PicksMeaningIff(ks: seq<string>, extra: bool)
    ensures Plain(ks, extra) <==> if extra then StarsLast(ks) else STAR !in ks
  {
    if extra {
      if StarsLast(ks) {
        StarsLastPlain(ks);
      } else {
        var i, j :| 0 <= i < j < |ks| && ks[i] == STAR && ks[j] != STAR;
        StarsBeforeKey(ks, i, j);
      }
    } else if STAR in ks {
      var i :| 0 <= i < |ks| && ks[i] == STAR;
      StarTooOften(ks, i);
    } else {
      NoStarPlain(ks);
    }
  }

  /** Then a selection is an in-order subset of the keys and, if they are allowed, any number
      of additional members. */
  lemma PicksMeaning(ks: seq<string>, extra: bool, ms: seq<string>)
    requires if extra then StarsLast(ks) else STAR !in ks
    ensures Picks(WithStar(ks, extra), ms) <==> exists sel, n: nat :: PlainPick(ks, extra, ms, sel, n)
  {
    PicksMeaningIff(ks, extra);
  }

  /** An object rule whose one optional property is called `"*"` accepts that member twice. */
  lemma StarPropertyRepeats(env: Env, rules: Rules, kv: map<string, string>, e: Expr, v: string)
    requires Solves(env, rules) && STAR in kv && IsObject(rules, kv, [], [STAR], e)
    requires env(SPACE, "") && env(kv[STAR], v)
    ensures Accepts(env, e, "{" + v + "," + v + "}")
  {
    hide *;
    StarRepeats([STAR], 0, 2);
    StarTwice(Times(STAR, 2));
    TwiceText(env, kv, v);
    var x := v + ("," + ("" + v));
    SelectedInside(env, kv, [STAR], [STAR, STAR], x);
    BracedObject(env, kv, [STAR], x);
    ObjectExact(env, rules, kv, [], [STAR], e, Braced("", x, ""));
    BracedTwice(v);
  }

  lemma StarTwice(ms: seq<string>)
    requires ms == Times(STAR, 2)
    ensures ms == [STAR, STAR]
  {}

  lemma BracedTwice(v: string)
    ensures Braced("", v + ("," + ("" + v)), "") == "{" + v + "," + v + "}"
  {
    assert "" + v == v;
    assert "}" + "" == "}";
  }

  lemma BracedObject(env: Env, kv: map<string, string>, optional: seq<string>, x: string)
    requires env(SPACE, "") && InsideText(env, kv, [], optional, x)
    ensures ObjectText(env, kv, [], optional, Braced("", x, ""))
  {
    hide InsideText;
  }

  lemma TwiceText(env: Env, kv: map<string, string>, v: string)
    requires STAR in kv && env(SPACE, "") && env(kv[STAR], v)
    ensures Named(kv, [STAR, STAR]) && ListText(env, kv, [STAR, STAR], v + ("," + ("" + v)))
  {
    var y := "," + ("" + v);
    assert MemberText(env, kv[STAR], y);
    TextNil(env, kv, "");
    TextCons(env, kv, STAR, [], y, "");
    assert y + "" == y && [STAR] + [] == [STAR];
    assert [STAR, STAR][1..] == [STAR];
    hide CommaText;
  }

  lemma SelectedInside(env: Env, kv: map<string, string>, optional: seq<string>, ms: seq<string>, x: string)
    requires Picks(optional, ms) && Named(kv, ms) && ListText(env, kv, ms, x)
    ensures InsideText(env, kv, [], optional, x)
  {
    hide Picks, ListText;
    var none: seq<string> := [];
    assert ms[|none|..] == ms && Members(none, optional, ms);
  }
}
