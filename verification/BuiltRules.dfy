/** The bodies of the rules that the converter writes, the names they refer to, and when a rule
    is what its schema asks for. */
module BuiltRules {
  import opened Common
  import opened Gbnf
  import opened Decimal
  import opened ObjectRule
  import opened Schemas
  import GrammarText
  import IntRange
  import NotStrings
  import Repetition

  /** The names a rule body refers to. */
  function RefsOf(e: Expr): (names: set<string>) {
    match e
    case Ref(name) => {name}
    case Group(body) => RefsOf(body)
    case Seq(a, b) => RefsOf(a) + RefsOf(b)
    case Alt(a, b) => RefsOf(a) + RefsOf(b)
    case Repeat(body, _, _) => RefsOf(body)
    case _ => {}
  }

  function Space(): (e: Expr) { Ref(SPACE) }

  function KvBody(name: string, valueRule: string): (e: Expr) {
    Seq(GrammarText.Literal(GrammarText.Dump(name)), Seq(Space(), Seq(Lit(":"), Seq(Space(), Ref(valueRule)))))
  }

  lemma HeadRefs(rule: string, star: bool, optional: bool)
    ensures RefsOf(Head(rule, star, optional)) <= {SPACE, rule}
  {
    assert RefsOf(Seq(Ref(SPACE), Ref(rule))) == {SPACE, rule};
    assert RefsOf(Seq(Lit(","), Seq(Ref(SPACE), Ref(rule)))) == {SPACE, rule};
    assert RefsOf(CommaRef(rule)) == {SPACE, rule};
    assert RefsOf(Repeat(CommaRef(rule), 0, if star then NoLimit else AtMost(1))) == {SPACE, rule};
  }

  lemma BodyRefs(kv: map<string, string>, required: seq<string>, alts: seq<Expr>, names: set<string>)
    requires Named(kv, required) && kv.Values <= names && SPACE in names
    requires forall i :: 0 <= i < |alts| ==> RefsOf(alts[i]) <= names
    ensures RefsOf(ObjectBody(kv, required, alts)) <= names
  {
    if required != [] { ChainRefs(kv, required, names); }
    if alts != [] {
      AlternativesRefs(alts, names);
      var e := Alternatives(alts);
      assert RefsOf(Group(e)) <= names;
      assert RefsOf(Seq(Ref(SPACE), Group(e))) <= names;
      assert RefsOf(Seq(Lit(","), Seq(Ref(SPACE), Group(e)))) <= names;
      assert RefsOf(Group(Seq(Lit(","), Seq(Ref(SPACE), Group(e))))) <= names;
      assert RefsOf(BehindGroup(e)) <= names;
    }
    var inside := Inside(kv, required, alts);
    assert RefsOf(inside) <= names;
    var close := Seq(Lit("}"), Ref(SPACE));
    assert RefsOf(Seq(inside, close)) <= names;
    assert RefsOf(Seq(Ref(SPACE), Seq(inside, close))) <= names;
  }

  lemma {:induction false} ChainRefs(kv: map<string, string>, ks: seq<string>, names: set<string>)
    requires ks != [] && Named(kv, ks) && kv.Values <= names && SPACE in names
    ensures RefsOf(RequiredChain(kv, ks)) <= names
  {
    assert kv[ks[0]] in kv.Values;
    if |ks| > 1 {
      ChainRefs(kv, ks[1..], names);
      var rest := RequiredChain(kv, ks[1..]);
      assert RefsOf(Seq(Ref(SPACE), rest)) <= names;
      assert RefsOf(Seq(Lit(","), Seq(Ref(SPACE), rest))) <= names;
    }
  }

  lemma {:induction false} AlternativesRefs(alts: seq<Expr>, names: set<string>)
    requires alts != [] && forall i :: 0 <= i < |alts| ==> RefsOf(alts[i]) <= names
    ensures RefsOf(Alternatives(alts)) <= names
  {
    if |alts| > 1 {
      assert forall i :: 0 <= i < |alts[1..]| ==> alts[1..][i] == alts[i + 1];
      AlternativesRefs(alts[1..], names);
    }
  }

  lemma KvRefs(name: string, valueRule: string)
    ensures RefsOf(KvBody(name, valueRule)) == {SPACE, valueRule}
  {
    assert RefsOf(Seq(Space(), Ref(valueRule))) == {SPACE, valueRule};
    assert RefsOf(Seq(Lit(":"), Seq(Space(), Ref(valueRule)))) == {SPACE, valueRule};
  }

  /** A member of an additional property: key rule, colon, value rule. */
  function ExtraBody(keyRule: string, valueRule: string): (e: Expr) {
    Seq(Ref(keyRule), Seq(Lit(":"), Seq(Space(), Ref(valueRule))))
  }

  lemma ExtraRefs(keyRule: string, valueRule: string)
    ensures RefsOf(ExtraBody(keyRule, valueRule)) == {keyRule, SPACE, valueRule}
  {
    assert RefsOf(Seq(Space(), Ref(valueRule))) == {SPACE, valueRule};
    assert RefsOf(Seq(Lit(":"), Seq(Space(), Ref(valueRule)))) == {SPACE, valueRule};
  }

  lemma {:induction false} WalkRefs(t: NotStrings.Trie, chr: string)
    ensures RefsOf(NotStrings.Walk(t, chr)) <= {chr}
    decreases t, 2
  {
    WalkKidsRefs(t.kids, NotStrings.First(t.kids), chr);
  }

  lemma {:induction false} WalkKidsRefs(kids: seq<NotStrings.Edge>, rejects: string, chr: string)
    ensures RefsOf(NotStrings.WalkKids(kids, rejects, chr)) <= {chr}
    decreases kids, 1
  {
    if kids != [] {
      WalkEdgeRefs(kids[0], chr);
      WalkKidsRefs(kids[1..], rejects, chr);
    } else {
      assert RefsOf(Repeat(Ref(chr), 0, NoLimit)) == {chr};
    }
  }

  lemma {:induction false} WalkEdgeRefs(e: NotStrings.Edge, chr: string)
    ensures RefsOf(NotStrings.WalkEdge(e, chr)) <= {chr}
    decreases e, 0
  {
    WalkRefs(e.child, chr);
  }

  lemma NotStringsRefs(names: seq<string>, chr: string)
    ensures RefsOf(NotStrings.NotStringsRule(names, chr)) <= {chr, SPACE}
  {
    var t := NotStrings.Build(names);
    WalkRefs(t, chr);
    assert RefsOf(NotStrings.KeyBody(t, chr)) <= {chr} by {
      hide NotStrings.Walk;
    }
    var close := Seq(Class('"', '"'), Ref("space"));
    assert RefsOf(Seq(NotStrings.KeyBody(t, chr), close)) <= {chr, SPACE};
  }

  function JoinRefs(names: seq<string>): (e: Expr)
    ensures RefsOf(e) == Elements(names)
  {
    if names == [] then Lit("")
    else if |names| == 1 then Ref(names[0])
    else
      assert Elements(names) == {names[0]} + Elements(names[1..]);
      Alt(Ref(names[0]), JoinRefs(names[1..]))
  }

  function JoinLits(texts: seq<string>): (e: Expr)
    ensures RefsOf(e) == {}
  {
    if texts == [] then Lit("")
    else if |texts| == 1 then GrammarText.Literal(texts[0])
    else Alt(GrammarText.Literal(texts[0]), JoinLits(texts[1..]))
  }

  function TupleItems(names: seq<string>): (e: Expr)
    ensures RefsOf(e) <= Elements(names) + {SPACE}
  {
    if names == [] then Lit("")
    else if |names| == 1 then Ref(names[0])
    else
      var rest := Seq(Space(), TupleItems(names[1..]));
      assert Elements(names[1..]) <= Elements(names);
      assert RefsOf(rest) <= Elements(names) + {SPACE};
      var tail := Seq(Lit(","), rest);
      assert RefsOf(tail) == RefsOf(rest);
      Seq(Ref(names[0]), tail)
  }

  function Bracketed(e: Expr): (r: Expr) {
    Seq(Lit("["), Seq(Space(), Seq(e, Seq(Lit("]"), Space()))))
  }

  /** Keys of the members a property list requires, and of the others, in order. */
  function RequiredKeys(ps: seq<Property>, required: set<string>): (ks: seq<string>) {
    if ps == [] then []
    else
      var p := ps[|ps| - 1];
      RequiredKeys(ps[..|ps| - 1], required) + if p.name in required then [p.name] else []
  }

  function OptionalKeys(ps: seq<Property>, required: set<string>): (ks: seq<string>) {
    if ps == [] then []
    else
      var p := ps[|ps| - 1];
      OptionalKeys(ps[..|ps| - 1], required) + if p.name in required then [] else [p.name]
  }

  function Names(ps: seq<Property>): (ns: seq<string>) {
    seq(|ps|, i requires 0 <= i < |ps| => ps[i].name)
  }

  /** What an object rule was written for. */
  datatype ObjectSpec = ObjectSpec(properties: seq<Property>, required: set<string>, extra: bool, kv: map<string, string>)

  /** The rule of each listed property is a quoted key, a colon and a value rule. */
  ghost predicate KvOk(rules: Rules, kv: map<string, string>, ps: seq<Property>) {
    forall i :: 0 <= i < |ps| && ps[i].name != STAR ==> HasKv(rules, kv, ps[i].name)
  }

  ghost predicate HasKv(rules: Rules, kv: map<string, string>, name: string) {
    name in kv && kv[name] in rules && exists v :: rules[kv[name]] == KvBody(name, v)
  }

  /** The rule of additional members: a key none of the listed names begins with (any string
      if none is listed), a colon and a value rule. */
  ghost predicate ExtraOk(rules: Rules, kv: map<string, string>, ps: seq<Property>, charRule: Expr) {
    STAR in kv && kv[STAR] in rules
    && exists keyRule, valueRule, chr ::
         rules[kv[STAR]] == ExtraBody(keyRule, valueRule) && KeyRuleOk(rules, keyRule, chr, ps, charRule)
  }

  ghost predicate KeyRuleOk(rules: Rules, keyRule: string, chr: string, ps: seq<Property>, charRule: Expr) {
    ps != [] ==>
      && keyRule in rules && rules[keyRule] == NotStrings.NotStringsRule(Names(ps), chr)
      && chr in rules && rules[chr] == charRule
  }

  ghost predicate SpecOk(rules: Rules, spec: ObjectSpec, charRule: Expr, e: Expr) {
    && IsObject(rules, spec.kv, RequiredKeys(spec.properties, spec.required),
                WithStar(OptionalKeys(spec.properties, spec.required), spec.extra), e)
    && KvOk(rules, spec.kv, spec.properties)
    && (spec.extra ==> ExtraOk(rules, spec.kv, spec.properties, charRule))
  }

  /** Every recorded object rule is what its schema asked for. */
  ghost predicate ObjectsOk(rules: Rules, objects: map<string, ObjectSpec>, charRule: Expr) {
    forall n :: n in objects ==> n in rules && SpecOk(rules, objects[n], charRule, rules[n])
  }

  ghost predicate KvAll(rules: Rules, kv: map<string, string>, ps: seq<Property>) {
    forall i :: 0 <= i < |ps| ==> HasKv(rules, kv, ps[i].name)
  }

  lemma ExtendsSelf(rules: Rules)
    ensures Extends(rules, rules)
  {}

  lemma KvGrows(rules: Rules, before: Rules, kv: map<string, string>, p: Property, rule: string, ps: seq<Property>)
    requires Extends(rules, before) && rule in rules && exists v :: rules[rule] == KvBody(p.name, v)
    requires KvAll(before, kv, ps)
    ensures KvAll(rules, kv[p.name := rule], ps + [p])
  {
    hide KvBody;
    var kv1 := kv[p.name := rule];
    assert HasKv(rules, kv1, p.name);
    forall i | 0 <= i < |ps| ensures HasKv(rules, kv1, ps[i].name) {
      assert HasKv(before, kv, ps[i].name);
    }
  }

  lemma KvIsOk(rules: Rules, kv: map<string, string>, ps: seq<Property>)
    requires KvAll(rules, kv, ps)
    ensures KvOk(rules, kv, ps)
  {}

  lemma ExtraIntro(rules: Rules, rule: string, keyRule: string, valueRule: string, chr: string, ps: seq<Property>, charRule: Expr)
    requires rule in rules && rules[rule] == ExtraBody(keyRule, valueRule) && KeyRuleOk(rules, keyRule, chr, ps, charRule)
    ensures ExtraOk(rules, map[STAR := rule], ps, charRule)
  {
    hide ExtraBody, KeyRuleOk;
  }

  lemma KeyRuleStays(rules: Rules, before: Rules, keyRule: string, chr: string, ps: seq<Property>, charRule: Expr)
    requires Extends(rules, before) && KeyRuleOk(before, keyRule, chr, ps, charRule)
    ensures KeyRuleOk(rules, keyRule, chr, ps, charRule)
  {}

  lemma StarMember(rules: Rules, before: Rules, kv: map<string, string>, rule: string, ps: seq<Property>, charRule: Expr)
    requires Extends(rules, before) && ExtraOk(rules, map[STAR := rule], ps, charRule) && KvAll(before, kv, ps)
    ensures KvOk(rules, kv[STAR := rule], ps) && ExtraOk(rules, kv[STAR := rule], ps, charRule)
  {
    hide KvBody, KeyRuleOk, ExtraBody;
    forall i | 0 <= i < |ps| && ps[i].name != STAR ensures HasKv(rules, kv[STAR := rule], ps[i].name) {
      assert HasKv(before, kv, ps[i].name);
    }
    var one := map[STAR := rule];
    var keyRule, valueRule, chr :|
      rules[one[STAR]] == ExtraBody(keyRule, valueRule) && KeyRuleOk(rules, keyRule, chr, ps, charRule);
  }

  lemma KeysStep(ps: seq<Property>, p: Property, required: set<string>)
    ensures RequiredKeys(ps + [p], required) == RequiredKeys(ps, required) + if p.name in required then [p.name] else []
    ensures OptionalKeys(ps + [p], required) == OptionalKeys(ps, required) + if p.name in required then [] else [p.name]
    ensures Elements(Names(ps + [p])) == Elements(Names(ps)) + {p.name}
  {
    assert (ps + [p])[..|ps|] == ps;
    assert Names(ps + [p]) == Names(ps) + [p.name];
  }

  /** The state of the loop over the properties. */
  ghost predicate KeysFor(rules: Rules, ps: seq<Property>, required: set<string>, kv: map<string, string>,
                          requiredKeys: seq<string>, optionalKeys: seq<string>)
  {
    && requiredKeys == RequiredKeys(ps, required) && optionalKeys == OptionalKeys(ps, required)
    && kv.Keys == Elements(Names(ps)) && kv.Values <= rules.Keys && KvAll(rules, kv, ps)
  }

  lemma KeysForNone(rules: Rules, required: set<string>)
    ensures KeysFor(rules, [], required, map[], [], [])
  {}

  lemma KeysForStep(rules: Rules, before: Rules, ps: seq<Property>, required: set<string>, kv: map<string, string>,
                    requiredKeys: seq<string>, optionalKeys: seq<string>, p: Property, rule: string)
    requires KeysFor(before, ps, required, kv, requiredKeys, optionalKeys)
    requires Extends(rules, before) && rule in rules && exists v :: rules[rule] == KvBody(p.name, v)
    ensures KeysFor(rules, ps + [p], required, kv[p.name := rule],
                    if p.name in required then requiredKeys + [p.name] else requiredKeys,
                    if p.name in required then optionalKeys else optionalKeys + [p.name])
  {
    hide KvAll, RequiredKeys, OptionalKeys, Elements, Names, KvBody;
    KvGrows(rules, before, kv, p, rule, ps);
    KeysStep(ps, p, required);
    ValuesGrow(rules, before, kv, p.name, rule);
  }

  lemma ValuesGrow(rules: Rules, before: Rules, kv: map<string, string>, name: string, rule: string)
    requires Extends(rules, before) && rule in rules && kv.Values <= before.Keys
    ensures kv[name := rule].Keys == kv.Keys + {name} && kv[name := rule].Values <= rules.Keys
  {}

  lemma CharsRefs(chr: string, min: nat, max: Limit)
    ensures RefsOf(Repetition.Build(Ref(chr), min, max, Repetition.NoSeparator)) <= {chr}
  {
    assert RefsOf(Repeat(Ref(chr), min, max)) == {chr};
  }

  lemma QuotedRefs(e: Expr)
    ensures RefsOf(Seq(Lit("\""), Seq(e, Seq(Lit("\""), Space())))) == RefsOf(e) + {SPACE}
  {
    assert RefsOf(Seq(Lit("\""), Space())) == {SPACE};
    assert RefsOf(Seq(e, Seq(Lit("\""), Space()))) == RefsOf(e) + {SPACE};
  }

  lemma {:induction false} KeysNamed(ps: seq<Property>, required: set<string>)
    ensures Elements(RequiredKeys(ps, required)) <= Elements(Names(ps))
    ensures Elements(OptionalKeys(ps, required)) <= Elements(Names(ps))
  {
    if ps != [] {
      var front := ps[..|ps| - 1];
      KeysNamed(front, required);
      assert Names(ps) == Names(front) + [ps[|ps| - 1].name];
      assert forall k :: k in RequiredKeys(front, required) ==> k in Elements(RequiredKeys(front, required));
      assert forall k :: k in OptionalKeys(front, required) ==> k in Elements(OptionalKeys(front, required));
    }
  }

  // Integer ranges refer to no rule.

  lemma RefParts(a: Expr, b: Expr)
    ensures RefsOf(Seq(a, b)) == RefsOf(Alt(a, b)) == RefsOf(a) + RefsOf(b) && RefsOf(Group(a)) == RefsOf(a)
  {}

  lemma HeadRefFree(lo: char, hi: char, min: nat, max: nat)
    ensures RefsOf(Seq(Class(lo, hi), IntRange.MoreDigits(min, max))) == {}
  {
    assert RefsOf(IntRange.MoreDigits(min, max)) == {};
  }

  lemma {:induction false} UniformRefFree(from: string, to: string)
    requires |from| == |to| && from != "" && AllDigits(from) && AllDigits(to) && LexLe(from, to)
    ensures RefsOf(IntRange.Uniform(from, to)) == {}
    decreases |from|, 1
  {
    var i := IntRange.CommonPrefix(from, to);
    if i < |from| {
      IntRange.LexSkip(from, to, i);
      BranchRefFree(from[i..], to[i..]);
      assert from[0..] == from && to[0..] == to;
    }
  }

  lemma {:induction false} BranchRefFree(from: string, to: string)
    requires |from| == |to| && from != "" && AllDigits(from) && AllDigits(to) && from[0] < to[0]
    ensures RefsOf(IntRange.Branch(from, to)) == {}
    decreases |from|, 0
  {
    var n := |from| - 1;
    if n > 0 {
      IntRange.NinesGreatest(from[1..]);
      IntRange.ZerosLeast(to[1..]);
      UniformRefFree(from[1..], Repeated('9', n));
      UniformRefFree(Repeated('0', n), to[1..]);
      EndsRefFree(from, to);
      HeadRefFree(from[0], IntRange.Prev(to[0]), n, n);
      HeadRefFree(IntRange.Next(from[0]), if IntRange.ToReached(from, to) then to[0] else IntRange.Prev(to[0]), n, n);
      hide RefsOf, IntRange.Uniform, IntRange.MoreDigits, IntRange.LowEnd, IntRange.HighEnd;
      RefParts(IntRange.LowEnd(from), IntRange.Middle(from, to));
      var low := IntRange.BranchLow(from, to);
      RefParts(low, IntRange.HighEnd(to));
      RefParts(Alt(low, IntRange.HighEnd(to)), low);
    }
  }

  lemma EndsRefFree(from: string, to: string)
    requires |from| == |to| && |from| > 1 && AllDigits(from) && AllDigits(to)
    requires LexLe(from[1..], Repeated('9', |from| - 1)) && LexLe(Repeated('0', |to| - 1), to[1..])
    requires RefsOf(IntRange.Uniform(from[1..], Repeated('9', |from| - 1))) == {}
    requires RefsOf(IntRange.Uniform(Repeated('0', |to| - 1), to[1..])) == {}
    ensures RefsOf(IntRange.LowEnd(from)) == {} && RefsOf(IntRange.HighEnd(to)) == {}
  {
    assert RefsOf(Class(from[0], from[0])) == RefsOf(Class(to[0], to[0])) == {};
    hide RefsOf, IntRange.Uniform;
    var start := IntRange.Uniform(from[1..], Repeated('9', |from| - 1));
    RefParts(start, start);
    RefParts(Class(from[0], from[0]), Group(start));
    RefParts(Class(to[0], to[0]), IntRange.Uniform(Repeated('0', |to| - 1), to[1..]));
  }

  lemma {:induction false} ByLengthRefFree(from: string, to: string)
    requires Canonical(from) && Canonical(to) && ShortLexLe(from, to)
    ensures RefsOf(IntRange.ByLength(from, to)) == {}
    decreases |to| - |from|
  {
    if |from| < |to| {
      IntRange.NinesGreatest(from);
      IntRange.OneZerosLeast(to);
      UniformRefFree(from, Repeated('9', |from|));
      ByLengthRefFree("1" + Repeated('0', |from|), to);
    } else {
      UniformRefFree(from, to);
    }
  }

  lemma NonnegativeRefFree(min: nat, max: nat)
    requires min <= max
    ensures RefsOf(IntRange.Nonnegative(min, max)) == {}
  {
    NumeralOrder(min, max);
    ByLengthRefFree(Numeral(min), Numeral(max));
  }

  lemma {:induction false} LowerRefFree(s: string, decimals: nat, top: bool)
    requires Canonical(s)
    ensures RefsOf(IntRange.Lower(s, decimals, top)) == {}
    decreases |s|
  {
    var less := if decimals - 1 > 1 then decimals - 1 else 1;
    if s == "0" {
      HeadRefFree('1', '9', 0, less);
      assert RefsOf(IntRange.MoreDigits(1, decimals)) == {};
    } else if |s| == 1 {
      assert s == [s[0]];
      HeadRefFree(s[0], '9', 0, less);
      HeadRefFree(if top then '1' else '0', IntRange.Prev(s[0]), 1, less);
    } else {
      LowerRefFree(IntRange.Trim(s[1..]), less, false);
      LowerDigitsRefFree(s[0], |s|, less, top, IntRange.Lower(IntRange.Trim(s[1..]), less, false));
    }
  }

  lemma LowerDigitsRefFree(c: char, len: nat, less: nat, top: bool, tail: Expr)
    requires '1' <= c <= '9' && len > 1 && RefsOf(tail) == {}
    ensures RefsOf(IntRange.LowerDigits(c, len, less, top, tail)) == {}
  {
    var start := if top then '1' else '0';
    var same := Seq(Class(c, c), Group(tail));
    assert RefsOf(Group(tail)) == {};
    HeadRefFree(start, IntRange.Prev(c), len, less);
    HeadRefFree(IntRange.Next(c), '9', len - 1, less);
    assert RefsOf(same) == {};
    var below := Seq(Class(start, IntRange.Prev(c)), IntRange.MoreDigits(len, less));
    assert RefsOf(Alt(below, same)) == RefsOf(below) + RefsOf(same);
    var above := Seq(Class(IntRange.Next(c), '9'), IntRange.MoreDigits(len - 1, less));
    var low := if c > '1' then Alt(below, same) else same;
    assert RefsOf(low) == {};
    assert RefsOf(Alt(low, above)) == RefsOf(low) + RefsOf(above);
  }

  lemma {:induction false} IntegerRefs(min: int, max: int, decimals: nat, top: bool)
    requires IntRange.INT_MIN <= min <= IntRange.INT_MAX && IntRange.INT_MIN <= max <= IntRange.INT_MAX
    requires min != IntRange.INT_MIN && max != IntRange.INT_MAX ==> min <= max
    requires IntRange.Bounded(min, max, decimals, top).Some?
    ensures RefsOf(IntRange.Bounded(min, max, decimals, top).value) == {}
    decreases if min != IntRange.INT_MIN && min < 0 then 3 else if max != IntRange.INT_MAX && min == IntRange.INT_MIN then 2 else 1
  {
    hide RefsOf, IntRange.MoreDigits, IntRange.Lower, IntRange.Nonnegative;
    if min != IntRange.INT_MIN && max != IntRange.INT_MAX {
      if max >= 0 { NonnegativeRefFree(if min < 0 then 0 else min, max); }
      if min < 0 {
        var low := if max < 0 then -max else 0;
        IntegerRefs(low, -min, decimals, true);
        var inner := IntRange.Bounded(low, -min, decimals, true).value;
        MinusRefs(inner);
        if max >= 0 { RefParts(Seq(Lit("-"), Group(inner)), IntRange.Nonnegative(0, max)); }
      }
    } else if min != IntRange.INT_MIN {
      if min < 0 {
        var inner := IntRange.Bounded(IntRange.INT_MIN, -min, decimals, false).value;
        var digits := Seq(Class('1', '9'), IntRange.MoreDigits(0, if decimals > 0 then decimals - 1 else 0));
        IntegerRefs(IntRange.INT_MIN, -min, decimals, false);
        MinusRefs(inner);
        ThreeRefs(Seq(Lit("-"), Group(inner)), Class('0', '0'), digits);
        DigitRefs(if decimals > 0 then decimals - 1 else 0);
      } else {
        LowerRefFree(Numeral(min), decimals, top);
      }
    } else if max >= 0 {
      var digits := Seq(Class('1', '9'), IntRange.MoreDigits(0, if decimals - 1 > 1 then decimals - 1 else 1));
      NonnegativeRefFree(0, max);
      DigitRefs(if decimals - 1 > 1 then decimals - 1 else 1);
      RefParts(Lit("-"), digits);
      RefParts(Seq(Lit("-"), digits), IntRange.Nonnegative(0, max));
    } else {
      LowerRefFree(Numeral(-max), decimals, false);
      MinusRefs(IntRange.Lower(Numeral(-max), decimals, false));
    }
  }

  lemma MinusRefs(e: Expr)
    ensures RefsOf(Seq(Lit("-"), Group(e))) == RefsOf(e)
  {}

  lemma ThreeRefs(a: Expr, b: Expr, c: Expr)
    ensures RefsOf(Alt(Alt(a, b), c)) == RefsOf(a) + RefsOf(b) + RefsOf(c)
  {}

  lemma DigitRefs(max: nat)
    ensures RefsOf(Seq(Class('1', '9'), IntRange.MoreDigits(0, max))) == {}
    ensures RefsOf(Class('0', '0')) == RefsOf(Lit("-")) == {}
  {
    HeadRefFree('1', '9', 0, max);
  }

  lemma RepetitionRefs(item: string, min: nat, max: Limit)
    ensures RefsOf(Repetition.Build(Ref(item), min, max, Repetition.Between(Seq(Lit(","), Space())))) <= {item, SPACE}
  {
    var step := Seq(Seq(Lit(","), Space()), Ref(item));
    assert RefsOf(Seq(Lit(","), Space())) == {SPACE};
    assert RefsOf(step) == {item, SPACE};
    assert RefsOf(Group(step)) == {item, SPACE};
    var low := if min == 0 then 0 else min - 1;
    assert RefsOf(Repeat(Group(step), low, Repetition.Fewer(max))) == {item, SPACE};
    var tail := Repetition.Plain(Group(step), low, Repetition.Fewer(max));
    assert RefsOf(tail) <= {item, SPACE};
    assert RefsOf(Seq(Ref(item), tail)) <= {item, SPACE};
    assert RefsOf(Group(Seq(Ref(item), tail))) <= {item, SPACE};
  }

  lemma BracketRefs(e: Expr)
    ensures RefsOf(Bracketed(e)) == RefsOf(e) + {SPACE}
  {
    assert RefsOf(Seq(Lit("]"), Space())) == {SPACE};
    assert RefsOf(Seq(e, Seq(Lit("]"), Space()))) == RefsOf(e) + {SPACE};
    assert RefsOf(Seq(Space(), Seq(e, Seq(Lit("]"), Space())))) == RefsOf(e) + {SPACE};
  }

  lemma SpecStays(rules: Rules, before: Rules, spec: ObjectSpec, charRule: Expr, e: Expr)
    requires Extends(rules, before) && SpecOk(before, spec, charRule, e)
    ensures SpecOk(rules, spec, charRule, e)
  {
    ObjectStays(rules, before, spec.kv, RequiredKeys(spec.properties, spec.required),
                WithStar(OptionalKeys(spec.properties, spec.required), spec.extra), e);
    hide IsObject;
    KvStays(rules, before, spec.kv, spec.properties);
    if spec.extra { ExtraStays(rules, before, spec.kv, spec.properties, charRule); }
  }

  lemma SpecIntro(rules: Rules, before: Rules, spec: ObjectSpec, charRule: Expr, e: Expr)
    requires Extends(rules, before)
    requires IsObject(rules, spec.kv, RequiredKeys(spec.properties, spec.required),
                      WithStar(OptionalKeys(spec.properties, spec.required), spec.extra), e)
    requires KvOk(before, spec.kv, spec.properties)
    requires spec.extra ==> ExtraOk(before, spec.kv, spec.properties, charRule)
    ensures SpecOk(rules, spec, charRule, e)
  {
    hide IsObject;
    KvStays(rules, before, spec.kv, spec.properties);
    if spec.extra { ExtraStays(rules, before, spec.kv, spec.properties, charRule); }
  }

  lemma KvStays(rules: Rules, before: Rules, kv: map<string, string>, ps: seq<Property>)
    requires Extends(rules, before) && KvOk(before, kv, ps)
    ensures KvOk(rules, kv, ps)
  {}

  lemma ExtraStays(rules: Rules, before: Rules, kv: map<string, string>, ps: seq<Property>, charRule: Expr)
    requires Extends(rules, before) && ExtraOk(before, kv, ps, charRule)
    ensures ExtraOk(rules, kv, ps, charRule)
  {
    var keyRule, valueRule, chr :|
      before[kv[STAR]] == ExtraBody(keyRule, valueRule) && KeyRuleOk(before, keyRule, chr, ps, charRule);
    assert KeyRuleOk(rules, keyRule, chr, ps, charRule);
  }

  lemma ObjectsStay(rules: Rules, before: Rules, objects: map<string, ObjectSpec>, charRule: Expr)
    requires Extends(rules, before) && ObjectsOk(before, objects, charRule)
    ensures ObjectsOk(rules, objects, charRule)
  {
    forall n | n in objects ensures n in rules && SpecOk(rules, objects[n], charRule, rules[n]) {
      SpecStays(rules, before, objects[n], charRule, before[n]);
    }
  }

  // ----- what a rule is built like -----

  /** The table has a rule for `s` under the name `n`, written as the schema asks, and rules for
      the schemas inside it. */
  ghost predicate Built(rules: Rules, t: Tables, s: Schema, n: string)
    decreases Size(s), 5
  {
    n in rules && BodyBuilt(rules, t, s, rules[n])
  }

  ghost predicate BodyBuilt(rules: Rules, t: Tables, s: Schema, e: Expr)
    decreases Size(s), 4
  {
    if s.ref.Some? then RefBuilt(rules, t, s.ref.value, e)
    else if s.oneOf.Union? || s.anyOf.Union? || s.typ.TypeList? then UnionBuilt(rules, t, UnionOf(s), e, Size(s))
    else if s.constant.Some? then e == ConstantBody(s.constant.value)
    else if s.constants.Some? then e == EnumBody(s.constants.value)
    else if ObjectKind(s) then ObjectBuilt(rules, t, PropertyList(s), s.required, s.additional, e, Size(s))
    else if ArrayKind(s) then ArrayBuilt(rules, t, s, e)
    else LeafBuilt(rules, t, s, e)
  }

  function ConstantBody(text: string): (e: Expr) {
    Seq(GrammarText.Literal(text), Space())
  }

  function EnumBody(texts: seq<string>): (e: Expr) {
    Seq(Group(JoinLits(texts)), Space())
  }

  lemma ConstantRefs(text: string)
    ensures RefsOf(ConstantBody(text)) == {SPACE}
  {}

  lemma EnumRefs(texts: seq<string>)
    ensures RefsOf(EnumBody(texts)) == {SPACE}
  {}

  /** A reference names the rule called like its last component; where the schema it stands for
      is a plain built-in type, a rule with that content or a reference to one. */
  ghost predicate RefBuilt(rules: Rules, t: Tables, ref: string, e: Expr) {
    e.Ref? && if Direct(t, Target(t, ref)) then StandsFor(rules, e.name, DirectContent(t, Target(t, ref)))
              else e.name == LastComponent(ref)
  }

  ghost predicate StandsFor(rules: Rules, n: string, content: Expr) {
    n in rules && (rules[n] == content
                   || (rules[n].Ref? && rules[n].name in rules && rules[rules[n].name] == content))
  }

  ghost predicate NamesBuilt(rules: Rules, t: Tables, ss: seq<Schema>, names: seq<string>, bound: nat)
    requires AllSmaller(ss, bound)
    decreases bound, 0
  {
    |names| == |ss| && forall i :: 0 <= i < |ss| ==> Built(rules, t, ss[i], names[i])
  }

  ghost predicate UnionBuilt(rules: Rules, t: Tables, ss: seq<Schema>, e: Expr, bound: nat)
    requires AllSmaller(ss, bound)
    decreases bound, 1
  {
    exists names :: NamesBuilt(rules, t, ss, names, bound) && e == JoinRefs(names)
  }

  ghost predicate ArrayBuilt(rules: Rules, t: Tables, s: Schema, e: Expr)
    decreases Size(s), 1
  {
    match s.items
    case NoItems => false
    case Tuple(ss) => exists names :: NamesBuilt(rules, t, ss, names, Size(s)) && e == Bracketed(TupleItems(names))
    case Each(item) => exists name :: Built(rules, t, item, name) && e == ListBody(name, s.minItems, s.maxItems)
  }

  function ListBody(item: string, min: nat, max: Limit): (e: Expr) {
    Bracketed(Repetition.Build(Ref(item), min, max, Repetition.Between(Seq(Lit(","), Space()))))
  }

  /** A member rule: quoted key, colon, and the rule of the property's schema. */
  ghost predicate MemberBuilt(rules: Rules, t: Tables, p: Property, rule: string, bound: nat)
    requires Size(p.schema) < bound
    decreases bound, 0
  {
    rule in rules && exists v :: rules[rule] == KvBody(p.name, v) && Built(rules, t, p.schema, v)
  }

  /** Of properties with the same name the last one counts. */
  predicate LastNamed(list: seq<Property>, i: nat)
    requires i < |list|
  {
    forall j :: i < j < |list| ==> list[j].name != list[i].name
  }

  ghost predicate MembersBuilt(rules: Rules, t: Tables, list: seq<Property>, kv: map<string, string>,
                               extra: bool, bound: nat)
    requires Smaller(list, bound)
    decreases bound, 1
  {
    forall i :: 0 <= i < |list| && LastNamed(list, i) && !(extra && list[i].name == STAR) ==>
      list[i].name in kv && MemberBuilt(rules, t, list[i], kv[list[i].name], bound)
  }

  /** The rule of additional members: a key that is none of the listed names, and a value. */
  ghost predicate ExtraBuilt(rules: Rules, t: Tables, list: seq<Property>, additional: Additional,
                             rule: string, bound: nat)
    requires additional.Described? ==> Size(additional.schema) < bound
    decreases bound, 1
  {
    rule in rules && exists keyRule, valueRule, chr ::
      && rules[rule] == ExtraBody(keyRule, valueRule)
      && ExtraKeyBuilt(rules, t, list, keyRule, chr)
      && ExtraValueBuilt(rules, t, additional, valueRule, bound)
  }

  ghost predicate ExtraValueBuilt(rules: Rules, t: Tables, additional: Additional, valueRule: string, bound: nat)
    requires additional.Described? ==> Size(additional.schema) < bound
    decreases bound, 0
  {
    if additional.Described? then Built(rules, t, additional.schema, valueRule)
    else "value" in t.primitives && valueRule in rules && rules[valueRule] == t.primitives["value"].content
  }

  ghost predicate ExtraKeyBuilt(rules: Rules, t: Tables, list: seq<Property>, keyRule: string, chr: string) {
    && {"char", "string"} <= t.primitives.Keys
    && (list == [] ==> keyRule in rules && rules[keyRule] == t.primitives["string"].content)
    && KeyRuleOk(rules, keyRule, chr, list, t.primitives["char"].content)
  }

  ghost predicate ObjectBuilt(rules: Rules, t: Tables, list: seq<Property>, required: set<string>,
                              additional: Additional, e: Expr, bound: nat)
    requires Smaller(list, bound)
    requires additional.Described? ==> Size(additional.schema) < bound
    decreases bound, 3
  {
    exists kv :: ObjectBuiltWith(rules, t, list, required, additional, kv, e, bound)
  }

  ghost predicate ObjectBuiltWith(rules: Rules, t: Tables, list: seq<Property>, required: set<string>,
                                  additional: Additional, kv: map<string, string>, e: Expr, bound: nat)
    requires Smaller(list, bound)
    requires additional.Described? ==> Size(additional.schema) < bound
    decreases bound, 2
  {
    var extra := AllowsExtra(additional);
    && IsObject(rules, kv, RequiredKeys(list, required), WithStar(OptionalKeys(list, required), extra), e)
    && MembersBuilt(rules, t, list, kv, extra, bound)
    && (extra ==> STAR in kv && ExtraBuilt(rules, t, list, additional, kv[STAR], bound))
  }

  ghost predicate LeafBuilt(rules: Rules, t: Tables, s: Schema, e: Expr) {
    var texty := s.typ.NoType? || s.typ == TypeName("string");
    && {"char", "object", "uuid"} <= t.primitives.Keys
    && if texty && IsUuid(s.format) then e == t.primitives["uuid"].content
       else if texty && s.format + "-string" in t.formats then IsAlias(rules, t.formats[s.format + "-string"], e)
       else if s.typ == TypeName("string") && (s.minLength.Some? || s.maxLength.Some?) then
         exists chr :: chr in rules && rules[chr] == t.primitives["char"].content && e == CharsBody(chr, s.minLength, s.maxLength)
       else if s.typ == TypeName("integer") && (s.minimum.Some? || s.maximum.Some?) then
         IntegerBuilt(s, e)
       else if Empty(s) || s.typ == TypeName("object") then IsAlias(rules, t.primitives["object"], e)
       else s.typ.TypeName? && s.typ.name in t.primitives && e == t.primitives[s.typ.name].content
  }

  predicate IntegerBuilt(s: Schema, e: Expr) {
    var min, max := Lowest(s), Highest(s);
    && IntRange.INT_MIN <= min <= max <= IntRange.INT_MAX
    && IntRange.Bounded(min, max, 16, true).Some?
    && e == Seq(Group(IntRange.Bounded(min, max, 16, true).value), Space())
  }

  ghost predicate IsAlias(rules: Rules, b: Builtin, e: Expr) {
    e.Ref? && e.name in rules && rules[e.name] == b.content
  }

  function CharsBody(chr: string, min: Option<nat>, max: Option<nat>): (e: Expr) {
    var chars := Repetition.Build(Ref(chr), if min.Some? then min.value else 0,
                                  if max.Some? then AtMost(max.value) else NoLimit, Repetition.NoSeparator);
    Seq(Lit("\""), Seq(chars, Seq(Lit("\""), Space())))
  }

  // ----- and that it stays so while the table grows -----

  lemma {:induction false} BuiltStays(rules: Rules, before: Rules, t: Tables, s: Schema, n: string)
    requires Extends(rules, before) && Built(before, t, s, n)
    ensures Built(rules, t, s, n)
    decreases Size(s), 3
  {
    hide UnionBuilt, ObjectBuilt, ArrayBuilt, LeafBuilt, EnumBody, ConstantBody;
    var e := before[n];
    if s.ref.Some? {
    } else if s.oneOf.Union? || s.anyOf.Union? || s.typ.TypeList? {
      UnionStays(rules, before, t, UnionOf(s), e, Size(s));
    } else if s.constant.Some? || s.constants.Some? {
    } else if ObjectKind(s) {
      ObjectBuiltStays(rules, before, t, PropertyList(s), s.required, s.additional, e, Size(s));
    } else if ArrayKind(s) {
      ArrayStays(rules, before, t, s, e);
    } else {
      LeafStays(rules, before, t, s, e);
    }
  }

  /** What an object schema's rule is built like. */
  ghost predicate ObjectOf(rules: Rules, t: Tables, s: Schema, e: Expr) {
    ObjectBuilt(rules, t, PropertyList(s), s.required, s.additional, e, Size(s))
  }

  ghost predicate UnionOfBuilt(rules: Rules, t: Tables, s: Schema, e: Expr)
    requires s.oneOf.Union? || s.anyOf.Union? || s.typ.TypeList?
  {
    UnionBuilt(rules, t, UnionOf(s), e, Size(s))
  }

  lemma {:induction false} NamesStay(rules: Rules, before: Rules, t: Tables, ss: seq<Schema>,
                                    names: seq<string>, bound: nat)
    requires Extends(rules, before) && AllSmaller(ss, bound)
    requires NamesBuilt(before, t, ss, names, bound)
    ensures NamesBuilt(rules, t, ss, names, bound)
    decreases bound, 0
  {
    hide Built, Extends;
    forall i | 0 <= i < |ss|
      ensures Built(rules, t, ss[i], names[i])
    {
      BuiltStays(rules, before, t, ss[i], names[i]);
    }
  }

  lemma NoNames(rules: Rules, t: Tables, bound: nat)
    ensures NamesBuilt(rules, t, [], [], bound)
  {}

  lemma OneMoreName(rules: Rules, t: Tables, ss: seq<Schema>, names: seq<string>, s: Schema, n: string, bound: nat)
    requires Size(s) < bound && AllSmaller(ss, bound)
    requires NamesBuilt(rules, t, ss, names, bound) && Built(rules, t, s, n)
    ensures AllSmaller(ss + [s], bound) && NamesBuilt(rules, t, ss + [s], names + [n], bound)
  {
    hide Built;
  }

  lemma {:induction false} UnionStays(rules: Rules, before: Rules, t: Tables, ss: seq<Schema>, e: Expr, bound: nat)
    requires Extends(rules, before) && AllSmaller(ss, bound)
    requires UnionBuilt(before, t, ss, e, bound)
    ensures UnionBuilt(rules, t, ss, e, bound)
    decreases bound, 1
  {
    hide NamesBuilt, Extends;
    var names :| NamesBuilt(before, t, ss, names, bound) && e == JoinRefs(names);
    NamesStay(rules, before, t, ss, names, bound);
  }

  lemma {:induction false} ArrayStays(rules: Rules, before: Rules, t: Tables, s: Schema, e: Expr)
    requires Extends(rules, before) && ArrayBuilt(before, t, s, e)
    ensures ArrayBuilt(rules, t, s, e)
    decreases Size(s), 1
  {
    hide NamesBuilt, Built, Extends, Bracketed, ListBody;
    if s.items.Tuple? {
      var names :| NamesBuilt(before, t, s.items.schemas, names, Size(s)) && e == Bracketed(TupleItems(names));
      NamesStay(rules, before, t, s.items.schemas, names, Size(s));
    } else {
      var name :| Built(before, t, s.items.schema, name) && e == ListBody(name, s.minItems, s.maxItems);
      BuiltStays(rules, before, t, s.items.schema, name);
    }
  }

  lemma {:induction false} MemberStays(rules: Rules, before: Rules, t: Tables, p: Property, rule: string, bound: nat)
    requires Extends(rules, before) && Size(p.schema) < bound && MemberBuilt(before, t, p, rule, bound)
    ensures MemberBuilt(rules, t, p, rule, bound)
    decreases bound, 0
  {
    hide Built, KvBody;
    var v :| before[rule] == KvBody(p.name, v) && Built(before, t, p.schema, v);
    BuiltStays(rules, before, t, p.schema, v);
  }

  lemma {:induction false} MembersStay(rules: Rules, before: Rules, t: Tables, list: seq<Property>,
                                      kv: map<string, string>, extra: bool, bound: nat)
    requires Extends(rules, before) && Smaller(list, bound)
    requires MembersBuilt(before, t, list, kv, extra, bound)
    ensures MembersBuilt(rules, t, list, kv, extra, bound)
    decreases bound, 1
  {
    hide MemberBuilt, Extends, LastNamed;
    forall i | 0 <= i < |list| && LastNamed(list, i) && !(extra && list[i].name == STAR)
      ensures list[i].name in kv && MemberBuilt(rules, t, list[i], kv[list[i].name], bound)
    {
      MemberStays(rules, before, t, list[i], kv[list[i].name], bound);
    }
  }

  lemma StarAdded(rules: Rules, t: Tables, list: seq<Property>, kv: map<string, string>, rule: string, bound: nat)
    requires Smaller(list, bound)
    requires MembersBuilt(rules, t, list, kv, false, bound)
    ensures MembersBuilt(rules, t, list, kv[STAR := rule], true, bound)
  {
    hide MemberBuilt, LastNamed;
  }

  lemma MemberIntro(rules: Rules, t: Tables, p: Property, rule: string, value: string, bound: nat)
    requires Size(p.schema) < bound && rule in rules && rules[rule] == KvBody(p.name, value) && Built(rules, t, p.schema, value)
    ensures MemberBuilt(rules, t, p, rule, bound)
  {
    hide Built, KvBody;
  }

  lemma NoMembers(rules: Rules, t: Tables, bound: nat)
    ensures MembersBuilt(rules, t, [], map[], false, bound)
  {}

  lemma OneMoreMember(rules: Rules, t: Tables, list: seq<Property>, kv: map<string, string>,
                      p: Property, rule: string, bound: nat)
    requires Size(p.schema) < bound && Smaller(list, bound)
    requires MembersBuilt(rules, t, list, kv, false, bound) && MemberBuilt(rules, t, p, rule, bound)
    ensures MembersBuilt(rules, t, list + [p], kv[p.name := rule], false, bound)
  {
    hide MemberBuilt;
    var more := list + [p];
    forall i | 0 <= i < |more| && LastNamed(more, i)
      ensures more[i].name in kv[p.name := rule]
      ensures MemberBuilt(rules, t, more[i], kv[p.name := rule][more[i].name], bound)
    {
      if i < |list| {
        assert more[|list|] == p && more[i] == list[i];
        assert LastNamed(list, i) by {
          forall j | i < j < |list|
            ensures list[j].name != list[i].name
          {
            assert more[j] == list[j];
          }
        }
      }
    }
  }

  /** What the loop over the properties has done so far. */
  ghost predicate PropertiesDone(rules: Rules, t: Tables, list: seq<Property>, required: set<string>,
                                 kv: map<string, string>, requiredKeys: seq<string>, optionalKeys: seq<string>,
                                 clean: bool, bound: nat)
    requires Smaller(list, bound)
  {
    && KeysFor(rules, list, required, kv, requiredKeys, optionalKeys)
    && (clean ==> MembersBuilt(rules, t, list, kv, false, bound))
  }

  lemma NothingDone(rules: Rules, t: Tables, required: set<string>, clean: bool, bound: nat)
    ensures Smaller([], bound) && PropertiesDone(rules, t, [], required, map[], [], [], clean, bound)
  {
    KeysForNone(rules, required);
    NoMembers(rules, t, bound);
  }

  lemma PropertiesStep(rules: Rules, before: Rules, t: Tables, list: seq<Property>, required: set<string>,
                       kv: map<string, string>, requiredKeys: seq<string>, optionalKeys: seq<string>,
                       clean: bool, still: bool, p: Property, rule: string, bound: nat)
    requires Extends(rules, before) && Size(p.schema) < bound && Smaller(list, bound)
    requires PropertiesDone(before, t, list, required, kv, requiredKeys, optionalKeys, clean, bound)
    requires rule in rules && exists v :: rules[rule] == KvBody(p.name, v)
    requires still ==> MemberBuilt(rules, t, p, rule, bound)
    ensures Smaller(list + [p], bound)
    ensures PropertiesDone(rules, t, list + [p], required, kv[p.name := rule],
                           if p.name in required then requiredKeys + [p.name] else requiredKeys,
                           if p.name in required then optionalKeys else optionalKeys + [p.name], clean && still, bound)
  {
    hide KeysFor, MembersBuilt, MemberBuilt, Extends, KvBody;
    KeysForStep(rules, before, list, required, kv, requiredKeys, optionalKeys, p, rule);
    if clean && still {
      MembersStay(rules, before, t, list, kv, false, bound);
      OneMoreMember(rules, t, list, kv, p, rule, bound);
    }
  }

  lemma DoneMeans(rules: Rules, t: Tables, list: seq<Property>, required: set<string>,
                  kv: map<string, string>, requiredKeys: seq<string>, optionalKeys: seq<string>, clean: bool, bound: nat)
    requires Smaller(list, bound)
    requires PropertiesDone(rules, t, list, required, kv, requiredKeys, optionalKeys, clean, bound)
    ensures requiredKeys == RequiredKeys(list, required) && optionalKeys == OptionalKeys(list, required)
    ensures kv.Keys == Elements(Names(list)) && kv.Values <= rules.Keys && KvAll(rules, kv, list)
    ensures Smaller(list, bound)
    ensures clean ==> MembersBuilt(rules, t, list, kv, false, bound)
  {}

  /** Members and additional members built earlier make the object rule of their keys. */
  lemma ObjectBuiltLater(rules: Rules, before: Rules, t: Tables, list: seq<Property>, required: set<string>,
                         additional: Additional, kv: map<string, string>, e: Expr, bound: nat)
    requires Extends(rules, before) && Smaller(list, bound) && (additional.Described? ==> Size(additional.schema) < bound)
    requires MembersBuilt(before, t, list, kv, AllowsExtra(additional), bound)
    requires AllowsExtra(additional) ==> STAR in kv && ExtraBuilt(before, t, list, additional, kv[STAR], bound)
    requires IsObject(rules, kv, RequiredKeys(list, required), WithStar(OptionalKeys(list, required), AllowsExtra(additional)), e)
    ensures ObjectBuiltWith(rules, t, list, required, additional, kv, e, bound)
    decreases bound, 3
  {
    hide MembersBuilt, ExtraBuilt, Extends, IsObject, Size, Smaller;
    MembersStay(rules, before, t, list, kv, AllowsExtra(additional), bound);
    if AllowsExtra(additional) { ExtraBuiltStays(rules, before, t, list, additional, kv[STAR], bound); }
  }

  lemma {:induction false} ExtraBuiltStays(rules: Rules, before: Rules, t: Tables, list: seq<Property>,
                                          additional: Additional, rule: string, bound: nat)
    requires Extends(rules, before) && (additional.Described? ==> Size(additional.schema) < bound)
    requires ExtraBuilt(before, t, list, additional, rule, bound)
    ensures ExtraBuilt(rules, t, list, additional, rule, bound)
    decreases bound, 1
  {
    hide ExtraValueBuilt, ExtraBody, ExtraKeyBuilt;
    var keyRule, valueRule, chr :|
      && before[rule] == ExtraBody(keyRule, valueRule)
      && ExtraKeyBuilt(before, t, list, keyRule, chr)
      && ExtraValueBuilt(before, t, additional, valueRule, bound);
    ExtraKeyStays(rules, before, t, list, keyRule, chr);
    ExtraValueStays(rules, before, t, additional, valueRule, bound);
  }

  lemma {:induction false} ExtraValueStays(rules: Rules, before: Rules, t: Tables,
                                          additional: Additional, valueRule: string, bound: nat)
    requires Extends(rules, before) && (additional.Described? ==> Size(additional.schema) < bound)
    requires ExtraValueBuilt(before, t, additional, valueRule, bound)
    ensures ExtraValueBuilt(rules, t, additional, valueRule, bound)
    decreases bound, 0
  {
    hide Built;
    if additional.Described? {
      BuiltStays(rules, before, t, additional.schema, valueRule);
    }
  }

  lemma ExtraBuiltIntro(rules: Rules, t: Tables, list: seq<Property>, additional: Additional,
                        rule: string, keyRule: string, valueRule: string, chr: string, bound: nat)
    requires additional.Described? ==> Size(additional.schema) < bound
    requires rule in rules && rules[rule] == ExtraBody(keyRule, valueRule)
    requires ExtraKeyBuilt(rules, t, list, keyRule, chr) && ExtraValueBuilt(rules, t, additional, valueRule, bound)
    ensures ExtraBuilt(rules, t, list, additional, rule, bound)
  {
    hide ExtraBody, ExtraKeyBuilt, ExtraValueBuilt;
  }

  lemma ExtraKeyStays(rules: Rules, before: Rules, t: Tables, list: seq<Property>, keyRule: string, chr: string)
    requires Extends(rules, before) && ExtraKeyBuilt(before, t, list, keyRule, chr)
    ensures ExtraKeyBuilt(rules, t, list, keyRule, chr)
  {
    KeyRuleStays(rules, before, keyRule, chr, list, t.primitives["char"].content);
  }

  lemma {:induction false} ObjectBuiltStays(rules: Rules, before: Rules, t: Tables, list: seq<Property>,
                                           required: set<string>, additional: Additional, e: Expr, bound: nat)
    requires Extends(rules, before)
    requires Smaller(list, bound)
    requires additional.Described? ==> Size(additional.schema) < bound
    requires ObjectBuilt(before, t, list, required, additional, e, bound)
    ensures ObjectBuilt(rules, t, list, required, additional, e, bound)
    decreases bound, 2
  {
    hide IsObject, MembersBuilt, ExtraBuilt, Extends;
    var extra := AllowsExtra(additional);
    var kv :| ObjectBuiltWith(before, t, list, required, additional, kv, e, bound);
    ObjectStays(rules, before, kv, RequiredKeys(list, required), WithStar(OptionalKeys(list, required), extra), e);
    MembersStay(rules, before, t, list, kv, extra, bound);
    if extra {
      ExtraBuiltStays(rules, before, t, list, additional, kv[STAR], bound);
    }
    assert ObjectBuiltWith(rules, t, list, required, additional, kv, e, bound);
  }

  lemma ObjectIntro(rules: Rules, t: Tables, list: seq<Property>, required: set<string>, additional: Additional,
                    kv: map<string, string>, e: Expr, bound: nat)
    requires Smaller(list, bound)
    requires additional.Described? ==> Size(additional.schema) < bound
    requires ObjectBuiltWith(rules, t, list, required, additional, kv, e, bound)
    ensures ObjectBuilt(rules, t, list, required, additional, e, bound)
  {
    hide ObjectBuiltWith;
  }

  lemma LeafStays(rules: Rules, before: Rules, t: Tables, s: Schema, e: Expr)
    requires Extends(rules, before) && LeafBuilt(before, t, s, e)
    ensures LeafBuilt(rules, t, s, e)
  {
    hide CharsBody, IntegerBuilt, IsUuid;
  }

  lemma ExtendsTwice(c: Rules, b: Rules, a: Rules)
    requires Extends(c, b) && Extends(b, a)
    ensures Extends(c, a)
  {}

  /** The built-in tables are complete: every dependency is there, and nothing else is used; no
      name is in both, and none is empty or that of the rule for blanks. */
  ghost predicate TablesOk(t: Tables) {
    && {"char", "object", "value", "string", "uuid"} <= t.primitives.Keys
    && t.primitives.Keys !! t.formats.Keys && SPACE !in BuiltinNames(t) && "" !in BuiltinNames(t)
    && (forall n :: n in t.primitives ==> ValidName(n) && EntryOk(t.primitives[n], t))
    && (forall n :: n in t.formats ==> ValidName(n) && EntryOk(t.formats[n], t))
  }

  ghost predicate EntryOk(b: Builtin, t: Tables) {
    && (forall d :: d in b.deps ==> d in t.primitives || d in t.formats)
    && RefsOf(b.content) <= Elements(b.deps) + {SPACE}
  }

  /** What an object schema asks for. */
  predicate SpecFor(s: Schema, spec: ObjectSpec) {
    spec.properties == PropertyList(s) && spec.required == s.required && (spec.extra <==> AllowsExtra(s.additional))
  }

  predicate IsObjectSchema(s: Schema) {
    && s.ref.None? && s.oneOf.NoUnion? && s.anyOf.NoUnion? && !s.typ.TypeList? && s.constant.None? && s.constants.None?
    && ObjectKind(s)
  }

  /** An integer with bounds that a grammar is written for. */
  predicate IntegerSchema(s: Schema) {
    && s.ref.None? && s.oneOf.NoUnion? && s.anyOf.NoUnion? && s.constant.None? && s.constants.None?
    && s.typ == TypeName("integer") && (s.minimum.Some? || s.maximum.Some?) && WritableBounds(s)
  }

  predicate WritableBounds(s: Schema) {
    && IntRange.INT_MIN <= Lowest(s) <= Highest(s) <= IntRange.INT_MAX
    && IntRange.Bounded(Lowest(s), Highest(s), 16, true).Some?
  }

  /** When a reference is met whose last component names a rule already, whatever rule that is,
      the reference is written as that name. */
  predicate TakenName(s: Schema, before: Rules, rules: Rules, value: string) {
    s.ref.Some? && LastComponent(s.ref.value) in before ==>
      value in rules && rules[value] == Ref(LastComponent(s.ref.value))
  }

  lemma TakenStays(s: Schema, first: Rules, before: Rules, rules: Rules, value: string)
    requires Extends(rules, before) && TakenName(s, first, before, value)
    ensures TakenName(s, first, rules, value)
  {}

  predicate ConstantSchema(s: Schema) {
    && s.ref.None? && s.oneOf.NoUnion? && s.anyOf.NoUnion? && !s.typ.TypeList?
    && (s.constant.Some? || s.constants.Some?)
  }

  /** A schema whose rule is written before any other. */
  predicate AtOnce(s: Schema) {
    ConstantSchema(s) || IntegerSchema(s)
  }

  predicate AtOnceBuilt(s: Schema, e: Expr) {
    if s.constant.Some? then e == ConstantBody(s.constant.value)
    else if s.constants.Some? then e == EnumBody(s.constants.value)
    else IntegerBuilt(s, e)
  }

  /** Such a rule gets the name asked for, with dashes for other characters, when that is free,
      whatever that name means. */
  predicate AtOnceNamed(t: Tables, s: Schema, name: string, before: Rules, rules: Rules) {
    var key := Escape(RuleName(t, name));
    AtOnce(s) && key !in before ==> key in rules && AtOnceBuilt(s, rules[key])
  }

  lemma AtOnceStays(t: Tables, s: Schema, name: string, first: Rules, before: Rules, rules: Rules)
    requires Extends(rules, before) && AtOnceNamed(t, s, name, first, before)
    ensures AtOnceNamed(t, s, name, first, rules)
  {
    hide AtOnce, AtOnceBuilt, Escape, RuleName;
  }

  /** The same for the first property of an object. */
  predicate FirstNamed(t: Tables, ps: seq<Property>, name: string, before: Rules, rules: Rules) {
    ps != [] ==> AtOnceNamed(t, ps[0].schema, Dash(name) + ps[0].name, before, rules)
  }

  lemma FirstOfNone(t: Tables, ps: seq<Property>, name: string, before: Rules, rules: Rules)
    ensures ps == [] ==> FirstNamed(t, ps, name, before, rules)
  {}

  lemma FirstStarts(t: Tables, ps: seq<Property>, name: string, before: Rules, rules: Rules)
    requires ps != [] && AtOnceNamed(t, ps[0].schema, Dash(name) + ps[0].name, before, rules)
    ensures FirstNamed(t, ps, name, before, rules)
  {}

  lemma FirstStays(t: Tables, ps: seq<Property>, name: string, first: Rules, before: Rules, rules: Rules)
    requires Extends(rules, before) && FirstNamed(t, ps, name, first, before)
    ensures FirstNamed(t, ps, name, first, rules)
  {
    if ps != [] { AtOnceStays(t, ps[0].schema, Dash(name) + ps[0].name, first, before, rules); }
  }

  lemma FirstStep(t: Tables, ps: seq<Property>, name: string, i: nat, first: Rules, before: Rules, rules: Rules)
    requires i < |ps| && Extends(rules, before)
    requires if i == 0 then before == first else FirstNamed(t, ps, name, first, before)
    requires AtOnceNamed(t, ps[i].schema, Dash(name) + ps[i].name, before, rules)
    ensures FirstNamed(t, ps, name, first, rules)
  {
    hide *;
    if i == 0 {
      FirstStarts(t, ps, name, before, rules);
    } else {
      FirstStays(t, ps, name, first, before, rules);
    }
  }
}
