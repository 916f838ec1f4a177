/** What a finished grammar derives. The built-in rules are read from their own table, whatever
    the grammar makes of their names; a text can be derived from the grammar's root rule exactly
    when it is one the schema stands for. */
module GrammarMeaning {
  import opened Common
  import opened Gbnf
  import opened ObjectRule
  import opened Schemas
  import opened BuiltRules
  import opened References
  import opened SchemaConverter
  import opened SchemaMeaning
  import GrammarText
  import NotStrings
  import Repetition

  // ----- what the built-in names stand for -----

  /** The built-in rules and the rule for blanks, all under their own names. */
  function BuiltinTable(t: Tables, spaceRule: Expr): (rules: Rules) {
    map n | n in BuiltinNames(t) + {SPACE} :: if n == SPACE then spaceRule else BuiltinOf(t, n).content
  }

  /** What can be derived from a built-in name when nothing else is in the table. */
  ghost function BuiltinReading(t: Tables, spaceRule: Expr): (base: Env) {
    Derivation(BuiltinTable(t, spaceRule))
  }

  /** The two readings agree on these names. */
  ghost predicate AgreeOn(a: Env, b: Env, names: set<string>) {
    forall n, w :: n in names ==> (a(n, w) <==> b(n, w))
  }

  lemma {:induction false} AcceptsSame(a: Env, b: Env, e: Expr, w: string)
    requires AgreeOn(a, b, RefsOf(e))
    ensures Accepts(a, e, w) <==> Accepts(b, e, w)
    decreases e
  {
    match e
    case Group(body) =>
      AcceptsSame(a, b, body, w);
    case Alt(left, right) =>
      AcceptsSame(a, b, left, w);
      AcceptsSame(a, b, right, w);
    case Seq(first, second) =>
      forall x ensures Accepts(a, first, x) <==> Accepts(b, first, x) {
        AcceptsSame(a, b, first, x);
      }
      forall x ensures Accepts(a, second, x) <==> Accepts(b, second, x) {
        AcceptsSame(a, b, second, x);
      }
    case Repeat(body, _, _) =>
      forall x ensures Accepts(a, body, x) <==> Accepts(b, body, x) {
        AcceptsSame(a, b, body, x);
      }
    case _ =>
  }

  /** Both tables have the same rules under these names, and the rules refer to no others. */
  ghost predicate SameRules(a: Rules, b: Rules, names: set<string>) {
    forall n :: n in names ==> n in a && n in b && a[n] == b[n] && RefsOf(a[n]) <= names
  }

  /** What can be derived depends on no other rules. */
  least lemma DerivesToo(a: Rules, b: Rules, names: set<string>, e: Expr, w: string)
    requires Derives(a, e, w) && SameRules(a, b, names) && RefsOf(e) <= names
    ensures Derives(b, e, w)
  {
    match e
    case Ref(name) =>
      DerivesToo(a, b, names, a[name], w);
    case Group(body) =>
      DerivesToo(a, b, names, body, w);
    case Alt(left, right) =>
      if Derives#[_k - 1](a, left, w) {
        DerivesToo(a, b, names, left, w);
      } else {
        DerivesToo(a, b, names, right, w);
      }
    case Seq(first, second) =>
      var i :| 0 <= i <= |w| && Derives#[_k - 1](a, first, w[..i]) && Derives#[_k - 1](a, second, w[i..]);
      DerivesToo(a, b, names, first, w[..i]);
      DerivesToo(a, b, names, second, w[i..]);
    case Repeat(body, min, max) =>
      var ws: seq<string> :| Within(|ws|, min, max) && Concat(ws) == w
                             && forall i :: 0 <= i < |ws| ==> Derives#[_k - 1](a, body, ws[i]);
      forall i | 0 <= i < |ws| {
        DerivesToo(a, b, names, body, ws[i]);
      }
    case _ =>
  }

  lemma DerivationSame(a: Rules, b: Rules, names: set<string>)
    requires SameRules(a, b, names)
    ensures AgreeOn(Derivation(a), Derivation(b), names)
  {
    forall n, w | n in names ensures Derivation(a)(n, w) <==> Derivation(b)(n, w) {
      if Derives(a, a[n], w) {
        DerivesToo(a, b, names, a[n], w);
      }
      if Derives(b, b[n], w) {
        DerivesToo(b, a, names, b[n], w);
      }
    }
  }

  // ----- a closed table whose built-in names hold the built-in rules -----

  /** The built-in names that the grammar uses, and the one for blanks. */
  function Used(t: Tables, rules: Rules): (names: set<string>) {
    set n | n in rules && n in BuiltinNames(t) + {SPACE}
  }

  ghost predicate Kept(t: Tables, spaceRule: Expr, rules: Rules) {
    && TablesOk(t) && RefsOf(spaceRule) == {} && ClosedTable(rules) && KeptOk(rules, t, BuiltinNames(t))
    && SPACE in rules && rules[SPACE] == spaceRule
  }

  lemma ContentRefs(t: Tables, n: string)
    requires TablesOk(t) && n in BuiltinNames(t)
    ensures RefsOf(BuiltinOf(t, n).content) <= BuiltinNames(t) + {SPACE}
  {
    var b := BuiltinOf(t, n);
    assert EntryOk(b, t);
    assert forall d :: d in Elements(b.deps) ==> d in b.deps;
  }

  lemma KeptIsSame(t: Tables, spaceRule: Expr, rules: Rules)
    requires Kept(t, spaceRule, rules)
    ensures SameRules(rules, BuiltinTable(t, spaceRule), Used(t, rules))
  {
    hide EntryOk, RefsOf;
    forall n | n in Used(t, rules)
      ensures rules[n] == BuiltinTable(t, spaceRule)[n] && RefsOf(rules[n]) <= Used(t, rules)
    {
      assert RefsOf(rules[n]) <= rules.Keys;
      if n != SPACE { ContentRefs(t, n); }
    }
  }

  /** Built-in names read from their own table, all others from the grammar. */
  ghost function GrammarReading(t: Tables, spaceRule: Expr, rules: Rules): (env: Env) {
    (n, w) => if n in BuiltinNames(t) + {SPACE} then BuiltinReading(t, spaceRule)(n, w) else Derivation(rules)(n, w)
  }

  lemma DerivationSolves(rules: Rules)
    ensures Solves(Derivation(rules), rules)
  {
    forall name, w | name in rules ensures Derivation(rules)(name, w) <==> Accepts(Derivation(rules), rules[name], w) {
      DerivesIsAccepted(rules, rules[name], w);
    }
  }

  /** For the names of the grammar this is what can be derived from it. */
  lemma ReadingIsDerivation(t: Tables, spaceRule: Expr, rules: Rules)
    requires Kept(t, spaceRule, rules)
    ensures AgreeOn(GrammarReading(t, spaceRule, rules), Derivation(rules), rules.Keys)
    ensures Solves(GrammarReading(t, spaceRule, rules), rules)
  {
    KeptIsSame(t, spaceRule, rules);
    DerivationSame(rules, BuiltinTable(t, spaceRule), Used(t, rules));
    DerivationSolves(rules);
    var env, read := GrammarReading(t, spaceRule, rules), Derivation(rules);
    hide Derivation, SameRules, KeptOk, TablesOk, BuiltinTable;
    forall n, w | n in rules ensures env(n, w) <==> read(n, w) {
      if n in BuiltinNames(t) + {SPACE} { assert n in Used(t, rules); }
    }
    forall n, w | n in rules ensures env(n, w) <==> Accepts(env, rules[n], w) {
      assert RefsOf(rules[n]) <= rules.Keys;
      AcceptsSame(env, read, rules[n], w);
    }
  }

  // ----- a schema's meaning depends on the built-in names only -----

  /** Readings that agree on all that built-in rules refer to; both read `char` as its rule. */
  ghost predicate SameBuiltins(a: Env, b: Env, t: Tables) {
    && TablesOk(t) && AgreeOn(a, b, BuiltinNames(t) + {SPACE})
    && ReadsAs(a, "char", t.primitives["char"].content) && ReadsAs(b, "char", t.primitives["char"].content)
  }

  lemma BuiltinSame(a: Env, b: Env, t: Tables, n: string, w: string)
    requires TablesOk(t) && AgreeOn(a, b, BuiltinNames(t) + {SPACE}) && n in BuiltinNames(t)
    ensures Accepts(a, BuiltinOf(t, n).content, w) <==> Accepts(b, BuiltinOf(t, n).content, w)
    ensures n in t.primitives ==> BuiltinOf(t, n) == t.primitives[n]
    ensures n in t.formats ==> BuiltinOf(t, n) == t.formats[n]
  {
    ContentRefs(t, n);
    hide TablesOk, RefsOf;
    AcceptsSame(a, b, BuiltinOf(t, n).content, w);
  }

  lemma PrimitivesSame(a: Env, b: Env, t: Tables)
    requires TablesOk(t) && AgreeOn(a, b, BuiltinNames(t) + {SPACE})
    ensures forall n, w :: n in t.primitives ==> (Accepts(a, t.primitives[n].content, w) <==> Accepts(b, t.primitives[n].content, w))
    ensures forall n, w :: n in t.formats ==> (Accepts(a, t.formats[n].content, w) <==> Accepts(b, t.formats[n].content, w))
  {
    hide Accepts, TablesOk;
    forall n, w | n in t.primitives ensures Accepts(a, t.primitives[n].content, w) <==> Accepts(b, t.primitives[n].content, w) {
      BuiltinSame(a, b, t, n, w);
    }
    forall n, w | n in t.formats ensures Accepts(a, t.formats[n].content, w) <==> Accepts(b, t.formats[n].content, w) {
      BuiltinSame(a, b, t, n, w);
    }
  }

  lemma {:induction false} MeansSame(a: Env, b: Env, refs: Env, t: Tables, s: Schema, w: string)
    requires SameBuiltins(a, b, t)
    ensures Means(a, refs, t, s, w) <==> Means(b, refs, t, s, w)
    decreases Size(s), 3
  {
    hide ObjectMeans, ItemsMean, LeafMeans, ObjectKind, ArrayKind, InBrackets, SameBuiltins, PropertyList, Accepts;
    assert AgreeOn(a, b, {SPACE}) by { SpaceAgrees(a, b, t); }
    if s.ref.Some? {
    } else if s.oneOf.Union? || s.anyOf.Union? || s.typ.TypeList? {
      forall i | 0 <= i < |UnionOf(s)| ensures Means(a, refs, t, UnionOf(s)[i], w) <==> Means(b, refs, t, UnionOf(s)[i], w) {
        MeansSame(a, b, refs, t, UnionOf(s)[i], w);
      }
    } else if s.constant.Some? || s.constants.Some? {
    } else if ObjectKind(s) {
      ObjectMeansSame(a, b, refs, t, s, w);
    } else if ArrayKind(s) {
      forall x ensures ItemsMean(a, refs, t, s, x) <==> ItemsMean(b, refs, t, s, x) {
        ItemsMeanSame(a, b, refs, t, s, x);
      }
    } else {
      LeafMeansSame(a, b, t, s, w);
    }
  }

  lemma SpaceAgrees(a: Env, b: Env, t: Tables)
    requires SameBuiltins(a, b, t)
    ensures AgreeOn(a, b, {SPACE})
  {}

  lemma LeafMeansSame(a: Env, b: Env, t: Tables, s: Schema, w: string)
    requires SameBuiltins(a, b, t)
    ensures LeafMeans(a, t, s, w) <==> LeafMeans(b, t, s, w)
  {
    PrimitivesSame(a, b, t);
    forall x ensures CharsMean(a, t.primitives["char"].content, s, x) <==> CharsMean(b, t.primitives["char"].content, s, x) {
      var chr := t.primitives["char"].content;
      hide Accepts, TablesOk;
      SomeListSame(a, chr, b, chr, if s.minLength.Some? then s.minLength.value else 0,
                   if s.maxLength.Some? then AtMost(s.maxLength.value) else NoLimit, Repetition.NoSeparator, x);
    }
    SpaceAgrees(a, b, t);
    hide Accepts, CharsMean, IntegerMeans, TablesOk, SameBuiltins, IsUuid;
  }

  lemma {:induction false} ItemsMeanSame(a: Env, b: Env, refs: Env, t: Tables, s: Schema, x: string)
    requires SameBuiltins(a, b, t)
    ensures ItemsMean(a, refs, t, s, x) <==> ItemsMean(b, refs, t, s, x)
    decreases Size(s), 2
  {
    match s.items
    case NoItems =>
    case Tuple(ss) =>
      TupleMeansSame(a, b, refs, t, ss, x, Size(s));
    case Each(item) =>
      hide SameBuiltins, Means, Accepts;
      var comma := Repetition.Between(Seq(Lit(","), Space()));
      SpaceAgrees(a, b, t);
      var ra, rb := ItemReading(a, refs, t, item), ItemReading(b, refs, t, item);
      forall v ensures Accepts(ra, Ref("item"), v) <==> Accepts(rb, Ref("item"), v) {
        MeansSame(a, b, refs, t, item, v);
        RefSame(ra, "item", v);
        RefSame(rb, "item", v);
      }
      forall v ensures Accepts(ra, comma.e, v) <==> Accepts(rb, comma.e, v) {
        CommaSame(ra, rb, v);
      }
      SomeListSame(ra, Ref("item"), rb, Ref("item"), s.minItems, s.maxItems, comma, x);
      hide Repetition.SomeList, ItemReading;
  }

  lemma {:induction false} TupleMeansSame(a: Env, b: Env, refs: Env, t: Tables, ss: seq<Schema>, x: string, bound: nat)
    requires SameBuiltins(a, b, t) && forall i :: 0 <= i < |ss| ==> Size(ss[i]) < bound
    ensures TupleMeans(a, refs, t, ss, x, bound) <==> TupleMeans(b, refs, t, ss, x, bound)
    decreases bound, 0, |ss|
  {
    hide SameBuiltins, Means;
    SpaceAgrees(a, b, t);
    if |ss| == 1 {
      MeansSame(a, b, refs, t, ss[0], x);
    } else if |ss| > 1 {
      forall v ensures Means(a, refs, t, ss[0], v) <==> Means(b, refs, t, ss[0], v) {
        MeansSame(a, b, refs, t, ss[0], v);
      }
      forall rest ensures TupleMeans(a, refs, t, ss[1..], rest, bound) <==> TupleMeans(b, refs, t, ss[1..], rest, bound) {
        TupleMeansSame(a, b, refs, t, ss[1..], rest, bound);
      }
    }
  }

  lemma {:induction false} ObjectMeansSame(a: Env, b: Env, refs: Env, t: Tables, s: Schema, w: string)
    requires SameBuiltins(a, b, t)
    ensures ObjectMeans(a, refs, t, s, w) <==> ObjectMeans(b, refs, t, s, w)
    decreases Size(s), 2
  {
    hide SameBuiltins, MemberMeans, ObjectText, Names, RequiredKeys, OptionalKeys;
    SpaceAgrees(a, b, t);
    var list, extra := PropertyList(s), AllowsExtra(s.additional);
    var required, optional := RequiredKeys(list, s.required), WithStar(OptionalKeys(list, s.required), extra);
    var keys := Elements(Names(list)) + {STAR};
    var named := SelfNamed(keys);
    var ra, rb := MemberReading(a, refs, t, s), MemberReading(b, refs, t, s);
    KeysListed(list, s.required, extra);
    forall k, x | k in keys ensures ra(named[k], x) <==> rb(named[k], x) {
      MemberMeansSame(a, b, refs, t, s, k, x);
      assert named[k][1..] == k;
    }
    AllListed(list, s.required, extra, keys);
    ObjectTextSame(ra, named, rb, named, keys, required, optional, w);
  }

  lemma AllListed(list: seq<Property>, required: set<string>, extra: bool, keys: set<string>)
    requires keys == Elements(Names(list)) + {STAR}
    ensures KeysOf(keys, RequiredKeys(list, required)) && KeysOf(keys, WithStar(OptionalKeys(list, required), extra))
  {
    KeysListed(list, required, extra);
    hide RequiredKeys, OptionalKeys, Names;
    var ks, os := RequiredKeys(list, required), WithStar(OptionalKeys(list, required), extra);
    assert forall k :: k in ks ==> k in Elements(ks);
    assert forall k :: k in os ==> k in Elements(os);
  }

  lemma {:induction false} MemberMeansSame(a: Env, b: Env, refs: Env, t: Tables, s: Schema, key: string, x: string)
    requires SameBuiltins(a, b, t)
    ensures MemberMeans(a, refs, t, s, key, x) <==> MemberMeans(b, refs, t, s, key, x)
    decreases Size(s), 1
  {
    hide Means, GrammarText.Dump, KeyMeans, Accepts, PropertyList, TablesOk;
    SpaceAgrees(a, b, t);
    if key == STAR {
      forall k ensures KeyMeans(a, t, PropertyList(s), k) <==> KeyMeans(b, t, PropertyList(s), k) {
        KeyMeansSame(a, b, t, PropertyList(s), k);
      }
      forall v ensures ExtraMeans(a, refs, t, s, v) <==> ExtraMeans(b, refs, t, s, v) {
        if s.additional.Described? {
          MeansSame(a, b, refs, t, s.additional.schema, v);
        } else {
          PrimitivesSame(a, b, t);
        }
      }
      hide SameBuiltins, ExtraMeans;
      StarMeansIs(a, refs, t, s, x);
      StarMeansIs(b, refs, t, s, x);
      hide MemberMeans;
    } else {
      hide SameBuiltins;
      forall i, v | 0 <= i < |PropertyList(s)|
        ensures Means(a, refs, t, PropertyList(s)[i].schema, v) <==> Means(b, refs, t, PropertyList(s)[i].schema, v)
      {
        MeansSame(a, b, refs, t, PropertyList(s)[i].schema, v);
      }
    }
  }

  /** The values of additional members. */
  ghost predicate ExtraMeans(env: Env, refs: Env, t: Tables, s: Schema, v: string) {
    if s.additional.Described? then Means(env, refs, t, s.additional.schema, v)
    else "value" in t.primitives && Accepts(env, t.primitives["value"].content, v)
  }

  lemma StarMeansIs(env: Env, refs: Env, t: Tables, s: Schema, x: string)
    ensures MemberMeans(env, refs, t, s, STAR, x) <==>
      exists k, sp, v :: x == k + (":" + (sp + v)) && KeyMeans(env, t, PropertyList(s), k) && env(SPACE, sp) && ExtraMeans(env, refs, t, s, v)
  {
    hide KeyMeans, PropertyList, Means, Accepts;
  }

  lemma KeyMeansSame(a: Env, b: Env, t: Tables, list: seq<Property>, w: string)
    requires SameBuiltins(a, b, t)
    ensures KeyMeans(a, t, list, w) <==> KeyMeans(b, t, list, w)
  {
    PrimitivesSame(a, b, t);
    SpaceAgrees(a, b, t);
    var chr := t.primitives["char"].content;
    forall k ensures Unlisted(a, chr, Names(list), k) <==> Unlisted(b, chr, Names(list), k) {
      UnlistedSame(a, b, t, Names(list), k);
    }
    hide Accepts, Unlisted, TablesOk, SameBuiltins;
  }

  /** Whichever name reads as a character, the keys are those written with `char`. */
  lemma UnlistedIs(env: Env, charRule: Expr, names: seq<string>, k: string)
    requires ReadsAs(env, "char", charRule)
    ensures Unlisted(env, charRule, names, k) <==> Accepts(env, NotStrings.KeyBody(NotStrings.Build(names), "char"), k)
  {
    hide Accepts, NotStrings.KeyBody, NotStrings.Build;
    if Unlisted(env, charRule, names, k) {
      var chr :| ReadsAs(env, chr, charRule) && Accepts(env, NotStrings.KeyBody(NotStrings.Build(names), chr), k);
      KeyBodySame(env, chr, "char", NotStrings.Build(names), k);
    }
  }

  lemma UnlistedSame(a: Env, b: Env, t: Tables, names: seq<string>, k: string)
    requires SameBuiltins(a, b, t)
    ensures Unlisted(a, t.primitives["char"].content, names, k) <==> Unlisted(b, t.primitives["char"].content, names, k)
  {
    var chr := t.primitives["char"].content;
    UnlistedIs(a, chr, names, k);
    UnlistedIs(b, chr, names, k);
    KeyBodyRefs(NotStrings.Build(names), "char");
    hide Accepts, NotStrings.KeyBody, NotStrings.Build, Unlisted;
    AcceptsSame(a, b, NotStrings.KeyBody(NotStrings.Build(names), "char"), k);
  }

  lemma KeyBodyRefs(trie: NotStrings.Trie, chr: string)
    ensures RefsOf(NotStrings.KeyBody(trie, chr)) <= {chr}
  {
    WalkRefs(trie, chr);
  }

  // ----- from schema to derivations -----

  /** What references stand for: a plain built-in type itself, others what can be derived from
      the rule called like them. */
  ghost function RefMeaning(t: Tables, spaceRule: Expr, rules: Rules): (refs: Env) {
    RefReading(GrammarReading(t, spaceRule, rules), t)
  }

  lemma BothReadChar(t: Tables, spaceRule: Expr, rules: Rules)
    requires TablesOk(t)
    ensures SameBuiltins(GrammarReading(t, spaceRule, rules), BuiltinReading(t, spaceRule), t)
  {
    var env, base := GrammarReading(t, spaceRule, rules), BuiltinReading(t, spaceRule);
    DerivationSolves(BuiltinTable(t, spaceRule));
    hide Derivation, EntryOk;
    assert BuiltinTable(t, spaceRule)["char"] == t.primitives["char"].content;
    hide BuiltinTable;
    forall w ensures Accepts(env, t.primitives["char"].content, w) <==> Accepts(base, t.primitives["char"].content, w) {
      BuiltinSame(env, base, t, "char", w);
    }
    hide Accepts, TablesOk;
  }

  /** From schema to language: if the names generated for a sensible schema keep clear of
      built-in names and of its references', then without errors a text can be derived from the
      grammar's root rule if and only if the schema stands for it. Built-in names are read from
      their own tables, and references stand for what their schemas stand for. */
  method ConvertSensible(schema: Schema, t: Tables, spaceRule: Expr, ghost scope: set<string>)
    returns (root: string, grammar: Rules, errors: nat, ghost met: set<string>)
    requires RefsOf(spaceRule) == {} && TablesOk(t) && BuiltinsApart(t, schema, scope)
    requires Sensible(schema) && forall r :: r in scope ==> Sensible(Target(t, r))
    ensures Convertible(t, schema) && TargetsConvertible(t) ==> errors == 0
    ensures errors == 0 ==> LeadsTo(t, schema, met) && met <= scope && root in grammar
    ensures errors == 0 ==>
      forall w :: Derives(grammar, grammar[root], w) <==>
                  Means(BuiltinReading(t, spaceRule), RefMeaning(t, spaceRule, grammar), t, schema, w)
    ensures errors == 0 ==> Resolves(BuiltinReading(t, spaceRule), RefMeaning(t, spaceRule, grammar), t, met)
  {
    hide Solves, Sensible, Means, Convertible, TargetsConvertible, TablesOk, KeptApart, KeptOk, RefReading, Resolves,
      LeadsTo, ClosedTable, BuiltinTable, Derives;
    root, grammar, errors, met := ConvertAsRead(schema, t, spaceRule, scope, BuiltinNames(t));
    if errors == 0 {
      var env, base, refs := GrammarReading(t, spaceRule, grammar), BuiltinReading(t, spaceRule), RefMeaning(t, spaceRule, grammar);
      ReadingIsDerivation(t, spaceRule, grammar);
      BothReadChar(t, spaceRule, grammar);
      hide GrammarReading, BuiltinReading, SameBuiltins;
      forall w ensures Derives(grammar, grammar[root], w) <==> Means(base, refs, t, schema, w) {
        MeansSame(env, base, refs, t, schema, w);
        assert env(root, w) <==> Derivation(grammar)(root, w);
      }
      assert env(root, "") <==> Means(env, refs, t, schema, "");
      ResolvesSame(env, base, refs, t, met);
    }
  }

  lemma ResolvesSame(a: Env, b: Env, refs: Env, t: Tables, met: set<string>)
    requires SameBuiltins(a, b, t) && Resolves(a, refs, t, met)
    ensures Resolves(b, refs, t, met)
  {
    hide SameBuiltins, Means;
    forall r, w | r in met ensures refs(r, w) <==> Means(b, refs, t, Target(t, r), w) {
      MeansSame(a, b, refs, t, Target(t, r), w);
    }
  }
}
