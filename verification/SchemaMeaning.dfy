/** The language of a converted schema: the rule written for a schema accepts exactly the texts
    the schema stands for, whatever is inside it, and a reference stands for what its schema
    stands for. */
module SchemaMeaning {
  import opened Common
  import opened Gbnf
  import opened Decimal
  import opened ObjectRule
  import opened Schemas
  import opened BuiltRules
  import opened References
  import opened SchemaConverter
  import GrammarText
  import IntRange
  import NotStrings
  import Repetition

  // ----- what schemas stand for -----

  /** `text` and the blanks after it. */
  ghost predicate Spaced(env: Env, text: string, w: string) {
    text <= w && env(SPACE, w[|text|..])
  }

  /** A schema the converter is made for: nothing empty, no range upside down, bounds of
      integers for which the grammar is exact, constants without backslashes, distinct property
      names that need no escapes and are not `"*"`; where additional members are allowed, names
      that are read from character classes as they are. */
  predicate Sensible(s: Schema)
    decreases s, 0
  {
    && SensibleUnion(s.oneOf) && SensibleUnion(s.anyOf)
    && (s.typ.TypeList? ==> s.typ.types != [])
    && SensibleTypes(s.typ)
    && (s.constant.Some? ==> GrammarText.Survives(s.constant.value))
    && (s.constants.Some? ==> s.constants.value != [] && AllSurvive(s.constants.value))
    && (AsksInteger(s.typ) && WritableBounds(s) ==> IntRange.ExactBounds(Lowest(s), Highest(s)))
    && (AllowsExtra(s.additional) ==> NotStrings.PlainTrie(NotStrings.Build(Names(PropertyList(s)))))
    && (s.properties.Properties? ==> SensibleProperties(s.properties.list) && DistinctNames(s.properties.list))
    && (s.additional.Described? ==> Sensible(s.additional.schema))
    && (match s.items
        case NoItems => true
        case Tuple(ss) => SensibleAll(ss)
        case Each(item) => Sensible(item))
    && !Repetition.MaximumDecides(s.minItems, s.maxItems, Repetition.Between(Seq(Lit(","), Space())))
    && (s.maxLength.Some? ==> (if s.minLength.Some? then s.minLength.value else 0) <= s.maxLength.value)
  }

  predicate AsksInteger(t: TypeSpec) {
    t == TypeName("integer") || (t.TypeList? && TypeName("integer") in t.types)
  }

  predicate AllSurvive(texts: seq<string>) {
    forall i :: 0 <= i < |texts| ==> GrammarText.Survives(texts[i])
  }

  predicate SensibleUnion(u: Union)
    decreases u, 0
  {
    u.Union? ==> u.schemas != [] && SensibleAll(u.schemas)
  }

  /** Listed types are no lists themselves. */
  predicate SensibleTypes(t: TypeSpec) {
    t.TypeList? ==> forall i :: 0 <= i < |t.types| ==> !t.types[i].TypeList?
  }

  predicate SensibleAll(ss: seq<Schema>)
    decreases ss, 1
  {
    forall i :: 0 <= i < |ss| ==> Sensible(ss[i])
  }

  predicate SensibleProperties(ps: seq<Property>)
    decreases ps, 1
  {
    forall i :: 0 <= i < |ps| ==> SensibleProperty(ps[i])
  }

  predicate SensibleProperty(p: Property)
    decreases p, 0
  {
    p.name != STAR && GrammarText.PlainKey(p.name) && Sensible(p.schema)
  }

  predicate DistinctNames(ps: seq<Property>) {
    forall i, j :: 0 <= i < j < |ps| ==> ps[i].name != ps[j].name
  }

  /** The texts a schema stands for. `t` holds the built-in rules, `env` reads the names that
      they use, and `refs` says what the references stand for. */
  ghost predicate Means(env: Env, refs: Env, t: Tables, s: Schema, w: string)
    decreases Size(s), 3
  {
    if s.ref.Some? then refs(s.ref.value, w)
    else if s.oneOf.Union? || s.anyOf.Union? || s.typ.TypeList? then
      exists i :: 0 <= i < |UnionOf(s)| && Means(env, refs, t, UnionOf(s)[i], w)
    else if s.constant.Some? then Spaced(env, s.constant.value, w)
    else if s.constants.Some? then exists i :: 0 <= i < |s.constants.value| && Spaced(env, s.constants.value[i], w)
    else if ObjectKind(s) then ObjectMeans(env, refs, t, s, w)
    else if ArrayKind(s) then
      exists s1, x, s2 :: w == InBrackets(s1, x, s2) && env(SPACE, s1) && env(SPACE, s2) && ItemsMean(env, refs, t, s, x)
    else LeafMeans(env, t, s, w)
  }

  function InBrackets(s1: string, x: string, s2: string): (w: string) {
    "[" + (s1 + (x + ("]" + s2)))
  }

  /** What stands between the brackets of an array. */
  ghost predicate ItemsMean(env: Env, refs: Env, t: Tables, s: Schema, x: string)
    decreases Size(s), 2
  {
    match s.items
    case NoItems => false
    case Tuple(ss) => TupleMeans(env, refs, t, ss, x, Size(s))
    case Each(item) =>
      Repetition.SomeList(ItemReading(env, refs, t, item), Ref("item"), s.minItems, s.maxItems,
                          Repetition.Between(Seq(Lit(","), Space())), x)
  }

  ghost function ItemReading(env: Env, refs: Env, t: Tables, item: Schema): (read: Env)
    decreases Size(item), 4
  {
    (name, v) => if name == SPACE then env(SPACE, v) else Means(env, refs, t, item, v)
  }

  /** One text for each schema, with commas between them. */
  ghost predicate TupleMeans(env: Env, refs: Env, t: Tables, ss: seq<Schema>, x: string, bound: nat)
    requires forall i :: 0 <= i < |ss| ==> Size(ss[i]) < bound
    decreases bound, 0, |ss|
  {
    if |ss| == 0 then x == ""
    else if |ss| == 1 then Means(env, refs, t, ss[0], x)
    else exists v, sp, rest :: x == v + ("," + (sp + rest)) && Means(env, refs, t, ss[0], v) && env(SPACE, sp)
                               && TupleMeans(env, refs, t, ss[1..], rest, bound)
  }

  /** Braces around all required members in order and any selection of the others. */
  ghost predicate ObjectMeans(env: Env, refs: Env, t: Tables, s: Schema, w: string)
    decreases Size(s), 2
  {
    var list := PropertyList(s);
    var extra := AllowsExtra(s.additional);
    ObjectText(MemberReading(env, refs, t, s), SelfNamed(Elements(Names(list)) + {STAR}),
               RequiredKeys(list, s.required), WithStar(OptionalKeys(list, s.required), extra), w)
  }

  /** Members are named by a colon and their keys. */
  function SelfNamed(keys: set<string>): (kv: map<string, string>) {
    map k | k in keys :: ":" + k
  }

  ghost function MemberReading(env: Env, refs: Env, t: Tables, s: Schema): (read: Env)
    decreases Size(s), 1
  {
    (name, x) => if name == SPACE then env(SPACE, x) else name != "" && MemberMeans(env, refs, t, s, name[1..], x)
  }

  ghost predicate MemberMeans(env: Env, refs: Env, t: Tables, s: Schema, key: string, x: string)
    decreases Size(s), 0
  {
    if key == STAR then
      exists k, sp, v :: x == k + (":" + (sp + v)) && KeyMeans(env, t, PropertyList(s), k) && env(SPACE, sp)
                         && (if s.additional.Described? then Means(env, refs, t, s.additional.schema, v)
                             else "value" in t.primitives && Accepts(env, t.primitives["value"].content, v))
    else
      exists i, s1, s2, v :: 0 <= i < |PropertyList(s)| && PropertyList(s)[i].name == key
        && x == GrammarText.Dump(key) + (s1 + (":" + (s2 + v))) && env(SPACE, s1) && env(SPACE, s2)
        && Means(env, refs, t, PropertyList(s)[i].schema, v)
  }

  /** Any string as key where no property is listed, else a quoted key that is not ruled out. */
  ghost predicate KeyMeans(env: Env, t: Tables, list: seq<Property>, w: string) {
    && {"char", "string"} <= t.primitives.Keys
    && if list == [] then Accepts(env, t.primitives["string"].content, w)
       else exists k, sp :: w == "\"" + k + "\"" + sp && env(SPACE, sp) && Unlisted(env, t.primitives["char"].content, Names(list), k)
  }

  ghost predicate ReadsAs(env: Env, name: string, e: Expr) {
    forall w :: env(name, w) <==> Accepts(env, e, w)
  }

  ghost predicate Unlisted(env: Env, charRule: Expr, names: seq<string>, k: string) {
    exists chr :: ReadsAs(env, chr, charRule) && Accepts(env, NotStrings.KeyBody(NotStrings.Build(names), chr), k)
  }

  ghost predicate LeafMeans(env: Env, t: Tables, s: Schema, w: string) {
    var texty := s.typ.NoType? || s.typ == TypeName("string");
    && {"char", "object", "uuid"} <= t.primitives.Keys
    && if texty && IsUuid(s.format) then Accepts(env, t.primitives["uuid"].content, w)
       else if texty && s.format + "-string" in t.formats then Accepts(env, t.formats[s.format + "-string"].content, w)
       else if s.typ == TypeName("string") && (s.minLength.Some? || s.maxLength.Some?) then
         exists x, sp :: w == "\"" + (x + ("\"" + sp)) && env(SPACE, sp) && CharsMean(env, t.primitives["char"].content, s, x)
       else if s.typ == TypeName("integer") && (s.minimum.Some? || s.maximum.Some?) then
         exists v, sp :: w == v + sp && env(SPACE, sp) && IntegerMeans(s, v)
       else if Empty(s) || s.typ == TypeName("object") then Accepts(env, t.primitives["object"].content, w)
       else s.typ.TypeName? && s.typ.name in t.primitives && Accepts(env, t.primitives[s.typ.name].content, w)
  }

  /** As many characters or escapes as the schema allows. */
  ghost predicate CharsMean(env: Env, charRule: Expr, s: Schema, x: string) {
    Repetition.SomeList(env, charRule, if s.minLength.Some? then s.minLength.value else 0,
                        if s.maxLength.Some? then AtMost(s.maxLength.value) else NoLimit, Repetition.NoSeparator, x)
  }

  /** The decimals of the numbers inside the bounds, with at most 16 digits, and "-0" where a
      negative minimum leaves room for both signs. */
  ghost predicate IntegerMeans(s: Schema, v: string) {
    IntRange.InBounds(Lowest(s), Highest(s), v) || IntRange.MinusZero(Lowest(s), Highest(s), v)
  }

  // ----- small pieces of grammar -----

  lemma SpacedExact(env: Env, text: string, w: string)
    requires GrammarText.Survives(text)
    ensures Accepts(env, ConstantBody(text), w) <==> Spaced(env, text, w)
  {
    GrammarText.LiteralOfSurvivor(text);
    hide GrammarText.Literal, GrammarText.Survives;
    SeqOfLit(env, text, Space(), w);
    hide Accepts;
    if text <= w { RefSame(env, SPACE, w[|text|..]); }
  }

  lemma {:induction false} JoinLitsExact(env: Env, texts: seq<string>, v: string)
    requires texts != [] && AllSurvive(texts)
    ensures Accepts(env, JoinLits(texts), v) <==> exists i :: 0 <= i < |texts| && texts[i] == v
    decreases |texts|
  {
    GrammarText.LiteralOfSurvivor(texts[0]);
    hide GrammarText.Literal, GrammarText.Survives;
    if |texts| > 1 {
      JoinLitsExact(env, texts[1..], v);
      AltCases(env, Lit(texts[0]), JoinLits(texts[1..]), v);
      assert Accepts(env, Lit(texts[0]), v) <==> texts[0] == v;
      hide Accepts;
      assert forall i :: 0 <= i < |texts[1..]| ==> texts[1..][i] == texts[i + 1];
      assert forall i :: 0 < i < |texts| ==> texts[i] == texts[1..][i - 1];
    }
  }

  /** An expression with blanks behind it. */
  lemma ThenSpace(env: Env, e: Expr, w: string)
    ensures Accepts(env, Seq(Group(e), Space()), w) <==> exists v, sp :: w == v + sp && Accepts(env, e, v) && env(SPACE, sp)
  {
    hide Accepts;
    if Accepts(env, Seq(Group(e), Space()), w) {
      var i := SeqCut(env, Group(e), Space(), w);
      GroupSame(env, e, w[..i]);
      RefSame(env, SPACE, w[i..]);
      assert w == w[..i] + w[i..];
    }
    if v, sp :| w == v + sp && Accepts(env, e, v) && env(SPACE, sp) {
      GroupSame(env, e, v);
      RefSame(env, SPACE, sp);
      SeqJoin(env, Group(e), Space(), v, sp);
    }
  }

  lemma EnumExact(env: Env, texts: seq<string>, w: string)
    requires texts != [] && AllSurvive(texts)
    ensures Accepts(env, EnumBody(texts), w) <==> exists i :: 0 <= i < |texts| && Spaced(env, texts[i], w)
  {
    ThenSpace(env, JoinLits(texts), w);
    hide Accepts;
    if Accepts(env, EnumBody(texts), w) {
      var v, sp :| w == v + sp && Accepts(env, JoinLits(texts), v) && env(SPACE, sp);
      JoinLitsExact(env, texts, v);
      var i :| 0 <= i < |texts| && texts[i] == v;
      assert w[|v|..] == sp;
      assert Spaced(env, texts[i], w);
    }
    if i :| 0 <= i < |texts| && Spaced(env, texts[i], w) {
      JoinLitsExact(env, texts, texts[i]);
      assert w == texts[i] + w[|texts[i]|..];
    }
  }

  lemma {:induction false} JoinRefsExact(env: Env, names: seq<string>, w: string)
    requires names != []
    ensures Accepts(env, JoinRefs(names), w) <==> exists i :: 0 <= i < |names| && env(names[i], w)
    decreases |names|
  {
    RefSame(env, names[0], w);
    if |names| > 1 {
      JoinRefsExact(env, names[1..], w);
      AltCases(env, Ref(names[0]), JoinRefs(names[1..]), w);
      hide Accepts;
      assert forall i :: 0 <= i < |names[1..]| ==> names[1..][i] == names[i + 1];
      assert forall i :: 0 < i < |names| ==> names[i] == names[1..][i - 1];
    }
  }

  lemma BracketedExact(env: Env, e: Expr, w: string)
    ensures Accepts(env, Bracketed(e), w) <==>
      exists s1, x, s2 :: w == InBrackets(s1, x, s2) && env(SPACE, s1) && env(SPACE, s2) && Accepts(env, e, x)
  {
    hide Accepts;
    if Accepts(env, Bracketed(e), w) {
      var s1, x, s2 := BracketsCut(env, e, w);
    }
    if s1, x, s2 :| w == InBrackets(s1, x, s2) && env(SPACE, s1) && env(SPACE, s2) && Accepts(env, e, x) {
      BracketsJoin(env, e, s1, x, s2);
    }
  }

  lemma BracketsCut(env: Env, e: Expr, w: string) returns (s1: string, x: string, s2: string)
    requires Accepts(env, Bracketed(e), w)
    ensures w == InBrackets(s1, x, s2) && env(SPACE, s1) && env(SPACE, s2) && Accepts(env, e, x)
  {
    hide Accepts;
    var close := Seq(Lit("]"), Space());
    SeqOfLit(env, "[", Seq(Space(), Seq(e, close)), w);
    var u := w[1..];
    var i := SeqCut(env, Space(), Seq(e, close), u);
    s1 := u[..i];
    RefSame(env, SPACE, s1);
    assert w == "[" + (s1 + u[i..]);
    x, s2 := ClosedCut(env, e, u[i..]);
  }

  lemma ClosedCut(env: Env, e: Expr, v: string) returns (x: string, s2: string)
    requires Accepts(env, Seq(e, Seq(Lit("]"), Space())), v)
    ensures v == x + ("]" + s2) && env(SPACE, s2) && Accepts(env, e, x)
  {
    hide Accepts;
    var j := SeqCut(env, e, Seq(Lit("]"), Space()), v);
    SeqOfLit(env, "]", Space(), v[j..]);
    x, s2 := v[..j], v[j..][1..];
    RefSame(env, SPACE, s2);
    assert v[j..] == "]" + s2;
    assert v == x + v[j..];
  }

  lemma BracketsJoin(env: Env, e: Expr, s1: string, x: string, s2: string)
    requires env(SPACE, s1) && env(SPACE, s2) && Accepts(env, e, x)
    ensures Accepts(env, Bracketed(e), InBrackets(s1, x, s2))
  {
    hide Accepts;
    var close := Seq(Lit("]"), Space());
    RefSame(env, SPACE, s1);
    RefSame(env, SPACE, s2);
    SeqOfLit(env, "]", Space(), "]" + s2);
    assert ("]" + s2)[1..] == s2;
    SeqJoin(env, e, close, x, "]" + s2);
    SeqJoin(env, Space(), Seq(e, close), s1, x + ("]" + s2));
    SeqOfLit(env, "[", Seq(Space(), Seq(e, close)), InBrackets(s1, x, s2));
    assert InBrackets(s1, x, s2)[1..] == s1 + (x + ("]" + s2));
  }

  /** A literal, blanks, and what follows. */
  lemma LitSpaceThen(env: Env, text: string, e: Expr, w: string)
    ensures Accepts(env, Seq(Lit(text), Seq(Space(), e)), w) <==>
      exists sp, v :: w == text + (sp + v) && env(SPACE, sp) && Accepts(env, e, v)
  {
    hide Accepts;
    SeqOfLit(env, text, Seq(Space(), e), w);
    if Accepts(env, Seq(Lit(text), Seq(Space(), e)), w) {
      var u := w[|text|..];
      var i := SeqCut(env, Space(), e, u);
      RefSame(env, SPACE, u[..i]);
      assert u == u[..i] + u[i..];
      assert w == text + u;
    }
    if sp, v :| w == text + (sp + v) && env(SPACE, sp) && Accepts(env, e, v) {
      LitSpaceJoin(env, text, e, sp, v);
    }
  }

  lemma LitSpaceJoin(env: Env, text: string, e: Expr, sp: string, v: string)
    requires env(SPACE, sp) && Accepts(env, e, v)
    ensures Accepts(env, Seq(Lit(text), Seq(Space(), e)), text + (sp + v))
  {
    hide Accepts;
    var w := text + (sp + v);
    SeqOfLit(env, text, Seq(Space(), e), w);
    RefSame(env, SPACE, sp);
    SeqJoin(env, Space(), e, sp, v);
    assert w[|text|..] == sp + v;
  }

  // ----- lists depend on what their items accept, not on how it is written -----

  lemma CopiesSame(env: Env, e: Expr, read: Env, f: Expr, k: nat, w: string)
    requires forall x :: Accepts(env, e, x) <==> Accepts(read, f, x)
    ensures Repetition.Copies(env, e, k, w) <==> Repetition.Copies(read, f, k, w)
  {
    hide Accepts;
  }

  lemma ListSame(env: Env, e: Expr, read: Env, f: Expr, sep: Repetition.Separator, k: nat, w: string)
    requires forall x :: Accepts(env, e, x) <==> Accepts(read, f, x)
    requires sep.Between? ==> forall x :: Accepts(env, sep.e, x) <==> Accepts(read, sep.e, x)
    ensures Repetition.ListOf(env, e, sep, k, w) <==> Repetition.ListOf(read, f, sep, k, w)
  {
    if sep.NoSeparator? {
      CopiesSame(env, e, read, f, k, w);
      hide Accepts, Repetition.Copies;
    } else if k > 0 {
      forall x
        ensures Accepts(env, Seq(sep.e, e), x) <==> Accepts(read, Seq(sep.e, f), x)
      {
        SeqSame(env, sep.e, e, read, sep.e, f, x);
      }
      var others := k - 1;
      forall y
        ensures Repetition.Copies(env, Seq(sep.e, e), others, y) <==> Repetition.Copies(read, Seq(sep.e, f), others, y)
      {
        CopiesSame(env, Seq(sep.e, e), read, Seq(sep.e, f), others, y);
      }
      hide Accepts, Repetition.Copies;
    }
  }

  lemma SeqSame(env: Env, a: Expr, b: Expr, read: Env, c: Expr, d: Expr, w: string)
    requires forall x :: Accepts(env, a, x) <==> Accepts(read, c, x)
    requires forall x :: Accepts(env, b, x) <==> Accepts(read, d, x)
    ensures Accepts(env, Seq(a, b), w) <==> Accepts(read, Seq(c, d), w)
  {
    hide Accepts;
    if Accepts(env, Seq(a, b), w) {
      var i := SeqCut(env, a, b, w);
      SeqJoin(read, c, d, w[..i], w[i..]);
      assert w[..i] + w[i..] == w;
    }
    if Accepts(read, Seq(c, d), w) {
      var i := SeqCut(read, c, d, w);
      SeqJoin(env, a, b, w[..i], w[i..]);
      assert w[..i] + w[i..] == w;
    }
  }

  lemma SomeListSame(env: Env, e: Expr, read: Env, f: Expr, min: nat, max: Limit, sep: Repetition.Separator, w: string)
    requires forall x :: Accepts(env, e, x) <==> Accepts(read, f, x)
    requires sep.Between? ==> forall x :: Accepts(env, sep.e, x) <==> Accepts(read, sep.e, x)
    ensures Repetition.SomeList(env, e, min, max, sep, w) <==> Repetition.SomeList(read, f, min, max, sep, w)
  {
    forall k: nat
      ensures Repetition.ListOf(env, e, sep, k, w) <==> Repetition.ListOf(read, f, sep, k, w)
    {
      ListSame(env, e, read, f, sep, k, w);
    }
    hide Accepts, Repetition.ListOf;
  }

  // ----- objects depend on what their members accept -----

  lemma {:induction false} CommaTextSame(env: Env, kv: map<string, string>, read: Env, kv2: map<string, string>,
                                        ms: seq<string>, w: string)
    requires Named(kv, ms) && Named(kv2, ms)
    requires forall x :: env(SPACE, x) <==> read(SPACE, x)
    requires forall k, x :: k in ms ==> (env(kv[k], x) <==> read(kv2[k], x))
    ensures CommaText(env, kv, ms, w) <==> CommaText(read, kv2, ms, w)
    decreases |ms|
  {
    if ms != [] {
      forall y
        ensures CommaText(env, kv, ms[1..], y) <==> CommaText(read, kv2, ms[1..], y)
      {
        CommaTextSame(env, kv, read, kv2, ms[1..], y);
      }
      assert ms[0] in ms;
      forall x
        ensures MemberText(env, kv[ms[0]], x) <==> MemberText(read, kv2[ms[0]], x)
      {
      }
      CommaTextUnfold(env, kv, ms, w);
      CommaTextUnfold(read, kv2, ms, w);
      hide CommaText, MemberText;
    }
  }

  lemma CommaTextUnfold(env: Env, kv: map<string, string>, ms: seq<string>, w: string)
    requires Named(kv, ms) && ms != []
    ensures CommaText(env, kv, ms, w) <==>
      exists x, y :: w == x + y && MemberText(env, kv[ms[0]], x) && CommaText(env, kv, ms[1..], y)
  {
    hide MemberText;
  }

  lemma ListTextSame(env: Env, kv: map<string, string>, read: Env, kv2: map<string, string>, ms: seq<string>, w: string)
    requires Named(kv, ms) && Named(kv2, ms)
    requires forall x :: env(SPACE, x) <==> read(SPACE, x)
    requires forall k, x :: k in ms ==> (env(kv[k], x) <==> read(kv2[k], x))
    ensures ListText(env, kv, ms, w) <==> ListText(read, kv2, ms, w)
  {
    if ms != [] {
      assert ms[0] in ms;
      forall y
        ensures CommaText(env, kv, ms[1..], y) <==> CommaText(read, kv2, ms[1..], y)
      {
        CommaTextSame(env, kv, read, kv2, ms[1..], y);
      }
      hide CommaText;
    }
  }

  /** The keys a list of members may use. */
  predicate KeysOf(keys: set<string>, ms: seq<string>) {
    forall k :: k in ms ==> k in keys
  }

  lemma {:induction false} PickedKeys(keys: set<string>, ks: seq<string>, ms: seq<string>)
    requires Picks(ks, ms) && KeysOf(keys, ks)
    ensures KeysOf(keys, ms)
    decreases |ks|
  {
    if ks != [] {
      var n: nat :| CanTake(ks[0], n, ms) && Picks(ks[1..], ms[n..]);
      PickedKeys(keys, ks[1..], ms[n..]);
      assert ks[0] in ks;
      forall k | k in ms
        ensures k in keys
      {
        var i :| 0 <= i < |ms| && ms[i] == k;
        if i >= n {
          assert ms[n..][i - n] == k;
        }
      }
    }
  }

  lemma ObjectTextSame(env: Env, kv: map<string, string>, read: Env, kv2: map<string, string>, keys: set<string>,
                       required: seq<string>, optional: seq<string>, w: string)
    requires KeysOf(keys, required) && KeysOf(keys, optional) && keys <= kv.Keys && keys <= kv2.Keys
    requires forall x :: env(SPACE, x) <==> read(SPACE, x)
    requires forall k, x :: k in keys ==> (env(kv[k], x) <==> read(kv2[k], x))
    ensures ObjectText(env, kv, required, optional, w) <==> ObjectText(read, kv2, required, optional, w)
  {
    forall x
      ensures InsideText(env, kv, required, optional, x) <==> InsideText(read, kv2, required, optional, x)
    {
      InsideTextSame(env, kv, read, kv2, keys, required, optional, x);
    }
    hide InsideText, Braced;
  }

  lemma InsideTextSame(env: Env, kv: map<string, string>, read: Env, kv2: map<string, string>, keys: set<string>,
                       required: seq<string>, optional: seq<string>, x: string)
    requires KeysOf(keys, required) && KeysOf(keys, optional) && keys <= kv.Keys && keys <= kv2.Keys
    requires forall v :: env(SPACE, v) <==> read(SPACE, v)
    requires forall k, v :: k in keys ==> (env(kv[k], v) <==> read(kv2[k], v))
    ensures InsideText(env, kv, required, optional, x) <==> InsideText(read, kv2, required, optional, x)
  {
    hide ListText, Picks;
    forall ms | Members(required, optional, ms)
      ensures KeysOf(keys, ms)
    {
      PickedKeys(keys, optional, ms[|required|..]);
      assert ms == required + ms[|required|..];
    }
    forall ms | Members(required, optional, ms)
      ensures Named(kv, ms) && Named(kv2, ms) && (ListText(env, kv, ms, x) <==> ListText(read, kv2, ms, x))
    {
      ListTextSame(env, kv, read, kv2, ms, x);
    }
    hide Members;
  }

  // ----- keys of additional members -----

  lemma {:induction false} WalkSame(env: Env, a: string, b: string, t: NotStrings.Trie, w: string)
    requires forall x :: env(a, x) <==> env(b, x)
    ensures Accepts(env, NotStrings.Walk(t, a), w) <==> Accepts(env, NotStrings.Walk(t, b), w)
    decreases t, 0
  {
    WalkKidsSame(env, a, b, t.kids, NotStrings.First(t.kids), w);
  }

  lemma {:induction false} WalkKidsSame(env: Env, a: string, b: string, kids: seq<NotStrings.Edge>, rejects: string, w: string)
    requires forall x :: env(a, x) <==> env(b, x)
    ensures Accepts(env, NotStrings.WalkKids(kids, rejects, a), w) <==> Accepts(env, NotStrings.WalkKids(kids, rejects, b), w)
    decreases kids, 1
  {
    if kids == [] {
      RepeatedSame(env, a, b, 0);
      var none := GrammarText.NoneBut(rejects);
      hide GrammarText.NoneBut;
      SeqSame(env, none, Repeat(Ref(a), 0, NoLimit), env, none, Repeat(Ref(b), 0, NoLimit), w);
    } else {
      WalkEdgeSame(env, a, b, kids[0], w);
      WalkKidsSame(env, a, b, kids[1..], rejects, w);
      AltCases(env, NotStrings.WalkEdge(kids[0], a), NotStrings.WalkKids(kids[1..], rejects, a), w);
      AltCases(env, NotStrings.WalkEdge(kids[0], b), NotStrings.WalkKids(kids[1..], rejects, b), w);
      hide Accepts;
    }
  }

  lemma RepeatedSame(env: Env, a: string, b: string, min: nat)
    requires forall x :: env(a, x) <==> env(b, x)
    ensures forall x :: Accepts(env, Repeat(Ref(a), min, NoLimit), x) <==> Accepts(env, Repeat(Ref(b), min, NoLimit), x)
  {
    forall x
      ensures Accepts(env, Ref(a), x) <==> Accepts(env, Ref(b), x)
    {
      RefSame(env, a, x);
      RefSame(env, b, x);
    }
    forall x
      ensures Accepts(env, Repeat(Ref(a), min, NoLimit), x) <==> Accepts(env, Repeat(Ref(b), min, NoLimit), x)
    {
      Repetition.RepeatIsCopies(env, Ref(a), min, NoLimit, x);
      Repetition.RepeatIsCopies(env, Ref(b), min, NoLimit, x);
      forall k: nat
        ensures Repetition.Copies(env, Ref(a), k, x) <==> Repetition.Copies(env, Ref(b), k, x)
      {
        CopiesSame(env, Ref(a), env, Ref(b), k, x);
      }
      hide Accepts, Repetition.Copies;
    }
  }

  lemma {:induction false} WalkEdgeSame(env: Env, a: string, b: string, edge: NotStrings.Edge, w: string)
    requires forall x :: env(a, x) <==> env(b, x)
    ensures Accepts(env, NotStrings.WalkEdge(edge, a), w) <==> Accepts(env, NotStrings.WalkEdge(edge, b), w)
    decreases edge, 0
  {
    var c := GrammarText.OneChar(edge.c);
    hide GrammarText.OneChar;
    if edge.child.kids != [] {
      forall x
        ensures Accepts(env, Group(NotStrings.Walk(edge.child, a)), x) <==> Accepts(env, Group(NotStrings.Walk(edge.child, b)), x)
      {
        WalkSame(env, a, b, edge.child, x);
        GroupSame(env, NotStrings.Walk(edge.child, a), x);
        GroupSame(env, NotStrings.Walk(edge.child, b), x);
      }
      hide Accepts, NotStrings.Walk;
      SeqSame(env, c, Group(NotStrings.Walk(edge.child, a)), env, c, Group(NotStrings.Walk(edge.child, b)), w);
    } else if edge.child.isEnd {
      RepeatedSame(env, a, b, 1);
      SeqSame(env, c, Repeat(Ref(a), 1, NoLimit), env, c, Repeat(Ref(b), 1, NoLimit), w);
    }
  }

  lemma KeyBodySame(env: Env, a: string, b: string, t: NotStrings.Trie, w: string)
    requires forall x :: env(a, x) <==> env(b, x)
    ensures Accepts(env, NotStrings.KeyBody(t, a), w) <==> Accepts(env, NotStrings.KeyBody(t, b), w)
  {
    var f := Group(if t.kids == [] then Lit("") else NotStrings.Walk(t, a));
    var g := Group(if t.kids == [] then Lit("") else NotStrings.Walk(t, b));
    forall x
      ensures Accepts(env, f, x) <==> Accepts(env, g, x)
    {
      if t.kids != [] {
        WalkSame(env, a, b, t, x);
        GroupSame(env, NotStrings.Walk(t, a), x);
        GroupSame(env, NotStrings.Walk(t, b), x);
      }
    }
    if !t.isEnd {
      hide NotStrings.Walk;
      Repetition.RepeatIsCopies(env, f, 0, AtMost(1), w);
      Repetition.RepeatIsCopies(env, g, 0, AtMost(1), w);
      forall k: nat
        ensures Repetition.Copies(env, f, k, w) <==> Repetition.Copies(env, g, k, w)
      {
        CopiesSame(env, f, env, g, k, w);
      }
      hide Accepts, Repetition.Copies;
    }
  }

  lemma KeyLanguage(env: Env, rules: Rules, t: Tables, list: seq<Property>, keyRule: string, chr: string, w: string)
    requires Solves(env, rules) && ExtraKeyBuilt(rules, t, list, keyRule, chr)
    ensures env(keyRule, w) <==> KeyMeans(env, t, list, w)
  {
    if list != [] {
      var names := Names(list);
      NotStrings.RuleIsQuotedKey(env, chr, names, w);
      assert ReadsAs(env, chr, t.primitives["char"].content);
      hide Accepts, NotStrings.KeyBody, NotStrings.Build, NotStrings.NotStringsRule;
      forall k
        ensures Unlisted(env, t.primitives["char"].content, names, k) <==> Accepts(env, NotStrings.KeyBody(NotStrings.Build(names), chr), k)
      {
        if Unlisted(env, t.primitives["char"].content, names, k) {
          var other :| ReadsAs(env, other, t.primitives["char"].content)
                       && Accepts(env, NotStrings.KeyBody(NotStrings.Build(names), other), k);
          KeyBodySame(env, chr, other, NotStrings.Build(names), k);
        }
      }
      hide Unlisted;
    }
  }

  /** Among ordinary keys those are ruled out that are a listed name or begin one, when the
      listed names are read as they are. */
  lemma UnlistedMeans(env: Env, names: seq<string>, k: string, chr: string)
    requires ReadsAs(env, chr, NotStrings.CharRule()) && NotStrings.AllOrdinary(k) && k != ""
    requires NotStrings.PlainTrie(NotStrings.Build(names))
    ensures Unlisted(env, NotStrings.CharRule(), names, k) <==> !NotStrings.BeginsSome(names, k) && !NotStrings.OnlyEmpty(names)
  {
    hide Accepts, NotStrings.KeyBody, NotStrings.Build, NotStrings.CharRule;
    NotStrings.CharRuleMeansOne(env, chr);
    NotStrings.KeyBodyExact(env, chr, names, k);
    if Unlisted(env, NotStrings.CharRule(), names, k) {
      var other :| ReadsAs(env, other, NotStrings.CharRule())
                   && Accepts(env, NotStrings.KeyBody(NotStrings.Build(names), other), k);
      KeyBodySame(env, chr, other, NotStrings.Build(names), k);
    }
  }

  // ----- schemas without sub-schemas -----

  lemma CharsLanguage(env: Env, rules: Rules, charRule: Expr, s: Schema, chr: string, w: string)
    requires Solves(env, rules) && chr in rules && rules[chr] == charRule && Sensible(s)
    ensures Accepts(env, CharsBody(chr, s.minLength, s.maxLength), w) <==>
      exists x, sp :: w == "\"" + (x + ("\"" + sp)) && env(SPACE, sp) && CharsMean(env, charRule, s, x)
  {
    var min := if s.minLength.Some? then s.minLength.value else 0;
    var max := if s.maxLength.Some? then AtMost(s.maxLength.value) else NoLimit;
    var chars := Repetition.Build(Ref(chr), min, max, Repetition.NoSeparator);
    forall x
      ensures Accepts(env, chars, x) <==> CharsMean(env, charRule, s, x)
    {
      Repetition.BuildExact(env, Ref(chr), min, max, Repetition.NoSeparator, x);
      forall y
        ensures Accepts(env, Ref(chr), y) <==> Accepts(env, charRule, y)
      {
        RefSame(env, chr, y);
      }
      SomeListSame(env, Ref(chr), env, charRule, min, max, Repetition.NoSeparator, x);
    }
    hide Accepts, CharsMean, Repetition.Build;
    QuotedExact(env, chars, w);
  }

  lemma QuotedExact(env: Env, e: Expr, w: string)
    ensures Accepts(env, Seq(Lit("\""), Seq(e, Seq(Lit("\""), Space()))), w) <==>
      exists x, sp :: w == "\"" + (x + ("\"" + sp)) && env(SPACE, sp) && Accepts(env, e, x)
  {
    hide Accepts;
    if Accepts(env, Seq(Lit("\""), Seq(e, Seq(Lit("\""), Space()))), w) {
      var x, sp := QuotedCut(env, e, w);
    }
    forall x, sp | w == "\"" + (x + ("\"" + sp)) && env(SPACE, sp) && Accepts(env, e, x)
      ensures Accepts(env, Seq(Lit("\""), Seq(e, Seq(Lit("\""), Space()))), w)
    {
      QuotedJoin(env, e, x, sp);
    }
  }

  lemma QuotedCut(env: Env, e: Expr, w: string) returns (x: string, sp: string)
    requires Accepts(env, Seq(Lit("\""), Seq(e, Seq(Lit("\""), Space()))), w)
    ensures w == "\"" + (x + ("\"" + sp)) && env(SPACE, sp) && Accepts(env, e, x)
  {
    hide Accepts;
    var close := Seq(Lit("\""), Space());
    SeqOfLit(env, "\"", Seq(e, close), w);
    var u := w[1..];
    var i := SeqCut(env, e, close, u);
    SeqOfLit(env, "\"", Space(), u[i..]);
    x, sp := u[..i], u[i..][1..];
    RefSame(env, SPACE, sp);
    assert u[i..] == "\"" + sp;
    assert u == x + u[i..] && w == "\"" + u;
  }

  lemma QuotedJoin(env: Env, e: Expr, x: string, sp: string)
    requires env(SPACE, sp) && Accepts(env, e, x)
    ensures Accepts(env, Seq(Lit("\""), Seq(e, Seq(Lit("\""), Space()))), "\"" + (x + ("\"" + sp)))
  {
    hide Accepts;
    var w := "\"" + (x + ("\"" + sp));
    RefSame(env, SPACE, sp);
    SeqOfLit(env, "\"", Space(), "\"" + sp);
    assert ("\"" + sp)[1..] == sp;
    SeqJoin(env, e, Seq(Lit("\""), Space()), x, "\"" + sp);
    SeqOfLit(env, "\"", Seq(e, Seq(Lit("\""), Space())), w);
    assert w[1..] == x + ("\"" + sp);
  }

  lemma IntegerLanguage(env: Env, s: Schema, e: Expr, w: string)
    requires IntegerBuilt(s, e) && IntRange.ExactBounds(Lowest(s), Highest(s))
    ensures Accepts(env, e, w) <==> exists v, sp :: w == v + sp && env(SPACE, sp) && IntegerMeans(s, v)
  {
    hide Accepts, IntRange.Bounded, IntRange.InBounds, IntRange.ExactBounds;
    var body := IntRange.Bounded(Lowest(s), Highest(s), 16, true).value;
    ThenSpace(env, body, w);
    IntRange.BoundedExactIff(env, Lowest(s), Highest(s));
    forall v
      ensures Accepts(env, body, v) <==> IntegerMeans(s, v)
    {
    }
    hide IntegerMeans;
  }

  lemma AliasLanguage(env: Env, rules: Rules, b: Builtin, e: Expr, w: string)
    requires Solves(env, rules) && IsAlias(rules, b, e)
    ensures Accepts(env, e, w) <==> Accepts(env, b.content, w)
  {
    RefSame(env, e.name, w);
    hide Accepts;
  }

  lemma LeafLanguage(env: Env, rules: Rules, t: Tables, s: Schema, e: Expr, w: string)
    requires Solves(env, rules) && LeafBuilt(rules, t, s, e) && Sensible(s)
    ensures Accepts(env, e, w) <==> LeafMeans(env, t, s, w)
  {
    assert IntegerBuilt(s, e) && s.typ == TypeName("integer") ==> IntRange.ExactBounds(Lowest(s), Highest(s));
    hide Accepts, IsAlias, IntegerBuilt, CharsBody, CharsMean, IntegerMeans, IsUuid, Sensible;
    var texty := s.typ.NoType? || s.typ == TypeName("string");
    if texty && IsUuid(s.format) {
    } else if texty && s.format + "-string" in t.formats {
      AliasLanguage(env, rules, t.formats[s.format + "-string"], e, w);
    } else if s.typ == TypeName("string") && (s.minLength.Some? || s.maxLength.Some?) {
      var chr :| chr in rules && rules[chr] == t.primitives["char"].content && e == CharsBody(chr, s.minLength, s.maxLength);
      CharsLanguage(env, rules, t.primitives["char"].content, s, chr, w);
    } else if s.typ == TypeName("integer") && (s.minimum.Some? || s.maximum.Some?) {
      IntegerLanguage(env, s, e, w);
    } else if Empty(s) || s.typ == TypeName("object") {
      AliasLanguage(env, rules, t.primitives["object"], e, w);
    }
  }

  // ----- references -----

  /** What the table makes of a reference: what the rule called like it accepts, or what a plain
      built-in type accepts. */
  ghost function RefReading(env: Env, t: Tables): (refs: Env) {
    (r, w) => if Direct(t, Target(t, r)) then Accepts(env, DirectContent(t, Target(t, r)), w) else env(LastComponent(r), w)
  }

  lemma RefLanguage(env: Env, rules: Rules, t: Tables, r: string, e: Expr, w: string)
    requires Solves(env, rules) && RefBuilt(rules, t, r, e)
    ensures Accepts(env, e, w) <==> RefReading(env, t)(r, w)
  {
    RefSame(env, e.name, w);
    hide Direct, LastComponent, DirectContent;
    if Direct(t, Target(t, r)) {
      var n := e.name;
      if rules[n].Ref? { RefSame(env, rules[n].name, w); }
      hide Accepts;
    }
  }

  // ----- schemas with sub-schemas -----

  lemma UnionSensible(s: Schema, i: nat)
    requires Sensible(s) && (s.oneOf.Union? || s.anyOf.Union? || s.typ.TypeList?) && i < |UnionOf(s)|
    ensures Sensible(UnionOf(s)[i])
  {
    if s.oneOf.Union? {
      assert SensibleUnion(s.oneOf) && SensibleAll(s.oneOf.schemas);
    } else if s.anyOf.Union? {
      assert SensibleUnion(s.anyOf) && SensibleAll(s.anyOf.schemas);
    } else {
      assert UnionOf(s)[i] == s.(typ := s.typ.types[i]);
    }
  }

  lemma MemberTextExact(env: Env, name: string, value: string, x: string)
    requires GrammarText.PlainKey(name)
    ensures Accepts(env, KvBody(name, value), x) <==>
      exists s1, s2, v :: x == GrammarText.Dump(name) + (s1 + (":" + (s2 + v))) && env(SPACE, s1) && env(SPACE, s2) && env(value, v)
  {
    GrammarText.KeySurvivesIff(name);
    GrammarText.LiteralOfSurvivor(GrammarText.Dump(name));
    hide GrammarText.Literal, GrammarText.Survives, GrammarText.PlainKey;
    var rest := Seq(Lit(":"), Seq(Space(), Ref(value)));
    LitSpaceThen(env, GrammarText.Dump(name), rest, x);
    forall y
      ensures Accepts(env, rest, y) <==> exists s2, v :: y == ":" + (s2 + v) && env(SPACE, s2) && env(value, v)
    {
      ColonExact(env, value, y);
    }
    hide Accepts, GrammarText.Dump, Space;
    assert KvBody(name, value) == Seq(Lit(GrammarText.Dump(name)), Seq(Space(), rest));
    hide KvBody;
    if Accepts(env, KvBody(name, value), x) {
      var s1, y :| x == GrammarText.Dump(name) + (s1 + y) && env(SPACE, s1) && Accepts(env, rest, y);
      var s2, v :| y == ":" + (s2 + v) && env(SPACE, s2) && env(value, v);
    }
  }

  lemma ColonExact(env: Env, value: string, y: string)
    ensures Accepts(env, Seq(Lit(":"), Seq(Space(), Ref(value))), y) <==>
      exists sp, v :: y == ":" + (sp + v) && env(SPACE, sp) && env(value, v)
  {
    LitSpaceThen(env, ":", Ref(value), y);
    forall v
      ensures Accepts(env, Ref(value), v) <==> env(value, v)
    {
      RefSame(env, value, v);
    }
    hide Accepts;
  }

  lemma ExtraTextExact(env: Env, keyRule: string, value: string, x: string)
    ensures Accepts(env, ExtraBody(keyRule, value), x) <==>
      exists k, sp, v :: x == k + (":" + (sp + v)) && env(keyRule, k) && env(SPACE, sp) && env(value, v)
  {
    hide Accepts;
    var rest := Seq(Lit(":"), Seq(Space(), Ref(value)));
    if Accepts(env, ExtraBody(keyRule, value), x) {
      var i := SeqCut(env, Ref(keyRule), rest, x);
      RefSame(env, keyRule, x[..i]);
      ColonExact(env, value, x[i..]);
      assert x == x[..i] + x[i..];
    }
    if k, sp, v :| x == k + (":" + (sp + v)) && env(keyRule, k) && env(SPACE, sp) && env(value, v) {
      RefSame(env, keyRule, k);
      ColonExact(env, value, ":" + (sp + v));
      SeqJoin(env, Ref(keyRule), rest, k, ":" + (sp + v));
    }
  }

  /** The theorem: with a reading that solves the table, the rule of a schema accepts exactly
      what the schema stands for. */
  lemma {:induction false} SchemaLanguage(env: Env, rules: Rules, t: Tables, s: Schema, n: string, w: string)
    requires Solves(env, rules) && Built(rules, t, s, n) && Sensible(s)
    ensures env(n, w) <==> Means(env, RefReading(env, t), t, s, w)
    decreases Size(s), 5
  {
    BodyLanguage(env, rules, t, s, rules[n], w);
    hide Accepts, Means, BodyBuilt, Sensible;
  }

  lemma {:induction false} BodyLanguage(env: Env, rules: Rules, t: Tables, s: Schema, e: Expr, w: string)
    requires Solves(env, rules) && BodyBuilt(rules, t, s, e) && Sensible(s)
    ensures Accepts(env, e, w) <==> Means(env, RefReading(env, t), t, s, w)
    decreases Size(s), 4
  {
    hide Accepts, UnionBuilt, ObjectBuilt, ArrayBuilt, LeafBuilt, ObjectMeans, ItemsMean, LeafMeans, ConstantBody,
      EnumBody, ArrayKind, ObjectKind, PropertyList, UnionOf, Spaced, InBrackets, Solves, SensibleUnion, SensibleTypes,
      SensibleAll, SensibleProperties, DistinctNames;
    if s.ref.Some? {
      RefLanguage(env, rules, t, s.ref.value, e, w);
    } else if s.oneOf.Union? || s.anyOf.Union? || s.typ.TypeList? {
      UnionLanguage(env, rules, t, s, e, w);
    } else if s.constant.Some? {
      SpacedExact(env, s.constant.value, w);
    } else if s.constants.Some? {
      EnumExact(env, s.constants.value, w);
    } else if ObjectKind(s) {
      ObjectLanguageOf(env, rules, t, s, e, w);
    } else if ArrayKind(s) {
      ArrayLanguage(env, rules, t, s, e, w);
    } else {
      LeafLanguage(env, rules, t, s, e, w);
    }
  }

  lemma {:induction false} UnionLanguage(env: Env, rules: Rules, t: Tables, s: Schema, e: Expr, w: string)
    requires Solves(env, rules) && Sensible(s) && (s.oneOf.Union? || s.anyOf.Union? || s.typ.TypeList?)
    requires UnionBuilt(rules, t, UnionOf(s), e, Size(s))
    ensures Accepts(env, e, w) <==> exists i :: 0 <= i < |UnionOf(s)| && Means(env, RefReading(env, t), t, UnionOf(s)[i], w)
    decreases Size(s), 3
  {
    hide Accepts, Means, Built, Solves;
    var ss := UnionOf(s);
    var names :| NamesBuilt(rules, t, ss, names, Size(s)) && e == JoinRefs(names);
    assert ss != [];
    hide UnionOf;
    JoinRefsExact(env, names, w);
    forall i | 0 <= i < |ss|
      ensures env(names[i], w) <==> Means(env, RefReading(env, t), t, ss[i], w)
    {
      UnionSensible(s, i);
      SchemaLanguage(env, rules, t, ss[i], names[i], w);
    }
  }

  lemma {:induction false} ArrayLanguage(env: Env, rules: Rules, t: Tables, s: Schema, e: Expr, w: string)
    requires Solves(env, rules) && Sensible(s) && ArrayBuilt(rules, t, s, e)
    ensures Accepts(env, e, w) <==>
      exists s1, x, s2 :: w == InBrackets(s1, x, s2) && env(SPACE, s1) && env(SPACE, s2) && ItemsMean(env, RefReading(env, t), t, s, x)
    decreases Size(s), 3
  {
    hide Accepts, Means, Built, Solves, InBrackets, Bracketed, TupleMeans, Repetition.Build, Repetition.SomeList,
      NamesBuilt;
    var inside: Expr;
    if s.items.Tuple? {
      var ss := s.items.schemas;
      var names :| NamesBuilt(rules, t, ss, names, Size(s)) && e == Bracketed(TupleItems(names));
      inside := TupleItems(names);
      forall x
        ensures Accepts(env, inside, x) <==> ItemsMean(env, RefReading(env, t), t, s, x)
      {
        TupleLanguage(env, rules, t, ss, names, x, Size(s));
      }
    } else {
      var item := s.items.schema;
      var name :| Built(rules, t, item, name) && e == ListBody(name, s.minItems, s.maxItems);
      var comma := Repetition.Between(Seq(Lit(","), Space()));
      inside := Repetition.Build(Ref(name), s.minItems, s.maxItems, comma);
      forall x
        ensures Accepts(env, inside, x) <==> ItemsMean(env, RefReading(env, t), t, s, x)
      {
        EachLanguage(env, rules, t, s, name, x);
      }
    }
    BracketedExact(env, inside, w);
    hide ItemsMean;
  }

  lemma {:induction false} EachLanguage(env: Env, rules: Rules, t: Tables, s: Schema, name: string, x: string)
    requires Solves(env, rules) && Sensible(s) && s.items.Each? && Built(rules, t, s.items.schema, name)
    ensures
      var comma := Repetition.Between(Seq(Lit(","), Space()));
      Accepts(env, Repetition.Build(Ref(name), s.minItems, s.maxItems, comma), x) <==> ItemsMean(env, RefReading(env, t), t, s, x)
    decreases Size(s), 2
  {
    var item := s.items.schema;
    var comma := Repetition.Between(Seq(Lit(","), Space()));
    var read := ItemReading(env, RefReading(env, t), t, item);
    Repetition.BuildExact(env, Ref(name), s.minItems, s.maxItems, comma, x);
    forall v
      ensures Accepts(env, Ref(name), v) <==> Accepts(read, Ref("item"), v)
    {
      SchemaLanguage(env, rules, t, item, name, v);
      RefSame(env, name, v);
      RefSame(read, "item", v);
    }
    forall v
      ensures Accepts(env, comma.e, v) <==> Accepts(read, comma.e, v)
    {
      CommaSame(env, read, v);
    }
    SomeListSame(env, Ref(name), read, Ref("item"), s.minItems, s.maxItems, comma, x);
    hide Accepts, Repetition.Build, Repetition.SomeList, ItemReading, Means;
  }

  lemma CommaSame(env: Env, read: Env, w: string)
    requires forall x :: env(SPACE, x) <==> read(SPACE, x)
    ensures Accepts(env, Seq(Lit(","), Space()), w) <==> Accepts(read, Seq(Lit(","), Space()), w)
  {
    SeqOfLit(env, ",", Space(), w);
    SeqOfLit(read, ",", Space(), w);
    hide Accepts;
    if "," <= w {
      RefSame(env, SPACE, w[1..]);
      RefSame(read, SPACE, w[1..]);
    }
  }

  lemma {:induction false} TupleLanguage(env: Env, rules: Rules, t: Tables, ss: seq<Schema>,
                                        names: seq<string>, x: string, bound: nat)
    requires Solves(env, rules) && SensibleAll(ss) && forall i :: 0 <= i < |ss| ==> Size(ss[i]) < bound
    requires NamesBuilt(rules, t, ss, names, bound)
    ensures Accepts(env, TupleItems(names), x) <==> TupleMeans(env, RefReading(env, t), t, ss, x, bound)
    decreases bound, 1, |ss|
  {
    hide Accepts, Means, Built, Solves, Sensible;
    if |ss| == 0 {
      assert Accepts(env, Lit(""), x) <==> x == "" by { EmptyLit(env, x); }
    } else if |ss| == 1 {
      SchemaLanguage(env, rules, t, ss[0], names[0], x);
      RefSame(env, names[0], x);
    } else {
      forall rest
        ensures Accepts(env, TupleItems(names[1..]), rest) <==> TupleMeans(env, RefReading(env, t), t, ss[1..], rest, bound)
      {
        TupleLanguage(env, rules, t, ss[1..], names[1..], rest, bound);
      }
      forall v
        ensures env(names[0], v) <==> Means(env, RefReading(env, t), t, ss[0], v)
      {
        SchemaLanguage(env, rules, t, ss[0], names[0], v);
      }
      FirstOfTuple(env, names, x);
      hide TupleItems;
    }
  }

  lemma EmptyLit(env: Env, x: string)
    ensures Accepts(env, Lit(""), x) <==> x == ""
  {}

  lemma FirstOfTuple(env: Env, names: seq<string>, x: string)
    requires |names| > 1
    ensures Accepts(env, TupleItems(names), x) <==>
      exists v, sp, rest :: x == v + ("," + (sp + rest)) && env(names[0], v) && env(SPACE, sp)
                            && Accepts(env, TupleItems(names[1..]), rest)
  {
    assert TupleItems(names) == Seq(Ref(names[0]), Seq(Lit(","), Seq(Space(), TupleItems(names[1..]))));
    hide TupleItems;
    CommaThenExact(env, names[0], TupleItems(names[1..]), x);
    hide Accepts;
  }

  lemma CommaThenExact(env: Env, name: string, others: Expr, x: string)
    ensures Accepts(env, Seq(Ref(name), Seq(Lit(","), Seq(Space(), others))), x) <==>
      exists v, sp, rest :: x == v + ("," + (sp + rest)) && env(name, v) && env(SPACE, sp) && Accepts(env, others, rest)
  {
    hide Accepts;
    var tail := Seq(Lit(","), Seq(Space(), others));
    if Accepts(env, Seq(Ref(name), tail), x) {
      var i := SeqCut(env, Ref(name), tail, x);
      RefSame(env, name, x[..i]);
      LitSpaceThen(env, ",", others, x[i..]);
      assert x == x[..i] + x[i..];
    }
    if v, sp, rest :| x == v + ("," + (sp + rest)) && env(name, v) && env(SPACE, sp) && Accepts(env, others, rest) {
      RefSame(env, name, v);
      LitSpaceJoin(env, ",", others, sp, rest);
      SeqJoin(env, Ref(name), tail, v, "," + (sp + rest));
    }
  }

  lemma {:induction false} ObjectLanguageOf(env: Env, rules: Rules, t: Tables, s: Schema, e: Expr, w: string)
    requires Solves(env, rules) && Sensible(s) && s.ref.None?
    requires ObjectBuilt(rules, t, PropertyList(s), s.required, s.additional, e, Size(s))
    ensures Accepts(env, e, w) <==> ObjectMeans(env, RefReading(env, t), t, s, w)
    decreases Size(s), 3
  {
    hide Accepts, IsObject, MembersBuilt, ExtraBuilt, ObjectText, MemberReading, MemberMeans, Sensible, Solves;
    var list, extra := PropertyList(s), AllowsExtra(s.additional);
    var kv :| ObjectBuiltWith(rules, t, list, s.required, s.additional, kv, e, Size(s));
    var required, optional := RequiredKeys(list, s.required), WithStar(OptionalKeys(list, s.required), extra);
    ObjectExact(env, rules, kv, required, optional, e, w);
    var keys := Elements(required) + Elements(optional);
    var read, named := MemberReading(env, RefReading(env, t), t, s), SelfNamed(Elements(Names(list)) + {STAR});
    KeysListed(list, s.required, extra);
    NamedKeys(rules, kv, required, optional, e);
    forall k, x | k in keys
      ensures env(kv[k], x) <==> read(named[k], x)
    {
      MemberLanguage(env, rules, t, s, kv, k, x);
      MemberReadingIs(env, t, s, k, x);
    }
    forall x
      ensures env(SPACE, x) <==> read(SPACE, x)
    {
      MemberReadingIs(env, t, s, "", x);
    }
    ObjectTextSame(env, kv, read, named, keys, required, optional, w);
  }

  lemma MemberReadingIs(env: Env, t: Tables, s: Schema, k: string, x: string)
    ensures MemberReading(env, RefReading(env, t), t, s)(":" + k, x) <==> MemberMeans(env, RefReading(env, t), t, s, k, x)
    ensures MemberReading(env, RefReading(env, t), t, s)(SPACE, x) <==> env(SPACE, x)
  {
    hide MemberMeans;
    assert (":" + k)[1..] == k && (":" + k)[0] == ':' && SPACE[0] == 's';
  }

  lemma NamedKeys(rules: Rules, kv: map<string, string>, required: seq<string>, optional: seq<string>, e: Expr)
    requires IsObject(rules, kv, required, optional, e)
    ensures Elements(required) + Elements(optional) <= kv.Keys
    ensures KeysOf(Elements(required) + Elements(optional), required)
    ensures KeysOf(Elements(required) + Elements(optional), optional)
  {
    assert forall k :: k in required ==> k in Elements(required);
    assert forall k :: k in optional ==> k in Elements(optional);
  }

  /** Every key used is a property name, or `"*"` where additional members are allowed. */
  lemma KeysListed(list: seq<Property>, required: set<string>, extra: bool)
    ensures forall k :: k in Elements(RequiredKeys(list, required)) + Elements(WithStar(OptionalKeys(list, required), extra)) ==>
      k in Elements(Names(list)) || (extra && k == STAR)
  {
    KeysNamed(list, required);
    hide RequiredKeys, OptionalKeys, Names;
    forall k | k in Elements(WithStar(OptionalKeys(list, required), extra))
      ensures k in Elements(OptionalKeys(list, required)) || (extra && k == STAR)
    {
      assert k in WithStar(OptionalKeys(list, required), extra);
    }
  }

  lemma {:induction false} MemberLanguage(env: Env, rules: Rules, t: Tables, s: Schema,
                                         kv: map<string, string>, k: string, x: string)
    requires Solves(env, rules) && Sensible(s) && k in kv
    requires k in Elements(Names(PropertyList(s))) || (AllowsExtra(s.additional) && k == STAR)
    requires MembersBuilt(rules, t, PropertyList(s), kv, AllowsExtra(s.additional), Size(s))
    requires AllowsExtra(s.additional) ==> STAR in kv && ExtraBuilt(rules, t, PropertyList(s), s.additional, kv[STAR], Size(s))
    ensures env(kv[k], x) <==> MemberMeans(env, RefReading(env, t), t, s, k, x)
    decreases Size(s), 2
  {
    var list := PropertyList(s);
    if k == STAR && k !in Elements(Names(list)) {
      ExtraLanguage(env, rules, t, s, kv[STAR], x);
    } else {
      assert k in Names(list);
      var i :| 0 <= i < |list| && Names(list)[i] == k;
      assert list[i].name == k;
      OnlyNamed(s, i);
      PropertyLanguage(env, rules, t, s, i, kv[k], x);
    }
  }

  lemma OnlyNamed(s: Schema, i: nat)
    requires Sensible(s) && i < |PropertyList(s)|
    ensures LastNamed(PropertyList(s), i) && PropertyList(s)[i].name != STAR
  {
    assert SensibleProperty(PropertyList(s)[i]);
  }

  lemma {:induction false} PropertyLanguage(env: Env, rules: Rules, t: Tables, s: Schema, i: nat,
                                           rule: string, x: string)
    requires Solves(env, rules) && Sensible(s) && i < |PropertyList(s)|
    requires MemberBuilt(rules, t, PropertyList(s)[i], rule, Size(s))
    ensures PropertyList(s)[i].name != STAR
    ensures env(rule, x) <==> MemberMeans(env, RefReading(env, t), t, s, PropertyList(s)[i].name, x)
    decreases Size(s), 1
  {
    hide Accepts, Built, KvBody, GrammarText.Dump, Means;
    var list := PropertyList(s);
    var p := list[i];
    assert SensibleProperty(p);
    var value :| rules[rule] == KvBody(p.name, value) && Built(rules, t, p.schema, value);
    MemberTextExact(env, p.name, value, x);
    forall v
      ensures env(value, v) <==> Means(env, RefReading(env, t), t, p.schema, v)
    {
      SchemaLanguage(env, rules, t, p.schema, value, v);
    }
    assert forall j :: 0 <= j < |list| && list[j].name == p.name ==> j == i;
  }

  lemma {:induction false} ExtraLanguage(env: Env, rules: Rules, t: Tables, s: Schema, rule: string, x: string)
    requires Solves(env, rules) && Sensible(s) && AllowsExtra(s.additional)
    requires ExtraBuilt(rules, t, PropertyList(s), s.additional, rule, Size(s))
    ensures env(rule, x) <==> MemberMeans(env, RefReading(env, t), t, s, STAR, x)
    decreases Size(s), 1
  {
    hide Accepts, Built, ExtraBody, ExtraKeyBuilt, KeyMeans, Means;
    var list := PropertyList(s);
    var keyRule, value, chr :|
      && rules[rule] == ExtraBody(keyRule, value)
      && ExtraKeyBuilt(rules, t, list, keyRule, chr)
      && ExtraValueBuilt(rules, t, s.additional, value, Size(s));
    ExtraTextExact(env, keyRule, value, x);
    forall k
      ensures env(keyRule, k) <==> KeyMeans(env, t, list, k)
    {
      KeyLanguage(env, rules, t, list, keyRule, chr, k);
    }
    if s.additional.Described? {
      forall v
        ensures env(value, v) <==> Means(env, RefReading(env, t), t, s.additional.schema, v)
      {
        SchemaLanguage(env, rules, t, s.additional.schema, value, v);
      }
    }
  }

  /** The references' rules: what is read for a reference is what its schema stands for. */
  lemma ReferenceLanguage(env: Env, rules: Rules, t: Tables, schema: Schema, finished: set<string>, r: string, w: string)
    requires Solves(env, rules) && TablesOk(t) && RefsBuilt(rules, t, schema, finished) && Sensible(Target(t, r))
    requires r in finished || Direct(t, Target(t, r))
    ensures RefReading(env, t)(r, w) <==> Means(env, RefReading(env, t), t, Target(t, r), w)
  {
    if Direct(t, Target(t, r)) {
      DirectMeans(env, RefReading(env, t), t, Target(t, r), w);
      hide Accepts, Means, Sensible, TablesOk;
    } else {
      hide Accepts, Means, Sensible, TablesOk, Built, Mentions, LastComponent, Direct, DirectContent;
      assert RefFinished(rules, t, finished, r);
      SchemaLanguage(env, rules, t, Target(t, r), LastComponent(r), w);
    }
  }

  lemma DirectMeans(env: Env, refs: Env, t: Tables, s: Schema, w: string)
    requires Direct(t, s)
    ensures Means(env, refs, t, s, w) <==> Accepts(env, DirectContent(t, s), w)
  {
    hide Accepts, ObjectKind, ArrayKind, IntegerMeans, CharsMean;
  }

  /** Reading `refs` gives every reference that the schema leads to what its schema stands for. */
  ghost predicate Resolves(env: Env, refs: Env, t: Tables, scope: set<string>) {
    forall r, w :: r in scope ==> (refs(r, w) <==> Means(env, refs, t, Target(t, r), w))
  }

  /** The references a schema leads to. */
  ghost predicate LeadsTo(t: Tables, schema: Schema, met: set<string>) {
    Mentions(schema) <= met && forall r :: r in met ==> MentionsOf(t, r) <= met
  }

  /** If the references of a sensible schema can be told apart and the conversion ends without
      errors, then in every reading of the grammar the root rule accepts exactly what the schema
      stands for, with references standing for what their schemas stand for, and built-in names
      for what the reading makes of them. */
  method ConvertAsRead(schema: Schema, t: Tables, spaceRule: Expr, ghost scope: set<string>, ghost kept: set<string>)
    returns (root: string, grammar: Rules, errors: nat, ghost met: set<string>)
    requires RefsOf(spaceRule) == {} && TablesOk(t) && kept <= BuiltinNames(t) && KeptApart(t, schema, scope, kept)
    requires Sensible(schema) && forall r :: r in scope ==> Sensible(Target(t, r))
    ensures Convertible(t, schema) && TargetsConvertible(t) ==> errors == 0
    ensures errors == 0 ==> LeadsTo(t, schema, met) && met <= scope && root in grammar && ClosedTable(grammar)
    ensures SPACE in grammar && grammar[SPACE] == spaceRule
    ensures KeptOk(grammar, t, kept)
    ensures errors == 0 ==> forall env: Env, w ::
      Solves(env, grammar) ==>
        && (env(root, w) <==> Means(env, RefReading(env, t), t, schema, w))
        && Resolves(env, RefReading(env, t), t, met)
  {
    hide Solves, Sensible, RefsBuilt, Built, Means, Convertible, TargetsConvertible, Direct, ClosedTable, CircularAre,
      SelfReferring, ObjectsOk, SpecFor, IsObjectSchema, TablesOk, KeptApart, KeptOk, RefReading, Resolves, LeadsTo,
      ValidNames;
    ghost var finished, circular, objects;
    root, grammar, errors, finished, circular, objects := Convert(schema, t, spaceRule, scope, kept);
    met := finished + DirectRefs(t, scope);
    if errors == 0 {
      MetLeads(grammar, t, schema, scope, kept, finished);
      BuiltIsThere(grammar, t, schema, root);
      forall env: Env, w | Solves(env, grammar)
        ensures env(root, w) <==> Means(env, RefReading(env, t), t, schema, w)
        ensures Resolves(env, RefReading(env, t), t, met)
      {
        SchemaLanguage(env, grammar, t, schema, root, w);
        MetResolves(env, grammar, t, schema, scope, finished);
      }
    }
  }

  ghost function DirectRefs(t: Tables, scope: set<string>): (refs: set<string>) {
    set r | r in scope && Direct(t, Target(t, r))
  }

  lemma MetLeads(rules: Rules, t: Tables, schema: Schema, scope: set<string>, kept: set<string>, finished: set<string>)
    requires KeptApart(t, schema, scope, kept) && RefsBuilt(rules, t, schema, finished) && finished <= scope
    ensures LeadsTo(t, schema, finished + DirectRefs(t, scope)) && finished + DirectRefs(t, scope) <= scope
  {
    hide Direct, Mentions, SafeIn, SafeAll, SafeFor, Built;
    var met := finished + DirectRefs(t, scope);
    forall r | r in met ensures MentionsOf(t, r) <= met {
      assert RefOk(t, scope, Guards(Components(scope), kept), r);
      if r in finished {
        assert RefFinished(rules, t, finished, r);
      } else {
        DirectMentions(t, Target(t, r));
      }
    }
  }

  lemma BuiltIsThere(rules: Rules, t: Tables, s: Schema, n: string)
    requires Built(rules, t, s, n)
    ensures n in rules
  {
    hide BodyBuilt;
  }

  lemma DirectMentions(t: Tables, s: Schema)
    requires Direct(t, s)
    ensures Mentions(s) == {}
  {
    hide ObjectKind, ArrayKind;
  }

  lemma MetResolves(env: Env, rules: Rules, t: Tables, schema: Schema, scope: set<string>, finished: set<string>)
    requires Solves(env, rules) && TablesOk(t) && RefsBuilt(rules, t, schema, finished) && finished <= scope
    requires forall r :: r in scope ==> Sensible(Target(t, r))
    ensures Resolves(env, RefReading(env, t), t, finished + DirectRefs(t, scope))
  {
    hide Solves, Sensible, RefsBuilt, Means, Direct, TablesOk, RefReading;
    forall r, w | r in finished + DirectRefs(t, scope)
      ensures RefReading(env, t)(r, w) <==> Means(env, RefReading(env, t), t, Target(t, r), w)
    {
      ReferenceLanguage(env, rules, t, schema, finished, r, w);
    }
  }
}
