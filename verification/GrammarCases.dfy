/** What the texts derived from a finished grammar are, keyword by keyword, in terms of the
    schema's own fields. */
module GrammarCases {
  import opened Common
  import opened Gbnf
  import opened Decimal
  import opened ObjectRule
  import opened Schemas
  import opened BuiltRules
  import opened References
  import opened SchemaConverter
  import opened SchemaMeaning
  import opened GrammarMeaning
  import opened NameFaults
  import opened GrammarTexts
  import GrammarText
  import IntRange
  import NotStrings
  import Repetition

  // ----- by cases -----

  /** `text` and blanks. */
  ghost predicate ThenBlanks(env: Env, text: string, w: string) {
    exists sp :: w == text + sp && env(SPACE, sp)
  }

  predicate TypedOr(s: Schema, name: string) {
    s.typ == NoType || s.typ == TypeName(name)
  }

  /** Properties, or something else than `true` about additional ones. */
  predicate AsksObject(s: Schema) {
    TypedOr(s, "object") &&
    (s.properties.Properties? || match s.additional
                                 case Absent => false
                                 case Flag(allowed) => !allowed
                                 case Described(_) => true
                                 case OtherAdditional => true)
  }

  predicate AsksUuid(s: Schema) {
    TypedOr(s, "string") &&
    (s.format == "uuid" || (|s.format| == 5 && s.format[..4] == "uuid" && '1' <= s.format[4] <= '5'))
  }

  /** As many characters and escapes as the lengths allow. */
  ghost predicate FittingChars(env: Env, charRule: Expr, s: Schema, cs: seq<string>) {
    && (s.minLength.Some? ==> s.minLength.value <= |cs|) && (s.maxLength.Some? ==> |cs| <= s.maxLength.value)
    && forall i :: 0 <= i < |cs| ==> Accepts(env, charRule, cs[i])
  }

  ghost predicate TextStands(env: Env, charRule: Expr, s: Schema, w: string) {
    exists cs: seq<string>, sp :: w == "\"" + (Concat(cs) + ("\"" + sp)) && env(SPACE, sp) && FittingChars(env, charRule, s, cs)
  }

  /** The number is not below the minimum and not above the maximum, as far as they are given;
      the least and the greatest int mean that they are not. */
  predicate Inside(s: Schema, n: int) {
    && (s.minimum.Some? && s.minimum.value != -0x8000_0000 ==> s.minimum.value <= n)
    && (s.maximum.Some? && s.maximum.value != 0x7FFF_FFFF ==> n <= s.maximum.value)
  }

  /** The decimals of at most 16 digits of such numbers, and "-0" where a negative minimum
      leaves room for both signs. */
  ghost predicate NumberStands(s: Schema, v: string) {
    || (exists n: int :: Inside(s, n) && v == ToString(n) && |v| <= if n < 0 then 17 else 16)
    || (v == "-0" && s.minimum.Some? && -0x8000_0000 < s.minimum.value < 0 && (s.maximum.Some? ==> 0 <= s.maximum.value))
  }

  ghost predicate LeafStands(env: Env, t: Tables, s: Schema, w: string)
    requires TablesOk(t)
  {
    if AsksUuid(s) then Accepts(env, t.primitives["uuid"].content, w)
    else if TypedOr(s, "string") && s.format + "-string" in t.formats then
      Accepts(env, t.formats[s.format + "-string"].content, w)
    else if s.typ == TypeName("string") && (s.minLength.Some? || s.maxLength.Some?) then
      TextStands(env, t.primitives["char"].content, s, w)
    else if s.typ == TypeName("integer") && (s.minimum.Some? || s.maximum.Some?) then
      exists v :: ThenBlanks(env, v, w) && NumberStands(s, v)
    else if s == NULL_SCHEMA || s.typ == TypeName("object") then Accepts(env, t.primitives["object"].content, w)
    else s.typ.TypeName? && s.typ.name in t.primitives && Accepts(env, t.primitives[s.typ.name].content, w)
  }

  /** The texts of a schema by its keywords, in the order in which they are looked for. */
  ghost predicate Stands(env: Env, refs: Env, t: Tables, s: Schema, w: string)
    requires TablesOk(t)
  {
    if s.ref.Some? then refs(s.ref.value, w)
    else if s.oneOf.Union? then exists i :: 0 <= i < |s.oneOf.schemas| && Means(env, refs, t, s.oneOf.schemas[i], w)
    else if s.anyOf.Union? then exists i :: 0 <= i < |s.anyOf.schemas| && Means(env, refs, t, s.anyOf.schemas[i], w)
    else if s.typ.TypeList? then
      exists i :: 0 <= i < |s.typ.types| && Means(env, refs, t, s.(typ := s.typ.types[i]), w)
    else if s.constant.Some? then ThenBlanks(env, s.constant.value, w)
    else if s.constants.Some? then exists i :: 0 <= i < |s.constants.value| && ThenBlanks(env, s.constants.value[i], w)
    else if AsksObject(s) then ObjectStands(env, refs, t, s, w)
    else if TypedOr(s, "array") && s.items != NoItems then
      exists s1, x, s2 :: w == "[" + (s1 + (x + ("]" + s2))) && env(SPACE, s1) && env(SPACE, s2) && ItemsStand(env, refs, t, s, x)
    else LeafStands(env, t, s, w)
  }

  /** What stands between the brackets: one text for each schema, or a list of texts of the
      one schema whose length is inside the bounds, with commas between them. */
  ghost predicate ItemsStand(env: Env, refs: Env, t: Tables, s: Schema, x: string) {
    match s.items
    case NoItems => false
    case Tuple(ss) => TupleStands(env, refs, t, ss, x)
    case Each(item) =>
      exists vs: seq<string> ::
        && s.minItems <= |vs| && (s.maxItems.AtMost? ==> |vs| <= s.maxItems.n)
        && (forall i :: 0 <= i < |vs| ==> Means(env, refs, t, item, vs[i]))
        && Separated(env, vs, x)
  }

  // ----- and that this is what schemas stand for -----

  lemma SpacedIs(env: Env, text: string, w: string)
    ensures Spaced(env, text, w) <==> ThenBlanks(env, text, w)
  {
    if text <= w { assert w == text + w[|text|..]; }
    if sp :| w == text + sp && env(SPACE, sp) { assert w[|text|..] == sp; }
  }

  lemma UuidIs(s: Schema)
    ensures AsksUuid(s) <==> (s.typ.NoType? || s.typ == TypeName("string")) && IsUuid(s.format)
  {
    var f := s.format;
    if |f| == 5 && f[..4] == "uuid" && '1' <= f[4] <= '5' {
      assert f == f[..4] + [f[4]];
      var c := f[4];
      assert c == '1' || c == '2' || c == '3' || c == '4' || c == '5';
      assert "uuid" + ['1'] == "uuid1" && "uuid" + ['2'] == "uuid2" && "uuid" + ['3'] == "uuid3";
      assert "uuid" + ['4'] == "uuid4" && "uuid" + ['5'] == "uuid5";
    }
    assert "uuid1"[..4] == "uuid" && "uuid2"[..4] == "uuid" && "uuid3"[..4] == "uuid";
    assert "uuid4"[..4] == "uuid" && "uuid5"[..4] == "uuid";
  }

  lemma ObjectIs(env: Env, refs: Env, t: Tables, s: Schema, w: string)
    requires s.properties.Properties? ==> SensibleProperties(s.properties.list)
    ensures ObjectKind(s) <==> AsksObject(s)
    ensures ObjectMeans(env, refs, t, s, w) <==> ObjectStands(env, refs, t, s, w)
  {
    var list := if s.properties.Properties? then s.properties.list else [];
    ObjectSpelled(env, refs, t, s, w);
    ChosenIs(list, s.required);
    assert WithStar(OptionalKeys(list, s.required), AllowsExtra(s.additional))
           == OptionalKeys(list, s.required) + ExtraKeys(s.additional);
    hide ObjectText, RequiredKeys, OptionalKeys, Chosen, MemberReading, ObjectStands, Sensible;
  }

  lemma CharsFound(env: Env, charRule: Expr, s: Schema, x: string) returns (cs: seq<string>)
    requires CharsMean(env, charRule, s, x)
    ensures Concat(cs) == x && FittingChars(env, charRule, s, cs)
  {
    hide Accepts;
    var min, max := if s.minLength.Some? then s.minLength.value else 0, if s.maxLength.Some? then AtMost(s.maxLength.value) else NoLimit;
    var k: nat :| Within(k, min, max) && Repetition.ListOf(env, charRule, Repetition.NoSeparator, k, x);
    if k == 0 {
      cs := [];
    } else {
      cs :| |cs| == k && Concat(cs) == x && forall i :: 0 <= i < k ==> Accepts(env, charRule, cs[i]);
    }
  }

  lemma CharsMade(env: Env, charRule: Expr, s: Schema, cs: seq<string>)
    requires FittingChars(env, charRule, s, cs)
    ensures CharsMean(env, charRule, s, Concat(cs))
  {
    hide Accepts;
    var min, max := if s.minLength.Some? then s.minLength.value else 0, if s.maxLength.Some? then AtMost(s.maxLength.value) else NoLimit;
    assert Within(|cs|, min, max);
    if cs != [] { assert Repetition.Copies(env, charRule, |cs|, Concat(cs)); }
    assert Repetition.ListOf(env, charRule, Repetition.NoSeparator, |cs|, Concat(cs));
  }

  lemma TextIs(env: Env, charRule: Expr, s: Schema, w: string)
    ensures TextStands(env, charRule, s, w) <==>
      exists x, sp :: w == "\"" + (x + ("\"" + sp)) && env(SPACE, sp) && CharsMean(env, charRule, s, x)
  {
    hide CharsMean, FittingChars, Concat;
    if cs: seq<string>, sp :| w == "\"" + (Concat(cs) + ("\"" + sp)) && env(SPACE, sp) && FittingChars(env, charRule, s, cs) {
      CharsMade(env, charRule, s, cs);
    }
    if x, sp :| w == "\"" + (x + ("\"" + sp)) && env(SPACE, sp) && CharsMean(env, charRule, s, x) {
      var cs := CharsFound(env, charRule, s, x);
    }
  }

  lemma NumberIs(s: Schema, v: string)
    ensures IntegerMeans(s, v) <==> NumberStands(s, v)
  {
    forall n: int
      ensures IntRange.Inside(Lowest(s), Highest(s), n) <==> Inside(s, n)
      ensures v == ToString(n) ==> (IntRange.DigitCount(v) <= IntRange.DIGITS <==> |v| <= if n < 0 then 17 else 16)
    {
      if v == ToString(n) { SignOf(n); }
    }
    hide ToString, IntRange.DigitCount;
  }

  lemma SignOf(n: int)
    ensures "-" <= ToString(n) <==> n < 0
  {
    if n >= 0 { assert IsDigit(Numeral(n)[0]); }
    hide Numeral;
  }

  lemma IntegerIs(env: Env, s: Schema, w: string)
    ensures (exists v, sp :: w == v + sp && env(SPACE, sp) && IntegerMeans(s, v))
            <==> (exists v :: ThenBlanks(env, v, w) && NumberStands(s, v))
  {
    forall v { NumberIs(s, v); }
    hide NumberStands, IntegerMeans;
  }

  lemma LeafIs(env: Env, t: Tables, s: Schema, w: string)
    requires TablesOk(t)
    ensures LeafMeans(env, t, s, w) <==> LeafStands(env, t, s, w)
  {
    UuidIs(s);
    TextIs(env, t.primitives["char"].content, s, w);
    IntegerIs(env, s, w);
    assert {"char", "object", "uuid"} <= t.primitives.Keys;
    hide AsksUuid, IsUuid, TextStands, CharsMean, NumberStands, IntegerMeans, ThenBlanks, Accepts, TablesOk;
  }

  // Lists.

  const COMMA := Repetition.Between(Seq(Lit(","), Space()))

  ghost predicate AllMean(env: Env, refs: Env, t: Tables, item: Schema, vs: seq<string>) {
    forall i :: 0 <= i < |vs| ==> Means(env, refs, t, item, vs[i])
  }

  lemma {:induction false} CopiesBehind(env: Env, refs: Env, t: Tables, item: Schema, ws: seq<string>) returns (vs: seq<string>)
    requires forall i :: 0 <= i < |ws| ==> Accepts(ItemReading(env, refs, t, item), Seq(COMMA.e, Ref("item")), ws[i])
    ensures |vs| == |ws| && AllMean(env, refs, t, item, vs) && EachBehind(env, vs, Concat(ws))
  {
    hide Means, Accepts;
    if ws == [] {
      vs := [];
    } else {
      var rest := CopiesBehind(env, refs, t, item, ws[1..]);
      var sp, v := OneBehind(env, refs, t, item, ws[0]);
      vs := [v] + rest;
      assert vs[1..] == rest;
      assert ws[0] + Concat(ws[1..]) == "," + (sp + (vs[0] + Concat(ws[1..])));
    }
  }

  lemma OneBehind(env: Env, refs: Env, t: Tables, item: Schema, w: string) returns (sp: string, v: string)
    requires Accepts(ItemReading(env, refs, t, item), Seq(COMMA.e, Ref("item")), w)
    ensures w == "," + (sp + v) && env(SPACE, sp) && Means(env, refs, t, item, v)
  {
    var read := ItemReading(env, refs, t, item);
    hide Accepts, Means;
    var i := SeqCut(read, COMMA.e, Ref("item"), w);
    SeqOfLit(read, ",", Space(), w[..i]);
    RefSame(read, "item", w[i..]);
    sp, v := w[..i][1..], w[i..];
    RefSame(read, SPACE, sp);
    assert w == w[..i] + w[i..] && w[..i] == "," + sp;
  }

  lemma OneJoined(env: Env, refs: Env, t: Tables, item: Schema, sp: string, v: string)
    requires env(SPACE, sp) && Means(env, refs, t, item, v)
    ensures Accepts(ItemReading(env, refs, t, item), Seq(COMMA.e, Ref("item")), "," + (sp + v))
  {
    var read := ItemReading(env, refs, t, item);
    hide Accepts, Means;
    RefSame(read, SPACE, sp);
    RefSame(read, "item", v);
    SeqOfLit(read, ",", Space(), "," + sp);
    assert ("," + sp)[1..] == sp;
    SeqJoin(read, COMMA.e, Ref("item"), "," + sp, v);
    assert ("," + sp) + v == "," + (sp + v);
  }

  lemma {:induction false} BehindCopies(env: Env, refs: Env, t: Tables, item: Schema, vs: seq<string>, y: string) returns (ws: seq<string>)
    requires AllMean(env, refs, t, item, vs) && EachBehind(env, vs, y)
    ensures |ws| == |vs| && Concat(ws) == y
    ensures forall i :: 0 <= i < |ws| ==> Accepts(ItemReading(env, refs, t, item), Seq(COMMA.e, Ref("item")), ws[i])
    decreases |vs|
  {
    hide Means, Accepts;
    if vs == [] {
      ws := [];
    } else {
      var sp, z :| y == "," + (sp + (vs[0] + z)) && env(SPACE, sp) && EachBehind(env, vs[1..], z);
      assert forall i :: 0 <= i < |vs[1..]| ==> vs[1..][i] == vs[i + 1];
      var rest := BehindCopies(env, refs, t, item, vs[1..], z);
      OneJoined(env, refs, t, item, sp, vs[0]);
      ws := ["," + (sp + vs[0])] + rest;
      assert ws[1..] == rest;
      assert y == ws[0] + z;
    }
  }

  lemma ListFound(env: Env, refs: Env, t: Tables, item: Schema, k: nat, x: string) returns (vs: seq<string>)
    requires Repetition.ListOf(ItemReading(env, refs, t, item), Ref("item"), COMMA, k, x)
    ensures |vs| == k && AllMean(env, refs, t, item, vs) && Separated(env, vs, x)
  {
    var read := ItemReading(env, refs, t, item);
    hide Means, Accepts, EachBehind;
    if k == 0 {
      vs := [];
    } else {
      var v, y :| x == v + y && Accepts(read, Ref("item"), v) && Repetition.Copies(read, Seq(COMMA.e, Ref("item")), k - 1, y);
      RefSame(read, "item", v);
      var ws: seq<string> :| |ws| == k - 1 && Concat(ws) == y && forall i :: 0 <= i < k - 1 ==> Accepts(read, Seq(COMMA.e, Ref("item")), ws[i]);
      hide ItemReading, Separated;
      var others := CopiesBehind(env, refs, t, item, ws);
      SeparatedIs(env, v, others, y);
      vs := [v] + others;
    }
  }

  lemma ListMade(env: Env, refs: Env, t: Tables, item: Schema, vs: seq<string>, x: string)
    requires AllMean(env, refs, t, item, vs) && Separated(env, vs, x)
    ensures Repetition.ListOf(ItemReading(env, refs, t, item), Ref("item"), COMMA, |vs|, x)
  {
    var read := ItemReading(env, refs, t, item);
    hide Means, Accepts, EachBehind;
    if vs != [] {
      var y := BehindIs(env, vs, x);
      assert forall i :: 0 <= i < |vs[1..]| ==> vs[1..][i] == vs[i + 1];
      var ws := BehindCopies(env, refs, t, item, vs[1..], y);
      RefSame(read, "item", vs[0]);
      assert Repetition.Copies(read, Seq(COMMA.e, Ref("item")), |vs| - 1, y);
    }
  }

  lemma ItemsIs(env: Env, refs: Env, t: Tables, s: Schema, x: string)
    ensures ItemsMean(env, refs, t, s, x) <==> ItemsStand(env, refs, t, s, x)
  {
    hide Means, TupleMeans, TupleStands, Separated, Repetition.ListOf, ItemReading;
    if s.items.Tuple? {
      TupleIs(env, refs, t, s.items.schemas, x, Size(s));
    }
    if s.items.Each? {
      var item := s.items.schema;
      if ItemsMean(env, refs, t, s, x) {
        var k: nat :| Within(k, s.minItems, s.maxItems) && Repetition.ListOf(ItemReading(env, refs, t, item), Ref("item"), COMMA, k, x);
        var vs := ListFound(env, refs, t, item, k, x);
      }
      if ItemsStand(env, refs, t, s, x) {
        var vs: seq<string> :|
          && s.minItems <= |vs| && (s.maxItems.AtMost? ==> |vs| <= s.maxItems.n)
          && (forall i :: 0 <= i < |vs| ==> Means(env, refs, t, item, vs[i])) && Separated(env, vs, x);
        ListMade(env, refs, t, item, vs, x);
        assert Within(|vs|, s.minItems, s.maxItems);
      }
    }
  }

  lemma UnionIs(env: Env, refs: Env, t: Tables, s: Schema, w: string)
    requires TablesOk(t) && s.ref.None? && (s.oneOf.Union? || s.anyOf.Union? || s.typ.TypeList?)
    ensures Means(env, refs, t, s, w) <==> Stands(env, refs, t, s, w)
  {
    var ss := UnionOf(s);
    assert Means(env, refs, t, s, w) <==> exists i :: 0 <= i < |ss| && Means(env, refs, t, ss[i], w);
    hide Means, TablesOk;
    if !s.oneOf.Union? && !s.anyOf.Union? {
      var types := s.typ.types;
      assert |ss| == |types| && forall i :: 0 <= i < |types| ==> ss[i] == s.(typ := types[i]);
      if i :| 0 <= i < |ss| && Means(env, refs, t, ss[i], w) {
        assert Means(env, refs, t, s.(typ := types[i]), w);
      }
      if i :| 0 <= i < |types| && Means(env, refs, t, s.(typ := types[i]), w) {
        assert Means(env, refs, t, ss[i], w);
      }
    }
  }

  /** Keyword by keyword this is what a schema stands for. */
  lemma StandsIsMeans(env: Env, refs: Env, t: Tables, s: Schema, w: string)
    requires TablesOk(t) && (s.properties.Properties? ==> SensibleProperties(s.properties.list))
    ensures Means(env, refs, t, s, w) <==> Stands(env, refs, t, s, w)
  {
    hide TablesOk, Spaced, ThenBlanks, ObjectKind, AsksObject, ObjectMeans, ObjectStands, LeafMeans, LeafStands, ItemsMean, ItemsStand;
    ObjectIs(env, refs, t, s, w);
    if s.ref.Some? {
    } else if s.oneOf.Union? || s.anyOf.Union? || s.typ.TypeList? {
      UnionIs(env, refs, t, s, w);
    } else if s.constant.Some? {
      SpacedIs(env, s.constant.value, w);
    } else if s.constants.Some? {
      forall text { SpacedIs(env, text, w); }
    } else if !AsksObject(s) {
      if ArrayKind(s) {
        forall x { ItemsIs(env, refs, t, s, x); }
      } else {
        LeafIs(env, t, s, w);
      }
    }
  }

  // ----- from schema to derivations -----

  /** What a conversion needs to know beforehand: tables in order, names that keep apart, and
      schemas the converter is made for. */
  ghost predicate Fit(t: Tables, s: Schema, scope: set<string>) {
    && TablesOk(t) && BuiltinsApart(t, s, scope) && Sensible(s) && Convertible(t, s) && TargetsConvertible(t)
    && forall r :: r in scope ==> Sensible(Target(t, r))
  }

  /** The texts derived from the finished grammar, keyword by keyword; a reference alone gives
      those of the schema listed for it, or of any object when there is none (and no format has
      an empty name). */
  method ConvertByCases(schema: Schema, t: Tables, spaceRule: Expr, ghost scope: set<string>) returns (root: string, grammar: Rules)
    requires RefsOf(spaceRule) == {} && Fit(t, schema, scope)
    ensures root in grammar
    ensures forall w :: Derives(grammar, grammar[root], w) <==>
      Stands(BuiltinReading(t, spaceRule), RefMeaning(t, spaceRule, grammar), t, schema, w)
    ensures schema.ref.Some? && schema.ref.value in t.refs ==>
      forall w :: Derives(grammar, grammar[root], w) <==>
        Means(BuiltinReading(t, spaceRule), RefMeaning(t, spaceRule, grammar), t, t.refs[schema.ref.value], w)
    ensures schema.ref.Some? && schema.ref.value !in t.refs && "-string" !in t.formats ==>
      forall w :: Derives(grammar, grammar[root], w) <==> Accepts(BuiltinReading(t, spaceRule), t.primitives["object"].content, w)
  {
    hide Means, Stands, Sensible, TablesOk, KeptApart, Convertible, TargetsConvertible, Derives, BuiltinReading, RefMeaning, LeadsTo, Resolves;
    var errors; ghost var met;
    root, grammar, errors, met := ConvertSensible(schema, t, spaceRule, scope);
    ghost var base, refs := BuiltinReading(t, spaceRule), RefMeaning(t, spaceRule, grammar);
    PropertiesSensible(schema);
    forall w ensures Derives(grammar, grammar[root], w) <==> Stands(base, refs, t, schema, w) {
      StandsIsMeans(base, refs, t, schema, w);
    }
    if schema.ref.Some? {
      forall w
        ensures Means(base, refs, t, schema, w) <==> Means(base, refs, t, Target(t, schema.ref.value), w)
      {
        ReferenceIs(base, refs, t, schema, met, w);
      }
      if schema.ref.value !in t.refs && "-string" !in t.formats {
        ObjectThere(t);
        forall w ensures Means(base, refs, t, NULL_SCHEMA, w) <==> Accepts(base, t.primitives["object"].content, w) {
          StandsIsMeans(base, refs, t, NULL_SCHEMA, w);
          NullStands(base, refs, t, w);
        }
      }
    }
    ObjectThere(t);
  }

  lemma PropertiesSensible(s: Schema)
    requires Sensible(s)
    ensures s.properties.Properties? ==> SensibleProperties(s.properties.list)
  {}

  lemma ObjectThere(t: Tables)
    requires TablesOk(t)
    ensures "object" in t.primitives
  {}

  lemma ReferenceIs(env: Env, refs: Env, t: Tables, s: Schema, met: set<string>, w: string)
    requires s.ref.Some? && LeadsTo(t, s, met) && Resolves(env, refs, t, met)
    ensures Means(env, refs, t, s, w) <==> Means(env, refs, t, Target(t, s.ref.value), w)
  {
    assert s.ref.value in Mentions(s);
    assert Means(env, refs, t, s, w) <==> refs(s.ref.value, w);
    hide Means, Mentions;
  }

  lemma NullStands(env: Env, refs: Env, t: Tables, w: string)
    requires TablesOk(t) && "-string" !in t.formats
    ensures "object" in t.primitives && (Stands(env, refs, t, NULL_SCHEMA, w) <==> Accepts(env, t.primitives["object"].content, w))
  {
    assert "" + "-string" == "-string" && NULL_SCHEMA.format == "";
    hide Accepts, ToString;
  }
}
