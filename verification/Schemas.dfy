/** The schemas that the converter reads, the tables it is given, and the names of rules. */
module Schemas {
  import opened Common
  import opened Gbnf
  import opened Decimal
  import IntRange

  // ----- schemas -----

  datatype TypeSpec = NoType | TypeName(name: string) | TypeList(types: seq<TypeSpec>) | OtherType
  datatype Additional = Absent | Flag(allowed: bool) | Described(schema: Schema) | OtherAdditional
  datatype Items = NoItems | Tuple(schemas: seq<Schema>) | Each(schema: Schema)
  datatype Property = Property(name: string, schema: Schema)
  datatype Properties = NoProperties | Properties(list: seq<Property>)
  datatype Union = NoUnion | Union(schemas: seq<Schema>)

  /** The keywords the converter looks at; constants are kept as their JSON text. */
  datatype Schema = Schema(
    ref: Option<string>,
    oneOf: Union, anyOf: Union,
    typ: TypeSpec,
    constant: Option<string>, constants: Option<seq<string>>,
    properties: Properties, additional: Additional, required: set<string>,
    items: Items, minItems: nat, maxItems: Limit,
    format: string,
    minLength: Option<nat>, maxLength: Option<nat>,
    minimum: Option<int>, maximum: Option<int>,
    otherKeywords: bool)

  /** JSON `null`, which is what an unknown reference stands for. */
  const NULL_SCHEMA := Schema(None, NoUnion, NoUnion, NoType, None, None, NoProperties, Absent, {}, NoItems, 0, NoLimit, "",
                              None, None, None, None, false)

  predicate Empty(s: Schema) {
    s == NULL_SCHEMA
  }

  ghost function TypeSize(t: TypeSpec): (n: nat)
    ensures n > 0
    decreases t, 0
  {
    if t.TypeList? then 1 + TypesSize(t.types) else 1
  }

  ghost function TypesSize(ts: seq<TypeSpec>): (n: nat)
    ensures forall i :: 0 <= i < |ts| ==> TypeSize(ts[i]) <= n
    decreases ts, 1
  {
    if ts == [] then 0 else TypeSize(ts[0]) + TypesSize(ts[1..])
  }

  ghost function Size(s: Schema): (n: nat)
    ensures n > 0
    decreases s, 0
  {
    1 + (if s.ref.Some? then 1 else 0)
    + (if s.oneOf.Union? then 1 + Sizes(s.oneOf.schemas) else 0)
    + (if s.anyOf.Union? then 1 + Sizes(s.anyOf.schemas) else 0)
    + TypeSize(s.typ)
    + (if s.properties.Properties? then 1 + PropertiesSize(s.properties.list) else 0)
    + (if s.additional.Described? then 1 + Size(s.additional.schema) else 0)
    + (match s.items case NoItems => 0 case Tuple(ss) => 1 + Sizes(ss) case Each(e) => 1 + Size(e))
  }

  ghost function Sizes(ss: seq<Schema>): (n: nat)
    ensures forall i :: 0 <= i < |ss| ==> Size(ss[i]) <= n
    decreases ss, 1
  {
    if ss == [] then 0 else Size(ss[0]) + Sizes(ss[1..])
  }

  ghost function PropertySize(p: Property): (n: nat)
    decreases p, 0
  {
    Size(p.schema)
  }

  ghost function PropertiesSize(ps: seq<Property>): (n: nat)
    ensures forall i :: 0 <= i < |ps| ==> Size(ps[i].schema) <= n
    decreases ps, 1
  {
    if ps == [] then 0 else PropertySize(ps[0]) + PropertiesSize(ps[1..])
  }

  ghost predicate AllSmaller(ss: seq<Schema>, bound: nat) {
    forall i :: 0 <= i < |ss| ==> Size(ss[i]) < bound
  }

  ghost predicate Smaller(ps: seq<Property>, bound: nat) {
    forall i :: 0 <= i < |ps| ==> Size(ps[i].schema) < bound
  }

  // ----- names -----

  predicate NameChar(c: char) {
    'a' <= c <= 'z' || 'A' <= c <= 'Z' || '0' <= c <= '9' || c == '-'
  }

  predicate ValidName(s: string) {
    forall i :: 0 <= i < |s| ==> NameChar(s[i])
  }

  /** Every run of other characters becomes one dash. */
  function Escape(s: string, inRun: bool := false): (r: string)
    ensures ValidName(r) && (ValidName(s) ==> r == s)
  {
    if s == "" then ""
    else if NameChar(s[0]) then [s[0]] + Escape(s[1..], false)
    else if inRun then Escape(s[1..], true)
    else "-" + Escape(s[1..], true)
  }

  /** None of these may stand in a rule's name. */
  predicate NoNameChar(s: string) {
    forall i :: 0 <= i < |s| ==> !NameChar(s[i])
  }

  lemma EscapeGood(s: string, inRun: bool)
    requires s != "" && NameChar(s[0])
    ensures Escape(s, inRun) == [s[0]] + Escape(s[1..])
  {
    hide NameChar;
  }

  lemma EscapeBad(s: string, inRun: bool)
    requires s != "" && !NameChar(s[0])
    ensures Escape(s, inRun) == (if inRun then "" else "-") + Escape(s[1..], true)
  {
    hide NameChar;
  }

  lemma {:induction false} EscapeRun(run: string, rest: string)
    requires NoNameChar(run) && (rest == "" || NameChar(rest[0]))
    ensures Escape(run + rest, true) == Escape(rest)
  {
    if run == "" {
      assert run + rest == rest;
      hide NameChar;
    } else {
      EscapeRun(run[1..], rest);
      hide NameChar, Escape;
      assert (run + rest)[1..] == run[1..] + rest;
      EscapeBad(run + rest, true);
    }
  }

  /** A name without other characters stays, and the first run of them becomes one dash. */
  lemma {:induction false} EscapeIs(name: string, run: string, rest: string)
    requires ValidName(name) && NoNameChar(run) && run != "" && (rest == "" || NameChar(rest[0]))
    ensures Escape(name) == name && Escape(name + (run + rest)) == name + ("-" + Escape(rest))
  {
    hide NameChar, Escape;
    var all := name + (run + rest);
    if name == "" {
      EscapeRun(run[1..], rest);
      assert all[1..] == run[1..] + rest;
      EscapeBad(all, false);
    } else {
      EscapeIs(name[1..], run, rest);
      assert all[0] == name[0] && all[1..] == name[1..] + (run + rest);
      EscapeGood(all, false);
      assert [name[0]] + (name[1..] + ("-" + Escape(rest))) == name + ("-" + Escape(rest));
    }
  }

  lemma NumberedDistinct(base: string, i: nat, j: nat)
    ensures base + Numeral(i) == base + Numeral(j) <==> i == j
  {
    if base + Numeral(i) == base + Numeral(j) {
      assert (base + Numeral(i))[|base|..] == Numeral(i);
      assert (base + Numeral(j))[|base|..] == Numeral(j);
      NumeralInjective(i, j);
    }
  }

  ghost predicate NumberedBelow(base: string, i: nat, x: string) {
    exists j: nat :: j < i && x == base + Numeral(j)
  }

  ghost function Elements(xs: seq<string>): (r: set<string>) {
    set x | x in xs
  }

  function Dash(name: string): (r: string) {
    if name == "" then "" else name + "-"
  }

  function LastComponent(ref: string): (r: string) {
    if ref == "" || ref[|ref| - 1] == '/' then ""
    else LastComponent(ref[..|ref| - 1]) + [ref[|ref| - 1]]
  }

  /** It is what stands behind the last slash, or everything. */
  lemma {:induction false} LastComponentIs(ref: string)
    ensures '/' !in LastComponent(ref)
    ensures
      var c := LastComponent(ref);
      ref == c || (|c| < |ref| && ref[|ref| - |c| - 1] == '/' && ref[|ref| - |c|..] == c)
  {
    if ref != "" && ref[|ref| - 1] != '/' {
      LastComponentIs(ref[..|ref| - 1]);
    }
  }

  /** A built-in rule and the built-in rules it needs. */
  datatype Builtin = Builtin(content: Expr, deps: seq<string>)

  type Builtins = map<string, Builtin>

  /** What a conversion starts from: the built-in rules, and the schemas references stand for. */
  datatype Tables = Tables(primitives: Builtins, formats: Builtins, refs: map<string, Schema>)

  /** One copy of the schema for each listed type. */
  function TypeCopies(s: Schema): (copies: seq<Schema>)
    requires s.typ.TypeList?
    ensures |copies| == |s.typ.types|
    ensures forall i :: 0 <= i < |copies| ==> copies[i] == s.(typ := s.typ.types[i])
  {
    seq(|s.typ.types|, i requires 0 <= i < |s.typ.types| => s.(typ := s.typ.types[i]))
  }

  lemma TypeCopySmaller(s: Schema, i: nat)
    requires s.typ.TypeList? && i < |s.typ.types|
    ensures Size(s.(typ := s.typ.types[i])) < Size(s)
  {
    assert TypeSize(s.typ) == 1 + TypesSize(s.typ.types);
    hide Sizes, PropertiesSize, TypeSize, TypesSize;
  }

  predicate IsUuid(format: string) {
    format in {"uuid", "uuid1", "uuid2", "uuid3", "uuid4", "uuid5"}
  }

  /** The alternatives of a union, or one copy of the schema for each listed type. */
  function UnionOf(s: Schema): (ss: seq<Schema>)
    requires s.oneOf.Union? || s.anyOf.Union? || s.typ.TypeList?
    ensures AllSmaller(ss, Size(s))
  {
    if s.oneOf.Union? then s.oneOf.schemas
    else if s.anyOf.Union? then s.anyOf.schemas
    else
      assert forall i :: 0 <= i < |s.typ.types| ==> Size(s.(typ := s.typ.types[i])) < Size(s) by {
        forall i | 0 <= i < |s.typ.types|
          ensures Size(s.(typ := s.typ.types[i])) < Size(s)
        {
          TypeCopySmaller(s, i);
        }
      }
      TypeCopies(s)
  }

  predicate ObjectKind(s: Schema) {
    && (s.typ.NoType? || s.typ == TypeName("object"))
    && (s.properties.Properties? || (s.additional != Absent && s.additional != Flag(true)))
  }

  predicate ArrayKind(s: Schema) {
    (s.typ.NoType? || s.typ == TypeName("array")) && !s.items.NoItems?
  }

  function PropertyList(s: Schema): (ps: seq<Property>)
    ensures Smaller(ps, Size(s))
  {
    if s.properties.Properties? then s.properties.list else []
  }

  predicate AllowsExtra(additional: Additional) {
    additional == Flag(true) || additional.Described?
  }

  function Lowest(s: Schema): int {
    if s.minimum.Some? then s.minimum.value else IntRange.INT_MIN
  }

  function Highest(s: Schema): int {
    if s.maximum.Some? then s.maximum.value else IntRange.INT_MAX
  }

  /** The schema a reference stands for. */
  function Target(t: Tables, ref: string): (s: Schema) {
    if ref in t.refs then t.refs[ref] else NULL_SCHEMA
  }

  predicate Texty(s: Schema) {
    s.typ.NoType? || s.typ == TypeName("string")
  }

  /** A schema without sub-schemas whose rule is a built-in one: no rule of its own is written. */
  predicate Direct(t: Tables, s: Schema) {
    && s.ref.None? && s.oneOf.NoUnion? && s.anyOf.NoUnion? && !s.typ.TypeList?
    && s.constant.None? && s.constants.None? && !ObjectKind(s) && !ArrayKind(s)
    && {"char", "object", "uuid"} <= t.primitives.Keys
    && if Texty(s) && IsUuid(s.format) then true
       else
         && !(Texty(s) && s.format + "-string" in t.formats)
         && !(s.typ == TypeName("string") && (s.minLength.Some? || s.maxLength.Some?))
         && !(s.typ == TypeName("integer") && (s.minimum.Some? || s.maximum.Some?))
         && !Empty(s) && s.typ != TypeName("object") && s.typ.TypeName? && s.typ.name in t.primitives
  }

  function DirectContent(t: Tables, s: Schema): (e: Expr)
    requires Direct(t, s)
  {
    if Texty(s) && IsUuid(s.format) then t.primitives["uuid"].content else t.primitives[s.typ.name].content
  }

  /** The names of the built-in rules. */
  function BuiltinNames(t: Tables): (names: set<string>) {
    t.primitives.Keys + t.formats.Keys
  }

  function BuiltinOf(t: Tables, name: string): (b: Builtin)
    requires name in BuiltinNames(t)
  {
    if name in t.primitives then t.primitives[name] else t.formats[name]
  }

  predicate Reserved(t: Tables, name: string) {
    name == "root" || name in t.primitives || name in t.formats
  }

  function RuleName(t: Tables, name: string): (r: string) {
    if Reserved(t, name) then name + "-" else if name == "" then "root" else name
  }
}
