/** Which objects are derived from the grammar of an object schema, as plain texts. */
module GrammarMembers {
  import opened Common
  import opened Gbnf
  import opened ObjectRule
  import opened Schemas
  import opened BuiltRules
  import opened References
  import opened SchemaConverter
  import opened SchemaMeaning
  import opened GrammarMeaning
  import opened NameFaults
  import opened GrammarTexts
  import opened GrammarCases
  import GrammarText
  import NotStrings

  /** An object with one member and no blanks. */
  function One(k: string, v: string): (w: string) {
    "{" + ("\"" + (k + ("\"" + (":" + (v + "}")))))
  }

  /** An object schema with listed properties. */
  predicate ListedObject(s: Schema) {
    && s.ref.None? && s.oneOf.NoUnion? && s.anyOf.NoUnion? && !s.typ.TypeList? && s.constant.None? && s.constants.None?
    && TypedOr(s, "object") && s.properties.Properties? && s.properties.list != []
  }

  /** An ordinary key that is neither a listed name nor the beginning of one. */
  ghost predicate Unknown(s: Schema, k: string)
    requires s.properties.Properties?
  {
    && NotStrings.AllOrdinary(k) && k != "" && !NotStrings.BeginsSome(Names(s.properties.list), k)
    && !NotStrings.OnlyEmpty(Names(s.properties.list))
  }

  lemma StandsObject(env: Env, refs: Env, t: Tables, s: Schema, w: string)
    requires TablesOk(t) && ListedObject(s) && Sensible(s)
    ensures Stands(env, refs, t, s, w) <==> ObjectByKeys(env, refs, t, s, w)
  {
    SensibleList(s);
    hide ObjectByKeys, ObjectStands, TablesOk, Sensible;
    ObjectSpelled(env, refs, t, s, w);
  }

  // ----- blanks -----

  lemma SpaceInTable(t: Tables)
    requires TablesOk(t)
    ensures SPACE in BuiltinTable(t, BLANKS) && BuiltinTable(t, BLANKS)[SPACE] == BLANKS
  {
    hide EntryOk;
  }

  lemma BlanksHoldNothing(env: Env)
    ensures Accepts(env, BLANKS, "")
  {}

  lemma NothingIsBlank(t: Tables)
    requires TablesOk(t)
    ensures BuiltinReading(t, BLANKS)(SPACE, "")
  {
    hide *;
    ReadingSolves(t);
    SpaceInTable(t);
    BlanksHoldNothing(BuiltinReading(t, BLANKS));
    Solved(BuiltinReading(t, BLANKS), BuiltinTable(t, BLANKS), SPACE, "");
  }

  lemma Solved(env: Env, rules: Rules, n: string, w: string)
    requires Solves(env, rules) && n in rules && Accepts(env, rules[n], w)
    ensures env(n, w)
  {
    hide Accepts;
  }

  lemma BlanksLack(t: Tables, c: char, sp: string)
    requires TablesOk(t) && (c == '"' || c == '}' || c == ':')
    requires BuiltinReading(t, BLANKS)(SPACE, sp)
    ensures c !in sp
  {
    hide *;
    ReadingSolves(t);
    SpaceInTable(t);
    SolvedIs(BuiltinReading(t, BLANKS), BuiltinTable(t, BLANKS), SPACE, sp);
    BlanksClear(c);
    LacksChar(BuiltinReading(t, BLANKS), BLANKS, c, sp);
  }

  lemma BlanksClear(c: char)
    requires c == '"' || c == '}' || c == ':'
    ensures Lacks(BLANKS, c) && RefsOf(BLANKS) == {}
  {}

  // ----- keys -----

  lemma {:induction false} PickedFrom(ks: seq<string>, ms: seq<string>)
    requires Picks(ks, ms)
    ensures forall m :: m in ms ==> m in ks
    decreases |ks|
  {
    if ks != [] {
      var n: nat :| CanTake(ks[0], n, ms) && Picks(ks[1..], ms[n..]);
      PickedFrom(ks[1..], ms[n..]);
      assert ms == ms[..n] + ms[n..];
    }
  }

  lemma {:induction false} ChosenNamed(list: seq<Property>, required: set<string>, wanted: bool)
    ensures forall k :: k in Chosen(list, required, wanted) ==> k in Names(list) && (k in required) == wanted
    ensures forall i :: 0 <= i < |list| && (list[i].name in required) == wanted ==> list[i].name in Chosen(list, required, wanted)
  {
    if list != [] {
      ChosenNamed(list[1..], required, wanted);
      assert Names(list) == [list[0].name] + Names(list[1..]);
      assert forall i :: 0 < i < |list| ==> list[i] == list[1..][i - 1];
    }
  }

  function UntilQuote(w: string): (a: string) {
    if w == "" || w[0] == '"' then "" else [w[0]] + UntilQuote(w[1..])
  }

  lemma {:induction false} UntilQuoteIs(a: string, u: string)
    requires '"' !in a
    ensures UntilQuote(a + ("\"" + u)) == a
  {
    var w := a + ("\"" + u);
    if a != "" {
      assert w[1..] == a[1..] + ("\"" + u) && w[0] == a[0] && a[0] in a;
      UntilQuoteIs(a[1..], u);
    }
  }

  // ----- additional members -----

  /** Without additional members no object with an unknown first key is derived. */
  lemma NoExtra(refs: Env, t: Tables, s: Schema, k: string, v: string)
    requires TablesOk(t) && ListedObject(s) && Sensible(s) && Unknown(s, k) && ExtraKeys(s.additional) == []
    ensures !ObjectByKeys(BuiltinReading(t, BLANKS), refs, t, s, One(k, v))
  {
    var base := BuiltinReading(t, BLANKS);
    if ObjectByKeys(base, refs, t, s, One(k, v)) {
      SensibleList(s);
      hide *;
      var s1, x, s2, ms := ObjectParts(base, refs, t, s, One(k, v));
      BlanksLack(t, '"', s1);
      QuoteFirst(s1, x, s2, k, v);
      var u, y := FirstMember(base, refs, t, s, ms, x);
      var r := MemberStarts(base, refs, t, s, ms[0], u);
      NoQuotes(ms[0], s, k);
      FirstKey(ms[0], r, y, s2, k, v);
      KnownName(s, k);
    }
  }

  /** The members of an object that has no additional ones. */
  lemma ObjectParts(base: Env, refs: Env, t: Tables, s: Schema, w: string) returns (s1: string, x: string, s2: string, ms: seq<string>)
    requires ListedObject(s) && ExtraKeys(s.additional) == [] && ObjectByKeys(base, refs, t, s, w)
    ensures w == Braced(s1, x, s2) && base(SPACE, s1) && base(SPACE, s2) && MembersRead(base, refs, t, s, ms, x)
  {
    var list := s.properties.list;
    var read, named := MemberReading(base, refs, t, s), SelfNamed(Elements(Names(list)) + {STAR});
    var required, optional := Chosen(list, s.required, true), Chosen(list, s.required, false);
    assert optional + [] == optional;
    hide MemberReading, SelfNamed, Elements, InsideText, ListText, Chosen, Names, Members, Named;
    s1, x, s2 :| w == Braced(s1, x, s2) && read(SPACE, s1) && read(SPACE, s2) && InsideText(read, named, required, optional, x);
    BlanksAt(base, refs, t, s, s1);
    BlanksAt(base, refs, t, s, s2);
    ms := InsideParts(read, named, required, optional, x);
  }

  lemma BlanksAt(base: Env, refs: Env, t: Tables, s: Schema, sp: string)
    ensures MemberReading(base, refs, t, s)(SPACE, sp) <==> base(SPACE, sp)
  {
    BlanksRead(base, refs, t, s);
    hide MemberReading;
  }

  lemma InsideParts(read: Env, named: map<string, string>, required: seq<string>, optional: seq<string>, x: string) returns (ms: seq<string>)
    requires InsideText(read, named, required, optional, x)
    ensures Members(required, optional, ms) && Named(named, ms) && ListText(read, named, ms, x)
  {
    hide Members, ListText, Named;
    ms :| Members(required, optional, ms) && Named(named, ms) && ListText(read, named, ms, x);
  }

  /** Listed members, the required ones first, in the text `x`. */
  ghost predicate MembersRead(base: Env, refs: Env, t: Tables, s: Schema, ms: seq<string>, x: string)
    requires s.properties.Properties?
  {
    var list := s.properties.list;
    var named := SelfNamed(Elements(Names(list)) + {STAR});
    && Members(Chosen(list, s.required, true), Chosen(list, s.required, false), ms)
    && Named(named, ms) && ListText(MemberReading(base, refs, t, s), named, ms, x)
  }

  lemma QuoteFirst(s1: string, x: string, s2: string, k: string, v: string)
    requires One(k, v) == Braced(s1, x, s2) && '"' !in s1
    ensures s1 == "" && x != ""
    ensures x + ("}" + s2) == "\"" + (k + ("\"" + (":" + (v + "}"))))
  {
    var inside, rest := "\"" + (k + ("\"" + (":" + (v + "}")))), x + ("}" + s2);
    assert One(k, v)[1..] == inside;
    assert Braced(s1, x, s2)[1..] == s1 + rest;
    assert inside[0] == '"';
    hide *;
    if s1 != "" {
      StartsWith(s1, rest);
    } else {
      NothingBefore(s1, rest);
      if x == "" {
        BraceFirst(x, s2);
      }
    }
  }

  lemma StartsWith(a: string, b: string)
    requires a != ""
    ensures a + b != "" && (a + b)[0] in a
  {}

  lemma NothingBefore(a: string, b: string)
    requires a == ""
    ensures a + b == b
  {}

  lemma BraceFirst(x: string, s2: string)
    requires x == ""
    ensures (x + ("}" + s2))[0] == '}'
  {}

  /** A list that is not empty starts with a listed member. */
  lemma FirstMember(base: Env, refs: Env, t: Tables, s: Schema, ms: seq<string>, x: string) returns (u: string, y: string)
    requires ListedObject(s) && MembersRead(base, refs, t, s, ms, x) && x != ""
    ensures ms != [] && ms[0] in Names(s.properties.list)
    ensures x == u + y && MemberReading(base, refs, t, s)(":" + ms[0], u)
  {
    var list := s.properties.list;
    var read, named := MemberReading(base, refs, t, s), SelfNamed(Elements(Names(list)) + {STAR});
    hide MemberReading, CommaText, Members, Chosen, Names;
    ListedFirst(list, s.required, ms);
    u, y :| x == u + y && read(named[ms[0]], u);
    assert named[ms[0]] == ":" + ms[0];
  }

  lemma ListedFirst(list: seq<Property>, required: set<string>, ms: seq<string>)
    requires ms != [] && Members(Chosen(list, required, true), Chosen(list, required, false), ms)
    ensures ms[0] in Names(list)
  {
    var rs, os := Chosen(list, required, true), Chosen(list, required, false);
    ChosenNamed(list, required, true);
    ChosenNamed(list, required, false);
    PickedFrom(os, ms[|rs|..]);
    hide Chosen, Picks, Names;
    if rs == [] {
      assert ms[0] in ms[|rs|..];
    } else {
      assert ms[0] == rs[0];
    }
  }

  /** The text of a listed member is its quoted key and what follows. */
  lemma MemberStarts(base: Env, refs: Env, t: Tables, s: Schema, m: string, u: string) returns (r: string)
    requires ListedObject(s) && SensibleProperties(s.properties.list) && m in Names(s.properties.list)
    requires MemberReading(base, refs, t, s)(":" + m, u)
    ensures u == "\"" + (m + ("\"" + r)) && GrammarText.PlainKey(m)
  {
    PlainName(s.properties.list, m);
    MemberRead(base, refs, t, s, m, u);
    hide *;
    r := MemberDump(base, refs, t, s, m, u);
    GrammarText.KeySurvivesIff(m);
    Requoted(m, r);
  }

  lemma PlainName(list: seq<Property>, m: string)
    requires SensibleProperties(list) && m in Names(list)
    ensures m != STAR && GrammarText.PlainKey(m)
  {
    var j :| 0 <= j < |list| && list[j].name == m;
    assert SensibleProperty(list[j]);
    hide GrammarText.PlainKey, Sensible;
  }

  lemma Requoted(m: string, r: string)
    ensures ("\"" + (m + "\"")) + r == "\"" + (m + ("\"" + r))
  {}

  lemma MemberDump(env: Env, refs: Env, t: Tables, s: Schema, m: string, u: string) returns (r: string)
    requires m != STAR && MemberMeans(env, refs, t, s, m, u)
    ensures u == GrammarText.Dump(m) + r
  {
    hide GrammarText.Dump, Means, PropertyList;
    var i, sp1, sp2, z :| 0 <= i < |PropertyList(s)| && PropertyList(s)[i].name == m && u == GrammarText.Dump(m) + (sp1 + (":" + (sp2 + z)));
    r := sp1 + (":" + (sp2 + z));
  }

  lemma FirstKey(m: string, r: string, y: string, s2: string, k: string, v: string)
    requires ("\"" + (m + ("\"" + r)) + y) + ("}" + s2) == "\"" + (k + ("\"" + (":" + (v + "}"))))
    requires '"' !in m && '"' !in k
    ensures m == k
  {
    var behind, after := r + (y + ("}" + s2)), ":" + (v + "}");
    var a, b := m + ("\"" + behind), k + ("\"" + after);
    assert ("\"" + (m + ("\"" + r)) + y) + ("}" + s2) == "\"" + a;
    assert ("\"" + a)[1..] == a && ("\"" + b)[1..] == b;
    UntilQuoteIs(m, behind);
    UntilQuoteIs(k, after);
  }

  lemma SensibleList(s: Schema)
    requires Sensible(s) && s.properties.Properties?
    ensures SensibleProperties(s.properties.list)
  {}

  lemma NoQuotes(m: string, s: Schema, k: string)
    requires GrammarText.PlainKey(m) && s.properties.Properties? && Unknown(s, k)
    ensures '"' !in m && '"' !in k
  {
    assert forall i :: 0 <= i < |k| ==> NotStrings.Ordinary(k[i]);
  }

  lemma KnownName(s: Schema, k: string)
    requires s.properties.Properties? && k in Names(s.properties.list)
    ensures !Unknown(s, k)
  {
    var names := Names(s.properties.list);
    var j :| 0 <= j < |names| && names[j] == k;
    assert k <= names[j];
  }

  /** No property has to be there. */
  predicate NoneRequired(s: Schema)
    requires s.properties.Properties?
  {
    forall i :: 0 <= i < |s.properties.list| ==> s.properties.list[i].name !in s.required
  }

  lemma {:induction false} NoneChosen(list: seq<Property>, required: set<string>)
    ensures Chosen(list, required, true) == [] <==> forall i :: 0 <= i < |list| ==> list[i].name !in required
  {
    if list != [] {
      NoneChosen(list[1..], required);
      assert forall i :: 0 < i < |list| ==> list[i] == list[1..][i - 1];
    }
  }

  /** With additional members an object with an unknown key alone is derived. */
  lemma SomeExtra(refs: Env, t: Tables, s: Schema, k: string, v: string)
    requires TablesOk(t) && ListedObject(s) && Sensible(s) && Unknown(s, k) && ExtraKeys(s.additional) == [STAR]
    requires t.primitives["char"].content == NotStrings.CharRule() && NoneRequired(s)
    requires ExtraValue(BuiltinReading(t, BLANKS), refs, t, s.additional, v)
    ensures ObjectByKeys(BuiltinReading(t, BLANKS), refs, t, s, One(k, v))
  {
    var base, list := BuiltinReading(t, BLANKS), s.properties.list;
    NoneChosen(list, s.required);
    NothingIsBlank(t);
    UnknownKey(t, s, k);
    hide *;
    ExtraMemberMeans(base, refs, t, s, k, v);
    ExtraObject(base, refs, t, s, k, v);
  }

  lemma UnknownKey(t: Tables, s: Schema, k: string)
    requires TablesOk(t) && ListedObject(s) && Sensible(s) && Unknown(s, k) && ExtraKeys(s.additional) == [STAR]
    requires t.primitives["char"].content == NotStrings.CharRule()
    ensures {"char", "string"} <= t.primitives.Keys
    ensures Unlisted(BuiltinReading(t, BLANKS), t.primitives["char"].content, Names(s.properties.list), k)
  {
    assert NotStrings.PlainTrie(NotStrings.Build(Names(s.properties.list)));
    BothReadChar(t, BLANKS, map[]);
    hide Accepts, BuiltinReading, GrammarReading, NotStrings.Build, NotStrings.CharRule, Unlisted, Sensible;
    UnlistedMeans(BuiltinReading(t, BLANKS), Names(s.properties.list), k, "char");
  }

  /** A member with this key. */
  function MemberOf(k: string, v: string): (x: string) {
    ("\"" + k + "\"" + "") + (":" + ("" + v))
  }

  lemma ExtraMemberMeans(base: Env, refs: Env, t: Tables, s: Schema, k: string, v: string)
    requires ListedObject(s) && base(SPACE, "") && {"char", "string"} <= t.primitives.Keys
    requires Unlisted(base, t.primitives["char"].content, Names(s.properties.list), k)
    requires ExtraValue(base, refs, t, s.additional, v)
    ensures MemberMeans(base, refs, t, s, STAR, MemberOf(k, v))
  {
    var key := "\"" + k + "\"" + "";
    assert KeyMeans(base, t, PropertyList(s), key) by {
      hide Accepts, Unlisted;
    }
    hide KeyMeans, Means, Accepts, Unlisted;
    assert MemberOf(k, v) == key + (":" + ("" + v));
  }

  lemma ExtraObject(base: Env, refs: Env, t: Tables, s: Schema, k: string, v: string)
    requires ListedObject(s) && base(SPACE, "") && ExtraKeys(s.additional) == [STAR]
    requires Chosen(s.properties.list, s.required, true) == []
    requires MemberMeans(base, refs, t, s, STAR, MemberOf(k, v))
    ensures ObjectByKeys(base, refs, t, s, One(k, v))
  {
    var list := s.properties.list;
    var read, named := MemberReading(base, refs, t, s), SelfNamed(Elements(Names(list)) + {STAR});
    var optional := Chosen(list, s.required, false) + [STAR];
    var x := MemberOf(k, v);
    BlanksAt(base, refs, t, s, "");
    MemberRead(base, refs, t, s, STAR, x);
    assert STAR in named && named[STAR] == ":" + STAR;
    assert optional[|optional| - 1] == STAR;
    OneKey(optional, |optional| - 1);
    hide MemberReading, MemberMeans, Picks, Chosen, Names, Elements, SelfNamed;
    OneListed(read, named, x);
    SelectedInside(read, named, optional, [STAR], x);
    BracedObject(read, named, optional, x);
    BracedOne(k, v);
  }

  lemma OneListed(read: Env, named: map<string, string>, x: string)
    requires STAR in named && read(named[STAR], x)
    ensures Named(named, [STAR]) && ListText(read, named, [STAR], x)
  {
    assert [STAR][1..] == [] && x + "" == x;
    TextNil(read, named, "");
    hide CommaText;
  }

  lemma BracedOne(k: string, v: string)
    ensures Braced("", MemberOf(k, v), "") == One(k, v)
  {
    assert MemberOf(k, v) + ("}" + "") == "\"" + (k + ("\"" + (":" + (v + "}"))));
    assert "" + (MemberOf(k, v) + ("}" + "")) == MemberOf(k, v) + ("}" + "");
  }

  // ----- required members -----

  /** Nothing but braces is an object of the schema if and only if no listed property is
      required. */
  lemma EmptyIff(refs: Env, t: Tables, s: Schema)
    requires TablesOk(t) && ListedObject(s)
    ensures ObjectByKeys(BuiltinReading(t, BLANKS), refs, t, s, "{}") <==> NoneRequired(s)
  {
    var base, list := BuiltinReading(t, BLANKS), s.properties.list;
    NoneChosen(list, s.required);
    NothingIsBlank(t);
    hide BuiltinReading, Chosen, TablesOk;
    EmptyObjectIff(base, refs, t, s);
  }

  lemma EmptyObjectIff(base: Env, refs: Env, t: Tables, s: Schema)
    requires ListedObject(s) && base(SPACE, "")
    ensures ObjectByKeys(base, refs, t, s, "{}") <==> Chosen(s.properties.list, s.required, true) == []
  {
    var list := s.properties.list;
    var read, named := MemberReading(base, refs, t, s), SelfNamed(Elements(Names(list)) + {STAR});
    var required, optional := Chosen(list, s.required, true), Chosen(list, s.required, false) + ExtraKeys(s.additional);
    BlanksAt(base, refs, t, s, "");
    NoMemberEmpty(base, refs, t, s);
    assert Braced("", "", "") == "{}";
    hide MemberReading, SelfNamed, Elements, Chosen, Names, MemberMeans, ExtraKeys;
    NothingInsideIff(read, named, required, optional);
    if ObjectByKeys(base, refs, t, s, "{}") {
      var s1, x, s2 :| "{}" == Braced(s1, x, s2) && read(SPACE, s1) && read(SPACE, s2) && InsideText(read, named, required, optional, x);
      assert |Braced(s1, x, s2)| == 2 + |s1| + |x| + |s2|;
      assert x == "";
    }
  }

  /** A member has at least a colon. */
  lemma NoMemberEmpty(base: Env, refs: Env, t: Tables, s: Schema)
    ensures
      var named := SelfNamed(Elements(Names(PropertyList(s))) + {STAR});
      forall m :: m in named ==> !MemberReading(base, refs, t, s)(named[m], "")
  {
    var named := SelfNamed(Elements(Names(PropertyList(s))) + {STAR});
    forall m | m in named ensures !MemberReading(base, refs, t, s)(named[m], "") {
      MemberRead(base, refs, t, s, m, "");
      MemberNotEmpty(base, refs, t, s, m);
      hide MemberReading, MemberMeans, Names, PropertyList;
      assert named[m] == ":" + m;
    }
  }

  lemma MemberNotEmpty(base: Env, refs: Env, t: Tables, s: Schema, m: string)
    ensures !MemberMeans(base, refs, t, s, m, "")
  {
    hide Means, KeyMeans, Accepts, GrammarText.Dump, PropertyList;
    assert GrammarText.Dump(m) != "" by { DumpNotEmpty(m); }
  }

  lemma DumpNotEmpty(m: string)
    ensures GrammarText.Dump(m) != ""
  {}

  lemma NothingInsideIff(read: Env, named: map<string, string>, required: seq<string>, optional: seq<string>)
    requires forall m :: m in named ==> !read(named[m], "")
    ensures InsideText(read, named, required, optional, "") <==> required == []
  {
    if required == [] {
      var none: seq<string> := [];
      PicksNothing(optional);
      assert none[|required|..] == none && Members(required, optional, none);
      assert Named(named, none) && ListText(read, named, none, "");
    }
    hide Picks, CommaText;
  }

  // ----- the derived objects -----

  /** An object with one member whose key is unknown: it is derived, for every value, if
      additional members are allowed or described, and never if they are not, whether that is
      said by `false`, by something else, or not at all. */
  method ExtraMember(s: Schema, t: Tables, ghost scope: set<string>, ghost k: string) returns (root: string, grammar: Rules)
    requires Fit(t, s, scope) && ListedObject(s) && Unknown(s, k)
    ensures root in grammar
    ensures
      match s.additional
      case Flag(true) => NoneRequired(s) && t.primitives["char"].content == NotStrings.CharRule() ==>
        forall v :: Accepts(BuiltinReading(t, BLANKS), t.primitives["value"].content, v) ==> Derives(grammar, grammar[root], One(k, v))
      case Described(d) => NoneRequired(s) && t.primitives["char"].content == NotStrings.CharRule() ==>
        forall v :: Means(BuiltinReading(t, BLANKS), RefMeaning(t, BLANKS, grammar), t, d, v) ==> Derives(grammar, grammar[root], One(k, v))
      case Flag(false) => forall v :: !Derives(grammar, grammar[root], One(k, v))
      case Absent => forall v :: !Derives(grammar, grammar[root], One(k, v))
      case OtherAdditional => forall v :: !Derives(grammar, grammar[root], One(k, v))
  {
    BlanksClear(':');
    FitParts(t, s, scope);
    hide Means, Stands, Sensible, KeptApart, Convertible, TargetsConvertible, Derives, BuiltinReading, RefMeaning;
    hide ObjectByKeys, Unknown, Accepts, EntryOk;
    root, grammar := ConvertByCases(s, t, BLANKS, scope);
    ghost var refs := RefMeaning(t, BLANKS, grammar);
    forall v ensures Derives(grammar, grammar[root], One(k, v)) <==> ObjectByKeys(BuiltinReading(t, BLANKS), refs, t, s, One(k, v)) {
      StandsObject(BuiltinReading(t, BLANKS), refs, t, s, One(k, v));
    }
    if ExtraKeys(s.additional) == [] {
      forall v { NoExtra(refs, t, s, k, v); }
    } else if NoneRequired(s) && t.primitives["char"].content == NotStrings.CharRule() {
      forall v | ExtraValue(BuiltinReading(t, BLANKS), refs, t, s.additional, v)
        ensures ObjectByKeys(BuiltinReading(t, BLANKS), refs, t, s, One(k, v))
      {
        SomeExtra(refs, t, s, k, v);
      }
    }
  }

  lemma FitParts(t: Tables, s: Schema, scope: set<string>)
    requires Fit(t, s, scope)
    ensures TablesOk(t) && Sensible(s)
  {}

  /** The empty object is derived if and only if none of the listed properties is required. */
  method EmptyObject(s: Schema, t: Tables, ghost scope: set<string>) returns (root: string, grammar: Rules)
    requires Fit(t, s, scope) && ListedObject(s)
    ensures root in grammar && (Derives(grammar, grammar[root], "{}") <==> NoneRequired(s))
  {
    var empty := "{}";
    hide *;
    BlanksClear(':');
    FitParts(t, s, scope);
    root, grammar := ConvertByCases(s, t, BLANKS, scope);
    ghost var refs := RefMeaning(t, BLANKS, grammar);
    StandsObject(BuiltinReading(t, BLANKS), refs, t, s, empty);
    EmptyIff(refs, t, s);
  }
}
