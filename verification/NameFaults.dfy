/** Names of rules that go wrong: a reference, a property and a built-in rule share one table of
    names. */
module NameFaults {
  import opened Common
  import opened Gbnf
  import opened Decimal
  import opened ObjectRule
  import opened Schemas
  import opened BuiltRules
  import opened References
  import opened SchemaConverter
  import opened SchemaMeaning
  import opened GrammarMeaning
  import GrammarText
  import IntRange
  import Repetition

  // ----- references that go wrong -----

  const NODE := "#/$defs/node"
  const MY_NODE := "#/$defs/my_node"
  const OBJECT := "#/$defs/object"

  /** One name to keep free. */
  function Only(p: string): (g: Guards) {
    Guards({p}, {})
  }

  function RefTo(ref: string): (s: Schema) {
    NULL_SCHEMA.(ref := Some(ref))
  }

  /** An object with one property, `next`, that refers to `ref`. */
  function ListNode(ref: string): (s: Schema) {
    NULL_SCHEMA.(properties := Properties([Property("next", RefTo(ref))]))
  }

  function OneRef(t: Tables, ref: string, s: Schema): (r: Tables) {
    t.(refs := map[ref := s])
  }

  function ShortInteger(): (s: Schema) {
    NULL_SCHEMA.(typ := TypeName("integer"), minimum := Some(0), maximum := Some(9))
  }

  function LongString(): (s: Schema) {
    NULL_SCHEMA.(typ := TypeName("string"), minLength := Some(3))
  }

  lemma NodeComponent()
    ensures LastComponent(NODE) == "node" && LastComponent(MY_NODE) == "my_node" && LastComponent(OBJECT) == "object"
  {
    ComponentStep("#/$defs/", "node");
    ComponentStep("#/$defs/", "my_node");
    ComponentStep("#/$defs/", "object");
    assert NODE == "#/$defs/" + "node" && MY_NODE == "#/$defs/" + "my_node" && OBJECT == "#/$defs/" + "object";
  }

  lemma {:induction false} ComponentStep(path: string, name: string)
    requires path != "" && path[|path| - 1] == '/' && forall i :: 0 <= i < |name| ==> name[i] != '/'
    ensures LastComponent(path + name) == name
    decreases |name|
  {
    var ref := path + name;
    if name == "" {
      assert ref == path;
    } else {
      var front := name[..|name| - 1];
      assert ref[..|ref| - 1] == path + front && ref[|ref| - 1] == name[|name| - 1];
      ComponentStep(path, front);
      assert name == front + [name[|name| - 1]];
    }
  }

  /** The properties `node`, an integer from 0 to 9, and `child`, a reference to "#/$defs/node",
      which is a string of at least three characters: without any error the rule of the second
      becomes a reference to the rule of the first. */
  method ChildTakesNode(t: Tables, spaceRule: Expr) returns (rules: Rules, errors: nat, ghost child: string)
    requires RefsOf(spaceRule) == {} && TablesOk(OneRef(t, NODE, LongString()))
    requires !Reserved(t, "node") && !Reserved(t, "child")
    ensures errors == 0 && child in rules && rules[child] == Ref("node")
    ensures "node" in rules && IntegerBuilt(ShortInteger(), rules["node"])
    ensures !BodyBuilt(rules, OneRef(t, NODE, LongString()), LongString(), rules["node"])
  {
    hide TablesOk, Sound, Built, Fine, Mentions, Convertible, MemberBuilt, KvBody, AllHandled, IntegerBuilt, BodyBuilt,
      After, Extends, ErrorsAs, AtOnceNamed, TakenName, SafeAll, SafeHelpers, Covered, ShortInteger, LongString,
      GuardsOk, Size, LastComponent;
    var tables := OneRef(t, NODE, LongString());
    NodeComponent();
    ghost var none: set<string> := {};
    NothingWatched(tables);
    var c := new Converter(tables, spaceRule, none, NO_GUARDS, false);
    ghost var m0 := c.Here();
    var first, second := Property("node", ShortInteger()), Property("child", RefTo(NODE));
    PropertyStart(c.Now(), first);
    var r1, v1 := c.VisitProperty(first, "", Size(first.schema) + 1);
    ghost var m1 := c.Here();
    AfterFacts(m1, m0);
    NodeIsThere(tables, m0.rules, m1.rules, spaceRule);
    PropertyStart(c.Now(), second);
    var r2, v2 := c.VisitProperty(second, "", Size(second.schema) + 1);
    AfterFacts(c.Here(), m1);
    rules, errors, child := c.rules, c.errors, v2;
    NodeStays(m1.rules, rules, v2);
    NoErrors(tables, m1.progress.errors, errors);
    IntegerIsNoString(rules, tables, rules["node"]);
  }

  lemma NothingWatched(t: Tables)
    ensures GuardsOk(t, {}, NO_GUARDS, false)
  {}

  lemma NodeIsThere(t: Tables, before: Rules, rules: Rules, spaceRule: Expr)
    requires before == map[SPACE := spaceRule] && !Reserved(t, "node")
    requires AtOnceNamed(t, ShortInteger(), Dash("") + "node", before, rules)
    ensures "node" in rules && IntegerBuilt(ShortInteger(), rules["node"])
  {
    ShortIsInteger(t);
    assert Dash("") + "node" == "node";
    assert RuleName(t, "node") == "node" && Escape("node") == "node";
    hide IntegerSchema, IntegerBuilt, ValidName, Escape, RuleName;
  }

  lemma NodeStays(before: Rules, rules: Rules, value: string)
    requires Extends(rules, before) && "node" in before && TakenName(RefTo(NODE), before, rules, value)
    ensures "node" in rules && rules["node"] == before["node"] && value in rules && rules[value] == Ref("node")
  {
    NodeComponent();
    hide LastComponent;
  }

  lemma NoErrors(t: Tables, e1: nat, e2: nat)
    requires t.refs == map[NODE := LongString()]
    requires ErrorsAs(t, Convertible(t, ShortInteger()), 0, e1) && ErrorsAs(t, Convertible(t, RefTo(NODE)), e1, e2)
    ensures e2 == 0
  {
    ShortIsInteger(t);
    assert t == OneRef(t, NODE, LongString());
    assert Convertible(t, RefTo(NODE));
    hide Convertible;
  }

  lemma PropertyStart(p: Progress, q: Property)
    requires p.trail == [] && p.resolving == {} && !p.good && p.guarded == NO_GUARDS && p.scope == {}
    ensures Covered(p, Mentions(q.schema)) && SafeHelpers(p.guarded, q.name, "")
    ensures SafeAll(p.t, p.guarded, p.scope, q.schema, Dash("") + q.name, Top(p))
  {
    NothingGuarded(p.t, q.schema, Dash("") + q.name, Top(p));
    hide SafeAll, Mentions;
  }

  lemma ShortIsInteger(t: Tables)
    ensures IntegerSchema(ShortInteger()) && Convertible(t, ShortInteger()) && ValidName("node") && TargetsConvertible(OneRef(t, NODE, LongString()))
  {
    assert IntRange.Bounded(0, 9, 16, true).Some?;
    assert Convertible(OneRef(t, NODE, LongString()), LongString());
  }

  /** The integer's rule is not one for such a string. */
  lemma IntegerIsNoString(rules: Rules, t: Tables, e: Expr)
    requires IntegerBuilt(ShortInteger(), e)
    ensures !BodyBuilt(rules, t, LongString(), e)
  {
    assert e.Seq? && e.first.Group?;
    hide IntRange.Bounded;
  }

  /** A list whose nodes are called "my_node": rules refer to `my_node`, and there is none. */
  method MyNodeDangles(t: Tables, spaceRule: Expr) returns (grammar: Rules, errors: nat)
    requires RefsOf(spaceRule) == {} && TablesOk(OneRef(t, MY_NODE, ListNode(MY_NODE)))
    ensures errors == 0 && "my_node" !in grammar && Refers(grammar, "my_node") && !ClosedTable(grammar)
  {
    hide TablesOk, Refers, ClosedTable, CircularAre, SelfReferring, NamedApart, RefsBuilt, Built, ObjectsOk,
      Convertible;
    var tables := OneRef(t, MY_NODE, ListNode(MY_NODE));
    NodeComponent();
    assert !NameChar("my_node"[2]);
    ListMentions(tables, MY_NODE);
    var root; ghost var finished, circular, objects;
    root, grammar, errors, finished, circular, objects := Convert(RefTo(MY_NODE), tables, spaceRule, {}, {});
    InvalidNameDangles(grammar, tables, Mentions(RefTo(MY_NODE)), circular, MY_NODE);
  }

  lemma ListMentions(t: Tables, ref: string)
    requires t.refs == map[ref := ListNode(ref)]
    ensures Mentions(RefTo(ref)) == {ref} && MentionsOf(t, ref) == {ref}
    ensures Convertible(t, RefTo(ref)) && TargetsConvertible(t)
  {
    var s := ListNode(ref);
    var ps := PropertyList(s);
    assert ps == [Property("next", RefTo(ref))] && ps[..0] == [];
    assert MentionsIn(ps, Size(s)) == MentionsIn(ps[..0], Size(s)) + Mentions(RefTo(ref));
    assert ConvertibleIn(t, ps, Size(s));
  }

  /** The same list with nodes called "object", like a built-in rule: the node's own rule is
      called `object-`, the references say `object`, and there is no such rule. */
  method ObjectDangles(t: Tables, spaceRule: Expr) returns (rules: Rules, errors: nat)
    requires RefsOf(spaceRule) == {} && TablesOk(OneRef(t, OBJECT, ListNode(OBJECT)))
    requires !Reserved(t, "object-next") && !Reserved(t, "object-")
    ensures errors == 0 && "object" !in rules && Refers(rules, "object")
  {
    hide TablesOk, Sound, Built, Fine, Refers, AllHandled;
    var tables := OneRef(t, OBJECT, ListNode(OBJECT));
    NodeComponent();
    ListMentions(tables, OBJECT);
    hide Convertible, Mentions;
    ObjectWatched(tables);
    ghost var none: set<string> := {};
    var c := new Converter(tables, spaceRule, none, Only("object"), false);
    ghost var m0 := c.Here();
    RootApt(c.Now());
    var root := c.Visit(RefTo(OBJECT), "", None);
    AfterFacts(c.Here(), m0);
    rules, errors := c.rules, c.errors;
    WatchedStaysOut(rules, c.Now());
  }

  /** A name ending in a letter is given only to a rule requested under just that name. */
  lemma LetterApart(p: string, n: string)
    requires p != "" && !IsDigit(p[|p| - 1])
    ensures SafeFor(Only(p), n, Some(p)) && (Escape(n) != p ==> SafeFor(Only(p), n, None))
  {
    forall i: nat ensures p != Escape(n) + Numeral(i) {
      var w := Escape(n) + Numeral(i);
      assert w[|w| - 1] == Numeral(i)[|Numeral(i)| - 1];
      assert IsDigit(w[|w| - 1]);
    }
    hide Escape;
  }

  lemma LongerApart(p: string, a: string, b: string)
    requires ValidName(a) && ValidName(b) && |a| >= |p| && b != "" && p != "" && !IsDigit(p[|p| - 1])
    ensures ValidName(a + b) && SafeFor(Only(p), a + b, None)
  {
    assert |Escape(a + b)| > |p|;
    LetterApart(p, a + b);
    hide SafeFor;
  }

  /** The names generated for a list whose nodes are called `p`. */
  lemma ListNames(p: string)
    requires ValidName(p) && p != "" && !IsDigit(p[|p| - 1])
    ensures SafeFor(Only(p), p + "-", None) && SafeFor(Only(p), p + "-next", None) && SafeHelpers(Only(p), "next", p)
  {
    hide SafeFor, Escape;
    LongerApart(p, p, "-");
    LongerApart(p, p + "-", "next");
    assert p + "-" + "next" == p + "-next";
    LongerApart(p, p + "-next", "-kv");
    LongerApart(p, p + "-next", "-rest");
    assert Dash(p) + "next" + "-kv" == p + "-next" + "-kv" && Dash(p) + "next" + "-rest" == p + "-next" + "-rest";
  }

  lemma NextSafe(t: Tables, p: string, scope: set<string>, ref: string)
    requires SafeFor(Only(p), p + "-next", None) && !Reserved(t, p + "-next")
    ensures SafeAll(t, Only(p), scope, RefTo(ref), p + "-next", false)
  {
    hide SafeFor, Reserved;
    assert !Direct(t, RefTo(ref));
    if ref in scope && Direct(t, Target(t, ref)) {
      WeakerExcept(Only(p), RuleName(t, p + "-next"), Some(LastComponent(ref)));
    }
    hide Direct;
  }

  lemma WeakerExcept(g: Guards, n: string, except: Option<string>)
    requires SafeFor(g, n, None)
    ensures SafeFor(g, n, except)
  {}

  lemma ListSafe(t: Tables, p: string, scope: set<string>, ref: string)
    requires p != "" && SafeHelpers(Only(p), "next", p) && SafeAll(t, Only(p), scope, RefTo(ref), p + "-next", false)
    ensures SafeIn(t, Only(p), scope, ListNode(ref), p, false)
  {
    hide SafeHelpers, SafeAll;
    var s := ListNode(ref);
    assert Dash(p) + "next" == p + "-next";
    assert SafeProperties(t, Only(p), scope, PropertyList(s), p, false, Size(s));
    assert SafeExtra(t, Only(p), scope, s.additional, p, false, Size(s));
  }

  lemma RootSafe(t: Tables, p: string)
    requires p != "" && p != "root" && p != "-" && !IsDigit(p[|p| - 1])
    ensures SafeFor(Only(p), RuleName(t, ""), None)
  {
    assert ValidName("root") && ValidName("-") && "" + "-" == "-";
    LetterApart(p, "root");
    LetterApart(p, "-");
    hide SafeFor, Escape;
  }

  /** Lists whose nodes are called `node` can be told apart from all names generated for them. */
  lemma NodeListApart(t: Tables)
    requires t.refs == map[NODE := ListNode(NODE)] && !Reserved(t, "node") && !Reserved(t, "node-next")
    ensures NamedApart(t, RefTo(NODE), {NODE})
  {
    NodeComponent();
    ListMentions(t, NODE);
    NodeNames(t);
    NodeInside(t);
    hide SafeFor, SafeIn, SafeAll, LastComponent, Mentions, Reserved, ListNode;
    OneComponent();
    NodeScope(t);
    StartSafe(t);
  }

  lemma NodeNames(t: Tables)
    ensures ValidName("node") && SafeFor(Only("node"), "node-next", None) && SafeHelpers(Only("node"), "next", "node")
    ensures SafeFor(Only("node"), "node", Some("node")) && SafeFor(Only("node"), RuleName(t, ""), None)
  {
    assert ValidName("node") && "node" + "-next" == "node-next";
    ListNames("node");
    LetterApart("node", "node");
    RootSafe(t, "node");
  }

  lemma NodeInside(t: Tables)
    requires SafeFor(Only("node"), "node-next", None) && SafeHelpers(Only("node"), "next", "node") && !Reserved(t, "node-next")
    ensures SafeIn(t, Only("node"), {NODE}, ListNode(NODE), "node", false)
  {
    hide *;
    assert "node" + "-next" == "node-next";
    NextSafe(t, "node", {NODE}, NODE);
    ListSafe(t, "node", {NODE}, NODE);
  }

  lemma OneComponent()
    requires LastComponent(NODE) == "node"
    ensures Components({NODE}) == {"node"}
  {
    hide LastComponent;
  }

  lemma NodeScope(t: Tables)
    requires t.refs == map[NODE := ListNode(NODE)] && LastComponent(NODE) == "node" && Components({NODE}) == {"node"}
    requires MentionsOf(t, NODE) == {NODE} && ValidName("node") && !Reserved(t, "node")
    requires SafeFor(Only("node"), "node", Some("node")) && SafeIn(t, Only("node"), {NODE}, ListNode(NODE), "node", false)
    ensures ScopeOk(t, {NODE}, Only("node"))
  {
    hide SafeFor, SafeIn, LastComponent, Mentions, Reserved, ListNode, ValidName, Components;
    assert SPACE != "node";
    assert RefOk(t, {NODE}, Only("node"), NODE);
  }

  lemma StartSafe(t: Tables)
    requires SafeFor(Only("node"), RuleName(t, ""), None) && LastComponent(NODE) == "node"
    ensures SafeAll(t, Only("node"), {NODE}, RefTo(NODE), "", true)
  {
    WeakerExcept(Only("node"), RuleName(t, ""), Some("node"));
    hide SafeFor, Reserved, LastComponent;
    assert !Direct(t, RefTo(NODE));
  }

  lemma ObjectWatched(t: Tables)
    requires t.refs == map[OBJECT := ListNode(OBJECT)] && TablesOk(t) && MentionsOf(t, OBJECT) == {OBJECT}
    requires !Reserved(t, "object-next") && !Reserved(t, "object-")
    ensures GuardsOk(t, {}, Only("object"), false) && Reserved(t, "object")
  {
    NodeComponent();
    ObjectReserved(t);
    assert ValidName("object") && "object" + "-next" == "object-next" && "object" + "-" == "object-";
    ListNames("object");
    hide *;
    NextSafe(t, "object", {}, OBJECT);
    ListSafe(t, "object", {}, OBJECT);
    WatchedTarget(t);
  }

  lemma ObjectReserved(t: Tables)
    requires TablesOk(t)
    ensures Reserved(t, "object")
  {}

  lemma WatchedTarget(t: Tables)
    requires t.refs == map[OBJECT := ListNode(OBJECT)] && MentionsOf(t, OBJECT) == {OBJECT} && LastComponent(OBJECT) == "object"
    requires SafeIn(t, Only("object"), {}, ListNode(OBJECT), "object", false)
    requires SafeFor(Only("object"), "object-", None) && Reserved(t, "object")
    ensures GuardsOk(t, {}, Only("object"), false)
  {
    hide SafeIn, SafeFor, Mentions, LastComponent, Reserved, ListNode;
    assert "object" + "-" == "object-";
    assert RuleName(t, "object") == "object-";
    assert Except(t, Some(OBJECT)) == None;
    assert TargetSafe(t, Only("object"), OBJECT);
  }

  lemma RootApt(p: Progress)
    requires !p.good && p.guarded == Only("object") && p.scope == {} && p.trail == [] && OBJECT in p.t.refs
    requires Mentions(RefTo(OBJECT)) == {OBJECT}
    ensures Apt(p, RefTo(OBJECT), "", None)
  {
    RootSafe(p.t, "object");
    hide SafeFor, Mentions, Reserved;
    assert !Direct(p.t, RefTo(OBJECT));
  }

  lemma WatchedStaysOut(rules: Rules, p: Progress)
    requires Sound(rules, p, None) && p.errors == 0 && p.guarded == Only("object") && p.scope == {} && Reserved(p.t, "object")
    requires AllHandled(rules, p, {OBJECT}) && OBJECT in MentionsOf(p.t, OBJECT)
    ensures "object" !in rules && Refers(rules, "object")
  {
    NodeComponent();
    hide GuardsOk, LastComponent, Refers, LeadsBack, DirectAt, MentionsOf, Known, ValidNames, TrailOk, FinishedOk;
    assert "object" in p.guarded.refs;
    assert Handled(rules, p, OBJECT);
  }

  // ----- built-in names that go wrong -----

  /** Where built-in names end in letters or dashes, a rule asked for under some name keeps clear
      of them if and only if that name, with dashes for other characters, is none of them. */
  lemma ApartIff(t: Tables, kept: set<string>, n: string)
    requires TablesOk(t) && kept <= BuiltinNames(t) && forall b :: b in kept ==> b != "" && !IsDigit(b[|b| - 1])
    ensures BuiltinsSafe(t, Guards({}, kept))
    ensures SafeFor(Guards({}, kept), n, None) <==> Escape(n) !in kept
  {
    hide EntryOk;
    forall p, m | p in kept ensures Apart(p, m, None) <==> p != Escape(m) {
      NoNumeral(p, m);
    }
    forall b | b in BuiltinNames(t) ensures SafeBuiltin(Guards({}, kept), b) {
      assert Escape(b) == b;
      forall p | p in kept ensures Apart(p, b, Some(b)) {
        NoNumeral(p, b);
      }
    }
    hide Apart;
  }

  lemma NoNumeral(p: string, n: string)
    requires p != "" && !IsDigit(p[|p| - 1])
    ensures Apart(p, n, None) <==> p != Escape(n)
    ensures p == Escape(n) ==> Apart(p, n, Some(p))
  {
    forall i: nat ensures p != Escape(n) + Numeral(i) {
      var w := Escape(n) + Numeral(i);
      assert w[|w| - 1] == Numeral(i)[|Numeral(i)| - 1];
      assert IsDigit(w[|w| - 1]);
    }
    hide Escape;
  }

  /** Plain built-in types, constants and bounded integers, UUIDs left aside. */
  predicate Flat(t: Tables, s: Schema) {
    (Direct(t, s) && !IsUuid(s.format)) || AtOnce(s)
  }

  /** The names asked for on behalf of a flat property turn into none of the built-in ones. */
  predicate ClearProperty(t: Tables, p: Property) {
    && Escape(p.name + "-kv") !in BuiltinNames(t) && Escape(p.name + "-rest") !in BuiltinNames(t)
    && (AtOnce(p.schema) ==> Escape(RuleName(t, p.name)) !in BuiltinNames(t))
  }

  predicate AllFlat(t: Tables, ps: seq<Property>) {
    forall i :: 0 <= i < |ps| ==> Flat(t, ps[i].schema)
  }

  predicate AllClear(t: Tables, ps: seq<Property>) {
    forall i :: 0 <= i < |ps| ==> ClearProperty(t, ps[i])
  }

  ghost predicate AllSafe(t: Tables, g: Guards, ps: seq<Property>) {
    forall i :: 0 <= i < |ps| ==> SafeHelpers(g, ps[i].name, "") && SafeAll(t, g, {}, ps[i].schema, Dash("") + ps[i].name, true)
  }

  /** Built-in names do not end in digits. */
  predicate NoneNumbered(t: Tables) {
    forall b :: b in BuiltinNames(t) ==> b != "" && !IsDigit(b[|b| - 1])
  }

  /** What the condition comes to for an object of such properties. */
  lemma FlatApartIff(t: Tables, s: Schema)
    requires TablesOk(t) && NoneNumbered(t) && IsObjectSchema(s) && !AllowsExtra(s.additional) && AllFlat(t, PropertyList(s))
    ensures BuiltinsApart(t, s, {}) <==> "root" !in BuiltinNames(t) && AllClear(t, PropertyList(s))
  {
    hide TablesOk, NoneNumbered, RuleName, AllFlat, AllClear, AllSafe, Mentions, SafeFor, Escape, BuiltinsApart,
      PropertyList, Size, IsObjectSchema, BuiltinsSafe;
    var ps := PropertyList(s);
    EmptyIsFree(t);
    ApartFrom(t, "root");
    EscapeRoot();
    NoMentions(t, ps, Size(s));
    ObjectApart(t, Guards({}, BuiltinNames(t)), s);
    if "root" !in BuiltinNames(t) { ClearIsSafe(t, ps); }
  }

  lemma ApartFrom(t: Tables, n: string)
    requires TablesOk(t) && NoneNumbered(t)
    ensures BuiltinsSafe(t, Guards({}, BuiltinNames(t)))
    ensures SafeFor(Guards({}, BuiltinNames(t)), n, None) <==> Escape(n) !in BuiltinNames(t)
  {
    ApartIff(t, BuiltinNames(t), n);
    hide *;
  }

  lemma ClearIsSafe(t: Tables, ps: seq<Property>)
    requires TablesOk(t) && NoneNumbered(t) && AllFlat(t, ps) && "root" !in BuiltinNames(t)
    ensures AllClear(t, ps) <==> AllSafe(t, Guards({}, BuiltinNames(t)), ps)
  {
    hide TablesOk, NoneNumbered, Flat, ClearProperty, SafeAll, SafeHelpers;
    forall i | 0 <= i < |ps|
      ensures
        var g := Guards({}, BuiltinNames(t));
        ClearProperty(t, ps[i]) <==> SafeHelpers(g, ps[i].name, "") && SafeAll(t, g, {}, ps[i].schema, Dash("") + ps[i].name, true)
    {
      FlatProperty(t, ps[i]);
    }
  }

  lemma EscapeRoot()
    ensures Escape("root") == "root"
  {
    assert ValidName("root");
  }

  lemma FlatMentions(t: Tables, s: Schema)
    requires Flat(t, s)
    ensures Mentions(s) == {}
  {}

  lemma {:induction false} NoMentions(t: Tables, ps: seq<Property>, bound: nat)
    requires Smaller(ps, bound) && AllFlat(t, ps)
    ensures MentionsIn(ps, bound) == {}
    decreases |ps|
  {
    hide Mentions, Flat;
    if ps != [] {
      NoMentions(t, ps[..|ps| - 1], bound);
      FlatMentions(t, ps[|ps| - 1].schema);
    }
  }

  lemma FlatProperty(t: Tables, p: Property)
    requires TablesOk(t) && NoneNumbered(t) && Flat(t, p.schema) && "root" !in BuiltinNames(t)
    ensures
      var g := Guards({}, BuiltinNames(t));
      ClearProperty(t, p) <==> SafeHelpers(g, p.name, "") && SafeAll(t, g, {}, p.schema, Dash("") + p.name, true)
  {
    hide TablesOk, NoneNumbered, SafeFor, BuiltinsSafe, Escape, RuleName, Flat, AtOnce, SafeAll;
    EscapeRoot();
    assert Dash("") + p.name == p.name;
    assert Dash("") + p.name + "-kv" == p.name + "-kv" && Dash("") + p.name + "-rest" == p.name + "-rest";
    ApartFrom(t, "root");
    ApartFrom(t, RuleName(t, p.name));
    ApartFrom(t, p.name + "-kv");
    ApartFrom(t, p.name + "-rest");
    FlatSafe(t, Guards({}, BuiltinNames(t)), p.schema, p.name);
  }

  lemma FlatSafe(t: Tables, g: Guards, s: Schema, name: string)
    requires Flat(t, s) && BuiltinsSafe(t, g) && SafeFor(g, "root", None)
    ensures SafeAll(t, g, {}, s, name, true) <==> (AtOnce(s) ==> SafeFor(g, RuleName(t, name), None))
  {
    hide BuiltinsSafe, SafeFor, RuleName;
    if AtOnce(s) && !ConstantSchema(s) { assert !ObjectKind(s) && !ArrayKind(s); }
    hide ObjectKind, ArrayKind, WritableBounds;
  }

  lemma ObjectApart(t: Tables, g: Guards, s: Schema)
    requires g == Guards({}, BuiltinNames(t)) && IsObjectSchema(s) && !AllowsExtra(s.additional)
    requires MentionsIn(PropertyList(s), Size(s)) == {} && RuleName(t, "") == "root"
    ensures BuiltinsApart(t, s, {}) <==> SafeFor(g, "root", None) && AllSafe(t, g, PropertyList(s))
  {
    assert s.additional.Described? ==> AllowsExtra(s.additional);
    hide SafeHelpers, SafeFor, RuleName, MentionsIn, PropertyList, Size;
    assert Components({}) == {};
    assert !Direct(t, s);
    assert Mentions(s) == {};
    assert SafeExtra(t, g, {}, s.additional, "", true, Size(s));
    hide Direct, ObjectKind, SafeExtra, Mentions;
    assert SafeIn(t, g, {}, s, "", true) <==> SafeProperties(t, g, {}, PropertyList(s), "", true, Size(s));
    assert SafeAll(t, g, {}, s, "", true) <==> SafeFor(g, "root", None) && SafeIn(t, g, {}, s, "", true);
    hide SafeIn;
  }

  /** Whenever the first property of an object is a constant or a bounded integer and its name
      turns into that of a built-in rule, that rule is lost, whatever else the schema holds. */
  method FirstPropertyTakes(schema: Schema, t: Tables, spaceRule: Expr, ghost builtin: string) returns (grammar: Rules)
    requires RefsOf(spaceRule) == {} && TablesOk(t) && IsObjectSchema(schema) && PropertyList(schema) != []
    requires AtOnce(PropertyList(schema)[0].schema) && builtin == Escape(RuleName(t, PropertyList(schema)[0].name))
    requires builtin in BuiltinNames(t) && !AtOnceBuilt(PropertyList(schema)[0].schema, BuiltinOf(t, builtin).content)
    ensures builtin in grammar && AtOnceBuilt(PropertyList(schema)[0].schema, grammar[builtin])
    ensures !KeptOk(grammar, t, BuiltinNames(t))
  {
    hide TablesOk, AtOnce, AtOnceBuilt, Escape, RuleName, KeptApart, ErrorsAs, ClosedTable, CircularAre, SelfReferring,
      ObjectsOk, SpecFor, Built, RefsBuilt, ValidNames;
    NoBlanks(t, builtin);
    var root, errors; ghost var finished, circular, objects;
    root, grammar, errors, finished, circular, objects := Convert(schema, t, spaceRule, {}, {});
    assert Dash("") + PropertyList(schema)[0].name == PropertyList(schema)[0].name;
  }

  lemma NoBlanks(t: Tables, n: string)
    requires TablesOk(t) && n in BuiltinNames(t)
    ensures n != SPACE
  {}

  // The rules for numbers, as the program writes them.

  const BLANKS := Alt(Lit(""), Alt(Lit(" "), Seq(Repeat(Lit("\n"), 1, AtMost(2)), Repeat(AnyOf(" \t"), 0, AtMost(20)))))
  const INTEGRAL := Alt(AnyOf("0"), Seq(Class('1', '9'), Repeat(Class('0', '9'), 0, AtMost(15))))
  const DECIMAL := Repeat(Class('0', '9'), 1, AtMost(16))
  const SIGNED := Group(Seq(Repeat(Lit("-"), 0, AtMost(1)), Ref("integral-part")))
  const FRACTION := Repeat(Group(Seq(Lit("."), Ref("decimal-part"))), 0, AtMost(1))
  const EXPONENT := Repeat(Group(Seq(AnyOf("eE"), Seq(Repeat(AnyOf("-+"), 0, AtMost(1)), Ref("integral-part")))), 0, AtMost(1))
  const NUMBER := Seq(SIGNED, Seq(FRACTION, Seq(EXPONENT, Space())))

  predicate NumberTable(t: Tables) {
    && {"number", "integral-part", "decimal-part"} <= t.primitives.Keys
    && t.primitives["number"].content == NUMBER
    && t.primitives["integral-part"].content == INTEGRAL && t.primitives["decimal-part"].content == DECIMAL
  }

  function AnyNumber(): (s: Schema) {
    NULL_SCHEMA.(typ := TypeName("number"))
  }

  function OnlyNull(): (s: Schema) {
    NULL_SCHEMA.(constant := Some("null"))
  }

  /** The properties `decimal_part`, which is null, and `x`, a number. */
  function DecimalFirst(): (s: Schema) {
    NULL_SCHEMA.(properties := Properties([Property("decimal_part", OnlyNull()), Property("x", AnyNumber())]))
  }

  lemma {:induction false} EscapeUnderscore(a: string, b: string)
    requires ValidName(a) && ValidName(b)
    ensures Escape(a + ("_" + b)) == a + ("-" + b)
    decreases |a|
  {
    var s := a + ("_" + b);
    if a == "" {
      assert s == "_" + b && s[1..] == b;
      AfterRun(b);
    } else {
      assert s[1..] == a[1..] + ("_" + b) && s[0] == a[0];
      EscapeUnderscore(a[1..], b);
    }
  }

  lemma AfterRun(b: string)
    requires ValidName(b)
    ensures Escape(b, true) == b
  {
    if b != "" {
      assert Escape(b, true) == [b[0]] + Escape(b[1..], false);
      assert Escape(b[1..]) == b[1..];
    }
  }

  lemma EscapeFirst(n: string)
    requires n != "" && NameChar(n[0])
    ensures Escape(n) != "" && Escape(n)[0] == n[0]
  {}

  const INTEGRAL_PART: Guards := Guards({}, {"integral-part"})

  lemma ClearOfIntegral(t: Tables, n: string)
    requires TablesOk(t) && NumberTable(t) && n != "" && 'a' <= n[0] <= 'z' && n[0] != 'i'
    ensures BuiltinsSafe(t, INTEGRAL_PART) && SafeFor(INTEGRAL_PART, n, None)
  {
    hide TablesOk, NumberTable, SafeFor, BuiltinsSafe, Escape, IsDigit;
    InTable(t);
    EscapeLetter(n);
    EndsInLetter();
    ApartIff(t, {"integral-part"}, n);
  }

  lemma InTable(t: Tables)
    requires NumberTable(t)
    ensures "integral-part" in BuiltinNames(t) && "decimal-part" in BuiltinNames(t) && "number" in t.primitives
  {}

  lemma EscapeLetter(n: string)
    requires n != "" && 'a' <= n[0] <= 'z'
    ensures Escape(n) != "" && Escape(n)[0] == n[0]
  {
    EscapeFirst(n);
    hide Escape;
  }

  lemma EndsInLetter()
    ensures forall b :: b in {"integral-part"} ==> b != "" && !IsDigit(b[|b| - 1])
  {}

  lemma NullClear(t: Tables)
    requires TablesOk(t) && NumberTable(t) && !Reserved(t, "decimal_part")
    ensures SafeHelpers(INTEGRAL_PART, "decimal_part", "") && SafeAll(t, INTEGRAL_PART, {}, OnlyNull(), "decimal_part", true)
  {
    hide SafeFor, TablesOk, NumberTable, BuiltinsSafe, Reserved, Direct, ObjectKind, ArrayKind;
    ClearOfIntegral(t, "decimal_part");
    HelpersClear(t, "decimal_part");
    OnlyDirect(t);
    assert RuleName(t, "decimal_part") == "decimal_part";
  }

  lemma HelpersClear(t: Tables, n: string)
    requires TablesOk(t) && NumberTable(t) && n != "" && 'a' <= n[0] <= 'z' && n[0] != 'i'
    ensures SafeHelpers(INTEGRAL_PART, n, "")
  {
    hide SafeFor, TablesOk, NumberTable, BuiltinsSafe;
    ClearOfIntegral(t, n + "-kv");
    ClearOfIntegral(t, n + "-rest");
    assert Dash("") + n + "-kv" == n + "-kv" && Dash("") + n + "-rest" == n + "-rest";
  }

  lemma NumberClear(t: Tables)
    requires TablesOk(t) && NumberTable(t) && !Reserved(t, "x")
    ensures SafeHelpers(INTEGRAL_PART, "x", "") && SafeAll(t, INTEGRAL_PART, {}, AnyNumber(), "x", true)
  {
    hide SafeFor, TablesOk, NumberTable, BuiltinsSafe, Reserved, Direct, ObjectKind, ArrayKind;
    ClearOfIntegral(t, "x");
    HelpersClear(t, "x");
    InTable(t);
    NumberDirect(t);
    assert RuleName(t, "x") == "x";
  }

  lemma NumberDirect(t: Tables)
    requires TablesOk(t) && "number" in t.primitives
    ensures !ObjectKind(AnyNumber()) && !ArrayKind(AnyNumber()) && !Texty(AnyNumber()) && Direct(t, AnyNumber())
  {
    hide EntryOk;
  }

  /** `integral-part` is none of the names generated for this schema. */
  lemma IntegralApart(t: Tables)
    requires TablesOk(t) && NumberTable(t) && !Reserved(t, "x") && !Reserved(t, "decimal_part")
    ensures KeptApart(t, DecimalFirst(), {}, {"integral-part"})
  {
    hide *;
    var s := DecimalFirst();
    EmptyIsFree(t);
    ClearOfIntegral(t, "root");
    NullClear(t);
    NumberClear(t);
    DecimalMentions();
    OnlyDirect(t);
    PropertiesClear(t, s);
    BothClear(t, s);
    NoneApart(t, s);
  }

  lemma PropertiesClear(t: Tables, s: Schema)
    requires s == DecimalFirst()
    requires SafeHelpers(INTEGRAL_PART, "decimal_part", "") && SafeAll(t, INTEGRAL_PART, {}, OnlyNull(), "decimal_part", true)
    requires SafeHelpers(INTEGRAL_PART, "x", "") && SafeAll(t, INTEGRAL_PART, {}, AnyNumber(), "x", true)
    ensures SafeProperties(t, INTEGRAL_PART, {}, PropertyList(s), "", true, Size(s))
  {
    hide SafeHelpers, SafeAll, OnlyNull, AnyNumber, Size;
    assert Dash("") + "decimal_part" == "decimal_part" && Dash("") + "x" == "x";
  }

  lemma NoneApart(t: Tables, s: Schema)
    requires Mentions(s) == {} && SafeAll(t, INTEGRAL_PART, {}, s, "", true)
    ensures KeptApart(t, s, {}, {"integral-part"})
  {
    hide SafeAll, Mentions, RefOk;
    assert Components({}) == {};
  }

  lemma EmptyIsFree(t: Tables)
    requires TablesOk(t)
    ensures RuleName(t, "") == "root"
  {
    hide EntryOk;
  }

  lemma BothClear(t: Tables, s: Schema)
    requires s == DecimalFirst() && SafeFor(INTEGRAL_PART, "root", None) && RuleName(t, "") == "root" && !Direct(t, s)
    requires SafeProperties(t, INTEGRAL_PART, {}, PropertyList(s), "", true, Size(s))
    ensures SafeAll(t, INTEGRAL_PART, {}, s, "", true)
  {
    hide SafeFor, SafeProperties, Direct, RuleName;
    assert SafeExtra(t, INTEGRAL_PART, {}, s.additional, "", true, Size(s));
  }

  lemma OnlyDirect(t: Tables)
    ensures !Direct(t, OnlyNull()) && !Direct(t, DecimalFirst())
  {}

  lemma DecimalMentions()
    ensures Mentions(DecimalFirst()) == {}
  {
    var s := DecimalFirst();
    var ps := PropertyList(s);
    assert ps[..1] == [Property("decimal_part", OnlyNull())] && ps[..1][..0] == [];
    assert MentionsIn(ps, Size(s)) == MentionsIn(ps[..1], Size(s)) + Mentions(AnyNumber());
    assert MentionsIn(ps[..1], Size(s)) == MentionsIn(ps[..1][..0], Size(s)) + Mentions(OnlyNull());
  }

  lemma DecimalConverts(t: Tables)
    requires NumberTable(t)
    ensures Convertible(t, DecimalFirst()) && IsObjectSchema(DecimalFirst()) && AtOnce(OnlyNull())
  {
    assert Convertible(t, OnlyNull()) && Convertible(t, AnyNumber());
    assert ConvertibleIn(t, PropertyList(DecimalFirst()), Size(DecimalFirst()));
  }

  /** The value rule that the conversion writes for the property `x`. */
  ghost predicate ValueOfX(grammar: Rules, value: string) {
    value in grammar && grammar[value] == NUMBER && exists rule :: rule in grammar && grammar[rule] == KvBody("x", value)
  }

  /** Without any error the rule of the property `decimal_part`, null, takes the name of a built-in
      rule, and the rule for numbers refers to it: what is derived for `x` may be `1.null`, which
      the built-in rules do not take for a number. */
  method DecimalPartTaken(t: Tables) returns (grammar: Rules, errors: nat, ghost value: string)
    requires TablesOk(t) && NumberTable(t) && t.refs == map[] && !Reserved(t, "x")
    ensures errors == 0 && "decimal-part" in grammar && grammar["decimal-part"] == ConstantBody("null")
    ensures ValueOfX(grammar, value) && Derives(grammar, grammar[value], "1.null")
    ensures forall refs :: !Means(BuiltinReading(t, BLANKS), refs, t, AnyNumber(), "1.null")
  {
    hide *;
    var schema := DecimalFirst();
    UnderscoreIsFree(t);
    IntegralApart(t);
    DecimalConverts(t);
    NoTargets(t);
    var root; ghost var finished, circular, objects;
    InTable(t);
    OneName(t);
    BlanksAlone();
    root, grammar, errors, finished, circular, objects := Convert(schema, t, BLANKS, {}, {"integral-part"});
    NoErrorsAre(t, schema, errors);
    DecimalIsNull(t, grammar);
    value := NumberRule(t, grammar, root);
    NumberDerived(t, grammar, value);
    forall refs ensures !Means(BuiltinReading(t, BLANKS), refs, t, AnyNumber(), "1.null") {
      NoNumber(t, refs);
    }
  }

  lemma UnderscoreIsFree(t: Tables)
    requires TablesOk(t)
    ensures !Reserved(t, "decimal_part")
  {
    hide EntryOk;
    assert !NameChar("decimal_part"[7]);
  }

  lemma NoTargets(t: Tables)
    requires t.refs == map[]
    ensures TargetsConvertible(t)
  {
    hide Convertible;
  }

  lemma OneName(t: Tables)
    requires "integral-part" in BuiltinNames(t)
    ensures {"integral-part"} <= BuiltinNames(t)
  {}

  lemma BlanksAlone()
    ensures RefsOf(BLANKS) == {}
  {}

  lemma NoErrorsAre(t: Tables, schema: Schema, errors: nat)
    requires ErrorsAs(t, Convertible(t, schema), 0, errors) && Convertible(t, schema) && TargetsConvertible(t)
    ensures errors == 0
  {
    hide Convertible, TargetsConvertible;
  }

  lemma DecimalIsNull(t: Tables, grammar: Rules)
    requires IsObjectSchema(DecimalFirst()) ==> FirstNamed(t, PropertyList(DecimalFirst()), "", map[SPACE := BLANKS], grammar)
    requires IsObjectSchema(DecimalFirst()) && AtOnce(OnlyNull()) && !Reserved(t, "decimal_part")
    ensures "decimal-part" in grammar && grammar["decimal-part"] == ConstantBody("null")
  {
    hide AtOnce, ConstantBody, Escape, Reserved, IsObjectSchema, AtOnceNamed, RuleName;
    assert Dash("") + "decimal_part" == "decimal_part";
    assert AtOnceNamed(t, OnlyNull(), "decimal_part", map[SPACE := BLANKS], grammar);
    NullNamed(t, grammar);
  }

  lemma NullNamed(t: Tables, grammar: Rules)
    requires AtOnceNamed(t, OnlyNull(), "decimal_part", map[SPACE := BLANKS], grammar) && AtOnce(OnlyNull()) && !Reserved(t, "decimal_part")
    ensures "decimal-part" in grammar && grammar["decimal-part"] == ConstantBody("null")
  {
    hide AtOnce, ConstantBody, Escape, Reserved;
    assert "decimal_part" == "decimal" + ("_" + "part") && "decimal-part" == "decimal" + ("-" + "part");
    assert ValidName("decimal") && ValidName("part");
    EscapeUnderscore("decimal", "part");
    assert RuleName(t, "decimal_part") == "decimal_part";
    assert SPACE != "decimal-part";
  }

  /** The rules built for the schema hold one for `x`, whose value is the rule for numbers. */
  lemma NumberRule(t: Tables, grammar: Rules, root: string) returns (value: string)
    requires Built(grammar, t, DecimalFirst(), root) && TablesOk(t) && NumberTable(t)
    ensures ValueOfX(grammar, value)
  {
    var s := DecimalFirst();
    var ps := PropertyList(s);
    var kv := MembersOf(t, grammar, root);
    assert LastNamed(ps, 1) && ps[1].name == "x";
    hide TablesOk, NumberTable, KvBody, Built, Size;
    var rule := kv["x"];
    assert MemberBuilt(grammar, t, ps[1], rule, Size(s));
    value :| grammar[rule] == KvBody("x", value) && Built(grammar, t, AnyNumber(), value);
    InTable(t);
    NumberDirect(t);
    NumberContent(t, grammar, value);
  }

  lemma MembersOf(t: Tables, grammar: Rules, root: string) returns (kv: map<string, string>)
    requires Built(grammar, t, DecimalFirst(), root)
    ensures Smaller(PropertyList(DecimalFirst()), Size(DecimalFirst()))
    ensures MembersBuilt(grammar, t, PropertyList(DecimalFirst()), kv, false, Size(DecimalFirst()))
  {
    var s := DecimalFirst();
    hide IsObject, MembersBuilt, Size, Smaller;
    kv :| ObjectBuiltWith(grammar, t, PropertyList(s), s.required, s.additional, kv, grammar[root], Size(s));
  }

  lemma NumberContent(t: Tables, grammar: Rules, value: string)
    requires Built(grammar, t, AnyNumber(), value) && NumberTable(t) && Direct(t, AnyNumber())
    ensures value in grammar && grammar[value] == NUMBER
  {
    hide IsAlias, IntegerBuilt;
  }

  // "1.null" can be derived.

  lemma NumberDerived(t: Tables, grammar: Rules, value: string)
    requires TablesOk(t) && NumberTable(t) && ValueOfX(grammar, value) && ClosedTable(grammar) && KeptOk(grammar, t, {"integral-part"})
    requires SPACE in grammar && grammar[SPACE] == BLANKS
    requires "decimal-part" in grammar && grammar["decimal-part"] == ConstantBody("null")
    ensures Derives(grammar, grammar[value], "1.null")
  {
    hide *;
    var env := Derivation(grammar);
    DerivationSolves(grammar);
    NumberRules(t, grammar, value);
    OneIsIntegral(env);
    BlanksMayMiss(env);
    SolvedBy(env, grammar, SPACE, "");
    NullIsConstant(env);
    SolvedBy(env, grammar, "integral-part", "1");
    SolvedBy(env, grammar, "decimal-part", "null");
    NumberAccepts(env);
    DerivesIsAccepted(grammar, NUMBER, "1.null");
  }

  lemma SolvedBy(env: Env, rules: Rules, n: string, w: string)
    requires Solves(env, rules) && n in rules && Accepts(env, rules[n], w)
    ensures env(n, w)
  {
    hide Accepts;
  }

  lemma BlanksMayMiss(env: Env)
    ensures Accepts(env, BLANKS, "")
  {}

  lemma NumberRules(t: Tables, grammar: Rules, value: string)
    requires TablesOk(t) && NumberTable(t) && ValueOfX(grammar, value) && ClosedTable(grammar) && KeptOk(grammar, t, {"integral-part"})
    ensures "integral-part" in grammar && grammar["integral-part"] == INTEGRAL && grammar[value] == NUMBER
  {
    NumberRefs();
    hide RefsOf, EntryOk, KvBody;
    assert RefsOf(grammar[value]) <= grammar.Keys;
  }

  lemma NumberRefs()
    ensures RefsOf(NUMBER) == {"integral-part", "decimal-part", SPACE}
  {}

  lemma OneIsIntegral(env: Env)
    ensures Accepts(env, INTEGRAL, "1")
  {
    SeqOfClass(env, '1', '9', Repeat(Class('0', '9'), 0, AtMost(15)), "1");
    assert "1"[1..] == "";
    NoneRepeated(env, Class('0', '9'), AtMost(15));
  }

  lemma NoneRepeated(env: Env, e: Expr, max: Limit)
    ensures Accepts(env, Repeat(e, 0, max), "")
  {
    var none: seq<string> := [];
    assert Within(|none|, 0, max) && Concat(none) == "";
  }

  lemma OnceRepeated(env: Env, e: Expr, w: string)
    requires Accepts(env, e, w)
    ensures Accepts(env, Repeat(e, 0, AtMost(1)), w)
  {
    hide Accepts;
    Repetition.RepeatIsCopies(env, e, 0, AtMost(1), w);
    assert Repetition.Copies(env, e, 1, w) by {
      var ws := [w];
      assert ws[1..] == [] && Concat(ws) == w;
    }
  }

  lemma NullIsConstant(env: Env)
    requires env(SPACE, "")
    ensures Accepts(env, ConstantBody("null"), "null")
  {
    assert GrammarText.Survives("null");
    SpacedExact(env, "null", "null");
    assert "null"[4..] == "";
  }

  lemma NumberAccepts(env: Env)
    requires env("integral-part", "1") && env("decimal-part", "null") && env(SPACE, "")
    ensures Accepts(env, NUMBER, "1.null")
  {
    hide Accepts;
    assert "" + "1" == "1" && "." + "null" == ".null" && "" + "" == "" && ".null" + "" == ".null" && "1" + ".null" == "1.null";
    RefSame(env, "integral-part", "1");
    RefSame(env, "decimal-part", "null");
    RefSame(env, SPACE, "");
    NoneRepeated(env, Lit("-"), AtMost(1));
    SeqJoin(env, Repeat(Lit("-"), 0, AtMost(1)), Ref("integral-part"), "", "1");
    GroupSame(env, Seq(Repeat(Lit("-"), 0, AtMost(1)), Ref("integral-part")), "1");
    LitSame(env, ".");
    SeqJoin(env, Lit("."), Ref("decimal-part"), ".", "null");
    GroupSame(env, Seq(Lit("."), Ref("decimal-part")), ".null");
    OnceRepeated(env, Group(Seq(Lit("."), Ref("decimal-part"))), ".null");
    NoneRepeated(env, Group(Seq(AnyOf("eE"), Seq(Repeat(AnyOf("-+"), 0, AtMost(1)), Ref("integral-part")))), AtMost(1));
    SeqJoin(env, EXPONENT, Space(), "", "");
    SeqJoin(env, FRACTION, Seq(EXPONENT, Space()), ".null", "");
    SeqJoin(env, SIGNED, Seq(FRACTION, Seq(EXPONENT, Space())), "1", ".null");
  }

  lemma LitSame(env: Env, text: string)
    ensures Accepts(env, Lit(text), text)
  {}

  // The built-in rules never read a letter u in a number.

  /** No literal or class of the expression has the character. */
  predicate Lacks(e: Expr, c: char) {
    match e
    case Lit(text) => c !in text
    case Class(lo, hi) => !(lo <= c <= hi)
    case NoneOf(chars) => c in chars
    case AnyOf(chars) => c !in chars
    case Ref(_) => true
    case Group(body) => Lacks(body, c)
    case Seq(first, second) => Lacks(first, c) && Lacks(second, c)
    case Alt(left, right) => Lacks(left, c) && Lacks(right, c)
    case Repeat(body, _, _) => Lacks(body, c)
  }

  lemma {:induction false} LacksChar(env: Env, e: Expr, c: char, w: string)
    requires Lacks(e, c) && Accepts(env, e, w) && forall n, x :: n in RefsOf(e) && env(n, x) ==> c !in x
    ensures c !in w
    decreases e
  {
    match e
    case Group(body) =>
      LacksChar(env, body, c, w);
    case Alt(left, right) =>
      if Accepts(env, left, w) { LacksChar(env, left, c, w); } else { LacksChar(env, right, c, w); }
    case Seq(first, second) =>
      var i :| 0 <= i <= |w| && Accepts(env, first, w[..i]) && Accepts(env, second, w[i..]);
      LacksChar(env, first, c, w[..i]);
      LacksChar(env, second, c, w[i..]);
      assert w == w[..i] + w[i..];
    case Repeat(body, min, max) =>
      var ws: seq<string> :| Within(|ws|, min, max) && Concat(ws) == w && forall i :: 0 <= i < |ws| ==> Accepts(env, body, ws[i]);
      forall i | 0 <= i < |ws| ensures c !in ws[i] {
        LacksChar(env, body, c, ws[i]);
      }
      ConcatLacks(ws, c);
    case _ =>
  }

  lemma {:induction false} ConcatLacks(ws: seq<string>, c: char)
    requires forall i :: 0 <= i < |ws| ==> c !in ws[i]
    ensures c !in Concat(ws)
    decreases |ws|
  {
    if ws != [] {
      ConcatLacks(ws[1..], c);
    }
  }

  lemma NoNumber(t: Tables, refs: Env)
    requires TablesOk(t) && NumberTable(t)
    ensures !Means(BuiltinReading(t, BLANKS), refs, t, AnyNumber(), "1.null")
  {
    hide *;
    var base := BuiltinReading(t, BLANKS);
    InTable(t);
    NumberDirect(t);
    NumberMeans(t, base, refs);
    BuiltinsLackU(t);
    NullHasU();
    if Accepts(base, NUMBER, "1.null") {
      LacksChar(base, NUMBER, 'u', "1.null");
    }
  }

  lemma NumberMeans(t: Tables, base: Env, refs: Env)
    requires Direct(t, AnyNumber()) && NumberTable(t)
    ensures Means(base, refs, t, AnyNumber(), "1.null") <==> Accepts(base, NUMBER, "1.null")
  {
    hide Means, Accepts, Direct;
    DirectMeans(base, refs, t, AnyNumber(), "1.null");
  }

  lemma NullHasU()
    ensures 'u' in "1.null"
  {
    assert "1.null"[3] == 'u';
  }

  lemma BuiltinsLackU(t: Tables)
    requires TablesOk(t) && NumberTable(t)
    ensures Lacks(NUMBER, 'u')
    ensures forall n, x :: n in RefsOf(NUMBER) && BuiltinReading(t, BLANKS)(n, x) ==> 'u' !in x
  {
    hide *;
    var table, base := BuiltinTable(t, BLANKS), BuiltinReading(t, BLANKS);
    ReadingSolves(t);
    NumberNames(t);
    NumberRefs();
    NumberLacksU();
    PartsLackU();
    forall n, x | n in RefsOf(NUMBER) && base(n, x) ensures 'u' !in x {
      SolvedIs(base, table, n, x);
      LacksChar(base, table[n], 'u', x);
    }
  }

  lemma ReadingSolves(t: Tables)
    ensures Solves(BuiltinReading(t, BLANKS), BuiltinTable(t, BLANKS))
  {
    DerivationSolves(BuiltinTable(t, BLANKS));
  }

  lemma SolvedIs(env: Env, rules: Rules, n: string, w: string)
    requires Solves(env, rules) && n in rules && env(n, w)
    ensures Accepts(env, rules[n], w)
  {
    hide Accepts;
  }

  lemma NumberNames(t: Tables)
    requires TablesOk(t) && NumberTable(t)
    ensures {"integral-part", "decimal-part", SPACE} <= BuiltinTable(t, BLANKS).Keys
    ensures BuiltinTable(t, BLANKS)["integral-part"] == INTEGRAL && BuiltinTable(t, BLANKS)["decimal-part"] == DECIMAL
    ensures BuiltinTable(t, BLANKS)[SPACE] == BLANKS
  {
    hide EntryOk;
    BuiltinAt(t, "integral-part");
    BuiltinAt(t, "decimal-part");
  }

  lemma BuiltinAt(t: Tables, n: string)
    requires TablesOk(t) && n in t.primitives
    ensures n in BuiltinTable(t, BLANKS) && BuiltinTable(t, BLANKS)[n] == t.primitives[n].content
  {
    hide EntryOk;
  }

  lemma NumberLacksU()
    ensures Lacks(NUMBER, 'u')
  {}

  lemma PartsLackU()
    ensures Lacks(INTEGRAL, 'u') && Lacks(DECIMAL, 'u') && Lacks(BLANKS, 'u')
    ensures RefsOf(INTEGRAL) == RefsOf(DECIMAL) == RefsOf(BLANKS) == {}
  {}
}
