/** What `$ref`s come to: which references a schema mentions, when the rules written for them
    keep their names to themselves, and what holds of the references at every moment of a
    conversion. */
module References {
  import opened Common
  import opened Gbnf
  import opened Decimal
  import opened ObjectRule
  import opened Schemas
  import opened BuiltRules

  // ----- the references met while a schema is visited -----

  ghost function Mentions(s: Schema): (refs: set<string>)
    decreases Size(s), 1
  {
    if s.ref.Some? then {s.ref.value}
    else if s.oneOf.Union? || s.anyOf.Union? || s.typ.TypeList? then MentionsAll(UnionOf(s), Size(s))
    else if s.constant.Some? || s.constants.Some? then {}
    else if ObjectKind(s) then
      MentionsIn(PropertyList(s), Size(s)) + (if s.additional.Described? then Mentions(s.additional.schema) else {})
    else if ArrayKind(s) then
      match s.items
      case NoItems => {}
      case Tuple(ss) => MentionsAll(ss, Size(s))
      case Each(item) => Mentions(item)
    else {}
  }

  ghost function MentionsAll(ss: seq<Schema>, bound: nat): (refs: set<string>)
    requires AllSmaller(ss, bound)
    decreases bound, 0, |ss|
  {
    if ss == [] then {} else MentionsAll(ss[..|ss| - 1], bound) + Mentions(ss[|ss| - 1])
  }

  ghost function MentionsIn(ps: seq<Property>, bound: nat): (refs: set<string>)
    requires Smaller(ps, bound)
    decreases bound, 0, |ps|
  {
    if ps == [] then {} else MentionsIn(ps[..|ps| - 1], bound) + Mentions(ps[|ps| - 1].schema)
  }

  lemma MentionsAllStep(ss: seq<Schema>, s: Schema, bound: nat)
    requires Size(s) < bound && AllSmaller(ss, bound)
    ensures AllSmaller(ss + [s], bound) && MentionsAll(ss + [s], bound) == MentionsAll(ss, bound) + Mentions(s)
  {
    assert (ss + [s])[..|ss|] == ss;
  }

  lemma MentionsInStep(ps: seq<Property>, p: Property, bound: nat)
    requires Size(p.schema) < bound && Smaller(ps, bound)
    ensures Smaller(ps + [p], bound) && MentionsIn(ps + [p], bound) == MentionsIn(ps, bound) + Mentions(p.schema)
  {
    assert (ps + [p])[..|ps|] == ps;
  }

  lemma {:induction false} MentionsEach(ss: seq<Schema>, i: nat, bound: nat)
    requires i < |ss| && AllSmaller(ss, bound)
    ensures Mentions(ss[i]) <= MentionsAll(ss, bound)
    decreases |ss|
  {
    if i < |ss| - 1 {
      MentionsEach(ss[..|ss| - 1], i, bound);
    }
  }

  lemma {:induction false} MentionsProperty(ps: seq<Property>, i: nat, bound: nat)
    requires i < |ps| && Smaller(ps, bound)
    ensures Mentions(ps[i].schema) <= MentionsIn(ps, bound)
    decreases |ps|
  {
    if i < |ps| - 1 {
      MentionsProperty(ps[..|ps| - 1], i, bound);
    }
  }

  ghost function MentionsOf(t: Tables, ref: string): (refs: set<string>) {
    Mentions(Target(t, ref))
  }

  /** Each reference is mentioned by the schema of the one before it. */
  ghost predicate Chained(t: Tables, path: seq<string>) {
    forall i :: 0 <= i < |path| - 1 ==> path[i + 1] in MentionsOf(t, path[i])
  }

  /** Following references from `ref` one can come back to it. */
  ghost predicate LeadsBack(t: Tables, ref: string) {
    exists path :: |path| > 1 && path[0] == ref && path[|path| - 1] == ref && Chained(t, path)
  }

  // ----- schemas that are converted without an error -----

  /** Every schema inside `s` is of a kind the converter knows, with integer bounds that it can
      write a grammar for. */
  ghost predicate Convertible(t: Tables, s: Schema)
    decreases Size(s), 1
  {
    if s.ref.Some? then true
    else if s.oneOf.Union? || s.anyOf.Union? || s.typ.TypeList? then ConvertibleAll(t, UnionOf(s), Size(s))
    else if s.constant.Some? || s.constants.Some? then true
    else if ObjectKind(s) then
      ConvertibleIn(t, PropertyList(s), Size(s)) && (s.additional.Described? ==> Convertible(t, s.additional.schema))
    else if ArrayKind(s) then
      match s.items
      case NoItems => true
      case Tuple(ss) => ConvertibleAll(t, ss, Size(s))
      case Each(item) => Convertible(t, item)
    else ConvertibleLeaf(t, s)
  }

  ghost predicate ConvertibleAll(t: Tables, ss: seq<Schema>, bound: nat)
    requires AllSmaller(ss, bound)
    decreases bound, 0
  {
    forall i :: 0 <= i < |ss| ==> Convertible(t, ss[i])
  }

  ghost predicate ConvertibleIn(t: Tables, ps: seq<Property>, bound: nat)
    requires Smaller(ps, bound)
    decreases bound, 0
  {
    forall i :: 0 <= i < |ps| ==> Convertible(t, ps[i].schema)
  }

  predicate ConvertibleLeaf(t: Tables, s: Schema) {
    if Texty(s) && (IsUuid(s.format) || s.format + "-string" in t.formats) then true
    else if s.typ == TypeName("string") && (s.minLength.Some? || s.maxLength.Some?) then true
    else if s.typ == TypeName("integer") && (s.minimum.Some? || s.maximum.Some?) then WritableBounds(s)
    else Empty(s) || s.typ == TypeName("object") || (s.typ.TypeName? && s.typ.name in t.primitives)
  }

  ghost predicate TargetsConvertible(t: Tables) {
    forall r :: r in t.refs ==> Convertible(t, t.refs[r])
  }

  /** A schema that is not convertible leaves an error; one that is leaves none, if what the
      references stand for is convertible too. */
  ghost predicate ErrorsAs(t: Tables, convertible: bool, before: nat, errors: nat) {
    && (convertible && TargetsConvertible(t) ==> errors == before)
    && (!convertible ==> errors > before)
  }

  lemma ErrorsBoth(t: Tables, a: bool, b: bool, e0: nat, e1: nat, e2: nat)
    requires e0 <= e1 <= e2 && ErrorsAs(t, a, e0, e1) && ErrorsAs(t, b, e1, e2)
    ensures ErrorsAs(t, a && b, e0, e2)
  {
    hide TargetsConvertible;
  }

  lemma ConvertibleAllStep(t: Tables, ss: seq<Schema>, s: Schema, bound: nat)
    requires Size(s) < bound && AllSmaller(ss, bound)
    ensures AllSmaller(ss + [s], bound)
    ensures ConvertibleAll(t, ss + [s], bound) <==> ConvertibleAll(t, ss, bound) && Convertible(t, s)
  {
    hide Convertible;
    var all := ss + [s];
    assert forall i :: 0 <= i < |ss| ==> all[i] == ss[i];
    assert all[|ss|] == s;
  }

  lemma ConvertibleInStep(t: Tables, ps: seq<Property>, p: Property, bound: nat)
    requires Size(p.schema) < bound && Smaller(ps, bound)
    ensures Smaller(ps + [p], bound)
    ensures ConvertibleIn(t, ps + [p], bound) <==> ConvertibleIn(t, ps, bound) && Convertible(t, p.schema)
  {
    hide Convertible;
    var all := ps + [p];
    assert forall i :: 0 <= i < |ps| ==> all[i] == ps[i];
    assert all[|ps|] == p;
  }

  lemma NullConvertible(t: Tables)
    ensures Convertible(t, NULL_SCHEMA)
  {}

  // ----- names that stay free -----

  /** No rule requested under the name `n` can be given the name `p`, unless `p` is excepted. */
  ghost predicate Apart(p: string, n: string, except: Option<string>) {
    (p == Escape(n) ==> except == Some(p)) && forall i: nat :: p != Escape(n) + Numeral(i)
  }

  /** Names to keep free: for the rules of references, and for built-in rules. */
  datatype Guards = Guards(refs: set<string>, builtins: set<string>)

  const NO_GUARDS := Guards({}, {})

  /** A rule requested under the name `n` takes none of these names, but for `except`, the name
      of a reference. */
  ghost predicate SafeFor(g: Guards, n: string, except: Option<string>) {
    && (forall p :: p in g.refs ==> Apart(p, n, except))
    && (forall p :: p in g.builtins ==> Apart(p, n, None))
  }

  /** The built-in rule `b` takes no name but its own. */
  ghost predicate SafeBuiltin(g: Guards, b: string) {
    && (forall p :: p in g.refs ==> Apart(p, b, None))
    && (forall p :: p in g.builtins ==> Apart(p, b, Some(b)))
  }

  ghost predicate BuiltinsSafe(t: Tables, g: Guards) {
    forall b :: b in BuiltinNames(t) ==> SafeBuiltin(g, b)
  }

  /** A UUID gets the rule of that name, or the same rule under the name of its format. */
  ghost predicate SafeUuid(g: Guards, format: string) {
    if format == "uuid" then SafeBuiltin(g, format) else SafeFor(g, format, None)
  }

  /** The rule for `s` itself takes no name of `g`. A reference written outside all other
      references, or to a plain built-in type, may stand under the name of its own target. */
  ghost predicate SafeSelf(t: Tables, g: Guards, scope: set<string>, s: Schema, name: string, top: bool) {
    if Direct(t, s) then RuleName(t, name) == "root" ==> SafeFor(g, "root", None)
    else if s.ref.Some? && s.ref.value in scope && (top || Direct(t, Target(t, s.ref.value))) then
      SafeFor(g, RuleName(t, name), Some(LastComponent(s.ref.value)))
    else SafeFor(g, RuleName(t, name), None)
  }

  /** The rules written on the way for what is inside `s` take no name of `g`. */
  ghost predicate SafeIn(t: Tables, g: Guards, scope: set<string>, s: Schema, name: string, top: bool)
    decreases Size(s), 1
  {
    if s.ref.Some? then true
    else if s.oneOf.Union? || s.anyOf.Union? || s.typ.TypeList? then
      SafeAlts(t, g, scope, UnionOf(s), AltPrefix(name), top, Size(s))
    else if s.constant.Some? || s.constants.Some? then true
    else if ObjectKind(s) then
      && SafeProperties(t, g, scope, PropertyList(s), name, top, Size(s))
      && SafeExtra(t, g, scope, s.additional, name, top, Size(s))
    else if ArrayKind(s) then
      match s.items
      case NoItems => true
      case Tuple(ss) => SafeAlts(t, g, scope, ss, Dash(name) + "tuple-", top, Size(s))
      case Each(item) => SafeAll(t, g, scope, item, Dash(name) + "item", top)
    else BuiltinsSafe(t, g) && (Texty(s) && IsUuid(s.format) ==> SafeUuid(g, s.format))
  }

  function AltPrefix(name: string): (prefix: string) {
    name + (if name == "" then "alternative-" else "-")
  }

  ghost predicate SafeAll(t: Tables, g: Guards, scope: set<string>, s: Schema, name: string, top: bool)
    decreases Size(s), 2
  {
    SafeSelf(t, g, scope, s, name, top) && SafeIn(t, g, scope, s, name, top)
  }

  ghost predicate SafeAlts(t: Tables, g: Guards, scope: set<string>, ss: seq<Schema>, prefix: string, top: bool, bound: nat)
    requires AllSmaller(ss, bound)
    decreases bound, 0
  {
    forall i :: 0 <= i < |ss| ==> SafeAll(t, g, scope, ss[i], prefix + Numeral(i), top)
  }

  ghost predicate SafeProperties(t: Tables, g: Guards, scope: set<string>, ps: seq<Property>, name: string, top: bool, bound: nat)
    requires Smaller(ps, bound)
    decreases bound, 0
  {
    forall i :: 0 <= i < |ps| ==>
      SafeHelpers(g, ps[i].name, name) && SafeAll(t, g, scope, ps[i].schema, Dash(name) + ps[i].name, top)
  }

  /** The rules of a member and of what may follow it. */
  ghost predicate SafeHelpers(g: Guards, key: string, name: string) {
    SafeFor(g, Dash(name) + key + "-kv", None) && SafeFor(g, Dash(name) + key + "-rest", None)
  }

  ghost predicate SafeExtra(t: Tables, g: Guards, scope: set<string>, additional: Additional, name: string, top: bool, bound: nat)
    requires additional.Described? ==> Size(additional.schema) < bound
    decreases bound, 0
  {
    AllowsExtra(additional) ==>
      var sub := Dash(name) + "additional";
      && BuiltinsSafe(t, g) && SafeFor(g, Dash(name) + STAR + "-rest", None)
      && SafeFor(g, sub + "-k", None) && SafeFor(g, sub + "-kv", None)
      && (additional.Described? ==> SafeAll(t, g, scope, additional.schema, sub + "-value", top))
  }

  // With nothing to guard every schema is safe.

  lemma {:induction false} NothingGuarded(t: Tables, s: Schema, name: string, top: bool)
    ensures SafeAll(t, NO_GUARDS, {}, s, name, top)
    decreases Size(s), 1
  {
    hide SafeAll, ObjectKind, ArrayKind, Direct, SafeExtra, SafeHelpers;
    if s.ref.Some? {
    } else if s.oneOf.Union? || s.anyOf.Union? || s.typ.TypeList? {
      NothingInAlts(t, UnionOf(s), AltPrefix(name), top, Size(s));
    } else if s.constant.Some? || s.constants.Some? {
    } else if ObjectKind(s) {
      NothingInProperties(t, PropertyList(s), name, top, Size(s));
      NothingInExtra(t, s.additional, name, top, Size(s));
    } else if ArrayKind(s) {
      match s.items {
        case NoItems =>
        case Tuple(ss) => NothingInAlts(t, ss, Dash(name) + "tuple-", top, Size(s));
        case Each(item) => NothingGuarded(t, item, Dash(name) + "item", top);
      }
    }
    assert SafeIn(t, NO_GUARDS, {}, s, name, top);
    BothSafe(t, NO_GUARDS, {}, s, name, top);
  }

  lemma BothSafe(t: Tables, g: Guards, scope: set<string>, s: Schema, name: string, top: bool)
    requires SafeSelf(t, g, scope, s, name, top) && SafeIn(t, g, scope, s, name, top)
    ensures SafeAll(t, g, scope, s, name, top)
  {}

  lemma NothingInAlts(t: Tables, ss: seq<Schema>, prefix: string, top: bool, bound: nat)
    requires AllSmaller(ss, bound)
    ensures SafeAlts(t, NO_GUARDS, {}, ss, prefix, top, bound)
    decreases bound, 0
  {
    hide SafeAll;
    forall i | 0 <= i < |ss| ensures SafeAll(t, NO_GUARDS, {}, ss[i], prefix + Numeral(i), top) {
      NothingGuarded(t, ss[i], prefix + Numeral(i), top);
    }
  }

  lemma NothingInProperties(t: Tables, ps: seq<Property>, name: string, top: bool, bound: nat)
    requires Smaller(ps, bound)
    ensures SafeProperties(t, NO_GUARDS, {}, ps, name, top, bound)
    decreases bound, 0
  {
    hide SafeAll;
    forall i | 0 <= i < |ps| ensures SafeAll(t, NO_GUARDS, {}, ps[i].schema, Dash(name) + ps[i].name, top) {
      NothingGuarded(t, ps[i].schema, Dash(name) + ps[i].name, top);
    }
  }

  lemma NothingInExtra(t: Tables, additional: Additional, name: string, top: bool, bound: nat)
    requires additional.Described? ==> Size(additional.schema) < bound
    ensures SafeExtra(t, NO_GUARDS, {}, additional, name, top, bound)
    decreases bound, 0
  {
    hide SafeAll;
    if additional.Described? {
      NothingGuarded(t, additional.schema, Dash(name) + "additional" + "-value", top);
    }
  }

  // ----- references that can be told apart -----

  ghost function Components(refs: set<string>): (names: set<string>) {
    set r | r in refs :: LastComponent(r)
  }

  /** The last component of a reference is a rule name of its own, and nothing in the schema it
      stands for leads out of `scope` or takes the name of a reference. */
  ghost predicate RefOk(t: Tables, scope: set<string>, g: Guards, ref: string) {
    var c := LastComponent(ref);
    && ref in t.refs && Mentions(t.refs[ref]) <= scope
    && c != "" && c != SPACE && ValidName(c) && !Reserved(t, c)
    && SafeFor(g, c, Some(c)) && SafeIn(t, g, scope, t.refs[ref], c, false)
  }

  ghost predicate ScopeOk(t: Tables, scope: set<string>, g: Guards) {
    && g.refs == Components(scope)
    && (forall r :: r in scope ==> RefOk(t, scope, g, r))
    && (forall r, q :: r in scope && q in scope && LastComponent(r) == LastComponent(q) ==> r == q)
  }

  /** What a caller can check before the conversion: the references in `scope` are all that the
      schema can lead to, their last components differ and are valid names of no built-in
      rule, and no name generated on the way is one of them. */
  ghost predicate NamedApart(t: Tables, schema: Schema, scope: set<string>) {
    KeptApart(t, schema, scope, {})
  }

  /** The same, and no name generated on the way is that of a built-in rule. */
  ghost predicate BuiltinsApart(t: Tables, schema: Schema, scope: set<string>) {
    KeptApart(t, schema, scope, BuiltinNames(t))
  }

  ghost predicate KeptApart(t: Tables, schema: Schema, scope: set<string>, builtins: set<string>) {
    var g := Guards(Components(scope), builtins);
    && Mentions(schema) <= scope && ScopeOk(t, scope, g)
    && SafeAll(t, g, scope, schema, "", true)
  }

  /** Without references nothing has to be told apart. */
  lemma NoReferencesApart(t: Tables, schema: Schema)
    requires Mentions(schema) == {}
    ensures NamedApart(t, schema, {})
  {
    NothingGuarded(t, schema, "", true);
    hide SafeAll, RefOk;
    assert Components({}) == {};
  }

  /** The last component of a reference that a rule is written for, when the rule may have that
      name. */
  function Except(t: Tables, own: Option<string>): (except: Option<string>) {
    if own.Some? && RuleName(t, LastComponent(own.value)) == LastComponent(own.value)
    then Some(LastComponent(own.value)) else None
  }

  ghost predicate TargetSafe(t: Tables, g: Guards, r: string) {
    var c := LastComponent(r);
    && Mentions(Target(t, r)) <= t.refs.Keys && SafeIn(t, g, {}, Target(t, r), c, false)
    && SafeFor(g, RuleName(t, c), Except(t, Some(r)))
  }

  /** Names that are merely watched: no rule written for a reference takes one. */
  ghost predicate TargetsSafe(t: Tables, g: Guards) {
    g == NO_GUARDS || forall r :: r in t.refs ==> TargetSafe(t, g, r)
  }

  /** The names kept free go with the references in `scope`, or with none. */
  ghost predicate GuardsOk(t: Tables, scope: set<string>, g: Guards, good: bool) {
    && g.builtins <= BuiltinNames(t)
    && if good then ScopeOk(t, scope, g) else scope == {} && TargetsSafe(t, g)
  }

  // ----- what holds at every moment -----

  /** Where a conversion stands: the names it keeps free, the references being resolved (in the
      order they were entered), those whose rule is written, those met while they were being
      resolved, and the number of errors. */
  datatype Progress = Progress(t: Tables, scope: set<string>, guarded: Guards, good: bool,
                               resolving: set<string>, trail: seq<string>, finished: set<string>,
                               circular: set<string>, errors: nat)

  ghost predicate Fine(p: Progress) {
    p.good && p.errors == 0
  }

  /** The rule for `q` is there or on its way. */
  ghost predicate Known(p: Progress, q: string) {
    Direct(p.t, Target(p.t, q)) || q in p.finished || q in p.resolving
  }

  ghost predicate Occupied(rules: Rules, p: Progress, n: string) {
    (exists r :: r in p.finished && LastComponent(r) == n)
    || (exists r :: r in p.scope && LastComponent(r) == n && DirectAt(rules, p.t, r, n))
  }

  ghost predicate DirectAt(rules: Rules, t: Tables, r: string, n: string) {
    Direct(t, Target(t, r)) && StandsFor(rules, n, DirectContent(t, Target(t, r)))
  }

  ghost predicate ValidNames(rules: Rules) {
    forall n :: n in rules ==> ValidName(n)
  }

  ghost predicate TrailOk(p: Progress) {
    p.resolving == Elements(p.trail) && Chained(p.t, p.trail)
    && forall i, j :: 0 <= i < j < |p.trail| ==> p.trail[i] != p.trail[j]
  }

  /** A guarded name is taken only by the rule of its reference; `but` is a name whose rule has
      been written a moment ago. */
  ghost predicate GuardOk(rules: Rules, p: Progress, but: Option<string>) {
    forall n :: n in p.guarded.refs && n in rules ==> Occupied(rules, p, n) || but == Some(n)
  }

  /** The rules of these names are the built-in ones. */
  ghost predicate KeptOk(rules: Rules, t: Tables, kept: set<string>) {
    forall n :: n in kept && n in rules ==> n in BuiltinNames(t) && rules[n] == BuiltinOf(t, n).content
  }

  ghost predicate FinishedRef(rules: Rules, p: Progress, r: string) {
    && r in p.scope && !Direct(p.t, Target(p.t, r))
    && Built(rules, p.t, Target(p.t, r), LastComponent(r))
    && forall q :: q in MentionsOf(p.t, r) ==> Known(p, q)
  }

  ghost predicate FinishedOk(rules: Rules, p: Progress) {
    forall r :: r in p.finished ==> FinishedRef(rules, p, r)
  }

  ghost predicate FinishedNames(rules: Rules, p: Progress) {
    forall r :: r in p.finished ==> LastComponent(r) in rules && !Reserved(p.t, LastComponent(r))
  }

  ghost predicate Refers(rules: Rules, x: string) {
    exists n :: n in rules && x in RefsOf(rules[n])
  }

  ghost predicate CircularOk(rules: Rules, p: Progress) {
    forall r :: r in p.circular ==> LeadsBack(p.t, r) && Refers(rules, LastComponent(r))
  }

  ghost predicate CircularPlaced(p: Progress) {
    forall r :: r in p.circular ==> r in p.finished || r in p.resolving
  }

  ghost predicate Sound(rules: Rules, p: Progress, but: Option<string>) {
    && ValidNames(rules) && KeptOk(rules, p.t, p.guarded.builtins) && TrailOk(p) && CircularOk(rules, p)
    && p.finished !! p.resolving && FinishedNames(rules, p)
    && (p.errors == 0 ==> GuardOk(rules, p, but))
    && GuardsOk(p.t, p.scope, p.guarded, p.good) && (p.good ==> p.resolving <= p.scope)
    && (Fine(p) ==> FinishedOk(rules, p) && CircularPlaced(p))
  }

  // The table grows.

  lemma StandsStays(rules: Rules, before: Rules, n: string, content: Expr)
    requires Extends(rules, before) && StandsFor(before, n, content)
    ensures StandsFor(rules, n, content)
  {}

  lemma OccupiedStays(rules: Rules, before: Rules, p: Progress, n: string)
    requires Extends(rules, before) && Occupied(before, p, n)
    ensures Occupied(rules, p, n)
  {
    hide Direct, StandsFor, DirectContent;
    if r :| r in p.scope && LastComponent(r) == n && DirectAt(before, p.t, r, n) {
      StandsStays(rules, before, n, DirectContent(p.t, Target(p.t, r)));
      assert DirectAt(rules, p.t, r, n);
    }
  }

  lemma GuardStays(rules: Rules, before: Rules, p: Progress, but: Option<string>)
    requires Extends(rules, before) && GuardOk(before, p, None)
    requires forall n :: n in p.guarded.refs && n in rules ==> n in before || but == Some(n)
    ensures GuardOk(rules, p, but)
  {
    hide Occupied;
    forall n | n in p.guarded.refs && n in rules && but != Some(n) ensures Occupied(rules, p, n) {
      OccupiedStays(rules, before, p, n);
    }
  }

  lemma FinishedStays(rules: Rules, before: Rules, p: Progress)
    requires Extends(rules, before) && FinishedOk(before, p)
    ensures FinishedOk(rules, p)
  {
    hide Built, Direct, Known;
    forall r | r in p.finished ensures FinishedRef(rules, p, r) {
      assert FinishedRef(before, p, r);
      BuiltStays(rules, before, p.t, Target(p.t, r), LastComponent(r));
    }
  }

  lemma CircularStays(rules: Rules, before: Rules, p: Progress)
    requires Extends(rules, before) && CircularOk(before, p)
    ensures CircularOk(rules, p)
  {
    hide LeadsBack, RefsOf;
    forall r | r in p.circular ensures Refers(rules, LastComponent(r)) {
      var n :| n in before && LastComponent(r) in RefsOf(before[n]);
      assert n in rules && rules[n] == before[n];
    }
  }

  lemma SoundStays(rules: Rules, before: Rules, p: Progress, but: Option<string>)
    requires Extends(rules, before) && ValidNames(rules) && KeptOk(rules, p.t, p.guarded.builtins) && Sound(before, p, None)
    requires forall n :: n in p.guarded.refs && n in rules ==> n in before || but == Some(n)
    ensures Sound(rules, p, but)
  {
    hide ValidNames, TrailOk, CircularOk, GuardOk, GuardsOk, FinishedOk, CircularPlaced;
    CircularStays(rules, before, p);
    if p.errors == 0 {
      GuardStays(rules, before, p, but);
      if p.good { FinishedStays(rules, before, p); }
    }
  }

  // A reference is entered.

  function Entered(p: Progress, ref: string): (q: Progress) {
    p.(resolving := p.resolving + {ref}, trail := p.trail + [ref])
  }

  lemma EnterSound(rules: Rules, p: Progress, ref: string)
    requires Sound(rules, p, None) && ref !in p.resolving && LastComponent(ref) !in rules
    requires p.trail != [] ==> ref in MentionsOf(p.t, p.trail[|p.trail| - 1])
    requires p.good ==> ref in p.scope
    ensures Sound(rules, Entered(p, ref), None)
  {
    var q := Entered(p, ref);
    assert ref !in p.finished;
    TrailGrows(p, ref);
    hide ValidNames, TrailOk, LeadsBack, GuardsOk, Refers, FinishedOk, GuardOk, KeptOk, Target, Mentions, Reserved;
    if Fine(p) { FinishedLater(rules, p, q); }
    if p.errors == 0 { GuardLater(rules, p, q, None); }
  }

  lemma TrailGrows(p: Progress, ref: string)
    requires TrailOk(p) && ref !in p.resolving
    requires p.trail != [] ==> ref in MentionsOf(p.t, p.trail[|p.trail| - 1])
    ensures TrailOk(Entered(p, ref))
  {
    hide Mentions;
    assert forall i :: 0 <= i < |p.trail| ==> p.trail[i] in Elements(p.trail);
  }

  // A reference is left, with its rule written or with an error.

  function Left(p: Progress, ref: string, done: bool): (q: Progress)
    requires p.trail != []
  {
    p.(resolving := p.resolving - {ref}, trail := p.trail[..|p.trail| - 1],
       finished := if done then p.finished + {ref} else p.finished)
  }

  lemma TrailShrinks(p: Progress)
    requires TrailOk(p) && p.trail != []
    ensures TrailOk(Left(p, p.trail[|p.trail| - 1], false))
  {
    hide Mentions;
    var last := |p.trail| - 1;
    forall x ensures x in Elements(p.trail[..last]) <==> x in p.resolving - {p.trail[last]} {
      if x in p.trail[..last] {
        var i :| 0 <= i < last && p.trail[i] == x;
        assert x != p.trail[last];
      }
      if x in p.resolving - {p.trail[last]} {
        var i :| 0 <= i < |p.trail| && p.trail[i] == x;
        assert p.trail[..last][i] == x;
      }
    }
  }

  lemma LeaveSound(rules: Rules, p: Progress, ref: string, but: Option<string>)
    requires p.trail != [] && p.trail[|p.trail| - 1] == ref
    requires Sound(rules, p, but)
    requires but.Some? ==> but == Some(LastComponent(ref)) && LastComponent(ref) in rules
    requires but.Some? ==> !Direct(p.t, Target(p.t, ref)) && !Reserved(p.t, LastComponent(ref))
    requires Fine(p) ==> but.Some? || Direct(p.t, Target(p.t, ref))
    requires Fine(p) && but.Some? ==>
      Built(rules, p.t, Target(p.t, ref), LastComponent(ref)) && forall q :: q in MentionsOf(p.t, ref) ==> Known(p, q)
    ensures Sound(rules, Left(p, ref, but.Some?), None)
  {
    var q := Left(p, ref, but.Some?);
    TrailShrinks(p);
    assert ref in p.resolving by { assert p.trail[|p.trail| - 1] in Elements(p.trail); }
    hide ValidNames, TrailOk, LeadsBack, Built, GuardsOk, Refers, Direct, Target, Mentions, DirectContent, StandsFor,
      KeptOk, GuardOk, FinishedOk;
    if p.errors == 0 { LeaveGuarded(rules, p, ref, but); }
    if Fine(p) {
      if ref in p.circular { CircularIsNotDirect(p, ref); }
      LeaveFinished(rules, p, ref, but);
    }
  }

  lemma LeaveGuarded(rules: Rules, p: Progress, ref: string, but: Option<string>)
    requires p.trail != [] && GuardOk(rules, p, but) && (but.Some? ==> but == Some(LastComponent(ref)))
    ensures GuardOk(rules, Left(p, ref, but.Some?), None)
  {
    var q := Left(p, ref, but.Some?);
    hide DirectAt;
    forall n | n in q.guarded.refs && n in rules ensures Occupied(rules, q, n) {
      if but == Some(n) {
        assert ref in q.finished && LastComponent(ref) == n;
      } else {
        OccupiedLater(rules, p, q, n);
      }
    }
  }

  lemma LeaveFinished(rules: Rules, p: Progress, ref: string, but: Option<string>)
    requires p.trail != [] && FinishedOk(rules, p) && (p.resolving <= p.scope && ref in p.resolving)
    requires but.Some? || Direct(p.t, Target(p.t, ref))
    requires but.Some? ==> !Direct(p.t, Target(p.t, ref)) && Built(rules, p.t, Target(p.t, ref), LastComponent(ref))
    requires but.Some? ==> forall q :: q in MentionsOf(p.t, ref) ==> Known(p, q)
    ensures FinishedOk(rules, Left(p, ref, but.Some?))
  {
    var q := Left(p, ref, but.Some?);
    hide Built, Direct, Target, Mentions;
    forall r | r in q.finished ensures FinishedRef(rules, q, r) {
      if r != ref { assert FinishedRef(rules, p, r); }
      forall x | x in MentionsOf(p.t, r) ensures Known(q, x) {
        assert Known(p, x);
      }
    }
  }

  lemma OccupiedLater(rules: Rules, p: Progress, q: Progress, n: string)
    requires Occupied(rules, p, n) && p.finished <= q.finished && p.scope == q.scope && p.t == q.t
    ensures Occupied(rules, q, n)
  {
    hide DirectAt;
  }

  /** A plain built-in type mentions nothing, so no way leads back to it. */
  lemma CircularIsNotDirect(p: Progress, r: string)
    requires LeadsBack(p.t, r)
    ensures !Direct(p.t, Target(p.t, r))
  {
    var path :| |path| > 1 && path[0] == r && path[|path| - 1] == r && Chained(p.t, path);
    assert path[1] in MentionsOf(p.t, path[0]);
    hide ObjectKind, ArrayKind;
  }

  // A reference is met while it is being resolved.

  lemma DeferSound(rules: Rules, p: Progress, ref: string, but: Option<string>)
    requires Sound(rules, p, but) && ref in p.resolving && Refers(rules, LastComponent(ref))
    requires p.trail != [] && ref in MentionsOf(p.t, p.trail[|p.trail| - 1])
    ensures Sound(rules, p.(circular := p.circular + {ref}), but)
  {
    TrailLeadsBack(p, ref);
    var q := p.(circular := p.circular + {ref});
    hide ValidNames, LeadsBack, GuardsOk, Refers, FinishedOk, GuardOk;
    if Fine(p) { FinishedLater(rules, p, q); }
    if p.errors == 0 { GuardLater(rules, p, q, but); }
    assert TrailOk(q) by { hide Chained; }
    hide TrailOk;
  }

  lemma FinishedLater(rules: Rules, p: Progress, q: Progress)
    requires FinishedOk(rules, p) && q.finished == p.finished && q.t == p.t && q.scope == p.scope && p.resolving <= q.resolving
    ensures FinishedOk(rules, q)
  {
    hide Built, Direct, Target, MentionsOf;
    forall r | r in q.finished ensures FinishedRef(rules, q, r) {
      assert FinishedRef(rules, p, r);
      forall x | x in MentionsOf(q.t, r) ensures Known(q, x) { assert Known(p, x); }
    }
  }

  lemma GuardLater(rules: Rules, p: Progress, q: Progress, but: Option<string>)
    requires GuardOk(rules, p, but) && p.finished <= q.finished && q.t == p.t && q.scope == p.scope && q.guarded == p.guarded
    ensures GuardOk(rules, q, but)
  {
    hide Occupied;
    forall n | n in q.guarded.refs && n in rules && but != Some(n) ensures Occupied(rules, q, n) {
      OccupiedLater(rules, p, q, n);
    }
  }

  lemma TrailLeadsBack(p: Progress, ref: string)
    requires TrailOk(p) && ref in p.resolving && p.trail != [] && ref in MentionsOf(p.t, p.trail[|p.trail| - 1])
    ensures LeadsBack(p.t, ref)
  {
    hide Mentions;
    var i :| 0 <= i < |p.trail| && p.trail[i] == ref;
    var path := p.trail[i..] + [ref];
    forall k | 0 <= k < |path| - 1 ensures path[k + 1] in MentionsOf(p.t, path[k]) {
      if k + 1 < |path| - 1 {
        assert path[k] == p.trail[i + k] && path[k + 1] == p.trail[i + k + 1];
      }
    }
    assert Chained(p.t, path);
  }

  // An error.

  lemma FailSound(rules: Rules, p: Progress, errors: nat)
    requires Sound(rules, p, None) && errors > 0
    ensures Sound(rules, p.(errors := errors), None)
  {
    hide ValidNames, LeadsBack, Built, GuardsOk, Refers, Direct, DirectAt, Chained;
  }

  // ----- what visiting a schema does about the references in it -----

  /** A reference met while it is being resolved, or that its own schema mentions, has a rule of
      its name or is noted; and its rule is there or on its way. */
  ghost predicate Handled(rules: Rules, p: Progress, q: string) {
    && (q in p.resolving || q in MentionsOf(p.t, q) ==> LastComponent(q) in rules || q in p.circular)
    && (Fine(p) ==> Known(p, q))
  }

  ghost predicate AllHandled(rules: Rules, p: Progress, refs: set<string>) {
    forall q :: q in refs ==> Handled(rules, p, q)
  }

  /** `q` is a later moment than `p`. */
  ghost predicate Later(rules: Rules, q: Progress, before: Rules, p: Progress) {
    && Extends(rules, before) && q.t == p.t && q.good == p.good && q.scope == p.scope && q.guarded == p.guarded
    && q.resolving == p.resolving && q.trail == p.trail && p.finished <= q.finished && p.circular <= q.circular
    && p.errors <= q.errors
  }

  lemma HandledStays(rules: Rules, q: Progress, before: Rules, p: Progress, refs: set<string>)
    requires Later(rules, q, before, p) && AllHandled(before, p, refs)
    ensures AllHandled(rules, q, refs)
  {
    hide Direct, MentionsOf;
    forall x | x in refs ensures Handled(rules, q, x) {
      assert Handled(before, p, x);
    }
  }

  lemma HandledBoth(rules: Rules, p: Progress, a: set<string>, b: set<string>)
    requires AllHandled(rules, p, a) && AllHandled(rules, p, b)
    ensures AllHandled(rules, p, a + b)
  {
    hide Handled;
  }

  // ----- what a finished conversion leaves -----

  /** Every reference the schema leads to has the rule its schema asks for. */
  ghost predicate RefsBuilt(rules: Rules, t: Tables, schema: Schema, finished: set<string>) {
    && (forall q :: q in Mentions(schema) ==> Direct(t, Target(t, q)) || q in finished)
    && (forall r :: r in finished ==> RefFinished(rules, t, finished, r))
  }

  ghost predicate RefFinished(rules: Rules, t: Tables, finished: set<string>, r: string) {
    && Built(rules, t, Target(t, r), LastComponent(r))
    && forall q :: q in MentionsOf(t, r) ==> Direct(t, Target(t, q)) || q in finished
  }
}
