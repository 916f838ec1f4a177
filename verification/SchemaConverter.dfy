/** The schema converter: a table of named rules grows while schemas are visited, `$ref`s
    are followed at most once at a time, and every construct gets a rule of its own. */
module SchemaConverter {
  import opened Common
  import opened Gbnf
  import opened Decimal
  import opened ObjectRule
  import opened Schemas
  import opened BuiltRules
  import opened References
  import IntRange
  import NotStrings
  import Repetition

  /** `key` is a name that `_add_rule` may give to a rule requested under `name`. */
  ghost predicate KeyOf(name: string, key: string) {
    key == Escape(name) || exists i: nat :: key == Escape(name) + Numeral(i)
  }

  lemma KeyValid(name: string, key: string)
    requires KeyOf(name, key)
    ensures ValidName(key)
  {
    if key != Escape(name) {
      var i: nat :| key == Escape(name) + Numeral(i);
      assert AllDigits(Numeral(i));
      forall k | 0 <= k < |key| ensures NameChar(key[k]) {
        if k >= |Escape(name)| {
          assert key[k] == Numeral(i)[k - |Escape(name)|];
          assert IsDigit(key[k]);
        } else {
          assert key[k] == Escape(name)[k];
        }
      }
    }
  }

  lemma KeyNotGuarded(guarded: Guards, name: string, key: string, except: Option<string>)
    requires KeyOf(name, key) && SafeFor(guarded, name, except)
    ensures key in guarded.refs ==> except == Some(key)
    ensures key !in guarded.builtins
  {
    if key in guarded.refs {
      assert Apart(key, name, except);
    }
    forall p | p in guarded.builtins ensures p != key { assert Apart(p, name, None); }
  }

  /** A built-in rule takes no guarded name but its own. */
  lemma KeyIsBuiltin(guarded: Guards, name: string, key: string)
    requires KeyOf(name, key) && SafeBuiltin(guarded, name)
    ensures key !in guarded.refs && (key in guarded.builtins ==> key == name)
  {
    forall p | p in guarded.refs ensures p != key { assert Apart(p, name, None); }
    if key in guarded.builtins {
      assert Apart(key, name, Some(name));
    }
  }

  /** Of the names to keep, those that are new have their built-in rules. */
  ghost predicate KeptSince(rules: Rules, before: Rules, t: Tables, kept: set<string>) {
    forall n :: n in kept && n in rules ==> n in before || HasBuiltin(rules, t, n)
  }

  ghost predicate HasBuiltin(rules: Rules, t: Tables, n: string)
    requires n in rules
  {
    n in BuiltinNames(t) && rules[n] == BuiltinOf(t, n).content
  }

  lemma KeptStays(rules: Rules, before: Rules, t: Tables, kept: set<string>)
    requires Extends(rules, before) && KeptOk(before, t, kept) && KeptSince(rules, before, t, kept)
    ensures KeptOk(rules, t, kept)
  {}

  lemma NoneKept(rules: Rules, before: Rules, t: Tables, kept: set<string>, key: string)
    requires Extends(rules, before) && rules.Keys == before.Keys + {key} && key !in kept
    ensures KeptSince(rules, before, t, kept) && (KeptOk(before, t, kept) ==> KeptOk(rules, t, kept))
  {}

  function Landing(t: Tables, own: Option<string>, key: string): (but: Option<string>) {
    if Except(t, own) == Some(key) then Some(key) else None
  }

  /** While a reference is being resolved its name is free. */
  lemma OwnFree(rules: Rules, p: Progress, ref: string)
    requires Sound(rules, p, None) && Fine(p) && ref in p.resolving && !Direct(p.t, Target(p.t, ref))
    ensures LastComponent(ref) !in rules
    ensures ValidName(LastComponent(ref)) && RuleName(p.t, LastComponent(ref)) == LastComponent(ref)
  {
    hide Direct, DirectAt, Built, SafeIn, SafeFor, Occupied;
    assert ScopeOk(p.t, p.scope, p.guarded);
    assert RefOk(p.t, p.scope, p.guarded, ref);
    if LastComponent(ref) in rules {
      TakenBy(rules, p, ref);
      if ref !in p.finished { DirectAtIs(rules, p.t, ref, LastComponent(ref)); }
    }
  }

  /** A name that is taken belongs to its own reference. */
  lemma TakenBy(rules: Rules, p: Progress, ref: string)
    requires Sound(rules, p, None) && Fine(p) && ref in p.scope && LastComponent(ref) in rules
    ensures ref in p.finished || DirectAt(rules, p.t, ref, LastComponent(ref))
  {
    hide Direct, DirectAt, Built, SafeIn, SafeFor, RefOk;
    var c := LastComponent(ref);
    assert c in p.guarded.refs;
    assert Occupied(rules, p, c);
    if r :| r in p.finished && LastComponent(r) == c {
      assert FinishedRef(rules, p, r);
    }
  }

  lemma DirectAtIs(rules: Rules, t: Tables, r: string, n: string)
    requires DirectAt(rules, t, r, n)
    ensures Direct(t, Target(t, r)) && StandsFor(rules, n, DirectContent(t, Target(t, r)))
  {
    hide Direct, StandsFor, DirectContent;
  }

  /** A reference whose name is taken is one whose rule is there. */
  lemma TakenRef(rules: Rules, p: Progress, ref: string)
    requires Sound(rules, p, None) && Fine(p) && ref in p.scope && LastComponent(ref) in rules
    ensures RefBuilt(rules, p.t, ref, Ref(LastComponent(ref))) && Known(p, ref)
  {
    TakenBy(rules, p, ref);
    hide Direct, DirectAt, Built, SafeIn, SafeFor, StandsFor, DirectContent, Sound;
    if ref in p.finished {
      FinishedNotDirect(rules, p, ref);
    } else {
      DirectAtIs(rules, p.t, ref, LastComponent(ref));
    }
  }

  lemma FinishedNotDirect(rules: Rules, p: Progress, ref: string)
    requires Sound(rules, p, None) && Fine(p) && ref in p.finished
    ensures !Direct(p.t, Target(p.t, ref))
  {
    hide Direct, Built, Known, DirectAt, GuardsOk;
    assert FinishedRef(rules, p, ref);
  }

  /** A reference to a plain built-in type, written under the name of its own target. */
  lemma DirectLanded(rules: Rules, p: Progress, ref: string, n: string)
    requires Sound(rules, p, Some(n)) && ref in p.scope && LastComponent(ref) == n
    requires p.errors == 0 ==> DirectAt(rules, p.t, ref, n)
    ensures Sound(rules, p, None)
  {
    hide Direct, DirectAt, Built, ScopeOk, LeadsBack, Refers, ValidNames, TrailOk;
    if p.errors == 0 {
      forall x | x in p.guarded.refs && x in rules ensures Occupied(rules, p, x) {}
    }
  }

  // ----- when a schema may be visited -----

  /** No reference is being resolved. */
  ghost predicate Top(p: Progress) {
    p.resolving == {}
  }

  /** The references `refs` are among those the guarded names go with, and mentioned by the one
      being resolved. */
  ghost predicate Covered(p: Progress, refs: set<string>) {
    && (if p.good then refs <= p.scope else p.guarded == NO_GUARDS || refs <= p.t.refs.Keys)
    && (p.trail != [] ==> refs <= MentionsOf(p.t, p.trail[|p.trail| - 1]))
  }

  /** `s` is the schema of the reference entered last, visited under its name. */
  ghost predicate OwnOk(p: Progress, s: Schema, name: string, ref: string) {
    && p.trail != [] && p.trail[|p.trail| - 1] == ref && name == LastComponent(ref) && s == Target(p.t, ref)
    && SafeFor(p.guarded, RuleName(p.t, name), Except(p.t, Some(ref)))
  }

  /** The names that visiting `s` under `name` generates are free to take; `own` is the
      reference whose schema `s` is. */
  ghost predicate Apt(p: Progress, s: Schema, name: string, own: Option<string>) {
    && Covered(p, Mentions(s)) && SafeIn(p.t, p.guarded, p.scope, s, name, Top(p))
    && if own.Some? then OwnOk(p, s, name, own.value) else SafeSelf(p.t, p.guarded, p.scope, s, name, Top(p))
  }

  /** The name requested for a rule is free to take, but for the name of `own`. */
  ghost predicate NameFree(p: Progress, ruleName: string, own: Option<string>) {
    && SafeFor(p.guarded, ruleName, Except(p.t, own))
    && (own.Some? ==>
          && ruleName == RuleName(p.t, LastComponent(own.value))
          && own.value in p.resolving && !Direct(p.t, Target(p.t, own.value)))
  }

  ghost predicate Exempt(p: Progress, ref: string) {
    ref in p.scope && (Top(p) || Direct(p.t, Target(p.t, ref)))
  }

  /** The guarded name that a rule for a `$ref` may take. */
  ghost function RefExcept(p: Progress, ref: string, own: Option<string>): (except: Option<string>) {
    if own.Some? then Except(p.t, own) else if Exempt(p, ref) then Some(LastComponent(ref)) else None
  }

  /** What a moment of a conversion is remembered by. */
  datatype Moment = Moment(rules: Rules, progress: Progress, objects: map<string, ObjectSpec>)

  /** The table, the references dealt with and the recorded objects only grow. */
  ghost predicate After(n: Moment, m: Moment) {
    && Later(n.rules, n.progress, m.rules, m.progress) && m.rules.Keys <= n.rules.Keys
    && m.objects.Keys <= n.objects.Keys
  }

  lemma AfterSelf(m: Moment)
    ensures After(m, m)
  {}

  lemma AfterTwice(k: Moment, n: Moment, m: Moment)
    requires After(k, n) && After(n, m)
    ensures After(k, m)
  {}

  lemma AfterFacts(n: Moment, m: Moment)
    requires After(n, m)
    ensures Extends(n.rules, m.rules) && m.rules.Keys <= n.rules.Keys
    ensures n.progress.resolving == m.progress.resolving && n.progress.trail == m.progress.trail
    ensures m.progress.errors <= n.progress.errors && m.progress.circular <= n.progress.circular
    ensures Fine(n.progress) ==> Fine(m.progress)
    ensures Top(n.progress) == Top(m.progress)
  {}

  lemma CoveredAfter(n: Moment, m: Moment, refs: set<string>)
    requires After(n, m) && Covered(m.progress, refs)
    ensures Covered(n.progress, refs)
  {
    hide Mentions;
  }

  /** What makes a schema fit for a visit does not depend on the table. */
  lemma AptAfter(n: Moment, m: Moment, s: Schema, name: string, own: Option<string>)
    requires After(n, m) && Apt(m.progress, s, name, own)
    ensures Apt(n.progress, s, name, own)
  {
    hide SafeIn, SafeSelf, SafeFor, Mentions;
  }

  lemma HandledAfter(n: Moment, m: Moment, refs: set<string>)
    requires After(n, m) && AllHandled(m.rules, m.progress, refs)
    ensures AllHandled(n.rules, n.progress, refs)
  {
    HandledStays(n.rules, n.progress, m.rules, m.progress, refs);
  }

  lemma TakeNone<T>(xs: seq<T>)
    ensures xs[..0] == []
  {}

  lemma TakeOneMore<T>(xs: seq<T>, i: nat)
    requires i < |xs|
    ensures xs[..i + 1] == xs[..i] + [xs[i]]
  {}

  lemma TakeAll<T>(xs: seq<T>)
    ensures xs[..|xs|] == xs
  {}

  /** One more property is done. */
  lemma PropertyAdded(k: Moment, n: Moment, m: Moment, done: seq<Property>, p: Property, bound: nat)
    requires Size(p.schema) < bound && Smaller(done, bound) && After(k, n) && After(n, m)
    requires AllHandled(n.rules, n.progress, MentionsIn(done, bound)) && AllHandled(k.rules, k.progress, Mentions(p.schema))
    requires ErrorsAs(m.progress.t, ConvertibleIn(m.progress.t, done, bound), m.progress.errors, n.progress.errors)
    requires ErrorsAs(m.progress.t, Convertible(m.progress.t, p.schema), n.progress.errors, k.progress.errors)
    ensures After(k, m) && Smaller(done + [p], bound)
    ensures AllHandled(k.rules, k.progress, MentionsIn(done + [p], bound))
    ensures ErrorsAs(m.progress.t, ConvertibleIn(m.progress.t, done + [p], bound), m.progress.errors, k.progress.errors)
  {
    hide *;
    var t := m.progress.t;
    HandledAfter(k, n, MentionsIn(done, bound));
    MentionsInStep(done, p, bound);
    HandledBoth(k.rules, k.progress, MentionsIn(done, bound), Mentions(p.schema));
    AfterFacts(k, n);
    AfterFacts(n, m);
    AfterTwice(k, n, m);
    ConvertibleInStep(t, done, p, bound);
    ErrorsBoth(t, ConvertibleIn(t, done, bound), Convertible(t, p.schema), m.progress.errors, n.progress.errors, k.progress.errors);
  }

  class Converter {
    const tables: Tables

    var rules: Rules
    var resolving: set<string>
    var errors: nat

    /** The names kept free for references, the references they belong to, and whether these can
        be told apart. */
    ghost const guarded: Guards
    ghost const scope: set<string>
    ghost const good: bool

    /** The references being resolved, in the order they were entered; those whose rule is
        written; those met while they were being resolved. */
    ghost var trail: seq<string>
    ghost var finished: set<string>
    ghost var circular: set<string>

    /** The object rules written so far. */
    ghost var objects: map<string, ObjectSpec>

    ghost function Now(): (p: Progress)
      reads this
    {
      Progress(tables, scope, guarded, good, resolving, trail, finished, circular, errors)
    }

    /** Names handed out that no rule was written for: the last components of references met
        while they were being resolved, and the empty name after an error. */
    ghost function Pending(): (names: set<string>)
      reads this`circular, this`errors
    {
      Components(circular) + (if errors > 0 then {""} else {})
    }

    /** What the converter's tables of built-in rules satisfy. */
    ghost predicate BuiltinsOk() {
      TablesOk(tables)
    }

    ghost predicate BuiltinOk(b: Builtin) {
      EntryOk(b, tables)
    }

    /** Every reference inside a rule is to a rule, to a pending name, or into `extra`. */
    ghost predicate Closed(extra: set<string>)
      reads this`rules, this`circular, this`errors
    {
      forall n :: n in rules ==> RefsOf(rules[n]) <= rules.Keys + Pending() + extra
    }

    ghost predicate Valid()
      reads this`rules, this`circular, this`errors
    {
      BuiltinsOk() && SPACE in rules && Closed({})
    }

    /** The names are valid and no guarded one is new, but for built-in rules under their own. */
    ghost predicate Keeps(before: Rules)
      reads this`rules
    {
      && ValidNames(rules) && KeptSince(rules, before, tables, guarded.builtins)
      && forall n :: n in guarded.refs && n in rules ==> n in before
    }

    /** All rules that are new are built-in rules under their names. */
    ghost predicate OnlyBuiltins(before: Rules)
      reads this`rules
    {
      forall n :: n in rules ==> n in before || HasBuiltin(rules, tables, n)
    }

    /** A built-in rule under its own name, or another name that is free to take. */
    ghost predicate MayStand(name: string, b: Builtin) {
      SafeFor(guarded, name, None) || (SafeBuiltin(guarded, name) && name in BuiltinNames(tables) && b == BuiltinOf(tables, name))
    }

    /** References that may still be entered. */
    ghost function RefsLeft(): (n: nat)
      reads this`resolving
    {
      |tables.refs.Keys - resolving|
    }

    ghost function BuiltinsLeft(): (n: nat)
      reads this`rules
    {
      |BuiltinNames(tables) - rules.Keys|
    }

    constructor (tables: Tables, spaceRule: Expr, ghost scope: set<string>, ghost guarded: Guards, ghost good: bool)
      requires RefsOf(spaceRule) == {} && TablesOk(tables) && SPACE !in guarded.refs
      requires GuardsOk(tables, scope, guarded, good)
      ensures this.tables == tables && this.scope == scope && this.guarded == guarded && this.good == good
      ensures rules == map[SPACE := spaceRule] && resolving == {} && errors == 0
      ensures trail == [] && finished == {} && circular == {} && objects == map[]
      ensures State()
    {
      this.tables, this.scope, this.guarded, this.good := tables, scope, guarded, good;
      rules, resolving, errors := map[SPACE := spaceRule], {}, 0;
      trail, finished, circular, objects := [], {}, {}, map[];
      new;
      hide *;
      FirstState(spaceRule);
    }

    lemma FirstState(spaceRule: Expr)
      requires rules == map[SPACE := spaceRule] && RefsOf(spaceRule) == {} && TablesOk(tables) && SPACE !in guarded.refs
      requires GuardsOk(tables, scope, guarded, good)
      requires resolving == {} && errors == 0 && trail == [] && finished == {} && circular == {} && objects == map[]
      ensures State()
    {
      SpaceNotKept(spaceRule);
      FirstValid(spaceRule);
      hide GuardsOk, TablesOk, Sound, Valid;
      FirstSound(rules, Now(), spaceRule);
    }

    lemma SpaceNotKept(spaceRule: Expr)
      requires TablesOk(tables) && GuardsOk(tables, scope, guarded, good)
      ensures SPACE !in guarded.builtins
    {
      hide EntryOk, ScopeOk, TargetsSafe;
    }

    lemma FirstValid(spaceRule: Expr)
      requires rules == map[SPACE := spaceRule] && RefsOf(spaceRule) == {} && TablesOk(tables)
      requires errors == 0 && circular == {}
      ensures Valid()
    {
      hide EntryOk;
    }

    lemma FirstSound(rules: Rules, p: Progress, spaceRule: Expr)
      requires rules == map[SPACE := spaceRule] && GuardsOk(p.t, p.scope, p.guarded, p.good) && SPACE !in p.guarded.refs + p.guarded.builtins
      requires p.resolving == {} && p.trail == [] && p.finished == {} && p.circular == {} && p.errors == 0
      ensures Sound(rules, p, None)
    {
      hide GuardsOk;
    }

    // ----- the table -----

    /** `_add_rule`: the returned name stands for the requested body, and no rule already in
        the table changes. */
    method AddRule(name: string, rule: Expr) returns (key: string)
      modifies this`rules
      ensures key in rules && rules[key] == rule && rules == old(rules)[key := rule]
      ensures Extends(rules, old(rules)) && rules.Keys == old(rules).Keys + {key}
      ensures KeyOf(name, key) && (ValidName(name) && name !in old(rules) ==> key == name)
      ensures Escape(name) !in old(rules) ==> key == Escape(name)
    {
      var esc := Escape(name);
      if esc !in rules || rules[esc] == rule {
        rules := rules[esc := rule];
        return esc;
      }
      var i := 0;
      ghost var tried: set<string> := {};
      while esc + Numeral(i) in rules && rules[esc + Numeral(i)] != rule
        invariant rules == old(rules)
        invariant tried <= rules.Keys && |tried| == i
        invariant forall x :: x in tried ==> NumberedBelow(esc, i, x)
        decreases |rules.Keys| - i
      {
        forall j: nat | j < i ensures esc + Numeral(j) != esc + Numeral(i) { NumberedDistinct(esc, j, i); }
        assert esc + Numeral(i) !in tried;
        assert NumberedBelow(esc, i + 1, esc + Numeral(i));
        assert forall x :: NumberedBelow(esc, i, x) ==> NumberedBelow(esc, i + 1, x);
        tried := tried + {esc + Numeral(i)};
        SubsetSize(tried, rules.Keys);
        i := i + 1;
      }
      key := esc + Numeral(i);
      rules := rules[key := rule];
    }

    /** `_add_rule` for a body all of whose references are to rules. */
    method AddClosed(name: string, body: Expr) returns (key: string)
      requires RefsOf(body) <= rules.Keys && Closed({}) && ValidNames(rules) && SafeFor(guarded, name, None)
      modifies this`rules
      ensures Extends(rules, old(rules)) && rules.Keys == old(rules).Keys + {key} && Closed({}) && Keeps(old(rules))
      ensures key in rules && rules[key] == body
    {
      hide SafeFor;
      key := AddRule(name, body);
      KeyValid(name, key);
      KeyNotGuarded(guarded, name, key, None);
      NoneKept(rules, old(rules), tables, guarded.builtins, key);
      hide KeyOf, ValidName, KeptSince;
    }

    /** `_add_primitive`: a built-in rule together with everything it needs. What it needs keeps
        the rule that is there; everything new is a built-in rule. */
    method AddPrimitive(name: string, b: Builtin) returns (key: string)
      requires Valid() && BuiltinOk(b) && ValidNames(rules) && MayStand(name, b) && BuiltinsSafe(tables, guarded)
      modifies this`rules
      ensures Valid() && Extends(rules, old(rules)) && Keeps(old(rules)) && key in rules && rules[key] == b.content
      ensures KeyOf(name, key) && Elements(b.deps) <= rules.Keys && OnlyBuiltins(old(rules)[key := b.content])
    {
      hide BuiltinsSafe, SafeFor, KeyOf, ValidName, SafeBuiltin;
      ghost var before := rules;
      key := AddRule(name, b.content);
      KeyValid(name, key);
      KeyMayStand(before, name, key, b);
      ghost var middle := rules;
      AddDeps(b.deps, {});
      ExtendsTwice(rules, middle, before);
      KeptTwice(rules, middle, before, tables, guarded.builtins);
    }

    lemma KeyMayStand(before: Rules, name: string, key: string, b: Builtin)
      requires MayStand(name, b) && KeyOf(name, key) && Extends(rules, before) && rules == before[key := b.content]
      ensures key !in guarded.refs && KeptSince(rules, before, tables, guarded.builtins)
    {
      hide SafeFor, SafeBuiltin, KeyOf;
      if SafeFor(guarded, name, None) {
        KeyNotGuarded(guarded, name, key, None);
      } else {
        KeyIsBuiltin(guarded, name, key);
      }
    }

    lemma KeptTwice(rules: Rules, middle: Rules, before: Rules, t: Tables, kept: set<string>)
      requires Extends(rules, middle) && KeptSince(middle, before, t, kept) && KeptSince(rules, middle, t, kept)
      ensures KeptSince(rules, before, t, kept)
    {}

    /** The rules of a dependency list that are not there yet. */
    method AddDeps(deps: seq<string>, ghost extra: set<string>)
      requires BuiltinsOk() && SPACE in rules && Closed(extra + Elements(deps)) && ValidNames(rules)
      requires BuiltinsSafe(tables, guarded)
      requires forall d :: d in deps ==> d in BuiltinNames(tables)
      modifies this`rules
      ensures Closed(extra) && Extends(rules, old(rules)) && Keeps(old(rules)) && Elements(deps) <= rules.Keys
      ensures OnlyBuiltins(old(rules))
      decreases BuiltinsLeft(), 1
    {
      hide Closed, BuiltinsOk, BuiltinsSafe, ValidNames, Extends, Keeps, OnlyBuiltins;
      ghost var wanted := extra + Elements(deps);
      ghost var added: set<string> := {};
      ghost var before := rules;
      ExtendsSelf(rules);
      KeepsSelf();
      for k := 0 to |deps|
        invariant Extends(rules, before) && Keeps(before) && OnlyBuiltins(before) && SPACE in rules && Closed(wanted)
        invariant added <= rules.Keys && forall j :: 0 <= j < k ==> deps[j] in added
        invariant BuiltinsLeft() <= old(BuiltinsLeft())
      {
        NextDep(deps[k], wanted, before);
        added := added + {deps[k]};
      }
      assert Elements(deps) <= added;
      ClosedDrop(extra, Elements(deps));
    }

    lemma KeepsSelf()
      requires ValidNames(rules)
      ensures Keeps(rules) && OnlyBuiltins(rules)
    {}

    lemma KeepsOver(middle: Rules, before: Rules)
      requires Keeps(middle) && Extends(rules, middle) && KeptSince(middle, before, tables, guarded.builtins)
      requires forall n :: n in guarded.refs && n in middle ==> n in before
      ensures Keeps(before)
    {}

    lemma KeepsTwice(middle: Rules, before: Rules)
      requires Keeps(middle) && OnlyBuiltins(middle) && Extends(rules, middle)
      requires ValidNames(middle) && forall n :: n in guarded.refs && n in middle ==> n in before
      requires forall n :: n in middle ==> n in before || HasBuiltin(middle, tables, n)
      ensures Keeps(before) && OnlyBuiltins(before)
    {}

    /** One dependency, if it is not there yet. */
    method NextDep(dep: string, ghost extra: set<string>, ghost before: Rules)
      requires BuiltinsOk() && SPACE in rules && Closed(extra) && BuiltinsSafe(tables, guarded)
      requires dep in BuiltinNames(tables)
      requires Extends(rules, before) && Keeps(before) && OnlyBuiltins(before)
      modifies this`rules
      ensures Closed(extra) && Extends(rules, before) && Keeps(before) && OnlyBuiltins(before) && SPACE in rules && dep in rules
      ensures old(rules).Keys <= rules.Keys && BuiltinsLeft() <= old(BuiltinsLeft())
      decreases BuiltinsLeft(), 0, 1
    {
      hide Closed, BuiltinsOk, BuiltinsSafe;
      ghost var middle := rules;
      ExtendsSelf(middle);
      if dep !in rules {
        AddDep(dep, extra);
        KeepsTwice(middle, before);
        ExtendsTwice(rules, middle, before);
      }
      hide ValidNames, Keeps, OnlyBuiltins;
      FewerLeft(middle);
    }

    lemma ClosedDrop(extra: set<string>, found: set<string>)
      requires Closed(extra + found) && found <= rules.Keys
      ensures Closed(extra)
    {}

    method AddDep(dep: string, ghost extra: set<string>)
      requires BuiltinsOk() && SPACE in rules && Closed(extra) && ValidNames(rules) && BuiltinsSafe(tables, guarded)
      requires dep !in rules && dep in BuiltinNames(tables)
      modifies this`rules
      ensures Closed(extra) && Extends(rules, old(rules)) && Keeps(old(rules)) && OnlyBuiltins(old(rules)) && dep in rules
      decreases BuiltinsLeft(), 0, 0
    {
      DepOk(dep);
      DepSafe(dep);
      hide *;
      var b := BuiltinOf(tables, dep);
      ghost var before := rules;
      var key := AddRule(dep, b.content);
      ghost var middle := rules;
      DepAdded(before, dep, key, b, extra);
      AddDeps(b.deps, extra);
      KeepsTwice(middle, before);
      ExtendsTwice(rules, middle, before);
      StillThere(middle, dep);
    }

    lemma StillThere(before: Rules, n: string)
      requires Extends(rules, before) && n in before
      ensures n in rules
    {}

    lemma DepAdded(before: Rules, dep: string, key: string, b: Builtin, extra: set<string>)
      requires rules == before[key := b.content] && Extends(rules, before) && BuiltinOk(b) && ValidNames(before)
      requires KeyOf(dep, key) && SafeBuiltin(guarded, dep) && SPACE in before
      requires ValidName(dep) && dep !in before && (ValidName(dep) && dep !in before ==> key == dep)
      requires dep in BuiltinNames(tables) && b == BuiltinOf(tables, dep)
      requires forall n :: n in before ==> RefsOf(before[n]) <= before.Keys + Pending() + extra
      ensures Closed(extra + Elements(b.deps)) && ValidNames(rules) && SPACE in rules && dep in rules
      ensures forall d :: d in b.deps ==> d in BuiltinNames(tables)
      ensures forall n :: n in guarded.refs && n in rules ==> n in before
      ensures forall n :: n in rules ==> n in before || HasBuiltin(rules, tables, n)
      ensures BuiltinsLeft() < |BuiltinNames(tables) - before.Keys|
    {
      KeyIsBuiltin(guarded, dep, key);
      hide SafeBuiltin, KeyOf, ValidName;
      var left := BuiltinNames(tables) - before.Keys;
      assert BuiltinNames(tables) - rules.Keys == left - {dep};
    }

    lemma DepOk(dep: string)
      requires BuiltinsOk() && dep in BuiltinNames(tables)
      ensures BuiltinOk(BuiltinOf(tables, dep)) && ValidName(dep)
    {}

    lemma DepSafe(dep: string)
      requires BuiltinsSafe(tables, guarded) && dep in BuiltinNames(tables)
      ensures SafeBuiltin(guarded, dep)
    {
      hide SafeBuiltin;
    }

    lemma FewerLeft(before: Rules)
      requires Extends(rules, before)
      ensures BuiltinsLeft() <= |BuiltinNames(tables) - before.Keys| && before.Keys <= rules.Keys
    {
      SubsetSize(BuiltinNames(tables) - rules.Keys, BuiltinNames(tables) - before.Keys);
    }

    // ----- objects -----

    /** The names of the "-rest" rules of these keys are free to take. */
    ghost predicate RestsSafe(name: string, ks: seq<string>) {
      forall k :: k in ks ==> SafeFor(guarded, Dash(name) + k + "-rest", None)
    }

    lemma RestsSafeBehind(name: string, ks: seq<string>, i: nat)
      requires RestsSafe(name, ks) && i <= |ks|
      ensures RestsSafe(name, ks[i..])
    {
      hide SafeFor;
    }

    /** `get_recursive_refs`, writing the "-rest" rules on the way. */
    method RecursiveRefs(kv: map<string, string>, name: string, ks: seq<string>, optional: bool) returns (e: Expr)
      requires ks != [] && Named(kv, ks) && SPACE in rules && Closed({}) && kv.Values <= rules.Keys
      requires ValidNames(rules) && RestsSafe(name, ks)
      modifies this`rules
      ensures Extends(rules, old(rules)) && Closed({}) && Keeps(old(rules))
      ensures IsRefs(rules, kv, ks, optional, e) && RefsOf(e) <= rules.Keys
      decreases |ks|
    {
      hide Closed, Extends, RefsOf, IsRefs, SafeFor, ValidNames;
      var k := ks[0];
      var head := Head(kv[k], k == STAR, optional);
      HeadRefs(kv[k], k == STAR, optional);
      assert kv[k] in kv.Values;
      ExtendsSelf(rules);
      if |ks| == 1 {
        LastRefs(rules, kv, ks, optional);
        return head;
      }
      RestsSafeBehind(name, ks, 1);
      var rest := RecursiveRefs(kv, name, ks[1..], true);
      ghost var middle := rules;
      var rule := AddClosed(Dash(name) + k + "-rest", rest);
      KeepsOver(middle, old(rules));
      ExtendsTwice(rules, middle, old(rules));
      RefsStay(rules, middle, kv, ks[1..], true, rest);
      e := Seq(head, Ref(rule));
      MoreRefs(rules, kv, ks, optional, rule);
    }

    lemma LastRefs(rules: Rules, kv: map<string, string>, ks: seq<string>, optional: bool)
      requires Named(kv, ks) && |ks| == 1
      ensures IsRefs(rules, kv, ks, optional, Head(kv[ks[0]], ks[0] == STAR, optional))
    {}

    lemma MoreRefs(rules: Rules, kv: map<string, string>, ks: seq<string>, optional: bool, rule: string)
      requires Named(kv, ks) && |ks| > 1 && rule in rules && IsRefs(rules, kv, ks[1..], true, rules[rule])
      requires RefsOf(Head(kv[ks[0]], ks[0] == STAR, optional)) <= rules.Keys
      ensures IsRefs(rules, kv, ks, optional, Seq(Head(kv[ks[0]], ks[0] == STAR, optional), Ref(rule)))
      ensures RefsOf(Seq(Head(kv[ks[0]], ks[0] == STAR, optional), Ref(rule))) <= rules.Keys
    {
      hide Head;
    }

    /** One alternative for each optional key a selection may start with. */
    method Starts(kv: map<string, string>, name: string, optional: seq<string>) returns (alts: seq<Expr>)
      requires Named(kv, optional) && SPACE in rules && Closed({}) && kv.Values <= rules.Keys
      requires ValidNames(rules) && RestsSafe(name, optional)
      modifies this`rules
      ensures Extends(rules, old(rules)) && Closed({}) && Keeps(old(rules))
      ensures AreStarts(rules, kv, optional, alts)
      ensures forall i :: 0 <= i < |alts| ==> RefsOf(alts[i]) <= rules.Keys
    {
      hide SafeFor, ValidNames, IsRefs, Extends, Closed, RefsOf, RestsSafe;
      ExtendsSelf(rules);
      alts := [];
      for i := 0 to |optional|
        invariant |alts| == i && Extends(rules, old(rules)) && Closed({}) && Keeps(old(rules)) && SPACE in rules
        invariant kv.Values <= rules.Keys
        invariant forall j :: 0 <= j < i ==> IsRefs(rules, kv, optional[j..], false, alts[j])
        invariant forall j :: 0 <= j < i ==> RefsOf(alts[j]) <= rules.Keys
      {
        ghost var before := rules;
        RestsSafeBehind(name, optional, i);
        var alt := RecursiveRefs(kv, name, optional[i..], false);
        KeepsOver(before, old(rules));
        ExtendsTwice(rules, before, old(rules));
        ExtendsKeys(rules, before);
        forall j | 0 <= j < i ensures IsRefs(rules, kv, optional[j..], false, alts[j]) {
          RefsStay(rules, before, kv, optional[j..], false, alts[j]);
        }
        alts := alts + [alt];
      }
    }

    lemma ExtendsKeys(rules: Rules, before: Rules)
      requires Extends(rules, before)
      ensures before.Keys <= rules.Keys
    {}

    /** Required members, the alternatives for the optional ones, and the braces. */
    method ObjectRuleBody(kv: map<string, string>, name: string, required: seq<string>, optional: seq<string>)
      returns (e: Expr)
      requires Named(kv, required) && Named(kv, optional) && SPACE in rules && Closed({}) && kv.Values <= rules.Keys
      requires ValidNames(rules) && RestsSafe(name, optional)
      modifies this`rules
      ensures Extends(rules, old(rules)) && Closed({}) && Keeps(old(rules))
      ensures IsObject(rules, kv, required, optional, e) && RefsOf(e) <= rules.Keys
    {
      hide SafeFor;
      var alts := Starts(kv, name, optional);
      BodyRefs(kv, required, alts, rules.Keys);
      e := ObjectBody(kv, required, alts);
    }

    ghost function CharContent(): (e: Expr)
      requires BuiltinsOk()
    {
      tables.primitives["char"].content
    }

    // ----- visiting -----

    /** The state between two steps; right after the rule of a reference has been written, `but`
        is its name. */
    ghost predicate StateBut(but: Option<string>)
      reads this
    {
      Valid() && ObjectsOk(rules, objects, CharContent()) && Sound(rules, Now(), but)
    }

    ghost predicate State()
      reads this
    {
      StateBut(None)
    }

    ghost function Here(): (m: Moment)
      reads this
    {
      Moment(rules, Now(), objects)
    }

    /** The parts of `State` that callers use. */
    lemma StateFacts()
      requires State()
      ensures BuiltinsOk() && SPACE in rules && Closed({}) && ValidNames(rules)
      ensures {"char", "object", "value", "string", "uuid"} <= tables.primitives.Keys
      ensures forall n :: n in tables.primitives ==> BuiltinOk(tables.primitives[n])
      ensures forall n :: n in tables.formats ==> BuiltinOk(tables.formats[n])
    {
      hide Sound, ObjectsOk;
      SoundNames(rules, Now());
    }

    lemma SoundNames(rules: Rules, p: Progress)
      requires Sound(rules, p, None)
      ensures ValidNames(rules) && KeptOk(rules, p.t, p.guarded.builtins)
    {}

    ghost predicate NameOk(name: string)
      reads this`rules, this`circular, this`errors
    {
      name in rules || name in Pending()
    }

    lemma AptName(s: Schema, name: string, own: Option<string>)
      requires State() && Apt(Now(), s, name, own) && s.ref.None? && !Direct(tables, s)
      ensures NameFree(Now(), RuleName(tables, name), own)
    {
      hide SafeFor, Direct, SafeIn, Mentions, Sound, Valid, ObjectsOk;
      if own.Some? { LastResolving(rules, Now(), own.value); }
    }

    lemma LastResolving(rules: Rules, p: Progress, ref: string)
      requires Sound(rules, p, None) && p.trail != [] && p.trail[|p.trail| - 1] == ref
      ensures ref in p.resolving
    {
      assert p.trail[|p.trail| - 1] in Elements(p.trail);
    }

    /** `_add_rule` for a body whose references are known. */
    method Add(name: string, body: Expr, ghost own: Option<string>) returns (key: string)
      requires State() && RefsOf(body) <= rules.Keys + Pending() && NameFree(Now(), name, own)
      modifies this`rules
      ensures StateBut(Landing(tables, own, key)) && (own.None? ==> State())
      ensures After(Here(), old(Here())) && key in rules && rules[key] == body && rules == old(rules)[key := body]
      ensures KeyOf(name, key) && (ValidName(name) && name !in old(rules) ==> key == name)
      ensures Escape(name) !in old(rules) ==> key == Escape(name)
      ensures own.Some? && Fine(Now()) ==> Landing(tables, own, key).Some?
    {
      hide SafeFor, Sound, KeyOf, ValidName, Direct, RuleName, ObjectsOk, Escape, BuiltinsOk;
      ghost var before := rules;
      if own.Some? && Fine(Now()) { OwnFree(rules, Now(), own.value); }
      key := AddRule(name, body);
      Added(before, name, key, own);
    }

    lemma Added(before: Rules, name: string, key: string, own: Option<string>)
      requires BuiltinsOk() && Extends(rules, before) && rules.Keys == before.Keys + {key} && KeyOf(name, key)
      requires ObjectsOk(before, objects, CharContent()) && Sound(before, Now(), None)
      requires SafeFor(guarded, name, Except(tables, own))
      ensures ObjectsOk(rules, objects, CharContent())
      ensures Sound(rules, Now(), Landing(tables, own, key)) && (own.None? ==> Sound(rules, Now(), None))
    {
      SoundNames(before, Now());
      KeyValid(name, key);
      KeyNotGuarded(guarded, name, key, Except(tables, own));
      NoneKept(rules, before, tables, guarded.builtins, key);
      hide SafeFor, Sound, KeyOf, ValidName, Except, KeptOk, KeptSince;
      ObjectsStay(rules, before, objects, CharContent());
      SoundStays(rules, before, Now(), Landing(tables, own, key));
    }

    method AddBuiltin(name: string, b: Builtin) returns (key: string)
      requires State() && BuiltinOk(b) && MayStand(name, b) && BuiltinsSafe(tables, guarded)
      modifies this`rules
      ensures State() && After(Here(), old(Here())) && key in rules && rules[key] == b.content
    {
      hide SafeFor, BuiltinsSafe, Sound, EntryOk, MayStand, KeptOk, KeptSince, OnlyBuiltins, KeyOf;
      ghost var before := rules;
      SoundNames(rules, Now());
      key := AddPrimitive(name, b);
      KeptStays(rules, before, tables, guarded.builtins);
      ObjectsStay(rules, before, objects, CharContent());
      SoundStays(rules, before, Now(), None);
    }

    /** An object rule enters the table and is recorded with what it was written for. */
    method AddObject(name: string, body: Expr, ghost spec: ObjectSpec, ghost own: Option<string>) returns (key: string)
      requires State() && RefsOf(body) <= rules.Keys + Pending() && SpecOk(rules, spec, CharContent(), body) && NameFree(Now(), name, own)
      modifies this`rules, this`objects
      ensures StateBut(Landing(tables, own, key)) && (own.None? ==> State())
      ensures After(Here(), old(Here())) && key in objects && objects[key] == spec && key in rules && rules[key] == body
      ensures own.Some? && Fine(Now()) ==> Landing(tables, own, key).Some?
    {
      hide Sound, NameFree, KeyOf, ValidName, Closed, SpecOk, Landing, BuiltinsOk, Escape, Fine;
      ghost var before := rules;
      key := Add(name, body, own);
      SpecStays(rules, before, spec, CharContent(), body);
      objects := objects[key := spec];
    }

    /** One property: its value rule and the rule for the whole member. */
    method VisitProperty(p: Property, name: string, ghost bound: nat) returns (rule: string, ghost value: string)
      requires State() && Size(p.schema) < bound && Covered(Now(), Mentions(p.schema))
      requires SafeHelpers(guarded, p.name, name) && SafeAll(tables, guarded, scope, p.schema, Dash(name) + p.name, Top(Now()))
      modifies this
      ensures State() && After(Here(), old(Here())) && rule in rules && rules[rule] == KvBody(p.name, value)
      ensures Fine(Now()) ==> MemberBuilt(rules, tables, p, rule, bound)
      ensures AllHandled(rules, Now(), Mentions(p.schema))
      ensures TakenName(p.schema, old(rules), rules, value)
      ensures AtOnceNamed(tables, p.schema, Dash(name) + p.name, old(rules), rules)
      ensures ErrorsAs(tables, Convertible(tables, p.schema), old(errors), errors)
      decreases RefsLeft(), bound, 0
    {
      hide StateBut, After, KvBody, Built, Mentions, SafeFor, SafeAll, Covered, AllHandled, TablesOk, EntryOk, Size,
        RefsOf, Apt, TakenName, AtOnceNamed, NameFree, KeyOf, ValidName, Extends, Closed, ValidNames, Fine, Landing,
        Convertible, ErrorsAs;
      PropertyApt(p.schema, Dash(name) + p.name);
      ghost var m0 := Here();
      var v := Visit(p.schema, Dash(name) + p.name, None);
      value := v;
      ghost var m1 := Here();
      StateFacts();
      KvRefs(p.name, v);
      HelpersFree(p.name, name);
      rule := Add(Dash(name) + p.name + "-kv", KvBody(p.name, v), None);
      AfterTwice(Here(), m1, m0);
      AfterFacts(Here(), m1);
      HandledAfter(Here(), m1, Mentions(p.schema));
      TakenStays(p.schema, m0.rules, m1.rules, rules, v);
      AtOnceStays(tables, p.schema, Dash(name) + p.name, m0.rules, m1.rules, rules);
      if Fine(Now()) {
        BuiltStays(rules, m1.rules, tables, p.schema, v);
        MemberIntro(rules, tables, p, rule, v, bound);
      }
    }

    lemma PropertyApt(s: Schema, name: string)
      requires Covered(Now(), Mentions(s)) && SafeAll(tables, guarded, scope, s, name, Top(Now()))
      ensures Apt(Now(), s, name, None)
    {
      hide SafeIn, SafeSelf, Mentions, Covered;
    }

    lemma HelpersFree(key: string, name: string)
      requires SafeHelpers(guarded, key, name)
      ensures NameFree(Now(), Dash(name) + key + "-kv", None)
    {
      hide SafeFor;
    }

    /** One more property: its rules, and its key among the required or the optional ones. */
    method NextProperty(p: Property, required: set<string>, name: string, kv: map<string, string>, requiredKeys: seq<string>,
                        optionalKeys: seq<string>, ghost done: seq<Property>, ghost bound: nat)
      returns (kv1: map<string, string>, requiredKeys1: seq<string>, optionalKeys1: seq<string>)
      requires State() && Size(p.schema) < bound && Smaller(done, bound) && Covered(Now(), Mentions(p.schema))
      requires SafeHelpers(guarded, p.name, name) && SafeAll(tables, guarded, scope, p.schema, Dash(name) + p.name, Top(Now()))
      requires PropertiesDone(rules, tables, done, required, kv, requiredKeys, optionalKeys, Fine(Now()), bound)
      modifies this
      ensures State() && After(Here(), old(Here())) && Smaller(done + [p], bound)
      ensures PropertiesDone(rules, tables, done + [p], required, kv1, requiredKeys1, optionalKeys1, Fine(Now()), bound)
      ensures AllHandled(rules, Now(), Mentions(p.schema))
      ensures AtOnceNamed(tables, p.schema, Dash(name) + p.name, old(rules), rules)
      ensures ErrorsAs(tables, Convertible(tables, p.schema), old(errors), errors)
      decreases RefsLeft(), bound, 1
    {
      hide Convertible, ErrorsAs, StateBut, After, KvBody, Built, Mentions, SafeAll, SafeHelpers, Covered, AllHandled,
        Size, PropertiesDone, Smaller, Fine, MemberBuilt, TakenName, AtOnceNamed, Extends;
      ghost var m0 := Here();
      var rule, value := VisitProperty(p, name, bound);
      AfterFacts(Here(), m0);
      PropertiesStep(rules, m0.rules, tables, done, required, kv, requiredKeys, optionalKeys, Fine(m0.progress), Fine(Now()), p, rule, bound);
      kv1, requiredKeys1, optionalKeys1 := kv[p.name := rule], requiredKeys, optionalKeys;
      if p.name in required {
        requiredKeys1 := requiredKeys + [p.name];
      } else {
        optionalKeys1 := optionalKeys + [p.name];
      }
    }

    method VisitProperties(ps: seq<Property>, required: set<string>, name: string, ghost bound: nat)
      returns (kv: map<string, string>, requiredKeys: seq<string>, optionalKeys: seq<string>)
      requires State() && Smaller(ps, bound) && Covered(Now(), MentionsIn(ps, bound))
      requires SafeProperties(tables, guarded, scope, ps, name, Top(Now()), bound)
      modifies this
      ensures State() && After(Here(), old(Here()))
      ensures requiredKeys == RequiredKeys(ps, required) && optionalKeys == OptionalKeys(ps, required)
      ensures kv.Keys == Elements(Names(ps)) && kv.Values <= rules.Keys
      ensures KvAll(rules, kv, ps)
      ensures Fine(Now()) ==> MembersBuilt(rules, tables, ps, kv, false, bound)
      ensures AllHandled(rules, Now(), MentionsIn(ps, bound)) && FirstNamed(tables, ps, name, old(rules), rules)
      ensures ErrorsAs(tables, ConvertibleIn(tables, ps, bound), old(errors), errors)
      decreases RefsLeft(), bound, 2
    {
      hide Convertible, ConvertibleIn, ErrorsAs, StateBut, After, KvAll, RequiredKeys, OptionalKeys, Elements, Names,
        MembersBuilt, Smaller, Size, PropertiesDone, MentionsIn, Mentions, SafeProperties, SafeAll, SafeHelpers,
        Covered, AllHandled, Fine, Extends, AtOnceNamed, FirstNamed, Dash, RefsLeft;
      ghost var m0 := Here();
      kv, requiredKeys, optionalKeys := map[], [], [];
      NothingDone(rules, tables, required, Fine(Now()), bound);
      NothingMentioned(rules, Now(), bound);
      AfterSelf(Here());
      TakeNone(ps);
      for i := 0 to |ps|
        invariant State() && After(Here(), m0) && Smaller(ps[..i], bound)
        invariant PropertiesDone(rules, tables, ps[..i], required, kv, requiredKeys, optionalKeys, Fine(Now()), bound)
        invariant AllHandled(rules, Now(), MentionsIn(ps[..i], bound))
        invariant ErrorsAs(tables, ConvertibleIn(tables, ps[..i], bound), m0.progress.errors, errors)
        invariant if i == 0 then rules == m0.rules else FirstNamed(tables, ps, name, m0.rules, rules)
      {
        ghost var m := Here();
        TakeOneMore(ps, i);
        AfterFacts(m, m0);
        CoveredAfter(m, m0, MentionsIn(ps, bound));
        PropertyParts(ps, name, i, bound);
        kv, requiredKeys, optionalKeys :=
          NextProperty(ps[i], required, name, kv, requiredKeys, optionalKeys, ps[..i], bound);
        AfterFacts(Here(), m);
        PropertyAdded(Here(), m, m0, ps[..i], ps[i], bound);
        FirstStep(tables, ps, name, i, m0.rules, m.rules, rules);
      }
      TakeAll(ps);
      FirstOfNone(tables, ps, name, m0.rules, rules);
      DoneMeans(rules, tables, ps, required, kv, requiredKeys, optionalKeys, Fine(Now()), bound);
    }

    lemma NothingMentioned(rules: Rules, p: Progress, bound: nat)
      ensures Smaller([], bound) && AllHandled(rules, p, MentionsIn([], bound))
      ensures ErrorsAs(tables, ConvertibleIn(tables, [], bound), p.errors, p.errors)
    {
      hide TargetsConvertible;
    }

    lemma PropertyParts(ps: seq<Property>, name: string, i: nat, bound: nat)
      requires i < |ps| && Smaller(ps, bound) && SafeProperties(tables, guarded, scope, ps, name, Top(Now()), bound)
      requires Covered(Now(), MentionsIn(ps, bound))
      ensures Size(ps[i].schema) < bound && Covered(Now(), Mentions(ps[i].schema))
      ensures SafeHelpers(guarded, ps[i].name, name)
      ensures SafeAll(tables, guarded, scope, ps[i].schema, Dash(name) + ps[i].name, Top(Now()))
    {
      MentionsProperty(ps, i, bound);
      hide SafeAll, SafeHelpers, Mentions, MentionsIn;
    }

    /** The rule for additional members. */
    method VisitAdditional(additional: Additional, ps: seq<Property>, name: string, ghost bound: nat) returns (rule: string)
      requires State() && AllowsExtra(additional)
      requires additional.Described? ==> Size(additional.schema) < bound && Covered(Now(), Mentions(additional.schema))
      requires SafeExtra(tables, guarded, scope, additional, name, Top(Now()), bound)
      modifies this
      ensures State() && After(Here(), old(Here())) && rule in rules
      ensures ExtraOk(rules, map[STAR := rule], ps, CharContent())
      ensures Fine(Now()) ==> ExtraBuilt(rules, tables, ps, additional, rule, bound)
      ensures additional.Described? ==> AllHandled(rules, Now(), Mentions(additional.schema))
      ensures ErrorsAs(tables, ConvertibleExtra(additional), old(errors), errors)
      decreases RefsLeft(), bound, 1
    {
      hide ConvertibleExtra, ErrorsAs, StateBut, After, KeyRuleOk, ExtraBody, ExtraOk, RefsOf, Closed, TablesOk,
        EntryOk, ExtraKeyBuilt, ExtraValueBuilt, ExtraBuilt, SafeFor, BuiltinsSafe, SafeAll, Covered, Mentions,
        AllHandled, Size, NameFree, KeyOf, Extends, ValidNames, ValidName, Fine, Landing;
      var subName := Dash(name) + "additional";
      ghost var m0 := Here();
      ExtraParts(additional, name, bound);
      var value := VisitValue(additional, subName, bound);
      ghost var m1 := Here();
      var keyRule; ghost var chr;
      keyRule, chr := AddKeyRule(ps, subName);
      ghost var m2 := Here();
      AfterTwice(m2, m1, m0);
      AfterFacts(m2, m1);
      StateFacts();
      ExtraRefs(keyRule, value);
      FreeAfter(m2, m0, subName + "-kv", None);
      rule := Add(subName + "-kv", ExtraBody(keyRule, value), None);
      AfterTwice(Here(), m2, m0);
      AfterTwice(Here(), m2, m1);
      AfterFacts(Here(), m2);
      KeyRuleStays(rules, m2.rules, keyRule, chr, ps, CharContent());
      ExtraIntro(rules, rule, keyRule, value, chr, ps, CharContent());
      if additional.Described? { HandledAfter(Here(), m1, Mentions(additional.schema)); }
      if Fine(Now()) {
        ExtraValueStays(m2.rules, m1.rules, tables, additional, value, bound);
        ExtraValueStays(rules, m2.rules, tables, additional, value, bound);
        ExtraKeyStays(rules, m2.rules, tables, ps, keyRule, chr);
        ExtraBuiltIntro(rules, tables, ps, additional, rule, keyRule, value, chr, bound);
      }
    }

    lemma ExtraParts(additional: Additional, name: string, bound: nat)
      requires AllowsExtra(additional) && (additional.Described? ==> Size(additional.schema) < bound)
      requires SafeExtra(tables, guarded, scope, additional, name, Top(Now()), bound)
      ensures
        var sub := Dash(name) + "additional";
        && BuiltinsSafe(tables, guarded) && SafeFor(guarded, sub + "-k", None) && NameFree(Now(), sub + "-kv", None)
        && (additional.Described? ==> SafeAll(tables, guarded, scope, additional.schema, sub + "-value", Top(Now())))
    {
      hide SafeFor, BuiltinsSafe, SafeAll;
    }

    method VisitValue(additional: Additional, subName: string, ghost bound: nat) returns (value: string)
      requires State() && AllowsExtra(additional) && BuiltinsSafe(tables, guarded)
      requires additional.Described? ==>
        && Size(additional.schema) < bound && Covered(Now(), Mentions(additional.schema))
        && SafeAll(tables, guarded, scope, additional.schema, subName + "-value", Top(Now()))
      modifies this
      ensures State() && After(Here(), old(Here())) && NameOk(value)
      ensures Fine(Now()) ==> ExtraValueBuilt(rules, tables, additional, value, bound)
      ensures additional.Described? ==> AllHandled(rules, Now(), Mentions(additional.schema))
      ensures ErrorsAs(tables, ConvertibleExtra(additional), old(errors), errors)
      decreases RefsLeft(), bound, 0
    {
      hide Convertible, TargetsConvertible, StateBut, After, RefsOf, Closed, TablesOk, EntryOk, Built, Size, Mentions,
        Covered, SafeAll, BuiltinsSafe, SafeFor, AllHandled, Apt, Fine, ValidNames, TakenName, AtOnceNamed, Landing;
      StateFacts();
      if additional.Described? {
        PropertyApt(additional.schema, subName + "-value");
        value := Visit(additional.schema, subName + "-value", None);
      } else {
        BuiltinSafe("value");
        value := AddBuiltin("value", tables.primitives["value"]);
      }
    }

    ghost predicate ConvertibleExtra(additional: Additional) {
      additional.Described? ==> Convertible(tables, additional.schema)
    }

    lemma BuiltinSafe(name: string)
      requires BuiltinsOk() && BuiltinsSafe(tables, guarded)
      ensures name in tables.primitives ==> MayStand(name, tables.primitives[name])
      ensures name in tables.formats ==> MayStand(name, tables.formats[name])
    {
      hide SafeFor, SafeBuiltin, EntryOk;
    }

    method AddKeyRule(ps: seq<Property>, subName: string) returns (keyRule: string, ghost chr: string)
      requires State() && BuiltinsSafe(tables, guarded) && SafeFor(guarded, subName + "-k", None)
      modifies this`rules
      ensures State() && After(Here(), old(Here())) && keyRule in rules && KeyRuleOk(rules, keyRule, chr, ps, CharContent())
      ensures ExtraKeyBuilt(rules, tables, ps, keyRule, chr)
    {
      hide StateBut, After, NotStrings.NotStringsRule, BuiltinsSafe, SafeFor, KeyOf, ValidName, Closed, ValidNames,
        Landing, Fine;
      StateFacts();
      ghost var m0 := Here();
      if ps == [] {
        chr := "";
        BuiltinSafe("string");
        keyRule := AddBuiltin("string", tables.primitives["string"]);
      } else {
        BuiltinSafe("char");
        var c := AddBuiltin("char", tables.primitives["char"]);
        ghost var m1 := Here();
        chr := c;
        NotStringsRefs(Names(ps), c);
        StateFacts();
        keyRule := Add(subName + "-k", NotStrings.NotStringsRule(Names(ps), c), None);
        AfterFacts(Here(), m1);
        AfterTwice(Here(), m1, m0);
      }
    }

    /** `_build_object_rule`. */
    method BuildObjectRule(ps: seq<Property>, required: set<string>, name: string, additional: Additional, ghost bound: nat)
      returns (e: Expr, ghost spec: ObjectSpec)
      requires State() && Smaller(ps, bound) && Covered(Now(), MentionsIn(ps, bound))
      requires additional.Described? ==> Size(additional.schema) < bound && Covered(Now(), Mentions(additional.schema))
      requires SafeProperties(tables, guarded, scope, ps, name, Top(Now()), bound)
      requires SafeExtra(tables, guarded, scope, additional, name, Top(Now()), bound)
      modifies this
      ensures State() && After(Here(), old(Here())) && RefsOf(e) <= rules.Keys && SpecOk(rules, spec, CharContent(), e)
      ensures spec.properties == ps && spec.required == required
      ensures spec.extra <==> AllowsExtra(additional)
      ensures Fine(Now()) ==> ObjectBuiltWith(rules, tables, ps, required, additional, spec.kv, e, bound)
      ensures AllHandled(rules, Now(), MentionsIn(ps, bound)) && FirstNamed(tables, ps, name, old(rules), rules)
      ensures additional.Described? ==> AllHandled(rules, Now(), Mentions(additional.schema))
      ensures ErrorsAs(tables, ConvertibleIn(tables, ps, bound) && (AllowsExtra(additional) ==> ConvertibleExtra(additional)), old(errors), errors)
      decreases RefsLeft(), bound, 3
    {
      hide ConvertibleExtra, ConvertibleIn, ErrorsAs, StateBut, After, Extends, KvAll, KvOk, ExtraOk, IsObject,
        MembersBuilt, ExtraBuilt, SafeProperties, SafeExtra, MentionsIn, Mentions, AllHandled, SafeFor, Covered, Size,
        Fine, Closed, TablesOk, EntryOk, ValidNames, RestsSafe, RequiredKeys, OptionalKeys, Names, SpecOk,
        ObjectBuiltWith, FirstNamed;
      ghost var m0 := Here();
      var kv, requiredKeys, optionalKeys := VisitProperties(ps, required, name, bound);
      KeysNamed(ps, required);
      ghost var m1 := Here();
      AfterFacts(m1, m0);
      var extra := AllowsExtra(additional);
      StateFacts();
      if additional.Described? { CoveredAfter(m1, m0, Mentions(additional.schema)); }
      if extra {
        var rule := VisitAdditional(additional, ps, name, bound);
        AfterFacts(Here(), m1);
        AfterTwice(Here(), m1, m0);
        ErrorsBoth(tables, ConvertibleIn(tables, ps, bound), ConvertibleExtra(additional), m0.progress.errors, m1.progress.errors, errors);
        HandledAfter(Here(), m1, MentionsIn(ps, bound));
        StarMember(rules, m1.rules, kv, rule, ps, CharContent());
        if Fine(Now()) {
          MembersStay(rules, m1.rules, tables, ps, kv, false, bound);
          StarAdded(rules, tables, ps, kv, rule, bound);
        }
        FirstStays(tables, ps, name, m0.rules, m1.rules, rules);
        StarNamed(rules, kv, rule);
        kv := kv[STAR := rule];
        optionalKeys := optionalKeys + [STAR];
      } else {
        KvIsOk(rules, kv, ps);
      }
      ghost var m2 := Here();
      StateFacts();
      AfterFacts(m2, m0);
      RestsFree(ps, required, name, additional, bound);
      e := ObjectRuleBodyKept(kv, name, requiredKeys, optionalKeys);
      AfterFacts(Here(), m2);
      AfterTwice(Here(), m2, m0);
      FirstStays(tables, ps, name, m0.rules, m2.rules, rules);
      HandledAfter(Here(), m2, MentionsIn(ps, bound));
      if additional.Described? { HandledAfter(Here(), m2, Mentions(additional.schema)); }
      spec := ObjectSpec(ps, required, extra, kv);
      SpecIntro(rules, m2.rules, spec, CharContent(), e);
      if Fine(Now()) { ObjectBuiltLater(rules, m2.rules, tables, ps, required, additional, kv, e, bound); }
    }

    lemma StarNamed(rules: Rules, kv: map<string, string>, rule: string)
      requires kv.Values <= rules.Keys && rule in rules
      ensures kv[STAR := rule].Values <= rules.Keys
    {}

    /** The optional keys are names of properties, and `"*"` where additional members are allowed. */
    lemma RestsFree(ps: seq<Property>, required: set<string>, name: string, additional: Additional, bound: nat)
      requires Smaller(ps, bound) && SafeProperties(tables, guarded, scope, ps, name, Top(Now()), bound)
      requires additional.Described? ==> Size(additional.schema) < bound
      requires SafeExtra(tables, guarded, scope, additional, name, Top(Now()), bound)
      ensures RestsSafe(name, WithStar(OptionalKeys(ps, required), AllowsExtra(additional)))
    {
      KeysNamed(ps, required);
      hide SafeFor, SafeAll, OptionalKeys, RequiredKeys;
      var ks := WithStar(OptionalKeys(ps, required), AllowsExtra(additional));
      forall k | k in ks ensures SafeFor(guarded, Dash(name) + k + "-rest", None) {
        if k in OptionalKeys(ps, required) {
          assert k in Elements(OptionalKeys(ps, required));
          assert k in Names(ps);
          var i :| 0 <= i < |ps| && Names(ps)[i] == k;
          assert SafeHelpers(guarded, ps[i].name, name);
        }
      }
    }

    method ObjectRuleBodyKept(kv: map<string, string>, name: string, required: seq<string>, optional: seq<string>)
      returns (e: Expr)
      requires State() && Named(kv, required) && Named(kv, optional) && kv.Values <= rules.Keys && RestsSafe(name, optional)
      modifies this`rules
      ensures State() && After(Here(), old(Here())) && IsObject(rules, kv, required, optional, e) && RefsOf(e) <= rules.Keys
    {
      hide RestsSafe, Sound, IsObject, TablesOk;
      ghost var before := rules;
      SoundNames(rules, Now());
      e := ObjectRuleBody(kv, name, required, optional);
      KeptStays(rules, before, tables, guarded.builtins);
      ObjectsStay(rules, before, objects, CharContent());
      SoundStays(rules, before, Now(), None);
    }

    /** `_resolve_ref`: a reference is entered unless its rule exists or it is being entered. */
    method ResolveRef(ref: string, ghost bound: nat) returns (name: string, ghost deferred: bool)
      requires State() && bound > Size(NULL_SCHEMA) && Covered(Now(), {ref})
      modifies this
      ensures State() && After(Here(), old(Here()))
      ensures deferred ==> name == LastComponent(ref) && name !in rules && ref in resolving
      ensures !deferred ==> NameOk(name) && (name in rules || errors > 0)
      ensures LastComponent(ref) in old(rules) ==> name == LastComponent(ref)
      ensures Fine(Now()) ==> RefBuilt(rules, tables, ref, Ref(name)) && Known(Now(), ref)
      ensures Fine(Now()) && Direct(tables, Target(tables, ref)) && name != LastComponent(ref) ==>
        name in rules && rules[name] == DirectContent(tables, Target(tables, ref))
      ensures !deferred ==> Handled(rules, Now(), ref)
      ensures ErrorsAs(tables, true, old(errors), errors) && (LastComponent(ref) in old(rules) ==> errors == old(errors))
      decreases RefsLeft(), bound, 1
    {
      hide TargetsConvertible, StateBut, After, Direct, RefBuilt, Known, Mentions, Covered, Size, Sound, SafeFor,
        SafeIn, Fine, DirectContent, Built, AllHandled, MentionsOf, Except, Landing, TakenName, AtOnceNamed, Handled,
        TablesOk;
      name := LastComponent(ref);
      deferred := false;
      AfterSelf(Here());
      if name !in rules && ref !in resolving {
        name := FollowRef(ref, bound);
      } else {
        deferred := name !in rules;
        RefMet(ref);
      }
    }

    /** A reference that is not entered: its rule is there, or it is being resolved. */
    lemma RefMet(ref: string)
      requires State() && Covered(Now(), {ref}) && (LastComponent(ref) in rules || ref in resolving)
      ensures Fine(Now()) ==> RefBuilt(rules, tables, ref, Ref(LastComponent(ref))) && Known(Now(), ref)
      ensures LastComponent(ref) in rules ==> Handled(rules, Now(), ref)
    {
      hide Direct, DirectContent, StandsFor, Valid, ObjectsOk, Mentions, Built, SafeIn, SafeFor;
      if Fine(Now()) {
        if LastComponent(ref) in rules {
          assert ref in {ref};
          TakenRef(rules, Now(), ref);
        } else {
          assert trail != [] by { SomeTrail(rules, Now(), ref); }
          assert ref in {ref};
          TrailLeadsBack(Now(), ref);
          CircularIsNotDirect(Now(), ref);
        }
      }
    }

    lemma SomeTrail(rules: Rules, p: Progress, ref: string)
      requires Sound(rules, p, None) && ref in p.resolving
      ensures p.trail != []
    {
      assert ref in Elements(p.trail);
    }

    /** Enter a reference, visit the schema it stands for, and leave it again. */
    method FollowRef(ref: string, ghost bound: nat) returns (name: string)
      requires State() && bound > Size(NULL_SCHEMA) && Covered(Now(), {ref})
      requires LastComponent(ref) !in rules && ref !in resolving
      modifies this
      ensures State() && After(Here(), old(Here())) && NameOk(name) && (name in rules || errors > 0)
      ensures Fine(Now()) ==> RefBuilt(rules, tables, ref, Ref(name)) && Known(Now(), ref)
      ensures Fine(Now()) && Direct(tables, Target(tables, ref)) && name != LastComponent(ref) ==>
        name in rules && rules[name] == DirectContent(tables, Target(tables, ref))
      ensures Handled(rules, Now(), ref)
      ensures ErrorsAs(tables, true, old(errors), errors)
      decreases RefsLeft(), bound, 0
    {
      hide Convertible, After, Direct, RefBuilt, Known, Mentions, Size, Sound, SafeFor, SafeIn, Fine, DirectContent,
        Built, AllHandled, Except, Landing, TakenName, AtOnceNamed, Valid, ObjectsOk, StandsFor, NULL_SCHEMA, Handled,
        StateBut, Apt, ErrorsAs;
      ghost var m0 := Here();
      Enter(ref);
      ghost var m1 := Here();
      TargetApt(ref);
      name := Visit(Target(tables, ref), LastComponent(ref), Some(ref));
      TargetErrors(tables, ref, m1.progress.errors, errors);
      Leave(ref, name, m0, m1);
    }

    method Enter(ref: string)
      requires State() && Covered(Now(), {ref}) && LastComponent(ref) !in rules && ref !in resolving
      modifies this`resolving, this`trail
      ensures State() && Now() == Entered(old(Now()), ref)
      ensures RefsLeft() == old(RefsLeft()) - if ref in tables.refs then 1 else 0
    {
      hide Sound, Mentions, Valid, ObjectsOk, TablesOk;
      assert ref in {ref};
      EnterSound(rules, Now(), ref);
      FewerRefs(tables.refs.Keys, resolving, ref);
      resolving, trail := resolving + {ref}, trail + [ref];
    }

    lemma TargetErrors(t: Tables, ref: string, before: nat, errors: nat)
      requires ErrorsAs(t, Convertible(t, Target(t, ref)), before, errors)
      ensures ErrorsAs(t, true, before, errors)
    {
      NullConvertible(t);
      hide Convertible;
    }

    lemma TargetApt(ref: string)
      requires State() && trail != [] && trail[|trail| - 1] == ref
      requires if good then ref in scope else guarded == NO_GUARDS || ref in tables.refs
      ensures Apt(Now(), Target(tables, ref), LastComponent(ref), Some(ref))
    {
      hide SafeIn, SafeFor, Mentions, SafeAll, Valid, ObjectsOk, FinishedOk, TrailOk, CircularOk, GuardOk, ValidNames,
        CircularPlaced, FinishedNames;
      LastResolving(rules, Now(), ref);
      if good {
        assert RefOk(tables, scope, guarded, ref);
      } else if guarded != NO_GUARDS {
        assert TargetSafe(tables, guarded, ref);
      } else {
        NothingGuarded(tables, Target(tables, ref), LastComponent(ref), false);
        SafeInside(tables, NO_GUARDS, {}, Target(tables, ref), LastComponent(ref), false);
        NothingFor(RuleName(tables, LastComponent(ref)), Except(tables, Some(ref)));
      }
    }

    lemma NothingFor(n: string, except: Option<string>)
      ensures SafeFor(NO_GUARDS, n, except)
    {}

    lemma SafeInside(t: Tables, g: Guards, scope: set<string>, s: Schema, name: string, top: bool)
      requires SafeAll(t, g, scope, s, name, top)
      ensures SafeIn(t, g, scope, s, name, top)
    {
      hide SafeIn;
    }

    method Leave(ref: string, ghost name: string, ghost m0: Moment, ghost m1: Moment)
      requires ref !in m0.progress.resolving && m1.progress == Entered(m0.progress, ref) && m1.rules == m0.rules && m1.objects == m0.objects
      requires After(Here(), m1) && NameOk(name)
      requires StateBut(if Direct(tables, Target(tables, ref)) then None else Landing(tables, Some(ref), name))
      requires name !in rules ==> name == ""
      requires Fine(Now()) ==> Direct(tables, Target(tables, ref)) || Landing(tables, Some(ref), name).Some?
      requires Fine(Now()) ==> Built(rules, tables, Target(tables, ref), name)
      requires Direct(tables, Target(tables, ref)) ==> name in rules && rules[name] == DirectContent(tables, Target(tables, ref))
      requires AllHandled(rules, Now(), MentionsOf(tables, ref))
      modifies this`resolving, this`trail, this`finished
      ensures State() && After(Here(), m0) && NameOk(name)
      ensures Fine(Now()) ==> RefBuilt(rules, tables, ref, Ref(name)) && Known(Now(), ref)
      ensures Fine(Now()) && Direct(tables, Target(tables, ref)) && name != LastComponent(ref) ==>
        name in rules && rules[name] == DirectContent(tables, Target(tables, ref))
      ensures Handled(rules, Now(), ref)
    {
      hide Direct, Mentions, Size, Sound, SafeFor, SafeIn, DirectContent, Built, AllHandled, Valid, ObjectsOk, TrailOk,
        Extends;
      ghost var but := if Direct(tables, Target(tables, ref)) then None else Landing(tables, Some(ref), name);
      ghost var p := Now();
      LeftAt(m0, m1, ref);
      if Fine(p) { KnownMentions(rules, p, MentionsOf(tables, ref)); }
      if ref in MentionsOf(tables, ref) { HandledOne(rules, p, MentionsOf(tables, ref), ref); }
      LeaveSound(rules, p, ref, but);
      resolving := resolving - {ref};
      trail := trail[..|trail| - 1];
      if but.Some? { finished := finished + {ref}; }
      assert Now() == Left(p, ref, but.Some?);
    }

    lemma LeftAt(m0: Moment, m1: Moment, ref: string)
      requires ref !in m0.progress.resolving && m1.progress == Entered(m0.progress, ref) && m1.rules == m0.rules && m1.objects == m0.objects
      requires After(Here(), m1)
      ensures trail != [] && trail[|trail| - 1] == ref && ref in resolving
      ensures trail[..|trail| - 1] == m0.progress.trail && resolving - {ref} == m0.progress.resolving
      ensures Extends(rules, m0.rules)
    {}

    lemma KnownMentions(rules: Rules, p: Progress, refs: set<string>)
      requires AllHandled(rules, p, refs) && Fine(p)
      ensures forall q :: q in refs ==> Known(p, q)
    {
      hide Known, MentionsOf;
      forall q | q in refs ensures Known(p, q) { assert Handled(rules, p, q); }
    }

    lemma HandledOne(rules: Rules, p: Progress, refs: set<string>, q: string)
      requires AllHandled(rules, p, refs) && q in refs
      ensures Handled(rules, p, q)
    {
      hide Handled;
    }

    /** `_add_rule` for a `$ref`, and a note of a reference met while it was being resolved. */
    method AddReference(s: Schema, name: string, target: string, ghost deferred: bool, ghost own: Option<string>) returns (key: string)
      requires State() && s.ref.Some? && Apt(Now(), s, name, own)
      requires if deferred then target == LastComponent(s.ref.value) && target !in rules && s.ref.value in resolving
               else NameOk(target) && (target in rules || errors > 0)
      requires Fine(Now()) ==> RefBuilt(rules, tables, s.ref.value, Ref(target)) && Known(Now(), s.ref.value)
      requires Fine(Now()) && Direct(tables, Target(tables, s.ref.value)) && target != LastComponent(s.ref.value) ==>
        target in rules && rules[target] == DirectContent(tables, Target(tables, s.ref.value))
      requires !deferred ==> Handled(rules, Now(), s.ref.value)
      modifies this`rules, this`circular
      ensures StateBut(Landing(tables, own, key)) && (own.None? ==> State())
      ensures After(Here(), old(Here())) && key in rules && rules[key] == Ref(target)
      ensures Fine(Now()) ==> RefBuilt(rules, tables, s.ref.value, Ref(target))
      ensures Handled(rules, Now(), s.ref.value)
      ensures own.Some? && Fine(Now()) ==> Landing(tables, own, key).Some?
    {
      hide Direct, Mentions, Sound, SafeFor, SafeIn, SafeAll, DirectContent, Built, KeyOf, ValidName, StandsFor,
        TablesOk, ObjectsOk, MentionsOf, Apt, RuleName, Except, RefBuilt, Handled, Known, After, Extends, Size, Closed;
      ghost var ref, before := s.ref.value, rules;
      var ruleName := RuleName(tables, name);
      ghost var m0 := Here();
      ClosedFacts(before, m0.progress);
      ghost var except := RefExcept(Now(), ref, own);
      SelfSafe(s, name, own);
      if own.Some? { OwnReference(s, name, own.value); }
      if deferred { DeferredMention(s, name, own); }
      key := AddRule(ruleName, Ref(target));
      KeyNotGuarded(guarded, ruleName, key, except);
      ReferenceSound(ref, before, ruleName, key, target, own);
      ObjectsStay(rules, before, objects, CharContent());
      if deferred {
        assert target in RefsOf(rules[key]);
        DeferSound(rules, Now(), ref, Landing(tables, own, key));
        circular := circular + {ref};
      }
      ReferenceClosed(before, m0.progress, key, target);
      ReferenceAfter(before, m0, key, ref, target, deferred);
      if own.None? { NoLanding(key); }
    }

    lemma ClosedFacts(before: Rules, p: Progress)
      requires Valid() && before == rules && p == Now()
      ensures SPACE in before && BuiltinsOk()
      ensures forall n :: n in before ==> RefsOf(before[n]) <= before.Keys + (Components(p.circular) + (if p.errors > 0 then {""} else {}))
    {}

    lemma NoLanding(key: string)
      ensures Landing(tables, None, key) == None
    {}

    lemma SelfSafe(s: Schema, name: string, own: Option<string>)
      requires Apt(Now(), s, name, own) && s.ref.Some?
      ensures SafeFor(guarded, RuleName(tables, name), RefExcept(Now(), s.ref.value, own))
    {
      hide SafeFor, SafeIn, Mentions, Except, RuleName;
    }

    lemma OwnReference(s: Schema, name: string, own: string)
      requires State() && Apt(Now(), s, name, Some(own)) && s.ref.Some?
      ensures Fine(Now()) ==>
        && ValidName(RuleName(tables, name)) && RuleName(tables, name) !in rules
        && Except(tables, Some(own)) == Some(RuleName(tables, name))
    {
      hide SafeFor, SafeIn, Mentions, Sound, Valid, ObjectsOk;
      LastResolving(rules, Now(), own);
      if Fine(Now()) { OwnFree(rules, Now(), own); }
    }

    lemma DeferredMention(s: Schema, name: string, own: Option<string>)
      requires State() && Apt(Now(), s, name, own) && s.ref.Some? && s.ref.value in resolving
      ensures trail != [] && s.ref.value in MentionsOf(tables, trail[|trail| - 1])
    {
      hide SafeFor, SafeIn, Sound, Valid, ObjectsOk, SafeSelf, OwnOk;
      SomeTrail(rules, Now(), s.ref.value);
      assert s.ref.value in Mentions(s);
    }

    /** After a reference has been written nobody's name is taken. */
    lemma ReferenceSound(ref: string, before: Rules, name: string, key: string, target: string, own: Option<string>)
      requires Sound(before, Now(), None) && Extends(rules, before) && rules.Keys == before.Keys + {key} && KeyOf(name, key)
      requires rules[key] == Ref(target) && (target in before || ref in resolving || errors > 0)
      requires key in guarded.refs ==> RefExcept(Now(), ref, own) == Some(key)
      requires key !in guarded.builtins
      requires Fine(Now()) ==> RefBuilt(before, tables, ref, Ref(target))
      requires Fine(Now()) && Direct(tables, Target(tables, ref)) && target != LastComponent(ref) ==>
        target in before && before[target] == DirectContent(tables, Target(tables, ref))
      ensures Sound(rules, Now(), Landing(tables, own, key)) && (own.None? ==> Sound(rules, Now(), None))
    {
      SoundNames(before, Now());
      KeyValid(name, key);
      NoneKept(rules, before, tables, guarded.builtins, key);
      hide Direct, Sound, KeyOf, ValidName, Except, DirectContent, RuleName, KeptOk, KeptSince;
      if own.Some? || key !in guarded.refs || key in before {
        SoundStays(rules, before, Now(), Landing(tables, own, key));
      } else {
        SoundStays(rules, before, Now(), Some(key));
        if errors == 0 {
          GoodScope(rules, Now(), Some(key), ref);
          assert Direct(tables, Target(tables, ref));
          assert target != LastComponent(ref);
        }
        DirectLanded(rules, Now(), ref, key);
      }
    }

    lemma GoodScope(rules: Rules, p: Progress, but: Option<string>, ref: string)
      requires Sound(rules, p, but) && ref in p.scope
      ensures p.good
    {}

    lemma ReferenceClosed(before: Rules, p: Progress, key: string, target: string)
      requires BuiltinsOk() && Extends(rules, before) && rules.Keys == before.Keys + {key} && rules[key] == Ref(target)
      requires SPACE in before && NameOk(target) && p.circular <= circular && p.errors == errors
      requires forall n :: n in before ==> RefsOf(before[n]) <= before.Keys + (Components(p.circular) + (if p.errors > 0 then {""} else {}))
      ensures Valid()
    {
      hide TablesOk;
      assert Components(p.circular) <= Components(circular);
    }

    lemma ReferenceAfter(before: Rules, m0: Moment, key: string, ref: string, target: string, deferred: bool)
      requires m0.rules == before && m0.objects == objects && Extends(rules, before) && rules.Keys == before.Keys + {key}
      requires Now() == m0.progress.(circular := m0.progress.circular + (if deferred then {ref} else {}))
      requires Fine(m0.progress) ==> RefBuilt(before, tables, ref, Ref(target)) && Known(m0.progress, ref)
      requires !deferred ==> Handled(before, m0.progress, ref)
      ensures After(Here(), m0) && Handled(rules, Now(), ref)
      ensures Fine(Now()) ==> RefBuilt(rules, tables, ref, Ref(target))
    {
      hide Direct, DirectContent, MentionsOf;
    }

    /** `_generate_union_rule`. */
    method VisitUnion(schemas: seq<Schema>, name: string, ghost bound: nat) returns (e: Expr)
      requires State() && AllSmaller(schemas, bound)
      requires Covered(Now(), MentionsAll(schemas, bound)) && SafeAlts(tables, guarded, scope, schemas, AltPrefix(name), Top(Now()), bound)
      modifies this
      ensures State() && After(Here(), old(Here())) && RefsOf(e) <= rules.Keys + Pending()
      ensures Fine(Now()) ==> UnionBuilt(rules, tables, schemas, e, bound)
      ensures AllHandled(rules, Now(), MentionsAll(schemas, bound))
      ensures ErrorsAs(tables, ConvertibleAll(tables, schemas, bound), old(errors), errors)
      decreases RefsLeft(), bound, 1
    {
      hide ConvertibleAll, ErrorsAs, NamesBuilt, StateBut, After, Covered, MentionsAll, SafeAlts, AllHandled, Fine,
        Size;
      var names := VisitAll(schemas, name + (if name == "" then "alternative-" else "-"), bound);
      e := JoinRefs(names);
    }

    method VisitAll(schemas: seq<Schema>, prefix: string, ghost bound: nat) returns (names: seq<string>)
      requires State() && AllSmaller(schemas, bound)
      requires Covered(Now(), MentionsAll(schemas, bound)) && SafeAlts(tables, guarded, scope, schemas, prefix, Top(Now()), bound)
      modifies this
      ensures State() && After(Here(), old(Here())) && forall n :: n in names ==> NameOk(n)
      ensures Fine(Now()) ==> NamesBuilt(rules, tables, schemas, names, bound)
      ensures AllHandled(rules, Now(), MentionsAll(schemas, bound))
      ensures ErrorsAs(tables, ConvertibleAll(tables, schemas, bound), old(errors), errors)
      decreases RefsLeft(), bound, 0, 1
    {
      hide ConvertibleAll, Convertible, ErrorsAs, StateBut, After, NamesBuilt, Size, TablesOk, Covered, MentionsAll,
        SafeAlts, AllHandled, Fine, NameOk, Extends, Numeral;
      ghost var m0 := Here();
      NoNames(rules, tables, bound);
      NoneMentioned(rules, Now(), bound);
      names := [];
      AfterSelf(Here());
      TakeNone(schemas);
      for i := 0 to |schemas|
        invariant State() && After(Here(), m0) && AllSmaller(schemas[..i], bound) && forall n :: n in names ==> NameOk(n)
        invariant Fine(Now()) ==> NamesBuilt(rules, tables, schemas[..i], names, bound)
        invariant AllHandled(rules, Now(), MentionsAll(schemas[..i], bound))
        invariant ErrorsAs(tables, ConvertibleAll(tables, schemas[..i], bound), m0.progress.errors, errors)
      {
        ghost var m := Here();
        AfterFacts(m, m0);
        CoveredAfter(m, m0, MentionsAll(schemas, bound));
        AltParts(schemas, prefix, i, bound);
        TakeOneMore(schemas, i);
        names := NextAlternative(schemas[..i], schemas[i], prefix + Numeral(i), names, bound);
        AfterFacts(Here(), m);
        AfterTwice(Here(), m, m0);
        ConvertibleAllStep(tables, schemas[..i], schemas[i], bound);
        ErrorsBoth(tables, ConvertibleAll(tables, schemas[..i], bound), Convertible(tables, schemas[i]), m0.progress.errors, m.progress.errors, errors);
      }
      TakeAll(schemas);
    }

    /** One more alternative or tuple member. */
    method NextAlternative(ghost done: seq<Schema>, s: Schema, name: string, names: seq<string>, ghost bound: nat)
      returns (names1: seq<string>)
      requires State() && Size(s) < bound && AllSmaller(done, bound) && Apt(Now(), s, name, None)
      requires (forall n :: n in names ==> NameOk(n)) && AllHandled(rules, Now(), MentionsAll(done, bound))
      requires Fine(Now()) ==> NamesBuilt(rules, tables, done, names, bound)
      modifies this
      ensures State() && After(Here(), old(Here())) && forall n :: n in names1 ==> NameOk(n)
      ensures AllSmaller(done + [s], bound) && (Fine(Now()) ==> NamesBuilt(rules, tables, done + [s], names1, bound))
      ensures AllHandled(rules, Now(), MentionsAll(done + [s], bound))
      ensures ErrorsAs(tables, Convertible(tables, s), old(errors), errors)
      decreases RefsLeft(), bound, 0, 0
    {
      hide Convertible, ErrorsAs, StateBut, After, Built, NamesBuilt, Size, TablesOk, MentionsAll, Mentions, AllHandled,
        Fine, TakenName, AtOnceNamed, Apt, Extends, Landing, Direct, SpecFor, IsObjectSchema;
      ghost var m := Here();
      var n := Visit(s, name, None);
      AfterFacts(Here(), m);
      NamesOkLater(m, names);
      HandledAfter(Here(), m, MentionsAll(done, bound));
      MentionsAllStep(done, s, bound);
      HandledBoth(rules, Now(), MentionsAll(done, bound), Mentions(s));
      if Fine(Now()) {
        NamesStay(rules, m.rules, tables, done, names, bound);
        OneMoreName(rules, tables, done, names, s, n, bound);
      }
      names1 := names + [n];
    }

    lemma NoneMentioned(rules: Rules, p: Progress, bound: nat)
      ensures AllSmaller([], bound) && AllHandled(rules, p, MentionsAll([], bound))
      ensures ErrorsAs(tables, ConvertibleAll(tables, [], bound), p.errors, p.errors)
    {
      hide TargetsConvertible;
    }

    lemma NamesOkLater(m: Moment, names: seq<string>)
      requires After(Here(), m)
      requires forall n :: n in names ==>
        n in m.rules || n in Components(m.progress.circular) + (if m.progress.errors > 0 then {""} else {})
      ensures forall n :: n in names ==> NameOk(n)
    {}

    lemma AltParts(schemas: seq<Schema>, prefix: string, i: nat, bound: nat)
      requires i < |schemas| && AllSmaller(schemas, bound)
      requires Covered(Now(), MentionsAll(schemas, bound)) && SafeAlts(tables, guarded, scope, schemas, prefix, Top(Now()), bound)
      ensures Apt(Now(), schemas[i], prefix + Numeral(i), None)
    {
      MentionsEach(schemas, i, bound);
      hide SafeIn, SafeSelf, Mentions, MentionsAll;
    }

    /** `visit`: one rule per schema. `own` is the reference whose schema this is. */
    method Visit(s: Schema, name: string, ghost own: Option<string>) returns (rule: string)
      requires State() && Apt(Now(), s, name, own)
      modifies this
      ensures StateBut(if Direct(tables, s) then None else Landing(tables, own, rule)) && (own.None? ==> State())
      ensures After(Here(), old(Here())) && NameOk(rule)
      ensures rule !in rules ==> rule == "" && errors > old(errors)
      ensures IsObjectSchema(s) ==>
        rule in objects && SpecFor(s, objects[rule]) && FirstNamed(tables, PropertyList(s), name, old(rules), rules)
      ensures Fine(Now()) ==> Built(rules, tables, s, rule)
      ensures AllHandled(rules, Now(), Mentions(s))
      ensures own.Some? && Fine(Now()) ==> Direct(tables, s) || Landing(tables, own, rule).Some?
      ensures Direct(tables, s) ==> rule in rules && rules[rule] == DirectContent(tables, s)
      ensures TakenName(s, old(rules), rules, rule)
      ensures AtOnceNamed(tables, s, name, old(rules), rules)
      ensures ErrorsAs(tables, Convertible(tables, s), old(errors), errors)
      ensures s.ref.Some? && LastComponent(s.ref.value) in old(rules) ==> errors == old(errors)
      decreases RefsLeft(), Size(s), 6
    {
      hide Convertible, ErrorsAs, After, UnionBuilt, ObjectBuilt, ArrayBuilt, LeafBuilt, ConstantBody, EnumBody,
        UnionOf, RefsOf, Closed, TablesOk, EntryOk, Size, Apt, Landing, Mentions, AllHandled, Fine, NameFree, KeyOf,
        ValidName, DirectContent, SpecFor, AtOnce, AtOnceBuilt, FirstNamed, Escape, ValidNames, StateBut, RuleName,
        RefBuilt, Extends, Now, Pending, SafeIn, ObjectKind, ArrayKind, PropertyList, Direct;
      KindFacts(s);
      if s.ref.Some? {
        rule := VisitRef(s, name, own);
      } else if s.oneOf.Union? || s.anyOf.Union? || s.typ.TypeList? {
        rule := VisitAlternatives(s, name, own);
      } else if s.constant.Some? || s.constants.Some? {
        rule := VisitConstant(s, name, own);
      } else if ObjectKind(s) {
        rule := VisitObject(s, name, own);
      } else if ArrayKind(s) {
        rule := VisitArray(s, name, own);
      } else {
        rule := VisitLeaf(s, name, own);
      }
    }

    lemma KindFacts(s: Schema)
      ensures Direct(tables, s) ==>
        && s.ref.None? && s.oneOf.NoUnion? && s.anyOf.NoUnion? && !s.typ.TypeList? && s.constant.None? && s.constants.None?
        && !ObjectKind(s) && !ArrayKind(s)
      ensures AtOnce(s) ==> s.ref.None? && s.oneOf.NoUnion? && s.anyOf.NoUnion? && !s.typ.TypeList?
      ensures AtOnce(s) && s.constant.None? && s.constants.None? ==> !ObjectKind(s) && !ArrayKind(s)
    {}

    /** A `$ref`. */
    method VisitRef(s: Schema, name: string, ghost own: Option<string>) returns (rule: string)
      requires State() && Apt(Now(), s, name, own) && s.ref.Some?
      modifies this
      ensures StateBut(Landing(tables, own, rule)) && (own.None? ==> State())
      ensures After(Here(), old(Here())) && rule in rules
      ensures Fine(Now()) ==> Built(rules, tables, s, rule)
      ensures AllHandled(rules, Now(), Mentions(s))
      ensures own.Some? && Fine(Now()) ==> Landing(tables, own, rule).Some?
      ensures TakenName(s, old(rules), rules, rule)
      ensures ErrorsAs(tables, Convertible(tables, s), old(errors), errors)
      ensures LastComponent(s.ref.value) in old(rules) ==> errors == old(errors)
      decreases RefsLeft(), Size(s), 5
    {
      hide TargetsConvertible, After, RefBuilt, TablesOk, Size, Landing, Handled, Fine, Known, Direct, DirectContent,
        StateBut, Extends, Sound, MentionsOf;
      ghost var m0 := Here();
      RefCovered(s, name, own);
      var target; ghost var deferred;
      target, deferred := ResolveRef(s.ref.value, Size(s));
      ghost var m1 := Here();
      AfterFacts(m1, m0);
      AptAfter(m1, m0, s, name, own);
      rule := AddReference(s, name, target, deferred, own);
      AfterTwice(Here(), m1, m0);
      OnlyMention(rules, Now(), s);
    }

    /** Unions, and lists of types. */
    method VisitAlternatives(s: Schema, name: string, ghost own: Option<string>) returns (rule: string)
      requires State() && Apt(Now(), s, name, own) && s.ref.None? && (s.oneOf.Union? || s.anyOf.Union? || s.typ.TypeList?)
      modifies this
      ensures StateBut(Landing(tables, own, rule)) && (own.None? ==> State())
      ensures After(Here(), old(Here())) && rule in rules
      ensures Fine(Now()) ==> UnionOfBuilt(rules, tables, s, rules[rule])
      ensures AllHandled(rules, Now(), Mentions(s))
      ensures own.Some? && Fine(Now()) ==> Landing(tables, own, rule).Some?
      ensures ErrorsAs(tables, Convertible(tables, s), old(errors), errors)
      decreases RefsLeft(), Size(s), 4
    {
      hide Convertible, ConvertibleAll, ErrorsAs, StateBut, After, UnionBuilt, TablesOk, Size, Landing, AllHandled,
        Fine, Apt, Mentions, MentionsAll, UnionOf, SafeAlts, Covered, NameFree, KeyOf, ValidName, Extends, Direct,
        RuleName, RefsOf;
      ghost var m0 := Here();
      UnionParts(s, name, own);
      var e := VisitUnion(UnionOf(s), name, Size(s));
      ghost var m1 := Here();
      AfterFacts(m1, m0);
      AptAfter(m1, m0, s, name, own);
      UnionNotDirect(s);
      AptName(s, name, own);
      rule := Add(RuleName(tables, name), e, own);
      AfterFacts(Here(), m1);
      AfterTwice(Here(), m1, m0);
      HandledAfter(Here(), m1, Mentions(s));
      if Fine(Now()) {
        UnionStays(rules, m1.rules, tables, UnionOf(s), e, Size(s));
      }
    }

    lemma UnionNotDirect(s: Schema)
      requires s.oneOf.Union? || s.anyOf.Union? || s.typ.TypeList?
      ensures !Direct(tables, s)
    {}

    lemma UnionParts(s: Schema, name: string, own: Option<string>)
      requires Apt(Now(), s, name, own) && s.ref.None? && (s.oneOf.Union? || s.anyOf.Union? || s.typ.TypeList?)
      ensures Convertible(tables, s) == ConvertibleAll(tables, UnionOf(s), Size(s))
      ensures Mentions(s) == MentionsAll(UnionOf(s), Size(s)) && Covered(Now(), MentionsAll(UnionOf(s), Size(s)))
      ensures SafeAlts(tables, guarded, scope, UnionOf(s), AltPrefix(name), Top(Now()), Size(s))
    {
      hide SafeAlts, MentionsAll, UnionOf, SafeSelf, SafeFor, Size, ConvertibleAll;
    }

    lemma RefCovered(s: Schema, name: string, own: Option<string>)
      requires Apt(Now(), s, name, own) && s.ref.Some?
      ensures Covered(Now(), {s.ref.value}) && Size(s) > Size(NULL_SCHEMA)
    {
      hide SafeIn, SafeSelf, SafeFor;
      assert Mentions(s) == {s.ref.value};
      RefSize(s);
    }

    lemma RefSize(s: Schema)
      requires s.ref.Some?
      ensures Size(s) > Size(NULL_SCHEMA)
    {}

    lemma OnlyMention(rules: Rules, p: Progress, s: Schema)
      requires s.ref.Some? && Handled(rules, p, s.ref.value)
      ensures AllHandled(rules, p, Mentions(s))
    {
      hide Handled;
    }

    /** Constants and enumerations. */
    method VisitConstant(s: Schema, name: string, ghost own: Option<string>) returns (rule: string)
      requires State() && Apt(Now(), s, name, own)
      requires s.ref.None? && s.oneOf.NoUnion? && s.anyOf.NoUnion? && !s.typ.TypeList? && (s.constant.Some? || s.constants.Some?)
      modifies this`rules
      ensures StateBut(Landing(tables, own, rule)) && (own.None? ==> State())
      ensures After(Here(), old(Here())) && rule in rules
      ensures rules[rule] == if s.constant.Some? then ConstantBody(s.constant.value) else EnumBody(s.constants.value)
      ensures AtOnceNamed(tables, s, name, old(rules), rules)
      ensures AllHandled(rules, Now(), Mentions(s))
      ensures own.Some? && Fine(Now()) ==> Landing(tables, own, rule).Some?
      ensures ErrorsAs(tables, Convertible(tables, s), old(errors), errors)
    {
      hide TargetsConvertible, StateBut, After, TablesOk, Landing, Fine, Apt, NameFree, KeyOf, ValidName, Extends,
        RuleName, RefsOf, ConstantBody, EnumBody, Closed, EntryOk, ValidNames;
      assert !Direct(tables, s);
      AptName(s, name, own);
      StateFacts();
      var body := if s.constant.Some? then ConstantBody(s.constant.value) else EnumBody(s.constants.value);
      if s.constant.Some? { ConstantRefs(s.constant.value); } else { EnumRefs(s.constants.value); }
      rule := Add(RuleName(tables, name), body, own);
      assert Mentions(s) == {};
    }

    method VisitObject(s: Schema, name: string, ghost own: Option<string>) returns (rule: string)
      requires State() && Apt(Now(), s, name, own)
      requires s.ref.None? && s.oneOf.NoUnion? && s.anyOf.NoUnion? && !s.typ.TypeList? && s.constant.None? && s.constants.None?
      requires ObjectKind(s)
      modifies this
      ensures StateBut(Landing(tables, own, rule)) && (own.None? ==> State())
      ensures After(Here(), old(Here())) && rule in rules && rule in objects && SpecFor(s, objects[rule])
      ensures Fine(Now()) ==> ObjectOf(rules, tables, s, rules[rule])
      ensures AllHandled(rules, Now(), Mentions(s)) && FirstNamed(tables, PropertyList(s), name, old(rules), rules)
      ensures own.Some? && Fine(Now()) ==> Landing(tables, own, rule).Some?
      ensures ErrorsAs(tables, Convertible(tables, s), old(errors), errors)
      decreases RefsLeft(), Size(s), 4
    {
      hide Convertible, ConvertibleIn, ConvertibleExtra, ErrorsAs, StateBut, After, Extends, ObjectBuiltWith, ObjectOf,
        TablesOk, Landing, Fine, Apt, NameFree, RuleName, RefsOf, Direct, SpecOk, Mentions, MentionsIn, SafeProperties,
        SafeExtra, Covered, AllHandled, Smaller, Size, PropertyList, AllowsExtra, ObjectKind, FirstNamed;
      ghost var m0 := Here();
      ObjectParts(s, name, own);
      var ps := PropertyList(s);
      var e; ghost var spec;
      e, spec := BuildObjectRule(ps, s.required, name, s.additional, Size(s));
      ghost var m1 := Here();
      AfterFacts(m1, m0);
      AptAfter(m1, m0, s, name, own);
      ObjectNotDirect(s);
      AptName(s, name, own);
      ObjectMentions(rules, Now(), s);
      rule := AddObject(RuleName(tables, name), e, spec, own);
      AfterFacts(Here(), m1);
      AfterTwice(Here(), m1, m0);
      HandledAfter(Here(), m1, Mentions(s));
      FirstStays(tables, ps, name, m0.rules, m1.rules, rules);
      if Fine(Now()) {
        ObjectKept(m1.rules, s, spec.kv, e);
      }
    }

    lemma ObjectKept(before: Rules, s: Schema, kv: map<string, string>, e: Expr)
      requires Extends(rules, before)
      requires Smaller(PropertyList(s), Size(s)) && (s.additional.Described? ==> Size(s.additional.schema) < Size(s))
      requires ObjectBuiltWith(before, tables, PropertyList(s), s.required, s.additional, kv, e, Size(s))
      ensures ObjectOf(rules, tables, s, e)
    {
      hide ObjectBuiltWith, ObjectBuilt, Size, PropertyList, Extends;
      ObjectIntro(before, tables, PropertyList(s), s.required, s.additional, kv, e, Size(s));
      ObjectBuiltStays(rules, before, tables, PropertyList(s), s.required, s.additional, e, Size(s));
    }

    lemma ObjectNotDirect(s: Schema)
      requires ObjectKind(s)
      ensures !Direct(tables, s)
    {}

    lemma ObjectParts(s: Schema, name: string, own: Option<string>)
      requires Apt(Now(), s, name, own)
      requires s.ref.None? && s.oneOf.NoUnion? && s.anyOf.NoUnion? && !s.typ.TypeList? && s.constant.None? && s.constants.None?
      requires ObjectKind(s)
      ensures Smaller(PropertyList(s), Size(s)) && (s.additional.Described? ==> Size(s.additional.schema) < Size(s))
      ensures Convertible(tables, s) == (ConvertibleIn(tables, PropertyList(s), Size(s)) && (AllowsExtra(s.additional) ==> ConvertibleExtra(s.additional)))
      ensures SafeProperties(tables, guarded, scope, PropertyList(s), name, Top(Now()), Size(s))
      ensures SafeExtra(tables, guarded, scope, s.additional, name, Top(Now()), Size(s))
      ensures Covered(Now(), MentionsIn(PropertyList(s), Size(s)))
      ensures s.additional.Described? ==> Covered(Now(), Mentions(s.additional.schema))
    {
      hide SafeProperties, SafeExtra, MentionsIn, SafeSelf, SafeFor, PropertyList, ObjectKind, Size, ConvertibleIn;
      SizeOfParts(s);
    }

    lemma SizeOfParts(s: Schema)
      ensures s.additional.Described? ==> Size(s.additional.schema) < Size(s)
      ensures s.items.Each? ==> Size(s.items.schema) < Size(s)
      ensures s.items.Tuple? ==> AllSmaller(s.items.schemas, Size(s))
      ensures Smaller(PropertyList(s), Size(s))
    {}

    lemma ObjectMentions(rules: Rules, p: Progress, s: Schema)
      requires s.ref.None? && s.oneOf.NoUnion? && s.anyOf.NoUnion? && !s.typ.TypeList? && s.constant.None? && s.constants.None?
      requires ObjectKind(s) && Smaller(PropertyList(s), Size(s))
      requires AllHandled(rules, p, MentionsIn(PropertyList(s), Size(s)))
      requires s.additional.Described? ==> AllHandled(rules, p, Mentions(s.additional.schema))
      ensures AllHandled(rules, p, Mentions(s))
    {
      hide Handled, MentionsIn, PropertyList, Size;
    }

    method VisitArray(s: Schema, name: string, ghost own: Option<string>) returns (rule: string)
      requires State() && Apt(Now(), s, name, own)
      requires s.ref.None? && s.oneOf.NoUnion? && s.anyOf.NoUnion? && !s.typ.TypeList? && s.constant.None? && s.constants.None?
      requires !ObjectKind(s) && ArrayKind(s)
      modifies this
      ensures StateBut(Landing(tables, own, rule)) && (own.None? ==> State())
      ensures After(Here(), old(Here())) && rule in rules
      ensures Fine(Now()) ==> ArrayBuilt(rules, tables, s, rules[rule])
      ensures AllHandled(rules, Now(), Mentions(s))
      ensures own.Some? && Fine(Now()) ==> Landing(tables, own, rule).Some?
      ensures ErrorsAs(tables, Convertible(tables, s), old(errors), errors)
      decreases RefsLeft(), Size(s), 4
    {
      hide Convertible, ErrorsAs, StateBut, After, Extends, RefsOf, Closed, TablesOk, EntryOk, Repetition.Build,
        Landing, Fine, Apt, NameFree, RuleName, Direct, Mentions, AllHandled, KeyOf, ValidName, ValidNames, Size,
        ArrayBuilt, Bracketed;
      ghost var m0 := Here();
      assert !Direct(tables, s) by { ArrayNotDirect(s); }
      var e := VisitItems(s, name, own);
      ghost var m1 := Here();
      AfterFacts(m1, m0);
      AptAfter(m1, m0, s, name, own);
      AptName(s, name, own);
      StateFacts();
      BracketRefs(e);
      rule := Add(RuleName(tables, name), Bracketed(e), own);
      AfterFacts(Here(), m1);
      AfterTwice(Here(), m1, m0);
      HandledAfter(Here(), m1, Mentions(s));
      if Fine(Now()) {
        ArrayStays(rules, m1.rules, tables, s, Bracketed(e));
      }
    }

    lemma ArrayNotDirect(s: Schema)
      requires ArrayKind(s)
      ensures !Direct(tables, s)
    {}

    /** What stands between the brackets: the rules of a tuple, or a list of items. */
    method VisitItems(s: Schema, name: string, ghost own: Option<string>) returns (e: Expr)
      requires State() && Apt(Now(), s, name, own)
      requires s.ref.None? && s.oneOf.NoUnion? && s.anyOf.NoUnion? && !s.typ.TypeList? && s.constant.None? && s.constants.None?
      requires !ObjectKind(s) && ArrayKind(s)
      modifies this
      ensures State() && After(Here(), old(Here())) && RefsOf(e) <= rules.Keys + Pending()
      ensures Fine(Now()) ==> ArrayBuilt(rules, tables, s, Bracketed(e))
      ensures AllHandled(rules, Now(), Mentions(s))
      ensures ErrorsAs(tables, Convertible(tables, s), old(errors), errors)
      decreases RefsLeft(), Size(s), 3
    {
      hide Convertible, ConvertibleAll, ErrorsAs, StateBut, After, Extends, RefsOf, Closed, TablesOk, EntryOk,
        Repetition.Build, Built, NamesBuilt, Landing, Fine, Apt, Mentions, MentionsAll, AllHandled, ValidNames, Size,
        Covered, SafeAlts, SafeAll, TakenName, AtOnceNamed, Bracketed, ListBody, Direct;
      ItemsParts(s, name, own);
      if s.items.Tuple? {
        var names := VisitAll(s.items.schemas, Dash(name) + "tuple-", Size(s));
        e := TupleItems(names);
        StateFacts();
      } else {
        var item := Visit(s.items.schema, Dash(name) + "item", None);
        e := Repetition.Build(Ref(item), s.minItems, s.maxItems, Repetition.Between(Seq(Lit(","), Space())));
        RepetitionRefs(item, s.minItems, s.maxItems);
        StateFacts();
        ListBodyIs(item, s.minItems, s.maxItems);
      }
    }

    lemma ListBodyIs(item: string, min: nat, max: Limit)
      ensures ListBody(item, min, max) == Bracketed(Repetition.Build(Ref(item), min, max, Repetition.Between(Seq(Lit(","), Space()))))
    {
      hide Repetition.Build, Bracketed;
    }

    lemma ItemsParts(s: Schema, name: string, own: Option<string>)
      requires Apt(Now(), s, name, own)
      requires s.ref.None? && s.oneOf.NoUnion? && s.anyOf.NoUnion? && !s.typ.TypeList? && s.constant.None? && s.constants.None?
      requires !ObjectKind(s) && ArrayKind(s)
      ensures s.items.Tuple? ==>
        && (AllSmaller(s.items.schemas, Size(s)))
        && Convertible(tables, s) == ConvertibleAll(tables, s.items.schemas, Size(s))
        && Mentions(s) == MentionsAll(s.items.schemas, Size(s)) && Covered(Now(), MentionsAll(s.items.schemas, Size(s)))
        && SafeAlts(tables, guarded, scope, s.items.schemas, Dash(name) + "tuple-", Top(Now()), Size(s))
      ensures s.items.Each? ==>
        Size(s.items.schema) < Size(s) && Convertible(tables, s) == Convertible(tables, s.items.schema)
        && Mentions(s) == Mentions(s.items.schema) && Apt(Now(), s.items.schema, Dash(name) + "item", None)
    {
      SizeOfParts(s);
      hide SafeAlts, SafeSelf, SafeFor, MentionsAll, ObjectKind, Size, ConvertibleAll;
      if s.items.Each? { PropertyApt(s.items.schema, Dash(name) + "item"); }
    }

    /** Schemas without sub-schemas. */
    method VisitLeaf(s: Schema, name: string, ghost own: Option<string>) returns (rule: string)
      requires State() && Apt(Now(), s, name, own)
      requires s.ref.None? && s.oneOf.NoUnion? && s.anyOf.NoUnion? && !s.typ.TypeList? && s.constant.None? && s.constants.None?
      requires !ObjectKind(s) && !ArrayKind(s)
      modifies this
      ensures StateBut(if Direct(tables, s) then None else Landing(tables, own, rule)) && (own.None? ==> State())
      ensures After(Here(), old(Here())) && NameOk(rule)
      ensures rule !in rules ==> rule == "" && errors > old(errors)
      ensures Fine(Now()) ==> rule in rules && LeafBuilt(rules, tables, s, rules[rule])
      ensures AllHandled(rules, Now(), Mentions(s))
      ensures own.Some? && Fine(Now()) ==> Direct(tables, s) || Landing(tables, own, rule).Some?
      ensures Direct(tables, s) ==> rule in rules && rules[rule] == DirectContent(tables, s)
      ensures AtOnceNamed(tables, s, name, old(rules), rules)
      ensures ErrorsAs(tables, Convertible(tables, s), old(errors), errors)
    {
      hide TargetsConvertible, WritableBounds, Convertible, StateBut, After, Extends, CharsBody, IntegerBuilt, TablesOk,
        EntryOk, Closed, ValidNames, Landing, Apt, NameFree, RuleName, SafeFor, BuiltinsSafe, MayStand, Mentions,
        AllHandled, KeyOf, ValidName, IsUuid, ObjectKind, ArrayKind, RefsOf, IsAlias;
      StateFacts();
      LeafParts(s, name, own);
      LeafMentions(rules, Now(), s);
      ghost var m0 := Here();
      var ruleName := RuleName(tables, name);
      if Texty(s) && IsUuid(s.format) {
        rule := AddBuiltin(if ruleName == "root" then "root" else s.format, tables.primitives["uuid"]);
      } else if Texty(s) && s.format + "-string" in tables.formats {
        AptName(s, name, own);
        BuiltinSafe(s.format + "-string");
        rule := AddAlias(ruleName, s.format + "-string", tables.formats[s.format + "-string"], own);
      } else if s.typ == TypeName("string") && (s.minLength.Some? || s.maxLength.Some?) {
        AptName(s, name, own);
        rule := VisitString(s, ruleName, own);
      } else if s.typ == TypeName("integer") && (s.minimum.Some? || s.maximum.Some?) {
        AptName(s, name, own);
        rule := VisitInteger(s, name, own);
      } else if Empty(s) || s.typ == TypeName("object") {
        AptName(s, name, own);
        BuiltinSafe("object");
        rule := AddAlias(ruleName, "object", tables.primitives["object"], own);
      } else if !s.typ.TypeName? || s.typ.name !in tables.primitives {
        rule := Fail();
      } else {
        BuiltinSafe(s.typ.name);
        rule := AddBuiltin(if ruleName == "root" then "root" else s.typ.name, tables.primitives[s.typ.name]);
      }
      HandledAfter(Here(), m0, Mentions(s));
    }

    lemma LeafMentions(rules: Rules, p: Progress, s: Schema)
      requires s.ref.None? && s.oneOf.NoUnion? && s.anyOf.NoUnion? && !s.typ.TypeList? && s.constant.None? && s.constants.None?
      requires !ObjectKind(s) && !ArrayKind(s)
      ensures AllHandled(rules, p, Mentions(s)) && Convertible(p.t, s) == ConvertibleLeaf(p.t, s)
    {}

    lemma LeafParts(s: Schema, name: string, own: Option<string>)
      requires Apt(Now(), s, name, own)
      requires s.ref.None? && s.oneOf.NoUnion? && s.anyOf.NoUnion? && !s.typ.TypeList? && s.constant.None? && s.constants.None?
      requires !ObjectKind(s) && !ArrayKind(s)
      ensures BuiltinsSafe(tables, guarded)
      ensures "uuid" in tables.primitives && Texty(s) && IsUuid(s.format) ==> MayStand(s.format, tables.primitives["uuid"])
      ensures Direct(tables, s) && RuleName(tables, name) == "root" ==> forall b :: MayStand("root", b)
    {
      hide SafeFor, SafeBuiltin, BuiltinsSafe, Mentions, ObjectKind, ArrayKind;
      if own.Some? && RuleName(tables, name) == "root" {
        RootIsNoComponent(name);
      }
    }

    lemma RootIsNoComponent(name: string)
      requires RuleName(tables, name) == "root"
      ensures name != "root"
    {}

    /** A rule that only names a built-in one. */
    method AddAlias(ruleName: string, builtin: string, b: Builtin, ghost own: Option<string>) returns (rule: string)
      requires State() && BuiltinOk(b) && MayStand(builtin, b) && BuiltinsSafe(tables, guarded) && NameFree(Now(), ruleName, own)
      modifies this`rules
      ensures StateBut(Landing(tables, own, rule)) && (own.None? ==> State())
      ensures After(Here(), old(Here())) && rule in rules && IsAlias(rules, b, rules[rule])
      ensures own.Some? && Fine(Now()) ==> Landing(tables, own, rule).Some?
    {
      hide StateBut, After, SafeFor, BuiltinsSafe, Landing, Fine, KeyOf, ValidName, EntryOk, NameFree, MayStand;
      ghost var m0 := Here();
      var prim := AddBuiltin(builtin, b);
      ghost var m1 := Here();
      FreeAfter(m1, m0, ruleName, own);
      rule := Add(ruleName, Ref(prim), own);
      AfterFacts(Here(), m1);
      AfterTwice(Here(), m1, m0);
    }

    lemma FreeAfter(n: Moment, m: Moment, ruleName: string, own: Option<string>)
      requires After(n, m) && NameFree(m.progress, ruleName, own)
      ensures NameFree(n.progress, ruleName, own)
    {
      hide SafeFor, Direct, Except, RuleName;
    }

    method VisitString(s: Schema, ruleName: string, ghost own: Option<string>) returns (rule: string)
      requires State() && BuiltinsSafe(tables, guarded) && NameFree(Now(), ruleName, own)
      modifies this`rules
      ensures StateBut(Landing(tables, own, rule)) && (own.None? ==> State())
      ensures After(Here(), old(Here())) && rule in rules
      ensures exists chr :: chr in rules && rules[chr] == CharContent() && rules[rule] == CharsBody(chr, s.minLength, s.maxLength)
      ensures own.Some? && Fine(Now()) ==> Landing(tables, own, rule).Some?
    {
      hide StateBut, After, RefsOf, Closed, TablesOk, EntryOk, Repetition.Build, SafeFor, BuiltinsSafe, Landing, Fine,
        KeyOf, ValidName, ValidNames, NameFree;
      StateFacts();
      ghost var m0 := Here();
      BuiltinSafe("char");
      var chr := AddBuiltin("char", tables.primitives["char"]);
      ghost var m1 := Here();
      StateFacts();
      FreeAfter(m1, m0, ruleName, own);
      var chars := Repetition.Build(Ref(chr), if s.minLength.Some? then s.minLength.value else 0,
                                    if s.maxLength.Some? then AtMost(s.maxLength.value) else NoLimit, Repetition.NoSeparator);
      CharsRefs(chr, if s.minLength.Some? then s.minLength.value else 0,
                if s.maxLength.Some? then AtMost(s.maxLength.value) else NoLimit);
      QuotedRefs(chars);
      rule := Add(ruleName, CharsBody(chr, s.minLength, s.maxLength), own);
      AfterFacts(Here(), m1);
      AfterTwice(Here(), m1, m0);
    }

    /** Bounds that `_build_min_max_int` rejects end the conversion with an error. */
    method VisitInteger(s: Schema, name: string, ghost own: Option<string>) returns (rule: string)
      requires State() && NameFree(Now(), RuleName(tables, name), own) && s.constant.None? && s.constants.None?
      modifies this
      ensures StateBut(Landing(tables, own, rule)) && (own.None? ==> State())
      ensures After(Here(), old(Here())) && NameOk(rule)
      ensures rule !in rules ==> rule == "" && errors > old(errors)
      ensures Fine(Now()) ==> rule in rules && IntegerBuilt(s, rules[rule])
      ensures own.Some? && Fine(Now()) ==> Landing(tables, own, rule).Some?
      ensures AtOnceNamed(tables, s, name, old(rules), rules)
      ensures if WritableBounds(s) then errors == old(errors) else errors > old(errors)
    {
      hide StateBut, After, IntRange.Bounded, Landing, KeyOf, ValidName, NameFree, TablesOk, EntryOk, Closed,
        ValidNames, RuleName;
      StateFacts();
      var min, max := Lowest(s), Highest(s);
      if !(IntRange.INT_MIN <= min <= IntRange.INT_MAX) || !(IntRange.INT_MIN <= max <= IntRange.INT_MAX) || min > max {
        rule := Fail();
      } else {
        var r := IntRange.Bounded(min, max, 16, true);
        if r.None? {
          rule := Fail();
        } else {
          IntegerRefs(min, max, 16, true);
          rule := Add(RuleName(tables, name), Seq(Group(r.value), Space()), own);
        }
      }
    }

    method Fail() returns (rule: string)
      requires State()
      modifies this`errors
      ensures State() && After(Here(), old(Here())) && rule == "" && NameOk(rule) && errors > old(errors)
      ensures forall own :: StateBut(Landing(tables, own, rule))
    {
      hide Sound, ObjectsOk, TablesOk;
      FailSound(rules, Now(), errors + 1);
      errors := errors + 1;
      rule := "";
      forall own ensures Landing(tables, own, rule) == None { EmptyIsNoRule(own); }
    }

    lemma EmptyIsNoRule(own: Option<string>)
      ensures Landing(tables, own, "") == None
    {}
  }

  lemma FewerRefs(refs: set<string>, resolving: set<string>, ref: string)
    requires ref !in resolving
    ensures |refs - (resolving + {ref})| == |refs - resolving| - if ref in refs then 1 else 0
  {
    assert refs - (resolving + {ref}) == refs - resolving - {ref};
  }

  lemma SubsetSize(a: set<string>, b: set<string>)
    requires a <= b
    ensures |a| <= |b|
  {
    if a != {} {
      var x :| x in a;
      SubsetSize(a - {x}, b - {x});
    }
  }

  // ----- the whole conversion -----

  /** Every reference inside a rule is to a rule of the table. */
  ghost predicate ClosedTable(rules: Rules) {
    forall n :: n in rules ==> RefsOf(rules[n]) <= rules.Keys
  }

  /** What is known of the references met while they were being resolved: one can come back to
      them, and some rule refers to their last component. */
  ghost predicate CircularAre(rules: Rules, t: Tables, circular: set<string>) {
    forall r :: r in circular ==> LeadsBack(t, r) && Refers(rules, LastComponent(r))
  }

  /** A reference whose own schema mentions it again has a rule of its name, or it is noted. */
  ghost predicate SelfReferring(rules: Rules, t: Tables, refs: set<string>, circular: set<string>) {
    forall q :: q in refs && q in MentionsOf(t, q) ==> LastComponent(q) in rules || q in circular
  }

  /** `json_schema_to_grammar`. It ends without errors if every schema is of a known kind, and
      then every rule refers to rules of the table if and only if the references met while they
      were being resolved have rules of their names. If the references can be told apart, this
      is so, and the root rule and the rules of all references met are built as their schemas
      ask; and built-in names that keep apart too have their built-in rules. */
  method Convert(schema: Schema, t: Tables, spaceRule: Expr, ghost scope: set<string>, ghost kept: set<string>)
    returns (root: string, grammar: Rules, errors: nat,
             ghost finished: set<string>, ghost circular: set<string>, ghost objects: map<string, ObjectSpec>)
    requires RefsOf(spaceRule) == {} && TablesOk(t) && kept <= BuiltinNames(t)
    ensures ErrorsAs(t, Convertible(t, schema), 0, errors)
    ensures errors == 0 && KeptApart(t, schema, scope, kept) ==>
      Built(grammar, t, schema, root) && RefsBuilt(grammar, t, schema, finished) && finished <= scope && ClosedTable(grammar)
    ensures errors == 0 ==> (ClosedTable(grammar) <==> forall r :: r in circular ==> LastComponent(r) in grammar)
    ensures KeptApart(t, schema, scope, kept) ==> KeptOk(grammar, t, kept)
    ensures ValidNames(grammar) && CircularAre(grammar, t, circular)
    ensures SelfReferring(grammar, t, Mentions(schema), circular)
    ensures ObjectsOk(grammar, objects, t.primitives["char"].content)
    ensures IsObjectSchema(schema) ==> root in objects && SpecFor(schema, objects[root])
    ensures IsObjectSchema(schema) ==> FirstNamed(t, PropertyList(schema), "", map[SPACE := spaceRule], grammar)
    ensures SPACE in grammar && grammar[SPACE] == spaceRule
  {
    hide KeptApart, KeptOk, FirstNamed, Apt, Sound, TablesOk, Built, Mentions, Convertible, ErrorsAs, AllHandled,
      ObjectsOk, IsObjectSchema, SpecFor, Direct, TakenName, AtOnceNamed, RefsBuilt, ClosedTable, CircularAre,
      SelfReferring, Landing, Components, GuardsOk;
    ghost var good := KeptApart(t, schema, scope, kept);
    ghost var guards := if good then Guards(Components(scope), kept) else NO_GUARDS;
    StartOk(t, schema, scope, kept);
    var c := new Converter(t, spaceRule, if good then scope else {}, guards, good);
    ghost var m0 := c.Here();
    StartApt(c.Now(), schema, scope, kept);
    root := c.Visit(schema, "", None);
    AfterFacts(c.Here(), m0);
    grammar, errors := c.rules, c.errors;
    finished, circular, objects := c.finished, c.circular, c.objects;
    Ended(c.rules, c.Now(), schema);
    KeptAtEnd(c.rules, c.Now());
    SpaceStays(c.rules, m0.rules, spaceRule);
  }

  lemma KeptAtEnd(rules: Rules, p: Progress)
    requires Sound(rules, p, None)
    ensures KeptOk(rules, p.t, p.guarded.builtins)
  {}

  lemma SpaceStays(rules: Rules, before: Rules, spaceRule: Expr)
    requires Extends(rules, before) && before == map[SPACE := spaceRule]
    ensures SPACE in rules && rules[SPACE] == spaceRule
  {}

  /** When the conversion has ended nothing is being resolved. */
  lemma Ended(rules: Rules, p: Progress, schema: Schema)
    requires Sound(rules, p, None) && p.resolving == {} && AllHandled(rules, p, Mentions(schema))
    requires forall n :: n in rules ==>
      RefsOf(rules[n]) <= rules.Keys + (Components(p.circular) + (if p.errors > 0 then {""} else {})) + {}
    ensures Fine(p) ==> RefsBuilt(rules, p.t, schema, p.finished) && p.finished <= p.scope && ClosedTable(rules)
    ensures p.errors == 0 ==> (ClosedTable(rules) <==> forall r :: r in p.circular ==> LastComponent(r) in rules)
    ensures ValidNames(rules) && CircularAre(rules, p.t, p.circular)
    ensures SelfReferring(rules, p.t, Mentions(schema), p.circular)
  {
    hide Direct, Mentions, Built, LeadsBack, GuardsOk, RefsOf, TrailOk;
    if p.errors == 0 {
      if forall r :: r in p.circular ==> LastComponent(r) in rules {
        assert Components(p.circular) <= rules.Keys;
      }
      if ClosedTable(rules) {
        forall r | r in p.circular ensures LastComponent(r) in rules {
          var n :| n in rules && LastComponent(r) in RefsOf(rules[n]);
        }
      }
    }
    forall q | q in Mentions(schema) && q in MentionsOf(p.t, q) ensures LastComponent(q) in rules || q in p.circular {
      assert Handled(rules, p, q);
    }
    if Fine(p) {
      forall q | q in Mentions(schema) ensures Direct(p.t, Target(p.t, q)) || q in p.finished {
        assert Handled(rules, p, q);
      }
      forall r | r in p.finished ensures r in p.scope && RefFinished(rules, p.t, p.finished, r) {
        assert FinishedRef(rules, p, r);
        forall q | q in MentionsOf(p.t, r) ensures Direct(p.t, Target(p.t, q)) || q in p.finished {
          assert Known(p, q);
        }
      }
    }
  }

  lemma StartOk(t: Tables, schema: Schema, scope: set<string>, kept: set<string>)
    requires TablesOk(t) && kept <= BuiltinNames(t)
    ensures
      var good := KeptApart(t, schema, scope, kept);
      var g := if good then Guards(Components(scope), kept) else NO_GUARDS;
      && GuardsOk(t, if good then scope else {}, g, good) && SPACE !in g.refs
      && {"char", "object", "value", "string", "uuid"} <= t.primitives.Keys
  {
    hide SafeIn, SafeFor, SafeAll, Mentions;
  }

  /** A reference that leads back to itself and whose last component is no rule name leaves the
      table open, whatever else the schema holds. */
  lemma InvalidNameDangles(rules: Rules, t: Tables, refs: set<string>, circular: set<string>, q: string)
    requires ValidNames(rules) && CircularAre(rules, t, circular) && SelfReferring(rules, t, refs, circular)
    requires q in refs && q in MentionsOf(t, q) && !ValidName(LastComponent(q))
    ensures LastComponent(q) !in rules && Refers(rules, LastComponent(q)) && !ClosedTable(rules)
  {
    hide Mentions, LeadsBack, RefsOf;
    var n :| n in rules && LastComponent(q) in RefsOf(rules[n]);
  }

  lemma StartApt(p: Progress, schema: Schema, scope: set<string>, kept: set<string>)
    requires p.good == KeptApart(p.t, schema, scope, kept) && p.trail == [] && p.resolving == {}
    requires p.scope == (if p.good then scope else {})
    requires p.guarded == if p.good then Guards(Components(scope), kept) else NO_GUARDS
    ensures Apt(p, schema, "", None)
  {
    hide SafeIn, SafeFor, SafeSelf, Mentions, ScopeOk;
    if !p.good { NothingGuarded(p.t, schema, "", true); }
  }

  /** In every reading of the final table, an object rule accepts exactly the objects its
      schema asks for. */
  lemma ObjectLanguage(env: Env, rules: Rules, objects: map<string, ObjectSpec>, charRule: Expr, n: string, w: string)
    requires Solves(env, rules) && ObjectsOk(rules, objects, charRule) && n in objects
    ensures env(n, w) <==>
      var spec := objects[n];
      ObjectText(env, spec.kv, RequiredKeys(spec.properties, spec.required),
                 WithStar(OptionalKeys(spec.properties, spec.required), spec.extra), w)
  {
    var spec := objects[n];
    assert SpecOk(rules, spec, charRule, rules[n]);
    ObjectExact(env, rules, spec.kv, RequiredKeys(spec.properties, spec.required),
                WithStar(OptionalKeys(spec.properties, spec.required), spec.extra), rules[n], w);
    hide Accepts, ObjectText, IsObject;
  }

  /** The keys of additional members never repeat a listed property, when the names are read
      from character classes as they are. */
  lemma ExtraKeysAvoidNames(env: Env, rules: Rules, kv: map<string, string>, ps: seq<Property>)
    returns (keyRule: string, valueRule: string, chr: string)
    requires Solves(env, rules) && ps != [] && ExtraOk(rules, kv, ps, NotStrings.CharRule())
    requires NotStrings.PlainTrie(NotStrings.Build(Names(ps)))
    ensures STAR in kv && kv[STAR] in rules && rules[kv[STAR]] == ExtraBody(keyRule, valueRule)
    ensures keyRule in rules && rules[keyRule] == NotStrings.NotStringsRule(Names(ps), chr)
    ensures forall k :: NotStrings.AllOrdinary(k) && k != "" && k in Names(ps)
                        ==> !Accepts(env, NotStrings.KeyBody(NotStrings.Build(Names(ps)), chr), k)
  {
    keyRule, valueRule, chr :|
      rules[kv[STAR]] == ExtraBody(keyRule, valueRule) && KeyRuleOk(rules, keyRule, chr, ps, NotStrings.CharRule());
    NotStrings.CharRuleMeansOne(env, chr);
    hide Accepts, NotStrings.Build, NotStrings.KeyBody, NotStrings.CharMeansOne, NotStrings.PlainTrie;
    forall k | NotStrings.AllOrdinary(k) && k != "" && k in Names(ps)
      ensures !Accepts(env, NotStrings.KeyBody(NotStrings.Build(Names(ps)), chr), k)
    {
      NotStrings.ListedNamesRejected(env, chr, Names(ps), k);
    }
  }
}
