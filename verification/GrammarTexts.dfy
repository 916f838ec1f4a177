/** Lists of items and of members as plain texts: what stands between brackets and braces. */
module GrammarTexts {
  import opened Common
  import opened Gbnf
  import opened ObjectRule
  import opened Schemas
  import opened BuiltRules
  import opened SchemaMeaning
  import GrammarText

  // ----- texts with commas -----

  /** Texts with a comma and blanks between them. */
  ghost predicate Separated(env: Env, vs: seq<string>, x: string) {
    if vs == [] then x == ""
    else if |vs| == 1 then x == vs[0]
    else exists sp, y :: x == vs[0] + ("," + (sp + y)) && env(SPACE, sp) && Separated(env, vs[1..], y)
  }

  /** Texts each behind a comma and blanks. */
  ghost predicate EachBehind(env: Env, vs: seq<string>, y: string) {
    if vs == [] then y == ""
    else exists sp, z :: y == "," + (sp + (vs[0] + z)) && env(SPACE, sp) && EachBehind(env, vs[1..], z)
  }

  lemma {:induction false} SeparatedIs(env: Env, v: string, vs: seq<string>, y: string)
    requires EachBehind(env, vs, y)
    ensures Separated(env, [v] + vs, v + y)
    decreases |vs|
  {
    var all := [v] + vs;
    assert all[1..] == vs;
    if vs == [] {
      assert v + y == v;
    } else {
      var sp, z :| y == "," + (sp + (vs[0] + z)) && env(SPACE, sp) && EachBehind(env, vs[1..], z);
      SeparatedIs(env, vs[0], vs[1..], z);
      assert vs == [vs[0]] + vs[1..];
      assert v + y == all[0] + ("," + (sp + (vs[0] + z)));
    }
  }

  lemma {:induction false} BehindIs(env: Env, vs: seq<string>, x: string) returns (y: string)
    requires vs != [] && Separated(env, vs, x)
    ensures x == vs[0] + y && EachBehind(env, vs[1..], y)
    decreases |vs|
  {
    if |vs| == 1 {
      y := "";
      assert vs[1..] == [];
    } else {
      var sp, u :| x == vs[0] + ("," + (sp + u)) && env(SPACE, sp) && Separated(env, vs[1..], u);
      var z := BehindIs(env, vs[1..], u);
      y := "," + (sp + u);
      assert vs[1..][0] == vs[1] && y == "," + (sp + (vs[1..][0] + z));
    }
  }

  // ----- items of several schemas -----

  /** One text for each schema, with commas between them. */
  ghost predicate TupleStands(env: Env, refs: Env, t: Tables, ss: seq<Schema>, x: string) {
    exists vs :: EachMeans(env, refs, t, ss, vs) && Separated(env, vs, x)
  }

  ghost predicate EachMeans(env: Env, refs: Env, t: Tables, ss: seq<Schema>, vs: seq<string>) {
    |vs| == |ss| && forall i :: 0 <= i < |ss| ==> Means(env, refs, t, ss[i], vs[i])
  }

  lemma {:induction false} TupleFound(env: Env, refs: Env, t: Tables, ss: seq<Schema>, x: string, bound: nat) returns (vs: seq<string>)
    requires AllSmaller(ss, bound) && TupleMeans(env, refs, t, ss, x, bound)
    ensures EachMeans(env, refs, t, ss, vs) && Separated(env, vs, x)
    decreases |ss|
  {
    hide Means;
    if |ss| == 0 {
      vs := [];
    } else if |ss| == 1 {
      vs := [x];
    } else {
      var v, sp, rest :| x == v + ("," + (sp + rest)) && Means(env, refs, t, ss[0], v) && env(SPACE, sp)
                         && TupleMeans(env, refs, t, ss[1..], rest, bound);
      var others := TupleFound(env, refs, t, ss[1..], rest, bound);
      vs := [v] + others;
      assert vs[1..] == others;
      assert forall i :: 0 < i < |ss| ==> ss[i] == ss[1..][i - 1];
    }
  }

  lemma {:induction false} TupleMade(env: Env, refs: Env, t: Tables, ss: seq<Schema>, vs: seq<string>, x: string, bound: nat)
    requires AllSmaller(ss, bound) && EachMeans(env, refs, t, ss, vs) && Separated(env, vs, x)
    ensures TupleMeans(env, refs, t, ss, x, bound)
    decreases |ss|
  {
    hide Means;
    if |ss| > 1 {
      var sp, y :| x == vs[0] + ("," + (sp + y)) && env(SPACE, sp) && Separated(env, vs[1..], y);
      assert forall i :: 0 <= i < |ss| - 1 ==> ss[1..][i] == ss[i + 1] && vs[1..][i] == vs[i + 1];
      TupleMade(env, refs, t, ss[1..], vs[1..], y, bound);
    }
  }

  lemma TupleIs(env: Env, refs: Env, t: Tables, ss: seq<Schema>, x: string, bound: nat)
    requires AllSmaller(ss, bound)
    ensures TupleMeans(env, refs, t, ss, x, bound) <==> TupleStands(env, refs, t, ss, x)
  {
    hide Means, TupleMeans, Separated, EachMeans, Size;
    if TupleMeans(env, refs, t, ss, x, bound) {
      var vs := TupleFound(env, refs, t, ss, x, bound);
    }
    if vs :| EachMeans(env, refs, t, ss, vs) && Separated(env, vs, x) {
      TupleMade(env, refs, t, ss, vs, x, bound);
    }
  }

  // ----- members -----

  /** The keys of the properties that are required, or of those that are not, as listed. */
  function Chosen(list: seq<Property>, required: set<string>, wanted: bool): (ks: seq<string>) {
    if list == [] then []
    else (if (list[0].name in required) == wanted then [list[0].name] else []) + Chosen(list[1..], required, wanted)
  }

  /** Additional members, where they are allowed or described, come last. */
  function ExtraKeys(additional: Additional): (ks: seq<string>) {
    match additional
    case Flag(allowed) => if allowed then [STAR] else []
    case Described(_) => [STAR]
    case Absent => []
    case OtherAdditional => []
  }

  lemma {:induction false} ChosenLast(list: seq<Property>, p: Property, required: set<string>, wanted: bool)
    ensures Chosen(list + [p], required, wanted)
            == Chosen(list, required, wanted) + if (p.name in required) == wanted then [p.name] else []
  {
    var all := list + [p];
    if list == [] {
      assert all == [p] && all[1..] == [];
    } else {
      assert all[1..] == list[1..] + [p] && all[0] == list[0];
      ChosenLast(list[1..], p, required, wanted);
    }
  }

  /** The converter sorts the keys the same way. */
  lemma {:induction false} ChosenIs(list: seq<Property>, required: set<string>)
    ensures RequiredKeys(list, required) == Chosen(list, required, true)
    ensures OptionalKeys(list, required) == Chosen(list, required, false)
  {
    if list != [] {
      var front, last := list[..|list| - 1], list[|list| - 1];
      ChosenIs(front, required);
      ChosenLast(front, last, required, true);
      ChosenLast(front, last, required, false);
      assert list == front + [last];
    }
  }

  /** The values of additional members: what the schema given for them stands for, or any. */
  ghost predicate ExtraValue(base: Env, refs: Env, t: Tables, additional: Additional, v: string) {
    match additional
    case Described(d) => Means(base, refs, t, d, v)
    case _ => "value" in t.primitives && Accepts(base, t.primitives["value"].content, v)
  }

  /** A listed member: its name as a JSON string, a colon and a text of its schema, with blanks around
      the colon. An additional one: a key that is not listed, a colon and a value. */
  ghost predicate MemberStands(env: Env, refs: Env, t: Tables, s: Schema, key: string, x: string) {
    if key == STAR then
      exists k, sp, v ::
        && x == k + (":" + (sp + v)) && KeyMeans(env, t, PropertyList(s), k) && env(SPACE, sp)
        && ExtraValue(env, refs, t, s.additional, v)
    else
      s.properties.Properties? &&
      exists i, s1, s2, v ::
        && 0 <= i < |s.properties.list| && s.properties.list[i].name == key
        && x == ("\"" + (key + "\"")) + (s1 + (":" + (s2 + v))) && env(SPACE, s1) && env(SPACE, s2)
        && Means(env, refs, t, s.properties.list[i].schema, v)
  }

  /** The keys of an object: all required ones as listed, then some of the others in order, then any
      number of additional ones, where these are allowed or described. */
  ghost predicate KeyList(s: Schema, keys: seq<string>) {
    var list := if s.properties.Properties? then s.properties.list else [];
    exists sel, n: nat ::
      && keys == Chosen(list, s.required, true) + (sel + Times(STAR, n)) && Subsequence(sel, Chosen(list, s.required, false))
      && (n > 0 ==> s.additional == Flag(true) || s.additional.Described?)
  }

  ghost predicate MembersStand(env: Env, refs: Env, t: Tables, s: Schema, keys: seq<string>, vs: seq<string>) {
    |vs| == |keys| && forall i :: 0 <= i < |keys| ==> MemberStands(env, refs, t, s, keys[i], vs[i])
  }

  /** Braces around such members, with commas between them. */
  ghost predicate ObjectStands(env: Env, refs: Env, t: Tables, s: Schema, w: string) {
    exists s1, x, s2, keys, vs ::
      && w == "{" + (s1 + (x + ("}" + s2))) && env(SPACE, s1) && env(SPACE, s2)
      && KeyList(s, keys) && MembersStand(env, refs, t, s, keys, vs) && Separated(env, vs, x)
  }

  /** The same by the keys the grammar takes. */
  ghost predicate ObjectByKeys(env: Env, refs: Env, t: Tables, s: Schema, w: string) {
    var list := if s.properties.Properties? then s.properties.list else [];
    ObjectText(MemberReading(env, refs, t, s), SelfNamed(Elements(Names(list)) + {STAR}),
               Chosen(list, s.required, true), Chosen(list, s.required, false) + ExtraKeys(s.additional), w)
  }

  // Lists of members.

  ghost predicate EachReads(read: Env, kv: map<string, string>, ms: seq<string>, vs: seq<string>)
    requires Named(kv, ms)
  {
    |vs| == |ms| && forall i :: 0 <= i < |ms| ==> read(kv[ms[i]], vs[i])
  }

  ghost predicate SameBlanks(read: Env, env: Env) {
    forall sp :: read(SPACE, sp) <==> env(SPACE, sp)
  }

  lemma CommaJoin(sp: string, v: string, z: string)
    ensures ("," + (sp + v)) + z == "," + (sp + (v + z))
  {}

  lemma CommaSplit(read: Env, kv: map<string, string>, ms: seq<string>, y: string) returns (x: string, z: string)
    requires Named(kv, ms) && ms != [] && CommaText(read, kv, ms, y)
    ensures y == x + z && MemberText(read, kv[ms[0]], x) && CommaText(read, kv, ms[1..], z)
  {
    hide MemberText;
    x, z :| y == x + z && MemberText(read, kv[ms[0]], x) && CommaText(read, kv, ms[1..], z);
  }

  lemma MemberSplit(read: Env, rule: string, x: string) returns (sp: string, v: string)
    requires MemberText(read, rule, x)
    ensures x == "," + (sp + v) && read(SPACE, sp) && read(rule, v)
  {
    sp, v :| x == "," + (sp + v) && read(SPACE, sp) && read(rule, v);
  }

  lemma CommaHead(read: Env, kv: map<string, string>, ms: seq<string>, y: string) returns (sp: string, v: string, z: string)
    requires Named(kv, ms) && ms != [] && Named(kv, ms[1..]) && CommaText(read, kv, ms, y)
    ensures ms[0] in kv && y == "," + (sp + (v + z)) && read(SPACE, sp) && read(kv[ms[0]], v) && CommaText(read, kv, ms[1..], z)
  {
    assert ms[0] in ms;
    hide CommaText, MemberText;
    var x;
    x, z := CommaSplit(read, kv, ms, y);
    sp, v := MemberSplit(read, kv[ms[0]], x);
    CommaJoin(sp, v, z);
  }

  lemma CommaCons(read: Env, kv: map<string, string>, ms: seq<string>, sp: string, v: string, z: string)
    requires Named(kv, ms) && ms != [] && Named(kv, ms[1..]) && ms[0] in kv
    requires read(SPACE, sp) && read(kv[ms[0]], v) && CommaText(read, kv, ms[1..], z)
    ensures CommaText(read, kv, ms, "," + (sp + (v + z)))
  {
    var x := "," + (sp + v);
    assert MemberText(read, kv[ms[0]], x);
    CommaJoin(sp, v, z);
    hide MemberText;
    CommaPut(read, kv, ms, x, z);
  }

  lemma CommaPut(read: Env, kv: map<string, string>, ms: seq<string>, x: string, z: string)
    requires Named(kv, ms) && ms != [] && MemberText(read, kv[ms[0]], x) && CommaText(read, kv, ms[1..], z)
    ensures CommaText(read, kv, ms, x + z)
  {
    hide MemberText;
  }

  lemma BehindCons(env: Env, sp: string, v: string, vs: seq<string>, z: string)
    requires env(SPACE, sp) && EachBehind(env, vs, z)
    ensures EachBehind(env, [v] + vs, "," + (sp + (v + z)))
  {
    assert ([v] + vs)[1..] == vs;
  }

  lemma BehindHead(env: Env, vs: seq<string>, y: string) returns (sp: string, z: string)
    requires vs != [] && EachBehind(env, vs, y)
    ensures y == "," + (sp + (vs[0] + z)) && env(SPACE, sp) && EachBehind(env, vs[1..], z)
  {
    sp, z :| y == "," + (sp + (vs[0] + z)) && env(SPACE, sp) && EachBehind(env, vs[1..], z);
  }

  lemma EachCons(read: Env, kv: map<string, string>, ms: seq<string>, v: string, vs: seq<string>)
    requires Named(kv, ms) && ms != [] && read(kv[ms[0]], v) && EachReads(read, kv, ms[1..], vs)
    ensures EachReads(read, kv, ms, [v] + vs)
  {
    assert forall i :: 0 < i < |ms| ==> ms[i] == ms[1..][i - 1];
  }

  lemma EachTail(read: Env, kv: map<string, string>, ms: seq<string>, vs: seq<string>)
    requires Named(kv, ms) && ms != [] && EachReads(read, kv, ms, vs)
    ensures vs != [] && read(kv[ms[0]], vs[0]) && Named(kv, ms[1..]) && EachReads(read, kv, ms[1..], vs[1..])
  {
    assert forall i :: 0 <= i < |ms| - 1 ==> ms[1..][i] == ms[i + 1] && vs[1..][i] == vs[i + 1];
  }

  lemma {:induction false} CommaFound(read: Env, env: Env, kv: map<string, string>, ms: seq<string>, y: string) returns (vs: seq<string>)
    requires Named(kv, ms) && SameBlanks(read, env) && CommaText(read, kv, ms, y)
    ensures EachReads(read, kv, ms, vs) && EachBehind(env, vs, y)
    decreases |ms|
  {
    if ms == [] {
      vs := [];
    } else {
      assert Named(kv, ms[1..]);
      var sp, v, z := CommaHead(read, kv, ms, y);
      assert env(SPACE, sp);
      hide *;
      var others := CommaFound(read, env, kv, ms[1..], z);
      vs := [v] + others;
      EachCons(read, kv, ms, v, others);
      BehindCons(env, sp, v, others, z);
    }
  }

  lemma {:induction false} CommaMade(read: Env, env: Env, kv: map<string, string>, ms: seq<string>, vs: seq<string>, y: string)
    requires Named(kv, ms) && SameBlanks(read, env) && EachReads(read, kv, ms, vs) && EachBehind(env, vs, y)
    ensures CommaText(read, kv, ms, y)
    decreases |ms|
  {
    if ms != [] {
      EachTail(read, kv, ms, vs);
      var sp, z := BehindHead(env, vs, y);
      assert read(SPACE, sp);
      hide *;
      CommaMade(read, env, kv, ms[1..], vs[1..], z);
      CommaCons(read, kv, ms, sp, vs[0], z);
    }
  }

  lemma ListIs(read: Env, env: Env, kv: map<string, string>, ms: seq<string>, x: string)
    requires Named(kv, ms) && SameBlanks(read, env)
    ensures ListText(read, kv, ms, x) <==> exists vs :: EachReads(read, kv, ms, vs) && Separated(env, vs, x)
  {
    hide CommaText, EachBehind;
    if ListText(read, kv, ms, x) {
      if ms == [] {
        var none: seq<string> := [];
        assert EachReads(read, kv, ms, none) && Separated(env, none, x);
      } else {
        var v, y :| x == v + y && read(kv[ms[0]], v) && CommaText(read, kv, ms[1..], y);
        hide Separated;
        var others := CommaFound(read, env, kv, ms[1..], y);
        SeparatedIs(env, v, others, y);
        EachCons(read, kv, ms, v, others);
      }
    }
    if vs :| EachReads(read, kv, ms, vs) && Separated(env, vs, x) {
      if ms != [] {
        hide Separated;
        EachTail(read, kv, ms, vs);
        var y := BehindIs(env, vs, x);
        CommaMade(read, env, kv, ms[1..], vs[1..], y);
      }
    }
  }

  // ----- objects -----

  lemma MemberRead(env: Env, refs: Env, t: Tables, s: Schema, m: string, u: string)
    ensures MemberReading(env, refs, t, s)(":" + m, u) <==> MemberMeans(env, refs, t, s, m, u)
  {
    assert (":" + m)[1..] == m && (":" + m)[0] != SPACE[0];
    hide MemberMeans;
  }

  lemma BlanksRead(base: Env, refs: Env, t: Tables, s: Schema)
    ensures SameBlanks(MemberReading(base, refs, t, s), base)
  {
    hide MemberMeans;
  }

  lemma ExtraIs(env: Env, refs: Env, t: Tables, s: Schema, x: string)
    ensures MemberMeans(env, refs, t, s, STAR, x) <==> MemberStands(env, refs, t, s, STAR, x)
  {
    hide Means, KeyMeans, Accepts;
    forall v
      ensures ExtraValue(env, refs, t, s.additional, v) <==>
        if s.additional.Described? then Means(env, refs, t, s.additional.schema, v)
        else "value" in t.primitives && Accepts(env, t.primitives["value"].content, v)
    {}
    hide ExtraValue;
  }

  lemma ListedIs(env: Env, refs: Env, t: Tables, s: Schema, key: string, x: string)
    requires key != STAR && GrammarText.PlainKey(key)
    ensures MemberMeans(env, refs, t, s, key, x) <==> MemberStands(env, refs, t, s, key, x)
  {
    GrammarText.KeySurvivesIff(key);
    var quoted := "\"" + (key + "\"");
    hide Means, KeyMeans, Accepts, GrammarText.Dump, GrammarText.PlainKey;
    if MemberMeans(env, refs, t, s, key, x) {
      var i, s1, s2, v :| 0 <= i < |PropertyList(s)| && PropertyList(s)[i].name == key
        && x == GrammarText.Dump(key) + (s1 + (":" + (s2 + v))) && env(SPACE, s1) && env(SPACE, s2)
        && Means(env, refs, t, PropertyList(s)[i].schema, v);
      assert 0 <= i < |s.properties.list| && s.properties.list[i].name == key && x == quoted + (s1 + (":" + (s2 + v)));
    }
    if MemberStands(env, refs, t, s, key, x) {
      var i, s1, s2, v :| 0 <= i < |s.properties.list| && s.properties.list[i].name == key
        && x == quoted + (s1 + (":" + (s2 + v))) && env(SPACE, s1) && env(SPACE, s2)
        && Means(env, refs, t, s.properties.list[i].schema, v);
      assert 0 <= i < |PropertyList(s)| && PropertyList(s)[i].name == key && x == GrammarText.Dump(key) + (s1 + (":" + (s2 + v)));
    }
  }

  lemma MemberIs(env: Env, refs: Env, t: Tables, s: Schema, key: string, x: string)
    requires key == STAR || GrammarText.PlainKey(key)
    ensures MemberMeans(env, refs, t, s, key, x) <==> MemberStands(env, refs, t, s, key, x)
  {
    hide *;
    if key == STAR {
      ExtraIs(env, refs, t, s, x);
    } else {
      ListedIs(env, refs, t, s, key, x);
    }
  }

  lemma {:induction false} ChosenFrom(list: seq<Property>, required: set<string>, wanted: bool)
    ensures forall k :: k in Chosen(list, required, wanted) ==> exists i :: 0 <= i < |list| && list[i].name == k
  {
    if list != [] {
      ChosenFrom(list[1..], required, wanted);
      forall k | k in Chosen(list, required, wanted)
        ensures exists i :: 0 <= i < |list| && list[i].name == k
      {
        if k != list[0].name {
          assert k in Chosen(list[1..], required, wanted);
          var i :| 0 <= i < |list| - 1 && list[1..][i].name == k;
          assert list[i + 1].name == k;
        }
      }
    }
  }

  /** Which lists of keys the grammar takes. */
  lemma KeysAre(s: Schema, ms: seq<string>)
    requires s.properties.Properties? ==> SensibleProperties(s.properties.list)
    ensures
      var list := if s.properties.Properties? then s.properties.list else [];
      Members(Chosen(list, s.required, true), Chosen(list, s.required, false) + ExtraKeys(s.additional), ms) <==> KeyList(s, ms)
  {
    var list := if s.properties.Properties? then s.properties.list else [];
    var os := Chosen(list, s.required, false);
    ChosenFrom(list, s.required, false);
    NoneIsStar(list, os);
    hide Chosen, Sensible, Members, PlainPick, Subsequence;
    ExtraKeysAre(s.additional, os);
    KeysPicked(Chosen(list, s.required, true), os, s.additional == Flag(true) || s.additional.Described?, ms);
    PlainKeysAre(s, ms);
  }

  lemma NoneIsStar(list: seq<Property>, os: seq<string>)
    requires SensibleProperties(list) && forall k :: k in os ==> exists i :: 0 <= i < |list| && list[i].name == k
    ensures STAR !in os
  {
    assert forall i :: 0 <= i < |list| ==> SensibleProperty(list[i]);
    hide Sensible;
  }

  lemma ExtraKeysAre(additional: Additional, os: seq<string>)
    ensures os + ExtraKeys(additional) == WithStar(os, additional == Flag(true) || additional.Described?)
  {}

  /** Some keys in order and additional ones, behind the required ones. */
  ghost predicate PlainKeys(rs: seq<string>, os: seq<string>, extra: bool, ms: seq<string>) {
    rs <= ms && exists sel, n: nat :: PlainPick(os, extra, ms[|rs|..], sel, n)
  }

  lemma KeysPicked(rs: seq<string>, os: seq<string>, extra: bool, ms: seq<string>)
    requires STAR !in os
    ensures Members(rs, WithStar(os, extra), ms) <==> PlainKeys(rs, os, extra, ms)
  {
    if rs <= ms {
      PicksMeaning(os, extra, ms[|rs|..]);
    }
    hide Picks, PlainPick;
  }

  lemma PlainKeysAre(s: Schema, ms: seq<string>)
    ensures
      var list := if s.properties.Properties? then s.properties.list else [];
      PlainKeys(Chosen(list, s.required, true), Chosen(list, s.required, false), s.additional == Flag(true) || s.additional.Described?, ms)
      <==> KeyList(s, ms)
  {
    var list := if s.properties.Properties? then s.properties.list else [];
    var rs, os := Chosen(list, s.required, true), Chosen(list, s.required, false);
    var extra := s.additional == Flag(true) || s.additional.Described?;
    hide Chosen, Subsequence, Times;
    if PlainKeys(rs, os, extra, ms) {
      var sel, n: nat :| PlainPick(os, extra, ms[|rs|..], sel, n);
      assert ms == rs + (sel + Times(STAR, n));
    }
    if KeyList(s, ms) {
      var sel, n: nat :| ms == rs + (sel + Times(STAR, n)) && Subsequence(sel, os) && (n > 0 ==> extra);
      assert ms[|rs|..] == sel + Times(STAR, n);
      assert PlainPick(os, extra, ms[|rs|..], sel, n);
    }
  }

  lemma NamedList(list: seq<Property>, ms: seq<string>)
    ensures Named(SelfNamed(Elements(Names(list)) + {STAR}), ms) <==>
      forall m :: m in ms ==> m == STAR || exists i :: 0 <= i < |list| && list[i].name == m
  {
    var named := SelfNamed(Elements(Names(list)) + {STAR});
    forall m ensures m in named <==> m == STAR || exists i :: 0 <= i < |list| && list[i].name == m {
      if i :| 0 <= i < |list| && list[i].name == m {
        assert Names(list)[i] == m;
      }
    }
  }

  lemma KeysNamed(s: Schema, ms: seq<string>)
    requires KeyList(s, ms)
    ensures Named(SelfNamed(Elements(Names(PropertyList(s))) + {STAR}), ms)
  {
    var list := PropertyList(s);
    var rs, os := Chosen(list, s.required, true), Chosen(list, s.required, false);
    ChosenFrom(list, s.required, true);
    ChosenFrom(list, s.required, false);
    NamedList(list, ms);
    var sel, n: nat :| ms == rs + (sel + Times(STAR, n)) && Subsequence(sel, os)
                       && (n > 0 ==> s.additional == Flag(true) || s.additional.Described?);
    SubsequenceIn(sel, os);
    hide Chosen, Subsequence, Names, Elements, SelfNamed, Named;
    forall m | m in ms
      ensures m == STAR || exists i :: 0 <= i < |list| && list[i].name == m
    {
      assert m in rs || m in sel || m in Times(STAR, n);
    }
  }

  lemma MembersAre(env: Env, refs: Env, t: Tables, s: Schema, ms: seq<string>, vs: seq<string>)
    requires s.properties.Properties? ==> SensibleProperties(s.properties.list)
    requires Named(SelfNamed(Elements(Names(PropertyList(s))) + {STAR}), ms)
    ensures
      EachReads(MemberReading(env, refs, t, s), SelfNamed(Elements(Names(PropertyList(s))) + {STAR}), ms, vs)
      <==> MembersStand(env, refs, t, s, ms, vs)
  {
    var list := PropertyList(s);
    var named := SelfNamed(Elements(Names(list)) + {STAR});
    NamedList(list, ms);
    forall i | 0 <= i < |ms| && i < |vs|
      ensures MemberReading(env, refs, t, s)(named[ms[i]], vs[i]) <==> MemberStands(env, refs, t, s, ms[i], vs[i])
    {
      assert ms[i] in ms && named[ms[i]] == ":" + ms[i];
      MemberRead(env, refs, t, s, ms[i], vs[i]);
      if ms[i] != STAR {
        var j :| 0 <= j < |list| && list[j].name == ms[i];
        assert SensibleProperty(list[j]);
      }
      hide Sensible, MemberReading, MemberMeans, MemberStands, GrammarText.PlainKey;
      MemberIs(env, refs, t, s, ms[i], vs[i]);
    }
    hide MemberReading, MemberStands, SelfNamed, Elements, Names;
  }

  /** What stands between the braces. */
  lemma InsideIs(env: Env, refs: Env, t: Tables, s: Schema, x: string)
    requires s.properties.Properties? ==> SensibleProperties(s.properties.list)
    ensures
      InsideText(MemberReading(env, refs, t, s), SelfNamed(Elements(Names(PropertyList(s))) + {STAR}),
                 Chosen(PropertyList(s), s.required, true), Chosen(PropertyList(s), s.required, false) + ExtraKeys(s.additional), x)
      <==> exists keys, vs :: KeyList(s, keys) && MembersStand(env, refs, t, s, keys, vs) && Separated(env, vs, x)
  {
    var list := PropertyList(s);
    var read, named := MemberReading(env, refs, t, s), SelfNamed(Elements(Names(list)) + {STAR});
    var required, optional := Chosen(list, s.required, true), Chosen(list, s.required, false) + ExtraKeys(s.additional);
    BlanksRead(env, refs, t, s);
    hide MemberReading, SelfNamed, Elements, Names, Chosen, ListText, Members, KeyList, MembersStand;
    hide EachReads, Separated, SameBlanks, Named, Sensible;
    if InsideText(read, named, required, optional, x) {
      var ms :| Members(required, optional, ms) && Named(named, ms) && ListText(read, named, ms, x);
      ListIs(read, env, named, ms, x);
      var vs :| EachReads(read, named, ms, vs) && Separated(env, vs, x);
      MembersAre(env, refs, t, s, ms, vs);
      KeysAre(s, ms);
    }
    if keys, vs :| KeyList(s, keys) && MembersStand(env, refs, t, s, keys, vs) && Separated(env, vs, x) {
      KeysAre(s, keys);
      KeysNamed(s, keys);
      MembersAre(env, refs, t, s, keys, vs);
      ListIs(read, env, named, keys, x);
    }
  }

  /** Of sensible properties the members are written as described. */
  lemma ObjectSpelled(env: Env, refs: Env, t: Tables, s: Schema, w: string)
    requires s.properties.Properties? ==> SensibleProperties(s.properties.list)
    ensures ObjectByKeys(env, refs, t, s, w) <==> ObjectStands(env, refs, t, s, w)
  {
    var list := PropertyList(s);
    var read, named := MemberReading(env, refs, t, s), SelfNamed(Elements(Names(list)) + {STAR});
    var required, optional := Chosen(list, s.required, true), Chosen(list, s.required, false) + ExtraKeys(s.additional);
    BlanksRead(env, refs, t, s);
    assert forall sp :: read(SPACE, sp) <==> env(SPACE, sp);
    hide MemberReading, SelfNamed, Elements, Names, Chosen, InsideText, KeyList, MembersStand, Separated, SameBlanks, Sensible;
    if ObjectByKeys(env, refs, t, s, w) {
      var s1, x, s2 :| w == Braced(s1, x, s2) && read(SPACE, s1) && read(SPACE, s2) && InsideText(read, named, required, optional, x);
      InsideIs(env, refs, t, s, x);
      var keys, vs :| KeyList(s, keys) && MembersStand(env, refs, t, s, keys, vs) && Separated(env, vs, x);
      assert w == "{" + (s1 + (x + ("}" + s2)));
    }
    if s1, x, s2, keys, vs :|
      && w == "{" + (s1 + (x + ("}" + s2))) && env(SPACE, s1) && env(SPACE, s2)
      && KeyList(s, keys) && MembersStand(env, refs, t, s, keys, vs) && Separated(env, vs, x) {
      InsideIs(env, refs, t, s, x);
      assert w == Braced(s1, x, s2) && read(SPACE, s1) && read(SPACE, s2);
    }
  }
}
