/** JSON at token level: the grammar of RFC 8259 (sections 2, 4 and 5) as trees and their
    writing, and a one-pass parser that keeps the containers still open. */
module Json {
  import opened Common

  datatype Scalar = Text(s: string) | Number(digits: string) | True | False | Null

  datatype Value = Leaf(scalar: Scalar) | Array(items: seq<Value>) | Object(members: seq<Member>)

  datatype Member = Member(key: string, value: Value)

  /** `Unterminated` is a quote without its partner: it swallows the rest of the text. */
  datatype JsonToken =
    | LBrace | RBrace | LBracket | RBracket | Colon | Comma
    | Lit(scalar: Scalar)
    | Unterminated

  // ----- the grammar -----

  function Written(v: Value): (ts: seq<JsonToken>)
    ensures |ts| > 0
    decreases v
  {
    match v
    case Leaf(s) => [Lit(s)]
    case Array(items) => [LBracket] + Items(items) + [RBracket]
    case Object(members) => [LBrace] + Members(members) + [RBrace]
  }

  function Items(vs: seq<Value>): (ts: seq<JsonToken>)
    decreases vs
  {
    if |vs| == 0 then []
    else if |vs| == 1 then Written(vs[0])
    else Items(vs[..|vs| - 1]) + [Comma] + Written(vs[|vs| - 1])
  }

  function WrittenMember(m: Member): (ts: seq<JsonToken>)
    decreases m
  {
    [Lit(Text(m.key)), Colon] + Written(m.value)
  }

  function Members(ms: seq<Member>): (ts: seq<JsonToken>)
    decreases ms
  {
    if |ms| == 0 then []
    else if |ms| == 1 then WrittenMember(ms[0])
    else Members(ms[..|ms| - 1]) + [Comma] + WrittenMember(ms[|ms| - 1])
  }

  /** `ts` is a complete JSON text. */
  ghost predicate Document(ts: seq<JsonToken>) {
    exists v :: Written(v) == ts
  }

  // ----- partial documents -----

  /** The containers still open, innermost first, with what is complete in each of them;
      `InMember` is an object with a key that has no value yet. */
  datatype Context =
    | Top
    | InArray(outer: Context, items: seq<Value>)
    | InObject(outer: Context, members: seq<Member>)
    | InMember(outer: Context, members: seq<Member>, key: string)
  {
    predicate Wf() {
      Top? || (outer.Wf() && !outer.InObject?)
    }
  }

  /** How many containers are open. */
  function Depth(c: Context): nat {
    if c.Top? then 0 else 1 + Depth(c.outer)
  }

  datatype Next = NeedValue | AfterOpen | NeedKey | NeedColon | HaveValue

  datatype Partial = Building(context: Context, next: Next) | Complete(value: Value)
  {
    predicate Wf() {
      Building? ==> context.Wf() && match next
        case NeedValue => context.Top? || context.InMember? || (context.InArray? && context.items != [])
        case AfterOpen => (context.InArray? && context.items == []) || (context.InObject? && context.members == [])
        case NeedKey => context.InObject? && context.members != []
        case NeedColon => context.InMember?
        case HaveValue => (context.InArray? && context.items != []) || (context.InObject? && context.members != [])
    }
  }

  /** A value is complete: it joins the container it stands in. */
  function Finish(c: Context, v: Value): (p: Partial)
    requires !c.InObject?
    ensures c.Wf() ==> p.Wf()
    ensures p.Building? ==> p.next == HaveValue && !c.Top? && Depth(p.context) == Depth(c)
  {
    match c
    case Top => Complete(v)
    case InArray(o, items) => Building(InArray(o, items + [v]), HaveValue)
    case InMember(o, ms, k) => Building(InObject(o, ms + [Member(k, v)]), HaveValue)
  }

  /** One token of parsing. */
  function Step(p: Partial, t: JsonToken): (r: Option<Partial>)
    requires p.Wf()
    ensures r.Some? ==> r.value.Wf()
  {
    match p
    case Complete(_) => None
    case Building(c, next) =>
      if next == NeedColon then
        if t == Colon then Some(Building(c, NeedValue)) else None
      else if c.InObject? then
        if t == RBrace && next != NeedKey then Some(Finish(c.outer, Object(c.members)))
        else if t == Comma && next == HaveValue then Some(Building(c, NeedKey))
        else if t.Lit? && t.scalar.Text? && next != HaveValue then Some(Building(InMember(c.outer, c.members, t.scalar.s), NeedColon))
        else None
      else if next == HaveValue then
        if t == RBracket then Some(Finish(c.outer, Array(c.items)))
        else if t == Comma then Some(Building(c, NeedValue))
        else None
      else
        match t
        case Lit(s) => Some(Finish(c, Leaf(s)))
        case LBracket => Some(Building(InArray(c, []), AfterOpen))
        case LBrace => Some(Building(InObject(c, []), AfterOpen))
        case RBracket => if next == AfterOpen then Some(Finish(c.outer, Array([]))) else None
        case _ => None
  }

  const START := Building(Top, NeedValue)

  /** Parsing `ts` from `p` on; None once a token does not fit. */
  function Run(p: Partial, ts: seq<JsonToken>): (r: Option<Partial>)
    requires p.Wf()
    ensures r.Some? ==> r.value.Wf()
  {
    if ts == [] then Some(p)
    else
      var before := Run(p, ts[..|ts| - 1]);
      if before.None? then None else Step(before.value, ts[|ts| - 1])
  }

  lemma {:induction false} RunConcat(p: Partial, a: seq<JsonToken>, b: seq<JsonToken>)
    requires p.Wf()
    ensures Run(p, a + b) == if Run(p, a).Some? then Run(Run(p, a).value, b) else None
    decreases |b|
  {
    hide Step;
    if b == [] {
      assert a + b == a;
    } else {
      var init := b[..|b| - 1];
      RunConcat(p, a, init);
      assert (a + b)[..|a + b| - 1] == a + init;
    }
  }

  lemma RunNothing(p: Partial)
    requires p.Wf()
    ensures Run(p, []) == Some(p)
  {}

  lemma RunOne(p: Partial, t: JsonToken)
    requires p.Wf()
    ensures Run(p, [t]) == Step(p, t)
  {
    hide Step;
    assert [t][..0] == [];
  }

  lemma RunThen(p: Partial, a: seq<JsonToken>, t: JsonToken)
    requires p.Wf()
    ensures Run(p, a + [t]) == if Run(p, a).Some? then Step(Run(p, a).value, t) else None
  {
    hide Step;
    assert (a + [t])[..|a|] == a;
  }

  /** A token that fits nowhere stays an error for ever. */
  lemma PrefixRuns(p: Partial, a: seq<JsonToken>, b: seq<JsonToken>)
    requires p.Wf() && Run(p, a + b).Some?
    ensures Run(p, a).Some?
  {
    RunConcat(p, a, b);
  }

  // ----- the parser accepts what the grammar writes -----

  lemma {:induction false} RunWritten(c: Context, next: Next, v: Value)
    requires Building(c, next).Wf() && !c.InObject? && next in {NeedValue, AfterOpen}
    ensures Run(Building(c, next), Written(v)) == Some(Finish(c, v))
    decreases v, 1
  {
    hide Run;
    var p := Building(c, next);
    match v {
      case Leaf(s) =>
        RunOne(p, Lit(s));
      case Array(items) =>
        RunOne(p, LBracket);
        if |items| > 0 {
          RunItems(c, items);
        } else {
          RunNothing(Building(InArray(c, []), AfterOpen));
        }
        RunConcat(p, [LBracket], Items(items));
        RunThen(p, [LBracket] + Items(items), RBracket);
      case Object(members) =>
        RunOne(p, LBrace);
        if |members| > 0 {
          RunMembers(c, members);
        } else {
          RunNothing(Building(InObject(c, []), AfterOpen));
        }
        RunConcat(p, [LBrace], Members(members));
        RunThen(p, [LBrace] + Members(members), RBrace);
    }
  }

  lemma {:induction false} RunItems(c: Context, vs: seq<Value>)
    requires c.Wf() && !c.InObject? && |vs| > 0
    ensures Run(Building(InArray(c, []), AfterOpen), Items(vs)) == Some(Building(InArray(c, vs), HaveValue))
    decreases vs, 0
  {
    hide Run;
    var p := Building(InArray(c, []), AfterOpen);
    var last := vs[|vs| - 1];
    if |vs| == 1 {
      RunWritten(InArray(c, []), AfterOpen, last);
      assert [] + [last] == vs;
    } else {
      var init := vs[..|vs| - 1];
      RunItems(c, init);
      RunThen(p, Items(init), Comma);
      RunWritten(InArray(c, init), NeedValue, last);
      RunConcat(p, Items(init) + [Comma], Written(last));
      assert init + [last] == vs;
    }
  }

  lemma {:induction false} RunMember(c: Context, ms: seq<Member>, next: Next, m: Member)
    requires Building(InObject(c, ms), next).Wf() && next in {AfterOpen, NeedKey}
    ensures Run(Building(InObject(c, ms), next), WrittenMember(m)) == Some(Building(InObject(c, ms + [m]), HaveValue))
    decreases m, 2
  {
    hide Run;
    var p := Building(InObject(c, ms), next);
    var key := Lit(Text(m.key));
    RunOne(p, key);
    RunThen(p, [key], Colon);
    assert [key] + [Colon] == [key, Colon];
    RunWritten(InMember(c, ms, m.key), NeedValue, m.value);
    RunConcat(p, [key, Colon], Written(m.value));
  }

  lemma {:induction false} RunMembers(c: Context, ms: seq<Member>)
    requires c.Wf() && !c.InObject? && |ms| > 0
    ensures Run(Building(InObject(c, []), AfterOpen), Members(ms)) == Some(Building(InObject(c, ms), HaveValue))
    decreases ms, 0
  {
    hide Run;
    var p := Building(InObject(c, []), AfterOpen);
    var last := ms[|ms| - 1];
    if |ms| == 1 {
      RunMember(c, [], AfterOpen, last);
      assert [] + [last] == ms;
    } else {
      var init := ms[..|ms| - 1];
      RunMembers(c, init);
      RunThen(p, Members(init), Comma);
      RunMember(c, init, NeedKey, last);
      RunConcat(p, Members(init) + [Comma], WrittenMember(last));
      assert init + [last] == ms;
    }
  }

  // ----- and keeps exactly what it has read -----

  /** The complete items or members with the comma that a further one needs. */
  function ItemsBefore(vs: seq<Value>): seq<JsonToken> {
    if vs == [] then [] else Items(vs) + [Comma]
  }

  function MembersBefore(ms: seq<Member>): seq<JsonToken> {
    if ms == [] then [] else Members(ms) + [Comma]
  }

  /** What has been read when a value or key is about to be written in `c`. */
  function Opened(c: Context): (ts: seq<JsonToken>) {
    match c
    case Top => []
    case InArray(o, items) => Opened(o) + [LBracket] + ItemsBefore(items)
    case InObject(o, ms) => Opened(o) + [LBrace] + MembersBefore(ms)
    case InMember(o, ms, k) => Opened(o) + [LBrace] + MembersBefore(ms) + [Lit(Text(k)), Colon]
  }

  /** What a partial document has read. */
  function Read(p: Partial): (ts: seq<JsonToken>)
    requires p.Wf()
  {
    match p
    case Complete(v) => Written(v)
    case Building(c, next) =>
      match next
      case HaveValue =>
        Opened(c.outer) + (if c.InArray? then [LBracket] + Items(c.items) else [LBrace] + Members(c.members))
      case NeedColon => Opened(InObject(c.outer, c.members)) + [Lit(Text(c.key))]
      case _ => Opened(c)
  }

  lemma ItemsSnoc(vs: seq<Value>, v: Value)
    ensures Items(vs + [v]) == ItemsBefore(vs) + Written(v)
  {
    assert (vs + [v])[..|vs|] == vs;
  }

  lemma MembersSnoc(ms: seq<Member>, m: Member)
    ensures Members(ms + [m]) == MembersBefore(ms) + WrittenMember(m)
  {
    assert (ms + [m])[..|ms|] == ms;
  }

  lemma Regroup<T>(a: seq<T>, b: seq<T>, c: seq<T>, d: seq<T>)
    ensures a + (b + (c + d)) == a + b + c + d
  {}

  lemma ReadFinish(c: Context, v: Value)
    requires c.Wf() && !c.InObject?
    ensures Read(Finish(c, v)) == Opened(c) + Written(v)
  {
    match c {
      case Top =>
        assert [] + Written(v) == Written(v);
      case InArray(o, items) =>
        ItemsSnoc(items, v);
        hide Items, Written, ItemsBefore;
        Regroup(Opened(o), [LBracket], ItemsBefore(items), Written(v));
      case InMember(o, ms, k) =>
        var m := Member(k, v);
        var key := [Lit(Text(k)), Colon];
        MembersSnoc(ms, m);
        assert WrittenMember(m) == key + Written(v);
        hide Members, Written, MembersBefore, WrittenMember;
        Regroup(Opened(o), [LBrace], MembersBefore(ms), key + Written(v));
        Regroup([], Opened(o) + [LBrace] + MembersBefore(ms), key, Written(v));
    }
  }

  lemma ReadStep(p: Partial, t: JsonToken)
    requires p.Wf() && Step(p, t).Some?
    ensures Read(Step(p, t).value) == Read(p) + [t]
  {
    var c := p.context;
    hide Items, Members, Written;
    if p.next != NeedColon && t == (if c.InObject? then RBrace else RBracket) {
      ReadFinish(c.outer, if c.InObject? then Object(c.members) else Array(c.items));
      ReadClosed(p);
    } else if p.next == HaveValue {
      ReadComma(p);
    } else if !c.InObject? && t.Lit? {
      ReadFinish(c, Leaf(t.scalar));
    } else {
      ReadOpens(p, t);
    }
  }

  lemma ReadComma(p: Partial)
    requires p.Wf() && p.Building? && p.next == HaveValue
    ensures Opened(p.context) == Read(p) + [Comma]
  {
    hide Items, Members;
    var c := p.context;
    if c.InArray? {
      Regroup([], Opened(c.outer) + [LBracket], Items(c.items), [Comma]);
      assert Opened(c.outer) + [LBracket] + Items(c.items) == Read(p);
    } else {
      Regroup([], Opened(c.outer) + [LBrace], Members(c.members), [Comma]);
      assert Opened(c.outer) + [LBrace] + Members(c.members) == Read(p);
    }
  }

  /** A key, a colon or an opening bracket is read as it stands. */
  lemma ReadOpens(p: Partial, t: JsonToken)
    requires p.Wf() && p.Building? && p.next != HaveValue && Step(p, t).Some?
    requires p.next != NeedColon ==> t in {LBracket, LBrace} || (p.context.InObject? && t.Lit?)
    ensures Read(Step(p, t).value) == Read(p) + [t]
  {
    hide Items, Members, Written;
    if p.next == NeedColon {
      var c := p.context;
      assert [Lit(Text(c.key)), Colon] == [Lit(Text(c.key))] + [Colon];
    }
  }

  /** Closing the innermost container completes it. */
  lemma ReadClosed(p: Partial)
    requires p.Wf() && p.Building? && p.next in {HaveValue, AfterOpen}
    ensures p.context.InArray? ==> Opened(p.context.outer) + Written(Array(p.context.items)) == Read(p) + [RBracket]
    ensures p.context.InObject? ==> Opened(p.context.outer) + Written(Object(p.context.members)) == Read(p) + [RBrace]
  {
    hide Opened;
    var o := Opened(p.context.outer);
    if p.context.InArray? {
      var w := Items(p.context.items);
      assert o + ([LBracket] + w + [RBracket]) == o + ([LBracket] + w) + [RBracket];
      if p.next == AfterOpen {
        OpenedEmpty(p.context);
        assert w == [];
        assert o + ([LBracket] + w) == o + [LBracket];
      }
    } else {
      var w := Members(p.context.members);
      assert o + ([LBrace] + w + [RBrace]) == o + ([LBrace] + w) + [RBrace];
      if p.next == AfterOpen {
        OpenedEmpty(p.context);
        assert w == [];
        assert o + ([LBrace] + w) == o + [LBrace];
      }
    }
  }

  lemma OpenedEmpty(c: Context)
    requires (c.InArray? && c.items == []) || (c.InObject? && c.members == [])
    ensures Opened(c) == Opened(c.outer) + [if c.InArray? then LBracket else LBrace]
  {}

  /** Parsing loses nothing: what is open and complete determines all that was read. */
  lemma {:induction false} ReadRun(ts: seq<JsonToken>)
    requires Run(START, ts).Some?
    ensures Read(Run(START, ts).value) == ts
  {
    hide Step, Read;
    if ts == [] {
      ReadStart();
    } else {
      var init, last := ts[..|ts| - 1], ts[|ts| - 1];
      ReadRun(init);
      ReadStep(Run(START, init).value, last);
    }
  }

  lemma ReadStart()
    ensures Read(START) == []
  {}

  /** The parser accepts a token list as the document `v` exactly when the grammar writes `v`
      so; in particular no two documents are written alike. */
  lemma AcceptsIff(ts: seq<JsonToken>, v: Value)
    ensures Run(START, ts) == Some(Complete(v)) <==> Written(v) == ts
  {
    if Run(START, ts) == Some(Complete(v)) {
      ReadRun(ts);
    }
    RunWritten(Top, NeedValue, v);
  }

  lemma DocumentIff(ts: seq<JsonToken>)
    ensures Document(ts) <==> Run(START, ts).Some? && Run(START, ts).value.Complete?
  {
    if Document(ts) {
      var v :| Written(v) == ts;
      AcceptsIff(ts, v);
    }
    if Run(START, ts).Some? && Run(START, ts).value.Complete? {
      AcceptsIff(ts, Run(START, ts).value.value);
    }
  }

  // ----- closing what is open -----

  /** The tokens that close all open containers, innermost first. */
  function Closing(c: Context): (ts: seq<JsonToken>) {
    match c
    case Top => []
    case InArray(o, _) => [RBracket] + Closing(o)
    case InObject(o, _) => [RBrace] + Closing(o)
    case InMember(o, _, _) => [RBrace] + Closing(o)
  }

  /** The document that results when all open containers are closed as they are. */
  function Closed(c: Context): (v: Value)
    requires c.Wf() && (c.InArray? || c.InObject?)
    decreases Depth(c)
  {
    var v := if c.InArray? then Array(c.items) else Object(c.members);
    match Finish(c.outer, v)
    case Complete(w) => w
    case Building(o, _) => Closed(o)
  }

  /** A partial document that could be closed at once: no separator or key is pending. */
  predicate Closable(p: Partial) {
    p.Building? && (p.context.InArray? || p.context.InObject?) && p.next in {HaveValue, AfterOpen}
  }

  lemma {:induction false} RunClosing(p: Partial)
    requires p.Wf() && Closable(p)
    ensures Run(p, Closing(p.context)) == Some(Complete(Closed(p.context)))
    decreases Depth(p.context)
  {
    hide Run;
    var c := p.context;
    var t := if c.InArray? then RBracket else RBrace;
    var v := if c.InArray? then Array(c.items) else Object(c.members);
    var q := Finish(c.outer, v);
    RunOne(p, t);
    RunConcat(p, [t], Closing(c.outer));
    if q.Building? {
      RunClosing(q);
    } else {
      RunNothing(q);
    }
  }

  /** Closing after more tokens that leave no separator pending gives a document. */
  lemma RunMore(ts: seq<JsonToken>, more: seq<JsonToken>, closing: seq<JsonToken>, p: Partial)
    requires Run(START, ts).Some? && Run(Run(START, ts).value, more) == Some(p)
    requires Closable(p) && closing == Closing(p.context)
    ensures Run(START, ts + more + closing) == Some(Complete(Closed(p.context)))
    ensures Written(Closed(p.context)) == ts + more + closing
  {
    RunConcat(START, ts, more);
    RunClosing(p);
    RunConcat(START, ts + more, closing);
    AcceptsIff(ts + more + closing, Closed(p.context));
  }

  // ----- prefixes of documents -----

  /** The least that turns a partial document into a closable one. */
  function Least(p: Partial): (ts: seq<JsonToken>) {
    if p.Complete? then [] else
    match p.next
    case NeedValue => [Lit(Null)]
    case NeedColon => [Colon, Lit(Null)]
    case NeedKey => [Lit(Text("")), Colon, Lit(Null)]
    case _ => []
  }

  lemma RunTwo(p: Partial, t0: JsonToken, t1: JsonToken)
    requires p.Wf() && Step(p, t0).Some?
    ensures Run(p, [t0, t1]) == Step(Step(p, t0).value, t1)
  {
    hide Step;
    RunOne(p, t0);
    RunThen(p, [t0], t1);
    assert [t0] + [t1] == [t0, t1];
  }

  lemma RunThree(p: Partial, t0: JsonToken, t1: JsonToken, t2: JsonToken)
    requires p.Wf() && Step(p, t0).Some? && Step(Step(p, t0).value, t1).Some?
    ensures Run(p, [t0, t1, t2]) == Step(Step(Step(p, t0).value, t1).value, t2)
  {
    hide Step;
    RunTwo(p, t0, t1);
    RunThen(p, [t0, t1], t2);
    assert [t0, t1] + [t2] == [t0, t1, t2];
  }

  lemma RunLeast(p: Partial)
    requires p.Wf()
    ensures Run(p, Least(p)).Some?
    ensures var q := Run(p, Least(p)).value; q.Complete? || Closable(q)
  {
    if p.Building? {
      match p.next {
        case NeedValue => RunOne(p, Lit(Null));
        case NeedColon => RunTwo(p, Colon, Lit(Null));
        case NeedKey => RunThree(p, Lit(Text("")), Colon, Lit(Null));
        case _ =>
      }
    }
  }

  /** The parser refuses a token exactly when no document goes on that way. */
  lemma ViablePrefixIff(ts: seq<JsonToken>)
    ensures Run(START, ts).Some? <==> exists v :: ts <= Written(v)
  {
    if Run(START, ts).Some? {
      var p := Run(START, ts).value;
      RunLeast(p);
      var q := Run(p, Least(p)).value;
      if q.Complete? {
        RunConcat(START, ts, Least(p));
        AcceptsIff(ts + Least(p), q.value);
        assert ts <= Written(q.value);
      } else {
        RunMore(ts, Least(p), Closing(q.context), q);
        assert ts <= Written(Closed(q.context));
      }
    }
    if v :| ts <= Written(v) {
      AcceptsIff(Written(v), v);
      assert Written(v) == ts + Written(v)[|ts|..];
      PrefixRuns(START, ts, Written(v)[|ts|..]);
    }
  }

  /** Cut anywhere inside, a document of more than one token has a container open. */
  lemma CutIsOpen(v: Value, n: nat)
    requires 0 < n < |Written(v)|
    ensures Run(START, Written(v)[..n]).Some?
    ensures var p := Run(START, Written(v)[..n]).value; p.Building? && !p.context.Top?
  {
    var ts, rest := Written(v)[..n], Written(v)[n..];
    assert ts + rest == Written(v);
    AcceptsIff(Written(v), v);
    PrefixRuns(START, ts, rest);
    var p := Run(START, ts).value;
    ReadRun(ts);
    if p.Complete? {
      RunConcat(START, ts, rest);
      NothingAfterComplete(p, rest);
    }
  }

  lemma {:induction false} NothingAfterComplete(p: Partial, ts: seq<JsonToken>)
    requires p.Complete? && ts != []
    ensures Run(p, ts).None?
  {
    if |ts| > 1 {
      NothingAfterComplete(p, ts[..|ts| - 1]);
    }
  }
}
