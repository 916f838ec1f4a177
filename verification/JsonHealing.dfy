/** Parsing JSON text that may be cut short: a handler that follows the parser's events with a
    stack of its own, and the completion of the text from that stack. The cut is between two
    tokens; `tight` says that no blank follows the last one. */
module JsonHealing {
  import opened Common
  import opened Json

  datatype Element = ObjectElement | ArrayElement | KeyElement(key: string)

  /** The path to the cut: open containers and the pending key, outermost first. */
  function Path(c: Context): (stack: seq<Element>) {
    match c
    case Top => []
    case InArray(o, _) => Path(o) + [ArrayElement]
    case InObject(o, _) => Path(o) + [ObjectElement]
    case InMember(o, _, k) => Path(o) + [ObjectElement, KeyElement(k)]
  }

  /** The parser's own record: for every open container, whether it is an array. */
  function Levels(c: Context): (levels: seq<bool>) {
    match c
    case Top => []
    case InArray(o, _) => Levels(o) + [true]
    case InObject(o, _) => Levels(o) + [false]
    case InMember(o, _, _) => Levels(o) + [false]
  }

  // ----- the event handler -----

  /** `json_error_locator`. What the program asserts when a container ends is required here. */
  class ErrorLocator {
    var stack: seq<Element>

    constructor ()
      ensures stack == []
    {
      stack := [];
    }

    method CloseValue()
      modifies this
      ensures stack == WithoutKey(old(stack))
    {
      if |stack| > 0 && stack[|stack| - 1].KeyElement? {
        stack := stack[..|stack| - 1];
      }
    }

    /** null, a boolean, a number or a string. */
    method Scalar()
      modifies this
      ensures stack == WithoutKey(old(stack))
    {
      CloseValue();
    }

    method StartObject()
      modifies this
      ensures stack == old(stack) + [ObjectElement]
    {
      stack := stack + [ObjectElement];
    }

    method EndObject()
      requires |stack| > 0 && stack[|stack| - 1].ObjectElement?
      modifies this
      ensures stack == WithoutKey(old(stack)[..|old(stack)| - 1])
    {
      stack := stack[..|stack| - 1];
      CloseValue();
    }

    method Key(key: string)
      modifies this
      ensures stack == old(stack) + [KeyElement(key)]
    {
      stack := stack + [KeyElement(key)];
    }

    method StartArray()
      modifies this
      ensures stack == old(stack) + [ArrayElement]
    {
      stack := stack + [ArrayElement];
    }

    method EndArray()
      requires |stack| > 0 && stack[|stack| - 1].ArrayElement?
      modifies this
      ensures stack == WithoutKey(old(stack)[..|old(stack)| - 1])
    {
      stack := stack[..|stack| - 1];
      CloseValue();
    }
  }

  function WithoutKey(stack: seq<Element>): seq<Element> {
    if |stack| > 0 && stack[|stack| - 1].KeyElement? then stack[..|stack| - 1] else stack
  }

  // ----- the parser that drives it -----

  class SaxParser {
    var inArray: seq<bool>
    var next: Next
    var done: bool
    const handler: ErrorLocator

    /** Parser and handler are where the partial document is. */
    ghost predicate At(p: Partial)
      reads this, handler
    {
      match p
      case Complete(_) => done && inArray == [] && handler.stack == []
      case Building(c, n) => !done && next == n && inArray == Levels(c) && handler.stack == Path(c)
    }

    constructor ()
      ensures At(START) && fresh(handler)
    {
      inArray, next, done := [], NeedValue, false;
      handler := new ErrorLocator();
    }

    /** A value has ended and the handler has been told. */
    method EndValue(ghost c: Context, ghost v: Value)
      requires c.Wf() && !c.InObject? && inArray == Levels(c) && !done
      requires handler.stack == WithoutKey(Path(c))
      modifies this
      ensures At(Finish(c, v))
    {
      if inArray == [] {
        done := true;
      } else {
        next := HaveValue;
      }
    }

    method EndContainer(ghost c: Context, ghost v: Value)
      requires c.Wf() && !c.Top? && !c.InMember? && At(Building(c, next))
      modifies this, handler
      ensures At(Finish(c.outer, v))
    {
      if inArray[|inArray| - 1] {
        handler.EndArray();
      } else {
        handler.EndObject();
      }
      inArray := inArray[..|inArray| - 1];
      EndValue(c.outer, v);
    }

    /** One token: refused just when the grammar has no use for it. */
    method Feed(t: JsonToken, ghost p: Partial) returns (ok: bool)
      requires p.Wf() && At(p)
      modifies this, handler
      ensures ok <==> Step(p, t).Some?
      ensures ok ==> At(Step(p, t).value)
      ensures !ok ==> At(p)
    {
      if done {
        return false;
      }
      ghost var c := p.context;
      ok := true;
      if next == NeedColon {
        if t != Colon {
          return false;
        }
        next := NeedValue;
      } else if inArray != [] && !inArray[|inArray| - 1] && next != NeedValue {
        if t == RBrace && next != NeedKey {
          EndContainer(c, Object(c.members));
        } else if t == Comma && next == HaveValue {
          next := NeedKey;
        } else if t.Lit? && t.scalar.Text? && next != HaveValue {
          handler.Key(t.scalar.s);
          next := NeedColon;
        } else {
          return false;
        }
      } else if next == HaveValue {
        if t == RBracket {
          EndContainer(c, Array(c.items));
        } else if t == Comma {
          next := NeedValue;
        } else {
          return false;
        }
      } else if t.Lit? {
        handler.Scalar();
        EndValue(c, Leaf(t.scalar));
      } else if t == LBracket {
        handler.StartArray();
        inArray := inArray + [true];
        next := AfterOpen;
      } else if t == LBrace {
        handler.StartObject();
        inArray := inArray + [false];
        next := AfterOpen;
      } else if t == RBracket && next == AfterOpen {
        EndContainer(c, Array([]));
      } else {
        return false;
      }
    }
  }

  /** How far the grammar can follow `ts`. */
  ghost predicate ReadsTo(ts: seq<JsonToken>, read: nat) {
    && read <= |ts|
    && Run(START, ts[..read]).Some?
    && (read < |ts| ==> Run(START, ts[..read + 1]).None?)
  }

  function StackOf(p: Partial): seq<Element> {
    if p.Complete? then [] else Path(p.context)
  }

  /** `sax_parse` with the error locator as its handler. */
  method SaxParse(ts: seq<JsonToken>) returns (ok: bool, read: nat, stack: seq<Element>)
    ensures ReadsTo(ts, read)
    ensures ok <==> read == |ts| && Run(START, ts[..read]).value.Complete?
    ensures stack == StackOf(Run(START, ts[..read]).value)
  {
    hide Step;
    var parser := new SaxParser();
    ghost var p := START;
    read := 0;
    while read < |ts|
      invariant read <= |ts| && fresh(parser) && fresh(parser.handler)
      invariant p.Wf() && Run(START, ts[..read]) == Some(p) && parser.At(p)
    {
      RunThen(START, ts[..read], ts[read]);
      assert ts[..read + 1] == ts[..read] + [ts[read]];
      var fits := parser.Feed(ts[read], p);
      if !fits {
        return false, read, parser.handler.stack;
      }
      p := Step(p, ts[read]).value;
      read := read + 1;
    }
    assert ts[..read] == ts;
    ok, stack := parser.done, parser.handler.stack;
  }

  /** `json::parse` succeeds. */
  method CanParse(ts: seq<JsonToken>) returns (ok: bool)
    ensures ok <==> Run(START, ts).Some? && Run(START, ts).value.Complete?
    ensures ok <==> Document(ts)
  {
    hide Run;
    DocumentIff(ts);
    var read, stack;
    ok, read, stack := SaxParse(ts);
    if read == |ts| {
      assert ts[..read] == ts;
    } else {
      assert ts == ts[..read + 1] + ts[read + 1..];
      if Run(START, ts).Some? {
        PrefixRuns(START, ts[..read + 1], ts[read + 1..]);
      }
    }
  }

  // ----- what healing has to produce -----

  /** Does the text end in a digit, a point, an e, an E or a minus, so that a number may have
      been cut? Besides numbers, `true` and `false` end that way. */
  predicate WasMaybeNumber(ts: seq<JsonToken>, tight: bool) {
    && tight && |ts| > 0 && ts[|ts| - 1].Lit?
    && (ts[|ts| - 1].scalar.Number? || ts[|ts| - 1].scalar.True? || ts[|ts| - 1].scalar.False?)
  }

  /** The open containers once the marker has been put at the cut: as the next value where a
      value may stand, as the value of a key that has none, as a key with value 1 where a key
      may stand; it replaces the last value when that may be a number that was cut. */
  function Marked(p: Partial, marker: string, maybeNumber: bool): (c: Context)
    requires p.Wf() && p.Building? && !p.context.Top?
    ensures c.Wf() && (c.InArray? || c.InObject?)
  {
    var mark := Leaf(Text(marker));
    match p.context
    case InMember(o, ms, k) => InObject(o, ms + [Member(k, mark)])
    case InArray(o, items) =>
      InArray(o, (if maybeNumber && items != [] then items[..|items| - 1] else items) + [mark])
    case InObject(o, ms) =>
      if maybeNumber && ms != [] then
        InObject(o, ms[..|ms| - 1] + [Member(ms[|ms| - 1].key, mark)])
      else
        InObject(o, ms + [Member(marker, Leaf(Number("1")))])
  }

  /** Where the parser is tells which token it has read last. */
  predicate ArrivedBy(p: Partial, last: JsonToken)
    requires p.Wf() && p.Building? && !p.context.Top?
  {
    match p.next
    case NeedValue => last == if p.context.InArray? then Comma else Colon
    case AfterOpen => last == if p.context.InArray? then LBracket else LBrace
    case NeedKey => last == Comma
    case NeedColon => last.Lit? && last.scalar.Text?
    case HaveValue => last in {RBracket, RBrace} || last.Lit?
  }

  lemma ArrivedByStep(q: Partial, t: JsonToken)
    requires q.Wf() && Step(q, t).Some?
    ensures var p := Step(q, t).value; p.Building? && !p.context.Top? ==> ArrivedBy(p, t)
  {}

  lemma LastToken(ts: seq<JsonToken>)
    requires Run(START, ts).Some? && Run(START, ts).value.Building? && !Run(START, ts).value.context.Top?
    ensures |ts| > 0 && ArrivedBy(Run(START, ts).value, ts[|ts| - 1])
  {
    hide Step, ArrivedBy;
    assert ts != [];
    RunThen(START, ts[..|ts| - 1], ts[|ts| - 1]);
    assert ts == ts[..|ts| - 1] + [ts[|ts| - 1]];
    ArrivedByStep(Run(START, ts[..|ts| - 1]).value, ts[|ts| - 1]);
  }

  /** Taking back a scalar that has just been read. */
  lemma BeforeScalar(ts: seq<JsonToken>)
    requires Run(START, ts).Some? && Run(START, ts).value.Building? && Run(START, ts).value.next == HaveValue
    requires |ts| > 0 && ts[|ts| - 1].Lit?
    ensures Run(START, ts[..|ts| - 1]).Some?
    ensures
      var p := Run(START, ts).value;
      var q := Run(START, ts[..|ts| - 1]).value;
      && q.Building? && q.next in {NeedValue, AfterOpen}
      && !q.context.Top? && q.context.outer == p.context.outer
      && (p.context.InArray? ==> q.context == InArray(p.context.outer, p.context.items[..|p.context.items| - 1]))
      && (p.context.InObject? ==>
            var ms := p.context.members;
            q.context == InMember(p.context.outer, ms[..|ms| - 1], ms[|ms| - 1].key))
  {
    RunThen(START, ts[..|ts| - 1], ts[|ts| - 1]);
    assert ts == ts[..|ts| - 1] + [ts[|ts| - 1]];
  }

  /** No document goes on after an unterminated string. */
  lemma UnterminatedNever(p: Partial, a: seq<JsonToken>, b: seq<JsonToken>)
    requires p.Wf()
    ensures Run(p, a + [Unterminated] + b).None?
  {
    RunThen(p, a, Unterminated);
    RunConcat(p, a + [Unterminated], b);
  }

  // ----- healing -----

  datatype Outcome = Parsed(read: nat) | Healed(text: seq<JsonToken>) | Failed

  function CloseStack(stack: seq<Element>): (ts: seq<JsonToken>) {
    if stack == [] then []
    else
      var rest := CloseStack(stack[..|stack| - 1]);
      match stack[|stack| - 1]
      case ObjectElement => [RBrace] + rest
      case ArrayElement => [RBracket] + rest
      case KeyElement(_) => rest
  }

  lemma {:induction false} CloseStackIsClosing(c: Context)
    ensures CloseStack(Path(c)) == Closing(c)
  {
    if !c.Top? {
      CloseStackIsClosing(c.outer);
      var path := Path(c.outer);
      assert (path + [ArrayElement])[..|path|] == path;
      assert (path + [ObjectElement])[..|path|] == path;
      if c.InMember? {
        assert Path(c)[..|path| + 1] == path + [ObjectElement];
      }
    }
  }

  method ClosingOf(stack: seq<Element>, ghost c: Context) returns (closing: seq<JsonToken>)
    requires stack == Path(c)
    ensures closing == Closing(c)
  {
    closing := [];
    var i := |stack|;
    assert stack[..i] == stack;
    while i > 0
      invariant 0 <= i <= |stack|
      invariant closing + CloseStack(stack[..i]) == CloseStack(stack)
    {
      assert stack[..i][..i - 1] == stack[..i - 1];
      var rest := CloseStack(stack[..i - 1]);
      match stack[i - 1] {
        case ObjectElement =>
          assert closing + ([RBrace] + rest) == (closing + [RBrace]) + rest;
          closing := closing + [RBrace];
        case ArrayElement =>
          assert closing + ([RBracket] + rest) == (closing + [RBracket]) + rest;
          closing := closing + [RBracket];
        case KeyElement(_) =>
      }
      i := i - 1;
    }
    CloseStackIsClosing(c);
  }

  /** The last place where one of the two tokens stands. */
  method FindLast(ts: seq<JsonToken>, a: JsonToken, b: JsonToken) returns (pos: Option<nat>)
    ensures pos.Some? ==> pos.value < |ts| && ts[pos.value] in {a, b}
    ensures forall k :: 0 <= k < |ts| && ts[k] in {a, b} ==> pos.Some? && k <= pos.value
  {
    var i := |ts|;
    while i > 0
      invariant 0 <= i <= |ts|
      invariant forall k :: i <= k < |ts| ==> ts[k] !in {a, b}
    {
      i := i - 1;
      if ts[i] == a || ts[i] == b {
        return Some(i);
      }
    }
    return None;
  }

  const ONE := Lit(Number("1"))

  /** A scalar where a value may stand. */
  lemma PutValue(ts: seq<JsonToken>, s: Scalar)
    requires Run(START, ts).Some? && Run(START, ts).value.Building?
    requires var p := Run(START, ts).value; !p.context.Top? && !p.context.InObject? && p.next in {NeedValue, AfterOpen}
    ensures
      var c := Run(START, ts).value.context;
      var d := Finish(c, Leaf(s)).context;
      Completes(ts, [Lit(s)], Closing(c), d)
  {
    hide Run;
    var p := Run(START, ts).value;
    RunOne(p, Lit(s));
    RunMore(ts, [Lit(s)], Closing(p.context), Finish(p.context, Leaf(s)));
  }

  /** `ts`, the tokens `more` and `closing` are the document `Closed(d)`. */
  ghost predicate Completes(ts: seq<JsonToken>, more: seq<JsonToken>, closing: seq<JsonToken>, d: Context) {
    && d.Wf() && (d.InArray? || d.InObject?)
    && Written(Closed(d)) == ts + more + closing
    && Document(ts + more + closing)
  }

  /** A colon and a scalar after a key. */
  lemma PutColonValue(ts: seq<JsonToken>, s: Scalar)
    requires Run(START, ts).Some? && Run(START, ts).value.Building? && Run(START, ts).value.next == NeedColon
    ensures
      var c := Run(START, ts).value.context;
      var d := Finish(c, Leaf(s)).context;
      Completes(ts, [Colon, Lit(s)], Closing(c), d)
  {
    hide Run;
    var p := Run(START, ts).value;
    RunTwo(p, Colon, Lit(s));
    RunMore(ts, [Colon, Lit(s)], Closing(p.context), Finish(p.context, Leaf(s)));
  }

  /** A comma and a scalar after an item. */
  lemma PutCommaValue(ts: seq<JsonToken>, s: Scalar)
    requires Run(START, ts).Some? && Run(START, ts).value.Building?
    requires Run(START, ts).value.next == HaveValue && Run(START, ts).value.context.InArray?
    ensures
      var c := Run(START, ts).value.context;
      var d := InArray(c.outer, c.items + [Leaf(s)]);
      Completes(ts, [Comma, Lit(s)], Closing(c), d)
  {
    hide Run;
    var p := Run(START, ts).value;
    RunTwo(p, Comma, Lit(s));
    RunMore(ts, [Comma, Lit(s)], Closing(p.context), Finish(p.context, Leaf(s)));
  }

  /** A key with value 1 where a key may stand. */
  lemma PutMember(ts: seq<JsonToken>, k: string)
    requires Run(START, ts).Some? && Run(START, ts).value.Building?
    requires Run(START, ts).value.next in {AfterOpen, NeedKey} && Run(START, ts).value.context.InObject?
    ensures
      var c := Run(START, ts).value.context;
      var d := InObject(c.outer, c.members + [Member(k, Leaf(Number("1")))]);
      Completes(ts, [Lit(Text(k)), Colon, ONE], Closing(c), d)
  {
    hide Run;
    var p := Run(START, ts).value;
    var q := Building(InObject(p.context.outer, p.context.members + [Member(k, Leaf(Number("1")))]), HaveValue);
    RunThree(p, Lit(Text(k)), Colon, ONE);
    RunMore(ts, [Lit(Text(k)), Colon, ONE], Closing(p.context), q);
  }

  /** A comma and a key with value 1 after a member. */
  lemma PutCommaMember(ts: seq<JsonToken>, k: string)
    requires Run(START, ts).Some? && Run(START, ts).value.Building?
    requires Run(START, ts).value.next == HaveValue && Run(START, ts).value.context.InObject?
    ensures
      var c := Run(START, ts).value.context;
      var d := InObject(c.outer, c.members + [Member(k, Leaf(Number("1")))]);
      Completes(ts, [Comma, Lit(Text(k)), Colon, ONE], Closing(c), d)
  {
    hide Run, Completes;
    var p := Run(START, ts).value;
    RunThen(START, ts, Comma);
    PutMember(ts + [Comma], k);
    assert ts + [Comma] + [Lit(Text(k)), Colon, ONE] == ts + [Comma, Lit(Text(k)), Colon, ONE];
    CompletesSame(ts + [Comma], [Lit(Text(k)), Colon, ONE], ts, [Comma, Lit(Text(k)), Colon, ONE], Closing(p.context),
      InObject(p.context.outer, p.context.members + [Member(k, Leaf(Number("1")))]));
  }

  lemma CompletesSame(ts: seq<JsonToken>, more: seq<JsonToken>, ts2: seq<JsonToken>, more2: seq<JsonToken>, closing: seq<JsonToken>, d: Context)
    requires Completes(ts, more, closing, d) && ts + more == ts2 + more2
    ensures Completes(ts2, more2, closing, d)
  {}

  /** An empty container is closed as it is. */
  lemma PutNothing(ts: seq<JsonToken>)
    requires Run(START, ts).Some? && Closable(Run(START, ts).value)
    ensures Completes(ts, [], Closing(Run(START, ts).value.context), Run(START, ts).value.context)
  {
    hide Run;
    var p := Run(START, ts).value;
    RunNothing(p);
    RunMore(ts, [], Closing(p.context), p);
  }

  /** What each branch of healing is about: the parser's place after `str`. */
  ghost predicate Stopped(str: seq<JsonToken>, p: Partial, closing: seq<JsonToken>)
  {
    && Run(START, str) == Some(p) && p.Building? && !p.context.Top?
    && closing == Closing(p.context)
  }

  /** The text stopped after a key or after its colon. */
  method HealInMember(str: seq<JsonToken>, closing: seq<JsonToken>, marker: string, ghost p: Partial) returns (text: seq<JsonToken>)
    requires p.Wf() && Stopped(str, p, closing) && p.context.InMember?
    ensures text == Written(Closed(Marked(p, marker, false)))
  {
    hide Run, Closed, Written;
    LastToken(str);
    var mark := Text(marker);
    if p.next == NeedValue {
      PutValue(str, Number("1"));
      PutValue(str, mark);
    } else {
      PutColonValue(str, Number("1"));
      PutColonValue(str, mark);
    }
    var fits := false;
    if str[|str| - 1] == Colon {
      fits := CanParse(str + [ONE] + closing);
    }
    if fits {
      return str + [Lit(mark)] + closing;
    }
    fits := CanParse(str + [Colon, ONE] + closing);
    if fits {
      return str + [Colon, Lit(mark)] + closing;
    }
    // the remaining branches are for cuts inside a string
    assert false;
  }

  /** The text stopped in an array. */
  method HealInArray(str: seq<JsonToken>, tight: bool, closing: seq<JsonToken>, marker: string, ghost p: Partial)
    returns (text: seq<JsonToken>)
    requires p.Wf() && Stopped(str, p, closing) && p.context.InArray?
    ensures text == Written(Closed(Marked(p, marker, WasMaybeNumber(str, tight))))
  {
    hide Run, Closed, Written;
    LastToken(str);
    var mark := Text(marker);
    ghost var maybe := WasMaybeNumber(str, tight);
    if p.next != HaveValue {
      PutValue(str, Number("1"));
      PutValue(str, mark);
    } else {
      PutCommaValue(str, Number("1"));
      PutCommaValue(str, mark);
    }
    UnterminatedNever(START, str, closing);
    var last := str[|str| - 1];
    var fits := false;
    if last == Comma || last == LBracket {
      fits := CanParse(str + [ONE] + closing);
    }
    if fits {
      return str + [Lit(mark)] + closing;
    }
    var inString := CanParse(str + [Unterminated] + closing);
    if !WasMaybeNumber(str, tight) {
      fits := CanParse(str + [Comma, ONE] + closing);
    }
    if fits {
      return str + [Comma, Lit(mark)] + closing;
    }
    var at := FindLast(str, LBracket, Comma);
    CutScalar(str, mark, at, p, closing);
    text := str[..at.value + 1] + [Lit(mark)] + closing;
  }

  /** The text stopped in an object, with no key pending. */
  method HealInObject(str: seq<JsonToken>, tight: bool, closing: seq<JsonToken>, marker: string, ghost p: Partial)
    returns (text: seq<JsonToken>)
    requires p.Wf() && Stopped(str, p, closing) && p.context.InObject?
    ensures text == Written(Closed(Marked(p, marker, WasMaybeNumber(str, tight))))
  {
    hide Run, Closed, Written;
    LastToken(str);
    if p.next == HaveValue {
      PutCommaMember(str, "");
      PutCommaMember(str, marker);
    } else {
      PutMember(str, "");
      PutMember(str, marker);
      if p.next == AfterOpen {
        PutNothing(str);
        assert str + [] == str;
      }
    }
    UnterminatedNever(START, str, []);
    var last := str[|str| - 1];
    var fits := false;
    if last == LBrace {
      fits := CanParse(str + closing);
    } else if last == Comma {
      fits := CanParse(str + [Lit(Text("")), Colon, ONE] + closing);
    }
    if fits {
      return str + [Lit(Text(marker)), Colon, ONE] + closing;
    }
    if !WasMaybeNumber(str, tight) {
      fits := CanParse(str + [Comma, Lit(Text("")), Colon, ONE] + closing);
    }
    if fits {
      return str + [Comma, Lit(Text(marker)), Colon, ONE] + closing;
    }
    var inString := CanParse(str + [Unterminated]);
    var at := FindLast(str, Colon, Colon);
    CutScalar(str, Text(marker), at, p, closing);
    text := str[..at.value + 1] + [Lit(Text(marker))] + closing;
  }

  /** Cutting a scalar back to the bracket, comma or colon before it leaves room for another. */
  lemma CutScalar(str: seq<JsonToken>, mark: Scalar, at: Option<nat>, p: Partial, closing: seq<JsonToken>)
    requires p.Wf() && Stopped(str, p, closing) && p.next == HaveValue
    requires |str| > 0 && str[|str| - 1].Lit?
    requires
      var stops := if p.context.InArray? then {LBracket, Comma} else {Colon};
      && (at.Some? ==> at.value < |str| && str[at.value] in stops)
      && (forall k :: 0 <= k < |str| && str[k] in stops ==> at.Some? && k <= at.value)
    ensures at.Some? && at.value + 1 <= |str|
    ensures mark.Text? ==>
      Written(Closed(Marked(p, mark.s, true))) == str[..at.value + 1] + [Lit(mark)] + closing
  {
    hide Run, Closed, Written;
    BeforeScalar(str);
    var cut := str[..|str| - 1];
    LastToken(cut);
    assert str[|str| - 2] == cut[|cut| - 1];
    assert at == Some(|str| - 2);
    PutValue(cut, mark);
  }

  /** A token of one character, which is not part of what has been read when it is refused; of
      a longer one the program keeps all but the last character. */
  predicate OneCharacter(t: JsonToken) {
    !t.Lit? && !t.Unterminated?
  }

  /** `common_json_parse`: `read` is how far the grammar can follow `ts`. A complete document
      is parsed; nothing is done where no container is open or there is no marker; everything
      else is completed. */
  method Parse(ts: seq<JsonToken>, tight: bool, marker: string) returns (out: Outcome, read: nat)
    ensures ReadsTo(ts, read)
    ensures
      read == |ts| || OneCharacter(ts[read]) ==>
        var p := Run(START, ts[..read]).value;
        if p.Complete? then out == Parsed(read)
        else if p.context.Top? || marker == "" then out == Failed
        else out == Healed(Written(Closed(Marked(p, marker, WasMaybeNumber(ts[..read], tight)))))
  {
    hide Run, Closed, Written, WasMaybeNumber;
    var ok, upTo, stack := SaxParse(ts);
    read := upTo;
    if ok {
      return Parsed(upTo), read;
    }
    var str := ts[..upTo];
    var complete := CanParse(str);
    if complete {
      return Parsed(upTo), read;
    }
    if marker == "" || |stack| == 0 {
      return Failed, read;
    }
    ghost var p := Run(START, str).value;
    var closing := ClosingOf(stack, p.context);
    var text;
    if stack[|stack| - 1].KeyElement? {
      text := HealInMember(str, closing, marker, p);
    } else if stack[|stack| - 1].ArrayElement? {
      text := HealInArray(str, tight, closing, marker, p);
    } else {
      text := HealInObject(str, tight, closing, marker, p);
    }
    out := Healed(text);
  }

  // ----- what this means for a truncated document -----

  /** A document of more than one token, cut between any two of them, is healed: the result is
      the document made of what was complete, with the marker at the cut. */
  method HealTruncated(v: Value, n: nat, tight: bool, marker: string) returns (text: seq<JsonToken>, ghost c: Context)
    requires 0 < n < |Written(v)| && marker != ""
    ensures c.Wf() && (c.InArray? || c.InObject?) && text == Written(Closed(c)) && Document(text)
    ensures Run(START, Written(v)[..n]).Some? && Run(START, Written(v)[..n]).value.Building?
    ensures !Run(START, Written(v)[..n]).value.context.Top?
    ensures c == Marked(Run(START, Written(v)[..n]).value, marker, WasMaybeNumber(Written(v)[..n], tight))
  {
    hide Run, Closed, Written, WasMaybeNumber, Marked;
    CutIsOpen(v, n);
    var ts := Written(v)[..n];
    var out, read := Parse(ts, tight, marker);
    ReadsAll(ts, read);
    assert ts[..read] == ts;
    text := out.text;
    c := Marked(Run(START, ts).value, marker, WasMaybeNumber(ts, tight));
  }

  lemma ReadsAll(ts: seq<JsonToken>, read: nat)
    requires ReadsTo(ts, read) && Run(START, ts).Some?
    ensures read == |ts|
  {
    if read < |ts| {
      assert ts == ts[..read + 1] + ts[read + 1..];
      PrefixRuns(START, ts[..read + 1], ts[read + 1..]);
    }
  }

  /** A scalar that may be a number, or the end of one, ends the text, and nothing stands behind
      it. */
  predicate EndsLikeNumber(last: JsonToken, tight: bool) {
    match last
    case Lit(Number(_)) => tight
    case Lit(True) => tight
    case Lit(False) => tight
    case _ => false
  }

  /** What is added, by the container that is open and the last token. */
  function Addition(c: Context, last: JsonToken, marker: string): (more: seq<JsonToken>) {
    var mark := Lit(Text(marker));
    match c
    case Top => []
    case InMember(_, _, _) => if last == Colon then [mark] else [Colon, mark]
    case InArray(_, _) => if last == LBracket || last == Comma then [mark] else [Comma, mark]
    case InObject(_, _) =>
      (if last == LBrace || last == Comma then [] else [Comma]) + [mark, Colon, Lit(Number("1"))]
  }

  /** What healing gives, token by token: a scalar at the end that may be a cut number gives way
      to the marker; everything else stays, and behind it come the marker, as the value or as
      the key that may stand there, and the closing brackets. */
  lemma HealedIs(ts: seq<JsonToken>, tight: bool, marker: string)
    requires Run(START, ts).Some? && Run(START, ts).value.Building? && !Run(START, ts).value.context.Top?
    ensures ts != []
    ensures
      var p := Run(START, ts).value;
      var last := ts[|ts| - 1];
      var text := Written(Closed(Marked(p, marker, WasMaybeNumber(ts, tight))));
      text == if EndsLikeNumber(last, tight) then ts[..|ts| - 1] + [Lit(Text(marker))] + Closing(p.context)
              else ts + Addition(p.context, last, marker) + Closing(p.context)
  {
    var p := Run(START, ts).value;
    LastToken(ts);
    hide *;
    LooksLike(ts, tight);
    if p.context.InMember? {
      HealedMember(ts, tight, marker, p);
    } else if p.next == HaveValue && EndsLikeNumber(ts[|ts| - 1], tight) {
      HealedScalar(ts, tight, marker, p);
    } else if p.context.InArray? {
      HealedArray(ts, tight, marker, p);
    } else {
      HealedObject(ts, tight, marker, p);
    }
  }

  lemma LooksLike(ts: seq<JsonToken>, tight: bool)
    requires ts != []
    ensures WasMaybeNumber(ts, tight) <==> EndsLikeNumber(ts[|ts| - 1], tight)
  {}

  lemma HealedMember(ts: seq<JsonToken>, tight: bool, marker: string, p: Partial)
    requires Run(START, ts) == Some(p) && p.Building? && p.context.InMember? && ts != [] && ArrivedBy(p, ts[|ts| - 1])
    ensures !EndsLikeNumber(ts[|ts| - 1], tight)
    ensures p.Wf() && Written(Closed(Marked(p, marker, WasMaybeNumber(ts, tight))))
                      == ts + Addition(p.context, ts[|ts| - 1], marker) + Closing(p.context)
  {
    hide Run, Closed, Written, Closing;
    if p.next == NeedValue {
      PutValue(ts, Text(marker));
    } else {
      PutColonValue(ts, Text(marker));
    }
  }

  lemma HealedScalar(ts: seq<JsonToken>, tight: bool, marker: string, p: Partial)
    requires Run(START, ts) == Some(p) && p.Building? && !p.context.Top? && p.next == HaveValue
    requires ts != [] && EndsLikeNumber(ts[|ts| - 1], tight)
    ensures p.Wf() && Written(Closed(Marked(p, marker, WasMaybeNumber(ts, tight))))
                      == ts[..|ts| - 1] + [Lit(Text(marker))] + Closing(p.context)
  {
    hide Run, Closed, Written, Closing;
    BeforeScalar(ts);
    PutValue(ts[..|ts| - 1], Text(marker));
    SameClosing(Run(START, ts[..|ts| - 1]).value.context, p.context);
  }

  lemma HealedArray(ts: seq<JsonToken>, tight: bool, marker: string, p: Partial)
    requires Run(START, ts) == Some(p) && p.Building? && p.context.InArray? && ts != [] && ArrivedBy(p, ts[|ts| - 1])
    requires !WasMaybeNumber(ts, tight) || p.next != HaveValue
    ensures !(p.next != HaveValue && EndsLikeNumber(ts[|ts| - 1], tight))
    ensures p.Wf() && Written(Closed(Marked(p, marker, WasMaybeNumber(ts, tight))))
                      == ts + Addition(p.context, ts[|ts| - 1], marker) + Closing(p.context)
  {
    hide Run, Closed, Written, Closing;
    if p.next == HaveValue {
      PutCommaValue(ts, Text(marker));
    } else {
      PutValue(ts, Text(marker));
    }
  }

  lemma HealedObject(ts: seq<JsonToken>, tight: bool, marker: string, p: Partial)
    requires Run(START, ts) == Some(p) && p.Building? && p.context.InObject? && ts != [] && ArrivedBy(p, ts[|ts| - 1])
    requires !WasMaybeNumber(ts, tight) || p.next != HaveValue
    ensures !(p.next != HaveValue && EndsLikeNumber(ts[|ts| - 1], tight))
    ensures p.Wf() && Written(Closed(Marked(p, marker, WasMaybeNumber(ts, tight))))
                      == ts + Addition(p.context, ts[|ts| - 1], marker) + Closing(p.context)
  {
    hide Run, Closed, Written, Closing;
    var mark := Lit(Text(marker));
    if p.next == HaveValue {
      PutCommaMember(ts, marker);
      assert [Comma] + [mark, Colon, ONE] == [Comma, mark, Colon, ONE];
    } else {
      PutMember(ts, marker);
      assert [] + [mark, Colon, ONE] == [mark, Colon, ONE];
    }
  }

  /** A key with its value missing is closed like its object. */
  lemma SameClosing(a: Context, b: Context)
    requires !a.Top? && !b.Top? && a.outer == b.outer
    requires if b.InArray? then a.InArray? else b.InObject? && a.InMember?
    ensures Closing(a) == Closing(b)
  {}

  /** Healing keeps the text: nothing but a scalar that ends it may be taken away. */
  lemma HealedKeepsText(ts: seq<JsonToken>, tight: bool, marker: string)
    requires Run(START, ts).Some? && Run(START, ts).value.Building? && !Run(START, ts).value.context.Top?
    ensures
      var p := Run(START, ts).value;
      var maybe := WasMaybeNumber(ts, tight);
      var kept := if maybe then ts[..|ts| - 1] + [Lit(Text(marker))] else ts;
      kept <= Written(Closed(Marked(p, marker, maybe)))
  {
    HealedIs(ts, tight, marker);
    LooksLike(ts, tight);
    hide *;
  }

  /** Whatever the marker, the whole text is kept if and only if its last character does not
      look like that of a number, which those of `true` and `false` do. */
  lemma HealedKeepsAllIff(ts: seq<JsonToken>, tight: bool, marker: string)
    requires Run(START, ts).Some? && Run(START, ts).value.Building? && !Run(START, ts).value.context.Top?
    ensures ts <= Written(Closed(Marked(Run(START, ts).value, marker, WasMaybeNumber(ts, tight))))
            <==> !WasMaybeNumber(ts, tight)
  {
    hide Run, Closed, Written, Marked;
    HealedKeepsText(ts, tight, marker);
    if WasMaybeNumber(ts, tight) {
      var last := |ts| - 1;
      assert (ts[..last] + [Lit(Text(marker))])[last] != ts[last];
    }
  }

  /** Healing `[true` gives the marker in place of `true`. */
  lemma TrueIsCut(marker: string)
    ensures
      var ts := [LBracket, Lit(True)];
      && Run(START, ts).Some? && Run(START, ts).value.Building? && !Run(START, ts).value.context.Top?
      && Written(Closed(Marked(Run(START, ts).value, marker, WasMaybeNumber(ts, true)))) ==
           [LBracket, Lit(Text(marker)), RBracket]
  {
    var ts := [LBracket, Lit(True)];
    var p := Building(InArray(Top, []), AfterOpen);
    RunTwo(START, LBracket, Lit(True));
    var items := [Leaf(Text(marker))];
    assert Marked(Run(START, ts).value, marker, true) == InArray(Top, items);
    assert Closed(InArray(Top, items)) == Array(items);
    assert Items(items) == Written(items[0]);
  }
}
