/** Streaming a chat message as differences: what is sent for each new version of the message,
    what a client rebuilds from it, and the ids that tool calls keep. */
module ChatDiff {
  import opened Common

  datatype ToolCall = ToolCall(name: string, arguments: string, id: string)

  datatype Message = Message(reasoning: string, content: string, toolCalls: seq<ToolCall>)

  datatype Diff = Diff(reasoningDelta: string, contentDelta: string, toolCallIndex: Option<nat>, toolCallDelta: ToolCall)

  const NO_CALL := ToolCall("", "", "")
  const EMPTY := Message("", "", [])

  // ----- computing differences -----

  /** What `current` has after `last`. A current text that is itself the start of the last one
      gives nothing: a stop word has been erased from it. */
  function StringDiff(last: string, current: string): (r: Result<string>)
    ensures r.Ok? <==> last <= current || current <= last
    ensures r.Ok? && last <= current ==> last + r.value == current
    ensures r.Ok? && !(last <= current) ==> r.value == ""
  {
    if last == "" then Ok(current)
    else if !(last <= current) then
      if current <= last then Ok("") else Invalid
    else Ok(current[|last|..])
  }

  function TextDiff(last: string, current: string, reasoning: bool): (r: Result<seq<Diff>>) {
    if last == current then Ok([])
    else
      var d := StringDiff(last, current);
      if d.Invalid? then Invalid
      else Ok([if reasoning then Diff(d.value, "", None, NO_CALL) else Diff("", d.value, None, NO_CALL)])
  }

  /** The last of the earlier calls may have grown. */
  function LastCallDiff(idx: nat, pref: ToolCall, newf: ToolCall): (r: Result<seq<Diff>>) {
    var args := StringDiff(pref.arguments, newf.arguments);
    if pref.name != newf.name || args.Invalid? then Invalid
    else if args.value == "" && pref.id == newf.id then Ok([])
    else
      var changed := pref.id != newf.id;
      Ok([Diff("", "", Some(idx), ToolCall(if changed then newf.name else "", args.value, if changed then newf.id else ""))])
  }

  /** Calls from index `from` on are sent whole. */
  function NewCalls(calls: seq<ToolCall>, from: nat): (ds: seq<Diff>) {
    if |calls| <= from then []
    else NewCalls(calls[..|calls| - 1], from) + [Diff("", "", Some(|calls| - 1), calls[|calls| - 1])]
  }

  function CallDiffs(prev: seq<ToolCall>, next: seq<ToolCall>): (r: Result<seq<Diff>>) {
    if |next| < |prev| then Invalid
    else if |prev| == 0 then Ok(NewCalls(next, 0))
    else
      var last := LastCallDiff(|prev| - 1, prev[|prev| - 1], next[|prev| - 1]);
      if last.Invalid? then Invalid else Ok(last.value + NewCalls(next, |prev|))
  }

  function Diffs(prev: Message, next: Message): (r: Result<seq<Diff>>) {
    var re := TextDiff(prev.reasoning, next.reasoning, true);
    var co := TextDiff(prev.content, next.content, false);
    var ca := CallDiffs(prev.toolCalls, next.toolCalls);
    if re.Invalid? || co.Invalid? || ca.Invalid? then Invalid
    else Ok(re.value + co.value + ca.value)
  }

  /** The part of `compute_diffs` about tool calls. */
  method ComputeCallDiffs(prev: seq<ToolCall>, next: seq<ToolCall>) returns (r: Result<seq<Diff>>)
    ensures r == CallDiffs(prev, next)
  {
    hide StringDiff;
    if |next| < |prev| {
      return Invalid;
    }
    var diffs: seq<Diff> := [];
    if |prev| > 0 {
      var idx := |prev| - 1;
      var pref, newf := prev[idx], next[idx];
      if pref.name != newf.name {
        return Invalid;
      }
      var args := StringDiff(pref.arguments, newf.arguments);
      if args.Invalid? {
        return Invalid;
      }
      if args.value != "" || pref.id != newf.id {
        var delta := NO_CALL;
        if pref.id != newf.id {
          delta := delta.(id := newf.id, name := newf.name);
        }
        delta := delta.(arguments := args.value);
        diffs := [Diff("", "", Some(idx), delta)];
      }
    }
    ghost var before := diffs;
    assert before + [] == before;
    for idx := |prev| to |next|
      invariant diffs == before + NewCalls(next[..idx], |prev|)
    {
      assert next[..idx + 1][..idx] == next[..idx];
      diffs := diffs + [Diff("", "", Some(idx), next[idx])];
    }
    assert next[..|next|] == next;
    assert [] + NewCalls(next, |prev|) == NewCalls(next, |prev|);
    r := Ok(diffs);
  }

  /** `compute_diffs`. */
  method ComputeDiffs(prev: Message, next: Message) returns (r: Result<seq<Diff>>)
    ensures r == Diffs(prev, next)
  {
    hide StringDiff, CallDiffs;
    var diffs: seq<Diff> := [];
    if prev.reasoning != next.reasoning {
      var d := StringDiff(prev.reasoning, next.reasoning);
      if d.Invalid? {
        return Invalid;
      }
      diffs := diffs + [Diff(d.value, "", None, NO_CALL)];
    }
    if prev.content != next.content {
      var d := StringDiff(prev.content, next.content);
      if d.Invalid? {
        return Invalid;
      }
      diffs := diffs + [Diff("", d.value, None, NO_CALL)];
    }
    assert diffs == TextDiff(prev.reasoning, next.reasoning, true).value + TextDiff(prev.content, next.content, false).value;
    var calls := ComputeCallDiffs(prev.toolCalls, next.toolCalls);
    if calls.Invalid? {
      return Invalid;
    }
    r := Ok(diffs + calls.value);
  }

  // ----- what they say -----

  /** One of two texts begins with the other. */
  predicate Comparable(a: string, b: string) {
    a <= b || b <= a
  }

  /** What `b` has behind `a`; nothing where it does not begin with it. */
  function Behind(a: string, b: string): (r: string) {
    if a <= b then b[|a|..] else ""
  }

  /** Something is to be said about the last call of before. */
  predicate LastCallChanged(prev: seq<ToolCall>, next: seq<ToolCall>)
    requires |prev| <= |next|
  {
    prev != [] && (Behind(prev[|prev| - 1].arguments, next[|prev| - 1].arguments) != "" || prev[|prev| - 1].id != next[|prev| - 1].id)
  }

  /** Differences can be computed if and only if texts and the last call's arguments only grow or
      shrink at their ends, no call is gone, and the last one has its name. */
  lemma DiffsExistIff(prev: Message, next: Message)
    ensures Diffs(prev, next).Ok? <==>
      && Comparable(prev.reasoning, next.reasoning) && Comparable(prev.content, next.content)
      && |prev.toolCalls| <= |next.toolCalls|
      && (prev.toolCalls != [] ==>
            var k := |prev.toolCalls| - 1;
            && prev.toolCalls[k].name == next.toolCalls[k].name
            && Comparable(prev.toolCalls[k].arguments, next.toolCalls[k].arguments))
  {}

  /** The calls from `from` on, whole. */
  function Whole(calls: seq<ToolCall>, from: nat): (ds: seq<Diff>)
    requires from <= |calls|
  {
    seq(|calls| - from, j requires 0 <= j < |calls| - from => Diff("", "", Some(from + j), calls[from + j]))
  }

  lemma {:induction false} NewCallsAre(calls: seq<ToolCall>, from: nat)
    requires from <= |calls|
    ensures NewCalls(calls, from) == Whole(calls, from)
    decreases |calls|
  {
    if from < |calls| {
      var front := calls[..|calls| - 1];
      NewCallsAre(front, from);
      assert Whole(calls, from) == Whole(front, from) + [Diff("", "", Some(|calls| - 1), calls[|calls| - 1])];
    }
  }

  function LastDelta(idx: nat, was: ToolCall, now: ToolCall): (d: Diff) {
    Diff("", "", Some(idx), ToolCall(if was.id == now.id then "" else now.name, Behind(was.arguments, now.arguments),
                                     if was.id == now.id then "" else now.id))
  }

  /** They are, in this order: what reasoning and content have gained, if they changed; what the
      arguments of the last call of before have gained, with its name only along with another id;
      and every call that is new, whole. */
  lemma DiffsSay(prev: Message, next: Message)
    requires Diffs(prev, next).Ok?
    ensures |prev.toolCalls| <= |next.toolCalls|
    ensures
      var k := |prev.toolCalls|;
      Diffs(prev, next).value ==
        (if prev.reasoning == next.reasoning then [] else [Diff(Behind(prev.reasoning, next.reasoning), "", None, NO_CALL)])
        + (if prev.content == next.content then [] else [Diff("", Behind(prev.content, next.content), None, NO_CALL)])
        + ((if LastCallChanged(prev.toolCalls, next.toolCalls) then [LastDelta(k - 1, prev.toolCalls[k - 1], next.toolCalls[k - 1])] else [])
           + Whole(next.toolCalls, k))
  {
    var k := |prev.toolCalls|;
    DiffsJoined(prev, next);
    NewCallsAre(next.toolCalls, k);
    TextSays(prev.reasoning, next.reasoning, true);
    TextSays(prev.content, next.content, false);
    if k > 0 { LastSays(k - 1, prev.toolCalls[k - 1], next.toolCalls[k - 1]); }
    hide Diffs, NewCalls, TextDiff, LastCallDiff, Whole, Behind, LastDelta;
  }

  lemma DiffsJoined(prev: Message, next: Message)
    requires Diffs(prev, next).Ok?
    ensures
      var k := |prev.toolCalls|;
      var last := if k == 0 then Ok([])
                  else if k <= |next.toolCalls| then LastCallDiff(k - 1, prev.toolCalls[k - 1], next.toolCalls[k - 1])
                  else Invalid;
      && k <= |next.toolCalls| && last.Ok?
      && TextDiff(prev.reasoning, next.reasoning, true).Ok? && TextDiff(prev.content, next.content, false).Ok?
      && Diffs(prev, next).value ==
           (TextDiff(prev.reasoning, next.reasoning, true).value + TextDiff(prev.content, next.content, false).value)
           + (last.value + NewCalls(next.toolCalls, k))
  {
    hide TextDiff, LastCallDiff, NewCalls;
    assert [] + NewCalls(next.toolCalls, 0) == NewCalls(next.toolCalls, 0);
  }

  lemma TextSays(last: string, current: string, reasoning: bool)
    requires TextDiff(last, current, reasoning).Ok?
    ensures
      var delta := Behind(last, current);
      TextDiff(last, current, reasoning).value ==
        if last == current then []
        else [if reasoning then Diff(delta, "", None, NO_CALL) else Diff("", delta, None, NO_CALL)]
  {}

  lemma LastSays(idx: nat, was: ToolCall, now: ToolCall)
    requires LastCallDiff(idx, was, now).Ok?
    ensures
      var delta := Behind(was.arguments, now.arguments);
      LastCallDiff(idx, was, now).value ==
        if delta == "" && was.id == now.id then [] else [LastDelta(idx, was, now)]
  {}

  // ----- replaying them -----

  /** What a client does with one difference: texts are appended, a call that is not there yet
      is created, and in one that is there the arguments grow and an id or name that is sent is set. */
  function Apply(m: Message, d: Diff): (r: Message) {
    var texts := m.(reasoning := m.reasoning + d.reasoningDelta, content := m.content + d.contentDelta);
    if d.toolCallIndex.None? then texts
    else if d.toolCallIndex.value < |m.toolCalls| then
      var i := d.toolCallIndex.value;
      texts.(toolCalls := m.toolCalls[i := Grown(m.toolCalls[i], d.toolCallDelta)])
    else texts.(toolCalls := m.toolCalls + [d.toolCallDelta])
  }

  function Grown(call: ToolCall, delta: ToolCall): (r: ToolCall) {
    ToolCall(if delta.name != "" then delta.name else call.name,
             call.arguments + delta.arguments,
             if delta.id != "" then delta.id else call.id)
  }

  function Replay(m: Message, ds: seq<Diff>): (r: Message) {
    if ds == [] then m else Apply(Replay(m, ds[..|ds| - 1]), ds[|ds| - 1])
  }

  lemma {:induction false} ReplayConcat(m: Message, a: seq<Diff>, b: seq<Diff>)
    ensures Replay(m, a + b) == Replay(Replay(m, a), b)
    decreases |b|
  {
    hide Apply;
    if b == [] {
      assert a + b == a;
    } else {
      assert (a + b)[..|a + b| - 1] == a + b[..|b| - 1];
      ReplayConcat(m, a, b[..|b| - 1]);
    }
  }

  lemma ReplayNone(m: Message)
    ensures Replay(m, []) == m
  {}

  lemma ReplayOne(m: Message, d: Diff)
    ensures Replay(m, [d]) == Apply(m, d)
  {
    hide Apply;
    assert [d][..0] == [];
  }

  // ----- when replaying rebuilds the message -----

  /** `next` only adds to `prev`: texts and the last call's arguments extend, the calls before
      the last are as they were, and an id is kept, or set where there was another. */
  ghost predicate Extends(prev: Message, next: Message) {
    && prev.reasoning <= next.reasoning
    && prev.content <= next.content
    && CallsExtend(prev.toolCalls, next.toolCalls)
  }

  ghost predicate CallsExtend(prev: seq<ToolCall>, next: seq<ToolCall>) {
    && |prev| <= |next|
    && (forall i :: 0 <= i < |prev| - 1 ==> next[i] == prev[i])
    && (|prev| > 0 ==> CallExtends(prev[|prev| - 1], next[|prev| - 1]))
  }

  predicate CallExtends(pref: ToolCall, newf: ToolCall) {
    && pref.name == newf.name && pref.arguments <= newf.arguments
    && (newf.id == pref.id || newf.id != "")
  }

  lemma TextReplay(m: Message, last: string, current: string, reasoning: bool)
    requires TextDiff(last, current, reasoning).Ok?
    requires last == if reasoning then m.reasoning else m.content
    ensures
      var r := Replay(m, TextDiff(last, current, reasoning).value);
      var text := if last <= current then current else last;
      r == if reasoning then m.(reasoning := text) else m.(content := text)
  {
    hide Replay;
    ReplayNone(m);
    if last != current {
      var d := StringDiff(last, current).value;
      ReplayOne(m, if reasoning then Diff(d, "", None, NO_CALL) else Diff("", d, None, NO_CALL));
      assert m.reasoning + "" == m.reasoning && m.content + "" == m.content;
      assert last + d == if last <= current then current else last;
    }
  }

  lemma LastCallReplay(m: Message, newf: ToolCall)
    requires m.toolCalls != []
    requires var n := |m.toolCalls|; LastCallDiff(n - 1, m.toolCalls[n - 1], newf).Ok?
    ensures
      var n := |m.toolCalls|;
      var pref := m.toolCalls[n - 1];
      var r := Replay(m, LastCallDiff(n - 1, pref, newf).value);
      && r.reasoning == m.reasoning && r.content == m.content
      && |r.toolCalls| == n && r.toolCalls[..n - 1] == m.toolCalls[..n - 1]
      && (r.toolCalls[n - 1] == newf <==> CallExtends(pref, newf))
  {
    hide Replay;
    var n := |m.toolCalls|;
    var pref := m.toolCalls[n - 1];
    var ds := LastCallDiff(n - 1, pref, newf).value;
    var args := StringDiff(pref.arguments, newf.arguments).value;
    if ds == [] {
      ReplayNone(m);
      if pref.arguments <= newf.arguments {
        assert pref.arguments + "" == pref.arguments;
      }
    } else {
      ReplayOne(m, ds[0]);
      assert ds == [ds[0]];
      assert m.reasoning + "" == m.reasoning && m.content + "" == m.content;
      assert pref.arguments + "" == pref.arguments;
    }
  }

  lemma {:induction false} NewCallsReplay(m: Message, calls: seq<ToolCall>)
    requires |m.toolCalls| <= |calls|
    ensures Replay(m, NewCalls(calls, |m.toolCalls|)) == m.(toolCalls := m.toolCalls + calls[|m.toolCalls|..])
    decreases |calls|
  {
    hide Replay;
    var n := |m.toolCalls|;
    if |calls| == n {
      ReplayNone(m);
      assert m.toolCalls + calls[n..] == m.toolCalls;
    } else {
      var init, last := calls[..|calls| - 1], calls[|calls| - 1];
      var d := Diff("", "", Some(|calls| - 1), last);
      NewCallsReplay(m, init);
      ReplayConcat(m, NewCalls(init, n), [d]);
      var before := Replay(m, NewCalls(init, n));
      ReplayOne(before, d);
      assert m.toolCalls + init[n..] + [last] == m.toolCalls + calls[n..];
      assert before.reasoning + "" == before.reasoning && before.content + "" == before.content;
    }
  }

  /** Where differences can be computed at all, replaying them on the earlier message gives the
      later one exactly when that only adds to it. */
  lemma ReplayIff(prev: Message, next: Message)
    requires Diffs(prev, next).Ok?
    ensures Replay(prev, Diffs(prev, next).value) == next <==> Extends(prev, next)
  {
    hide Replay, TextDiff, LastCallDiff, NewCalls;
    var re := TextDiff(prev.reasoning, next.reasoning, true).value;
    var co := TextDiff(prev.content, next.content, false).value;
    var ca := CallDiffs(prev.toolCalls, next.toolCalls).value;
    ReplayConcat(prev, re + co, ca);
    ReplayConcat(prev, re, co);
    TextReplay(prev, prev.reasoning, next.reasoning, true);
    var m1 := Replay(prev, re);
    TextReplay(m1, prev.content, next.content, false);
    var m2 := Replay(m1, co);
    CallsReplayIff(m2, next.toolCalls);
  }

  lemma CallsReplayIff(m: Message, calls: seq<ToolCall>)
    requires CallDiffs(m.toolCalls, calls).Ok?
    ensures
      var r := Replay(m, CallDiffs(m.toolCalls, calls).value);
      && r.reasoning == m.reasoning && r.content == m.content
      && (r.toolCalls == calls <==> CallsExtend(m.toolCalls, calls))
  {
    hide Replay, LastCallDiff, NewCalls, CallExtends;
    var n := |m.toolCalls|;
    if n == 0 {
      NewCallsReplay(m, calls);
      assert m.toolCalls + calls[0..] == calls;
    } else {
      var last := LastCallDiff(n - 1, m.toolCalls[n - 1], calls[n - 1]).value;
      ReplayConcat(m, last, NewCalls(calls, n));
      LastCallReplay(m, calls[n - 1]);
      var m1 := Replay(m, last);
      NewCallsReplay(m1, calls);
      var all := m1.toolCalls + calls[n..];
      assert forall i :: 0 <= i < n - 1 ==> m1.toolCalls[i] == m1.toolCalls[..n - 1][i] == m.toolCalls[i];
      if CallsExtend(m.toolCalls, calls) {
        assert all == calls;
      }
    }
  }

  // ----- ids -----

  /** `gen(k)` is the k-th id the generator gives. The ids recorded after a message with these
      calls, `made` ids having been generated before. */
  function IdsAfter(ids: seq<string>, calls: seq<ToolCall>, gen: nat -> string, made: nat): (r: (seq<string>, nat))
    ensures ids <= r.0 && |r.0| == if |ids| < |calls| then |calls| else |ids|
    decreases |calls| - |ids|
  {
    if |calls| <= |ids| then (ids, made)
    else if calls[|ids|].id == "" then IdsAfter(ids + [gen(made)], calls, gen, made + 1)
    else IdsAfter(ids + [calls[|ids|].id], calls, gen, made)
  }

  /** How many of the calls from `lo` up to `hi` come without an id. */
  function Missing(calls: seq<ToolCall>, lo: nat, hi: nat): (n: nat)
    requires lo <= hi <= |calls|
  {
    if lo == hi then 0 else Missing(calls, lo, hi - 1) + if calls[hi - 1].id == "" then 1 else 0
  }

  /** Recorded ids stay. A call for which none is recorded keeps its own id, or gets the next one
      of the generator when it has none. */
  lemma IdsAre(ids: seq<string>, calls: seq<ToolCall>, gen: nat -> string, made: nat)
    requires |ids| <= |calls|
    ensures
      var (r, madeNow) := IdsAfter(ids, calls, gen, made);
      && ids <= r && |r| == |calls| && madeNow == made + Missing(calls, |ids|, |calls|)
      && forall i :: |ids| <= i < |calls| ==>
           r[i] == if calls[i].id == "" then gen(made + Missing(calls, |ids|, i)) else calls[i].id
  {
    IdsMade(ids, calls, gen, made);
    hide Missing;
    forall i | |ids| <= i < |calls| { IdIs(ids, calls, gen, made, i); }
  }

  lemma {:induction false} IdsMade(ids: seq<string>, calls: seq<ToolCall>, gen: nat -> string, made: nat)
    requires |ids| <= |calls|
    ensures IdsAfter(ids, calls, gen, made).1 == made + Missing(calls, |ids|, |calls|)
    decreases |calls| - |ids|
  {
    if |ids| < |calls| {
      var own := calls[|ids|].id;
      var more, madeNext := ids + [if own == "" then gen(made) else own], made + if own == "" then 1 else 0;
      assert IdsAfter(ids, calls, gen, made) == IdsAfter(more, calls, gen, madeNext);
      hide *;
      IdsMade(more, calls, gen, madeNext);
      MissingFirst(calls, |ids|, |calls|);
    }
  }

  lemma {:induction false} IdIs(ids: seq<string>, calls: seq<ToolCall>, gen: nat -> string, made: nat, i: nat)
    requires |ids| <= i < |calls|
    ensures IdsAfter(ids, calls, gen, made).0[i] == if calls[i].id == "" then gen(made + Missing(calls, |ids|, i)) else calls[i].id
    decreases |calls| - |ids|
  {
    var own := calls[|ids|].id;
    var more, madeNext := ids + [if own == "" then gen(made) else own], made + if own == "" then 1 else 0;
    assert IdsAfter(ids, calls, gen, made) == IdsAfter(more, calls, gen, madeNext);
    if i == |ids| {
      assert more <= IdsAfter(more, calls, gen, madeNext).0;
    } else {
      hide *;
      IdIs(more, calls, gen, madeNext, i);
      MissingFirst(calls, |ids|, i);
    }
  }

  lemma {:induction false} MissingFirst(calls: seq<ToolCall>, lo: nat, hi: nat)
    requires lo < hi <= |calls|
    ensures Missing(calls, lo, hi) == (if calls[lo].id == "" then 1 else 0) + Missing(calls, lo + 1, hi)
  {
    if lo + 1 < hi { MissingFirst(calls, lo, hi - 1); }
  }

  function WithIds(calls: seq<ToolCall>, ids: seq<string>): (r: seq<ToolCall>)
    requires |calls| <= |ids|
    ensures |r| == |calls|
    ensures forall i :: 0 <= i < |r| ==> r[i] == calls[i].(id := ids[i])
  {
    seq(|calls|, i requires 0 <= i < |calls| => calls[i].(id := ids[i]))
  }

  /** `ensure_tool_call_ids_set`. */
  method EnsureToolCallIdsSet(m: Message, ids: seq<string>, gen: nat -> string, made: nat)
    returns (r: Message, idsNow: seq<string>, madeNow: nat)
    ensures (idsNow, madeNow) == IdsAfter(ids, m.toolCalls, gen, made)
    ensures r == m.(toolCalls := WithIds(m.toolCalls, idsNow))
  {
    idsNow, madeNow := ids, made;
    var calls := m.toolCalls;
    for i := 0 to |calls|
      invariant |calls| == |m.toolCalls| && (i <= |ids| ==> idsNow == ids && madeNow == made) && i <= |idsNow|
      invariant |ids| <= i ==> |idsNow| == i
      invariant ids <= idsNow
      invariant IdsAfter(idsNow, m.toolCalls, gen, madeNow) == IdsAfter(ids, m.toolCalls, gen, made)
      invariant forall k :: 0 <= k < i ==> calls[k] == m.toolCalls[k].(id := idsNow[k])
      invariant forall k :: i <= k < |calls| ==> calls[k] == m.toolCalls[k]
    {
      if |idsNow| <= i {
        var id := calls[i].id;
        if id == "" {
          id := gen(madeNow);
          madeNow := madeNow + 1;
        }
        idsNow := idsNow + [id];
      }
      calls := calls[i := calls[i].(id := idsNow[i])];
    }
    r := m.(toolCalls := calls);
    assert calls == WithIds(m.toolCalls, idsNow);
  }

  // ----- whole streams -----

  /** The recorded ids, how many were generated, what was sent last, what the client has. */
  datatype Stream = Stream(ids: seq<string>, made: nat, sent: Message, client: Message)

  const START := Stream([], 0, EMPTY, EMPTY)

  function Send(s: Stream, raw: Message, gen: nat -> string): (r: Result<Stream>) {
    var (ids, made) := IdsAfter(s.ids, raw.toolCalls, gen, s.made);
    var sent := raw.(toolCalls := WithIds(raw.toolCalls, ids));
    var ds := Diffs(s.sent, sent);
    if ds.Invalid? then Invalid else Ok(Stream(ids, made, sent, Replay(s.client, ds.value)))
  }

  function SendAll(raws: seq<Message>, gen: nat -> string): (r: Result<Stream>) {
    if raws == [] then Ok(START)
    else
      var s := SendAll(raws[..|raws| - 1], gen);
      if s.Invalid? then Invalid else Send(s.value, raws[|raws| - 1], gen)
  }

  /** Apart from ids, `next` only adds to `prev`. */
  ghost predicate Grows(prev: Message, next: Message) {
    && prev.reasoning <= next.reasoning
    && prev.content <= next.content
    && |prev.toolCalls| <= |next.toolCalls|
    && (forall i :: 0 <= i < |prev.toolCalls| - 1 ==>
          next.toolCalls[i].name == prev.toolCalls[i].name && next.toolCalls[i].arguments == prev.toolCalls[i].arguments)
    && (|prev.toolCalls| > 0 ==>
          var k := |prev.toolCalls| - 1;
          next.toolCalls[k].name == prev.toolCalls[k].name && prev.toolCalls[k].arguments <= next.toolCalls[k].arguments)
  }

  lemma ExtendsHasDiffs(prev: Message, next: Message)
    requires Extends(prev, next)
    ensures Diffs(prev, next).Ok?
  {}

  lemma GrowthExtends(prev: Message, next: Message, before: seq<string>, ids: seq<string>)
    requires Grows(prev, next) && before <= ids
    requires |prev.toolCalls| <= |before| && |next.toolCalls| <= |ids|
    ensures Extends(prev.(toolCalls := WithIds(prev.toolCalls, before)), next.(toolCalls := WithIds(next.toolCalls, ids)))
  {}

  /** A stream in which every message only adds to the one before can be sent, and the client
      then has the latest message, ids included; call number i has the id recorded for it. */
  lemma {:induction false} StreamRebuilds(raws: seq<Message>, gen: nat -> string)
    requires forall k :: 0 < k < |raws| ==> Grows(raws[k - 1], raws[k])
    ensures
      var s := SendAll(raws, gen);
      && s.Ok? && s.value.client == s.value.sent
      && |s.value.sent.toolCalls| <= |s.value.ids|
      && s.value.sent == (if raws == [] then EMPTY
           else raws[|raws| - 1].(toolCalls := WithIds(raws[|raws| - 1].toolCalls, s.value.ids)))
  {
    hide Diffs, Replay, Extends;
    if raws != [] {
      var init, raw := raws[..|raws| - 1], raws[|raws| - 1];
      StreamRebuilds(init, gen);
      var s := SendAll(init, gen).value;
      var ids := IdsAfter(s.ids, raw.toolCalls, gen, s.made).0;
      var sent := raw.(toolCalls := WithIds(raw.toolCalls, ids));
      var prev := if init == [] then EMPTY else init[|init| - 1];
      assert s.sent == prev.(toolCalls := WithIds(prev.toolCalls, s.ids));
      assert Grows(prev, raw);
      GrowthExtends(prev, raw, s.ids, ids);
      ExtendsHasDiffs(s.sent, sent);
      ReplayIff(s.sent, sent);
    }
  }

  /** An id never changes once it is recorded. */
  lemma {:induction false} IdsStay(raws: seq<Message>, gen: nat -> string, n: nat)
    requires n <= |raws| && SendAll(raws, gen).Ok?
    ensures SendAll(raws[..n], gen).Ok? && SendAll(raws[..n], gen).value.ids <= SendAll(raws, gen).value.ids
    decreases |raws|
  {
    if n == |raws| {
      assert raws[..n] == raws;
    } else {
      var init := raws[..|raws| - 1];
      IdsStay(init, gen, n);
      assert init[..n] == raws[..n];
    }
  }
}
