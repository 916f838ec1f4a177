/** Speculative decoding is lossless: verifying a draft in one batch emits exactly the tokens
    that plain one-token decoding would have emitted, whatever the draft was.

    The model, the grammar and the sampling chain are parameters; floating-point scores are
    whatever type `L` stands for. */
module Sampling {
  import opened Common

  /** `logits` maps a token sequence to the scores of the next token; a chain selects a token
      and may advance its own state (its random generator); a grammar filters scores. */
  datatype Engine<!G, !C, !L> = Engine(
    logits: seq<Token> -> L,
    filter: (G, L) -> L,
    permits: (G, Token) -> bool,
    select: (C, L) -> (C, Token),
    acceptGrammar: (G, Token) -> G,
    acceptChain: (C, Token) -> C)

  /** A bounded history that forgets its oldest tokens. */
  function Remember(prev: seq<Token>, capacity: nat, t: Token): (r: seq<Token>) {
    if |prev| == capacity && capacity > 0 then prev[1..] + [t] else prev + [t]
  }

  datatype State<G, C> = State(grammar: G, chain: C, prev: seq<Token>)

  // ----- plain decoding, the reference -----

  /** One draw: grammar before the chain, or the chain alone with a second draw under the
      grammar when the grammar rejects the first. */
  function Draw<G, C, L>(e: Engine<G, C, L>, s: State<G, C>, logits: L, grammarFirst: bool): (r: (State<G, C>, Token)) {
    if grammarFirst then
      var (chain, id) := e.select(s.chain, e.filter(s.grammar, logits));
      (s.(chain := chain), id)
    else
      var (chain, id) := e.select(s.chain, logits);
      if e.permits(s.grammar, id) then (s.(chain := chain), id)
      else
        var (chain2, id2) := e.select(chain, e.filter(s.grammar, logits));
        (s.(chain := chain2), id2)
  }

  function Advance<G, C, L>(e: Engine<G, C, L>, s: State<G, C>, capacity: nat, t: Token): (r: State<G, C>) {
    State(e.acceptGrammar(s.grammar, t), e.acceptChain(s.chain, t), Remember(s.prev, capacity, t))
  }

  /** Decode one token after `context`. */
  function PlainStep<G, C, L>(e: Engine<G, C, L>, s: State<G, C>, capacity: nat, context: seq<Token>, grammarFirst: bool)
    : (r: (State<G, C>, Token))
  {
    var (s1, id) := Draw(e, s, e.logits(context), grammarFirst);
    (Advance(e, s1, capacity, id), id)
  }

  /** Decode `count` tokens, one at a time. */
  function Plain<G, C, L>(e: Engine<G, C, L>, s: State<G, C>, capacity: nat, context: seq<Token>, grammarFirst: bool, count: nat)
    : (r: (State<G, C>, seq<Token>))
    ensures |r.1| == count
  {
    if count == 0 then (s, [])
    else
      var (s1, ts) := Plain(e, s, capacity, context, grammarFirst, count - 1);
      var (s2, t) := PlainStep(e, s1, capacity, context + ts, grammarFirst);
      (s2, ts + [t])
  }

  lemma NoneIsPlain<G, C, L>(e: Engine<G, C, L>, s: State<G, C>, capacity: nat, context: seq<Token>, grammarFirst: bool)
    ensures Plain(e, s, capacity, context, grammarFirst, 0) == (s, [])
  {}

  /** One more token of plain decoding: a draw followed by its acceptance. */
  lemma PlainExtends<G, C, L>(e: Engine<G, C, L>, s: State<G, C>, capacity: nat, context: seq<Token>, grammarFirst: bool,
                              count: nat, s1: State<G, C>, ts: seq<Token>, drawn: State<G, C>, t: Token)
    requires Plain(e, s, capacity, context, grammarFirst, count) == (s1, ts)
    requires Draw(e, s1, e.logits(context + ts), grammarFirst) == (drawn, t)
    ensures Plain(e, s, capacity, context, grammarFirst, count + 1) == (Advance(e, drawn, capacity, t), ts + [t])
  {
    hide Draw, Advance;
  }

  /** Plain decoding may be interrupted and resumed. */
  lemma {:induction false} PlainResumes<G, C, L>(e: Engine<G, C, L>, s: State<G, C>, capacity: nat, context: seq<Token>,
                                                grammarFirst: bool, a: nat, b: nat)
    ensures
      var (s1, ts) := Plain(e, s, capacity, context, grammarFirst, a);
      var (s2, us) := Plain(e, s1, capacity, context + ts, grammarFirst, b);
      Plain(e, s, capacity, context, grammarFirst, a + b) == (s2, ts + us)
  {
    hide PlainStep;
    var (s1, ts) := Plain(e, s, capacity, context, grammarFirst, a);
    if b == 0 {
      assert ts + [] == ts;
    } else {
      PlainResumes(e, s, capacity, context, grammarFirst, a, b - 1);
      var (s2, us) := Plain(e, s1, capacity, context + ts, grammarFirst, b - 1);
      var before := context + ts + us;
      assert context + (ts + us) == before;
      var (s3, t) := PlainStep(e, s2, capacity, before, grammarFirst);
      assert Plain(e, s, capacity, context, grammarFirst, a + b) == (s3, (ts + us) + [t]);
      assert Plain(e, s1, capacity, context + ts, grammarFirst, b) == (s3, us + [t]);
      assert (ts + us) + [t] == ts + (us + [t]);
    }
  }

  // ----- what is drawn -----

  /** Whatever a chain selects from scores that a grammar has filtered, the grammar permits. */
  ghost predicate Obeys<G(!new), C(!new), L(!new)>(e: Engine<G, C, L>) {
    forall c, g, l :: e.permits(g, e.select(c, e.filter(g, l)).1)
  }

  /** A token drawn is permitted by the grammar as it stands, in either order of drawing. */
  lemma DrawPermitted<G(!new), C(!new), L(!new)>(e: Engine<G, C, L>, s: State<G, C>, logits: L, grammarFirst: bool)
    requires Obeys(e)
    ensures e.permits(s.grammar, Draw(e, s, logits, grammarFirst).1)
  {
    var chain := if grammarFirst then s.chain else e.select(s.chain, logits).0;
    var filtered := e.filter(s.grammar, logits);
    assert e.permits(s.grammar, e.select(chain, filtered).1);
  }

  /** A first draw that is permitted is the one returned, after this one selection; one that is
      not permitted is followed by a second one. */
  lemma FirstDrawStands<G, C, L>(e: Engine<G, C, L>, s: State<G, C>, logits: L)
    ensures
      var first := e.select(s.chain, logits);
      var second := e.select(first.0, e.filter(s.grammar, logits));
      Draw(e, s, logits, false) ==
        if e.permits(s.grammar, first.1) then (State(s.grammar, first.0, s.prev), first.1)
        else (State(s.grammar, second.0, s.prev), second.1)
    ensures
      var only := e.select(s.chain, e.filter(s.grammar, logits));
      Draw(e, s, logits, true) == (State(s.grammar, only.0, s.prev), only.1)
  {}

  /** The state a grammar is left in by tokens. */
  function GrammarAfter<G, C, L>(e: Engine<G, C, L>, g: G, ts: seq<Token>): (r: G) {
    if ts == [] then g else e.acceptGrammar(GrammarAfter(e, g, ts[..|ts| - 1]), ts[|ts| - 1])
  }

  /** Every token is permitted by the state that the tokens before it leave. */
  ghost predicate AllPermitted<G, C, L>(e: Engine<G, C, L>, g: G, ts: seq<Token>) {
    forall i :: 0 <= i < |ts| ==> e.permits(GrammarAfter(e, g, ts[..i]), ts[i])
  }

  lemma {:induction false} PlainPermitted<G(!new), C(!new), L(!new)>(e: Engine<G, C, L>, s: State<G, C>, capacity: nat,
                                          context: seq<Token>, grammarFirst: bool, count: nat)
    requires Obeys(e)
    ensures
      var (s1, ts) := Plain(e, s, capacity, context, grammarFirst, count);
      AllPermitted(e, s.grammar, ts)
  {
    if count > 0 {
      hide *;
      PlainPermitted(e, s, capacity, context, grammarFirst, count - 1);
      PlainGrammar(e, s, capacity, context, grammarFirst, count - 1);
      var before := Plain(e, s, capacity, context, grammarFirst, count - 1);
      var drawn := Draw(e, before.0, e.logits(context + before.1), grammarFirst);
      DrawPermitted(e, before.0, e.logits(context + before.1), grammarFirst);
      PlainExtends(e, s, capacity, context, grammarFirst, count - 1, before.0, before.1, drawn.0, drawn.1);
      OneMorePermitted(e, s.grammar, before.1, drawn.1);
    } else {
      NoneIsPlain(e, s, capacity, context, grammarFirst);
    }
  }

  lemma OneMorePermitted<G, C, L>(e: Engine<G, C, L>, g: G, ts: seq<Token>, t: Token)
    requires AllPermitted(e, g, ts) && e.permits(GrammarAfter(e, g, ts), t)
    ensures AllPermitted(e, g, ts + [t])
  {
    hide GrammarAfter;
    forall i | 0 <= i < |ts| + 1 ensures e.permits(GrammarAfter(e, g, (ts + [t])[..i]), (ts + [t])[i]) {
      assert (ts + [t])[..i] == ts[..i] && (i == |ts| ==> ts[..i] == ts);
    }
  }

  /** Drawing leaves the grammar alone; it moves on by the tokens emitted and nothing else. */
  lemma {:induction false} PlainGrammar<G, C, L>(e: Engine<G, C, L>, s: State<G, C>, capacity: nat, context: seq<Token>,
                                                grammarFirst: bool, count: nat)
    ensures
      var (s1, ts) := Plain(e, s, capacity, context, grammarFirst, count);
      s1.grammar == GrammarAfter(e, s.grammar, ts)
  {
    if count > 0 {
      hide *;
      PlainGrammar(e, s, capacity, context, grammarFirst, count - 1);
      var before := Plain(e, s, capacity, context, grammarFirst, count - 1);
      var drawn := Draw(e, before.0, e.logits(context + before.1), grammarFirst);
      PlainExtends(e, s, capacity, context, grammarFirst, count - 1, before.0, before.1, drawn.0, drawn.1);
      DrawKeeps(e, before.0, e.logits(context + before.1), grammarFirst);
      AdvanceParts(e, drawn.0, capacity, drawn.1);
      GrammarAfterOne(e, s.grammar, before.1, drawn.1);
    }
  }

  /** A draw changes nothing but the chain. */
  lemma DrawKeeps<G, C, L>(e: Engine<G, C, L>, s: State<G, C>, logits: L, grammarFirst: bool)
    ensures Draw(e, s, logits, grammarFirst).0.grammar == s.grammar && Draw(e, s, logits, grammarFirst).0.prev == s.prev
  {}

  lemma AdvanceParts<G, C, L>(e: Engine<G, C, L>, s: State<G, C>, capacity: nat, t: Token)
    ensures Advance(e, s, capacity, t).grammar == e.acceptGrammar(s.grammar, t)
    ensures Advance(e, s, capacity, t).prev == Remember(s.prev, capacity, t)
  {}

  lemma GrammarAfterOne<G, C, L>(e: Engine<G, C, L>, g: G, ts: seq<Token>, t: Token)
    ensures GrammarAfter(e, g, ts + [t]) == e.acceptGrammar(GrammarAfter(e, g, ts), t)
  {
    assert (ts + [t])[..|ts|] == ts;
  }

  /** The newest `capacity` tokens. */
  function Newest(ts: seq<Token>, capacity: nat): (r: seq<Token>) {
    if |ts| <= capacity then ts else ts[|ts| - capacity..]
  }

  /** The history holds the newest tokens of what it held and of what was emitted. */
  lemma {:induction false} PlainHistory<G, C, L>(e: Engine<G, C, L>, s: State<G, C>, capacity: nat, context: seq<Token>,
                                                grammarFirst: bool, count: nat)
    requires 0 < capacity && |s.prev| <= capacity
    ensures
      var (s1, ts) := Plain(e, s, capacity, context, grammarFirst, count);
      s1.prev == Newest(s.prev + ts, capacity)
  {
    hide *;
    if count == 0 {
      NoneIsPlain(e, s, capacity, context, grammarFirst);
      NoneNewer(s.prev, capacity);
    } else {
      PlainHistory(e, s, capacity, context, grammarFirst, count - 1);
      var before := Plain(e, s, capacity, context, grammarFirst, count - 1);
      var drawn := Draw(e, before.0, e.logits(context + before.1), grammarFirst);
      PlainExtends(e, s, capacity, context, grammarFirst, count - 1, before.0, before.1, drawn.0, drawn.1);
      DrawKeeps(e, before.0, e.logits(context + before.1), grammarFirst);
      AdvanceParts(e, drawn.0, capacity, drawn.1);
      Appended(s.prev, before.1, drawn.1);
      RememberNewest(s.prev + before.1, capacity, drawn.1);
    }
  }

  lemma NoneNewer(ts: seq<Token>, capacity: nat)
    requires |ts| <= capacity
    ensures Newest(ts + [], capacity) == ts
  {}

  lemma Appended(a: seq<Token>, b: seq<Token>, t: Token)
    ensures a + (b + [t]) == (a + b) + [t]
  {}

  lemma RememberNewest(ts: seq<Token>, capacity: nat, t: Token)
    requires 0 < capacity
    ensures Remember(Newest(ts, capacity), capacity, t) == Newest(ts + [t], capacity)
  {
    if |ts| >= capacity {
      assert Newest(ts, capacity)[1..] + [t] == (ts + [t])[|ts| + 1 - capacity..];
    }
  }

  // ----- the history buffer -----

  /** The `sz` cells that start at `first`, going round the end of `cells`. */
  ghost function Held(cells: seq<Token>, first: nat, sz: nat): (s: seq<Token>)
    requires first < |cells| && sz <= |cells|
    ensures |s| == sz && forall i :: 0 <= i < sz ==> s[i] == cells[Wrap(first + i, |cells|)]
  {
    seq(sz, i requires 0 <= i < sz => cells[Wrap(first + i, |cells|)])
  }

  /** Writing the cell after the last one held appends it, or replaces the oldest. */
  lemma HeldPush(cells: seq<Token>, first: nat, sz: nat, pos: nat, value: Token)
    requires first < |cells| && sz <= |cells|
    requires pos == if first + sz < |cells| then first + sz else first + sz - |cells|
    ensures
      var was := Held(cells, first, sz);
      if sz == |cells| then
        Held(cells[pos := value], Wrap(first + 1, |cells|), sz) == was[1..] + [value]
      else
        Held(cells[pos := value], first, sz + 1) == was + [value]
  {
    var was := Held(cells, first, sz);
    var now := cells[pos := value];
    if sz == |cells| {
      var next := Wrap(first + 1, |cells|);
      forall i | 0 <= i < sz
        ensures Held(now, next, sz)[i] == (was[1..] + [value])[i]
      {
        assert Held(now, next, sz)[i] == now[Wrap(next + i, |now|)];
        if i + 1 < sz {
          assert was[i + 1] == cells[Wrap(first + i + 1, |cells|)];
        }
      }
      assert Held(now, next, sz) == was[1..] + [value];
    } else {
      assert Held(now, first, sz + 1) == was + [value];
    }
  }

  /** A ring of fixed capacity: `ring_buffer`. */
  class RingBuffer {
    const capacity: nat
    var sz: nat
    var first: nat
    var pos: nat
    var data: array<Token>

    ghost predicate Valid()
      reads this
    {
      && capacity > 0 && data.Length == capacity
      && sz <= capacity && first < capacity && pos < capacity
      && (first + sz == pos || first + sz == pos + capacity)
    }

    /** Oldest first. */
    ghost function Contents(): (s: seq<Token>)
      requires Valid()
      reads this, data
      ensures |s| == sz
    {
      Held(data[..], first, sz)
    }

    constructor (capacity: nat)
      requires capacity > 0
      ensures Valid() && fresh(data) && this.capacity == capacity && Contents() == []
    {
      this.capacity := capacity;
      sz, first, pos := 0, 0, 0;
      data := new Token[capacity];
    }

    method PushBack(value: Token)
      requires Valid()
      modifies this, data
      ensures Valid() && data == old(data) && Contents() == Remember(old(Contents()), capacity, value)
    {
      HeldPush(data[..], first, sz, pos, value);
      Around(first + 1, capacity);
      Around(pos + 1, capacity);
      ghost var cells := data[..];
      if sz == capacity {
        first := (first + 1) % capacity;
      } else {
        sz := sz + 1;
      }
      data[pos] := value;
      assert data[..] == cells[pos := value];
      pos := (pos + 1) % capacity;
    }

    /** The i-th token counted back from the newest; an index out of range is an error. */
    method Rat(i: nat) returns (ok: bool, t: Token)
      requires Valid()
      ensures ok <==> i < sz
      ensures ok ==> t == Contents()[sz - 1 - i]
    {
      if i >= sz {
        return false, 0;
      }
      Around(first + sz - i - 1, capacity);
      return true, data[(first + sz - i - 1) % capacity];
    }

    method ToVector() returns (r: seq<Token>)
      requires Valid()
      ensures r == Contents()
    {
      r := [];
      for i := 0 to sz
        invariant r == Contents()[..i]
      {
        Around(first + i, capacity);
        r := r + [data[(first + i) % capacity]];
      }
    }
  }

  function Wrap(x: nat, n: nat): (r: nat)
    requires n > 0 && x < 2 * n
    ensures r < n
  {
    if x < n then x else x - n
  }

  lemma Around(x: nat, n: nat)
    requires n > 0 && x < 2 * n
    ensures x % n == Wrap(x, n)
  {}

  // ----- sampling and verifying -----

  /** `common_sampler`: sampling state that is updated per token. */
  class Sampler<G(!new), C(!new), L(!new)> {
    const e: Engine<G, C, L>
    var grammar: G
    var chain: C
    const prev: RingBuffer

    ghost predicate Valid()
      reads this, prev, prev.data
    {
      prev.Valid()
    }

    ghost function Now(): (s: State<G, C>)
      requires Valid()
      reads this, prev, prev.data
    {
      State(grammar, chain, prev.Contents())
    }

    constructor (e: Engine<G, C, L>, grammar: G, chain: C, capacity: nat)
      requires capacity > 0
      ensures Valid() && this.e == e && fresh(prev) && fresh(prev.data) && prev.capacity == capacity
      ensures Now() == State(grammar, chain, [])
    {
      this.e, this.grammar, this.chain := e, grammar, chain;
      prev := new RingBuffer(capacity);
    }

    /** `common_sampler_sample`. */
    method Sample(logits: L, grammarFirst: bool) returns (id: Token)
      requires Valid()
      modifies this`chain
      ensures Valid() && (Now(), id) == Draw(e, old(Now()), logits, grammarFirst)
      ensures Obeys(e) ==> e.permits(old(grammar), id)
      ensures
        var first := e.select(old(chain), logits);
        !grammarFirst && e.permits(grammar, first.1) ==> (chain, id) == first
    {
      var scores := logits;
      if grammarFirst {
        scores := e.filter(grammar, scores);
      }
      var r := e.select(chain, scores);
      chain, id := r.0, r.1;
      if grammarFirst {
        return;
      }
      if e.permits(grammar, id) {
        return;
      }
      r := e.select(chain, e.filter(grammar, logits));
      chain, id := r.0, r.1;
    }

    /** `common_sampler_accept`. */
    method Accept(token: Token, acceptGrammar: bool)
      requires Valid()
      modifies this, prev, prev.data
      ensures Valid() && prev.data == old(prev.data)
      ensures acceptGrammar ==> Now() == Advance(e, old(Now()), prev.capacity, token)
      ensures !acceptGrammar ==> Now() == Advance(e, old(Now()), prev.capacity, token).(grammar := old(grammar))
      ensures grammar == if acceptGrammar then e.acceptGrammar(old(grammar), token) else old(grammar)
      ensures chain == e.acceptChain(old(chain), token)
      ensures prev.Contents() == Newest(old(prev.Contents()) + [token], prev.capacity)
    {
      RememberNewest(prev.Contents(), prev.capacity, token);
      if acceptGrammar {
        grammar := e.acceptGrammar(grammar, token);
      }
      chain := e.acceptChain(chain, token);
      prev.PushBack(token);
    }

    /** `common_sampler_sample_and_accept_n`: `batch` holds the scores the target model
        computed in one evaluation, `idxs[i]` being those after the first i draft tokens. */
    method SampleAndAcceptN(batch: nat -> L, idxs: seq<nat>, draft: seq<Token>, grammarFirst: bool, ghost context: seq<Token>)
      returns (result: seq<Token>)
      requires Valid() && |idxs| == |draft| + 1
      requires forall i :: 0 <= i <= |draft| ==> batch(idxs[i]) == e.logits(context + draft[..i])
      modifies this, prev, prev.data
      ensures Valid() && prev.data == old(prev.data)
      ensures 1 <= |result| <= |draft| + 1
      ensures result[..|result| - 1] == draft[..|result| - 1]
      ensures |result| <= |draft| ==> result[|result| - 1] != draft[|result| - 1]
      ensures (Now(), result) == Plain(e, old(Now()), prev.capacity, context, grammarFirst, |result|)
      ensures Obeys(e) ==> AllPermitted(e, old(grammar), result)
      ensures grammar == GrammarAfter(e, old(grammar), result)
      ensures prev.Contents() == Newest(old(prev.Contents()) + result, prev.capacity)
    {
      hide Plain, Draw, Advance, Remember, RingBuffer.Contents, Obeys, AllPermitted, GrammarAfter, Newest;
      ghost var start := Now();
      result := [];
      var i := 0;
      NoneIsPlain(e, start, prev.capacity, context, grammarFirst);
      while i < |draft|
        invariant Valid() && prev.data == old(prev.data) && i <= |draft| && result == draft[..i]
        invariant Plain(e, start, prev.capacity, context, grammarFirst, i) == (Now(), result)
      {
        ghost var s1 := Now();
        var id := Sample(batch(idxs[i]), grammarFirst);
        PlainExtends(e, start, prev.capacity, context, grammarFirst, i, s1, result, Now(), id);
        Accept(id, true);
        result := result + [id];
        if draft[i] != id {
          assert result[..i] == draft[..i];
          PlainFacts(start, context, grammarFirst, |result|);
          return;
        }
        assert draft[..i + 1] == draft[..i] + [draft[i]];
        i := i + 1;
      }
      ghost var s1 := Now();
      var id := Sample(batch(idxs[i]), grammarFirst);
      PlainExtends(e, start, prev.capacity, context, grammarFirst, i, s1, result, Now(), id);
      Accept(id, true);
      result := result + [id];
      assert result[..i] == draft[..i];
      PlainFacts(start, context, grammarFirst, |result|);
    }

    lemma PlainFacts(start: State<G, C>, context: seq<Token>, grammarFirst: bool, count: nat)
      requires prev.capacity > 0 && |start.prev| <= prev.capacity
      ensures
        var (s1, ts) := Plain(e, start, prev.capacity, context, grammarFirst, count);
        && (Obeys(e) ==> AllPermitted(e, start.grammar, ts)) && s1.grammar == GrammarAfter(e, start.grammar, ts)
        && s1.prev == Newest(start.prev + ts, prev.capacity)
    {
      hide *;
      if Obeys(e) { PlainPermitted(e, start, prev.capacity, context, grammarFirst, count); }
      PlainGrammar(e, start, prev.capacity, context, grammarFirst, count);
      PlainHistory(e, start, prev.capacity, context, grammarFirst, count);
    }
  }

  // ----- whole runs -----

  /** What one verification of `draft` emits: the draft as far as plain decoding agrees, and
      one token more. */
  ghost predicate RoundEmits<G, C, L>(e: Engine<G, C, L>, s: State<G, C>, capacity: nat, context: seq<Token>,
                                     grammarFirst: bool, draft: seq<Token>, s1: State<G, C>, out: seq<Token>)
  {
    && 1 <= |out| <= |draft| + 1
    && (s1, out) == Plain(e, s, capacity, context, grammarFirst, |out|)
    && out[..|out| - 1] == draft[..|out| - 1]
    && (|out| <= |draft| ==> out[|out| - 1] != draft[|out| - 1])
  }

  /** A run of rounds: each draft may come from anywhere, each round sees everything emitted. */
  ghost predicate RunEmits<G(!new), C(!new), L>(e: Engine<G, C, L>, s: State<G, C>, capacity: nat, context: seq<Token>,
                                   grammarFirst: bool, drafts: seq<seq<Token>>, s1: State<G, C>, out: seq<Token>)
    decreases |drafts|
  {
    if drafts == [] then s1 == s && out == []
    else exists mid, a, b ::
      && RoundEmits(e, s, capacity, context, grammarFirst, drafts[0], mid, a)
      && out == a + b
      && RunEmits(e, mid, capacity, context + a, grammarFirst, drafts[1..], s1, b)
  }

  /** Losslessness over runs: with any drafts at all the emitted stream and the final sampler
      state are those of plain decoding, and every round emits at least one token. */
  lemma {:induction false} RunIsPlain<G(!new), C(!new), L>(e: Engine<G, C, L>, s: State<G, C>, capacity: nat, context: seq<Token>,
                                              grammarFirst: bool, drafts: seq<seq<Token>>, s1: State<G, C>, out: seq<Token>)
    requires RunEmits(e, s, capacity, context, grammarFirst, drafts, s1, out)
    ensures (s1, out) == Plain(e, s, capacity, context, grammarFirst, |out|)
    ensures |out| >= |drafts|
    decreases |drafts|
  {
    if drafts != [] {
      var mid, a, b :|
        && RoundEmits(e, s, capacity, context, grammarFirst, drafts[0], mid, a)
        && out == a + b
        && RunEmits(e, mid, capacity, context + a, grammarFirst, drafts[1..], s1, b);
      hide *;
      RunIsPlain(e, mid, capacity, context + a, grammarFirst, drafts[1..], s1, b);
      RoundThenPlain(e, s, capacity, context, grammarFirst, drafts[0], mid, a, s1, b);
    }
  }

  lemma RoundThenPlain<G, C, L>(e: Engine<G, C, L>, s: State<G, C>, capacity: nat, context: seq<Token>, grammarFirst: bool,
                                draft: seq<Token>, mid: State<G, C>, a: seq<Token>, s1: State<G, C>, b: seq<Token>)
    requires RoundEmits(e, s, capacity, context, grammarFirst, draft, mid, a)
    requires (s1, b) == Plain(e, mid, capacity, context + a, grammarFirst, |b|)
    ensures |a| > 0 && (s1, a + b) == Plain(e, s, capacity, context, grammarFirst, |a + b|)
  {
    hide Plain;
    PlainResumes(e, s, capacity, context, grammarFirst, |a|, |b|);
  }

  /** A longer plain decoding starts with the shorter one. */
  lemma PlainPrefix<G, C, L>(e: Engine<G, C, L>, s: State<G, C>, capacity: nat, context: seq<Token>, grammarFirst: bool,
                             a: nat, b: nat)
    requires a <= b
    ensures Plain(e, s, capacity, context, grammarFirst, b).1[..a] == Plain(e, s, capacity, context, grammarFirst, a).1
  {
    PlainResumes(e, s, capacity, context, grammarFirst, a, b - a);
  }

  /** Every token of a round but its last is the draft's and plain decoding's. */
  lemma RoundFollowsDraft<G, C, L>(e: Engine<G, C, L>, s: State<G, C>, capacity: nat, context: seq<Token>, grammarFirst: bool,
                                   draft: seq<Token>, s1: State<G, C>, out: seq<Token>, i: nat)
    requires RoundEmits(e, s, capacity, context, grammarFirst, draft, s1, out)
    requires i < |out| - 1
    ensures Plain(e, s, capacity, context, grammarFirst, i + 1).1[i] == draft[i]
  {
    hide Plain;
    PlainPrefix(e, s, capacity, context, grammarFirst, i + 1, |out|);
    assert out[..|out| - 1][i] == out[..i + 1][i];
  }

  /** No two outcomes of one round differ in length. */
  lemma RoundNotLonger<G, C, L>(e: Engine<G, C, L>, s: State<G, C>, capacity: nat, context: seq<Token>, grammarFirst: bool,
                                draft: seq<Token>, s1: State<G, C>, out1: seq<Token>, s2: State<G, C>, out2: seq<Token>)
    requires RoundEmits(e, s, capacity, context, grammarFirst, draft, s1, out1)
    requires RoundEmits(e, s, capacity, context, grammarFirst, draft, s2, out2)
    ensures |out1| >= |out2|
  {
    hide Plain;
    if |out1| < |out2| {
      RoundFollowsDraft(e, s, capacity, context, grammarFirst, draft, s2, out2, |out1| - 1);
    }
  }

  /** A round is a function of the draft: it stops at the first token where plain decoding
      leaves the draft, neither earlier nor later. */
  lemma RoundUnique<G, C, L>(e: Engine<G, C, L>, s: State<G, C>, capacity: nat, context: seq<Token>, grammarFirst: bool,
                             draft: seq<Token>, s1: State<G, C>, out1: seq<Token>, s2: State<G, C>, out2: seq<Token>)
    requires RoundEmits(e, s, capacity, context, grammarFirst, draft, s1, out1)
    requires RoundEmits(e, s, capacity, context, grammarFirst, draft, s2, out2)
    ensures s1 == s2 && out1 == out2
  {
    RoundNotLonger(e, s, capacity, context, grammarFirst, draft, s1, out1, s2, out2);
    RoundNotLonger(e, s, capacity, context, grammarFirst, draft, s2, out2, s1, out1);
  }
}
