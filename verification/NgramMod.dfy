/** The hashed n-gram table and the drafter built on it: one follower per hash slot, looked up
    again and again to continue the tokens at hand. */
module NgramMod {
  import opened Common
  import Horner

  type Pos = x: nat | x > 0 witness 1

  /** The tokens of an n-gram and the token that followed them. */
  datatype Gram = Gram(key: seq<Token>, follower: Token)

  const EMPTY := -1
  const MULTIPLIER := 6364136223846793005
  const WORD := 0x1_0000_0000_0000_0000

  // ----- hashing -----

  /** The hash of a token list in 64-bit arithmetic. */
  function Hash(tokens: seq<Token>): (h: nat)
    ensures h < WORD
  {
    if tokens == [] then 0
    else (Hash(tokens[..|tokens| - 1]) * MULTIPLIER + tokens[|tokens| - 1]) % WORD
  }

  function Slot(tokens: seq<Token>, size: Pos): (i: nat)
    ensures i < size
  {
    Hash(tokens) % size
  }

  /** The hash is the polynomial of the tokens in the factor, in 64 bits. */
  lemma {:induction false} HashIs(tokens: seq<Token>)
    ensures Hash(tokens) == Horner.Weighted(tokens, 6364136223846793005) % 0x1_0000_0000_0000_0000
  {
    if tokens != [] {
      var front, last := tokens[..|tokens| - 1], tokens[|tokens| - 1];
      HashIs(front);
      assert tokens == front + [last];
      Horner.WeightedSnoc(front, last, MULTIPLIER);
      Horner.RemainderStep(Horner.Weighted(front, MULTIPLIER), MULTIPLIER, last, WORD);
    }
  }

  /** What was added last for this slot. */
  function Follower(added: seq<Gram>, size: Pos, slot: nat): (t: Token) {
    if added == [] then EMPTY
    else
      var last := added[|added| - 1];
      if Slot(last.key, size) == slot then last.follower else Follower(added[..|added| - 1], size, slot)
  }

  lemma FollowerSnoc(added: seq<Gram>, g: Gram, size: Pos, slot: nat)
    ensures Follower(added + [g], size, slot) ==
            if Slot(g.key, size) == slot then g.follower else Follower(added, size, slot)
  {
    assert (added + [g])[..|added|] == added;
  }

  /** `g` stands in `added` at i and nothing after it has its slot. */
  predicate LastFor(added: seq<Gram>, size: Pos, slot: nat, i: nat) {
    && i < |added| && Slot(added[i].key, size) == slot
    && forall j :: i < j < |added| ==> Slot(added[j].key, size) != slot
  }

  /** Nothing was added for this slot. */
  predicate NoneFor(added: seq<Gram>, size: Pos, slot: nat) {
    forall j :: 0 <= j < |added| ==> Slot(added[j].key, size) != slot
  }

  /** A slot holds the follower of the last gram added for it, and is empty when none was. */
  lemma {:induction false} FollowerIsLast(added: seq<Gram>, size: Pos, slot: nat)
    ensures
      if NoneFor(added, size, slot) then Follower(added, size, slot) == EMPTY
      else exists i: nat :: LastFor(added, size, slot, i) && added[i].follower == Follower(added, size, slot)
    decreases |added|
  {
    hide Slot;
    if added != [] {
      var init, last := added[..|added| - 1], added[|added| - 1];
      if Slot(last.key, size) == slot {
        assert LastFor(added, size, slot, |added| - 1);
      } else {
        FollowerIsLast(init, size, slot);
        if !NoneFor(added, size, slot) {
          var j :| 0 <= j < |added| && Slot(added[j].key, size) == slot;
          assert init[j] == added[j];
          var i: nat :| LastFor(init, size, slot, i) && init[i].follower == Follower(init, size, slot);
          assert LastFor(added, size, slot, i);
        }
      }
    }
  }

  /** How many slots are in use. */
  function Filled(cells: seq<Token>): (k: nat)
    ensures k <= |cells|
  {
    if cells == [] then 0
    else Filled(cells[..|cells| - 1]) + if cells[|cells| - 1] != EMPTY then 1 else 0
  }

  lemma {:induction false} FilledSet(cells: seq<Token>, i: nat, t: Token)
    requires i < |cells|
    ensures Filled(cells[i := t]) + (if cells[i] != EMPTY then 1 else 0) == Filled(cells) + if t != EMPTY then 1 else 0
    decreases |cells|
  {
    var init := cells[..|cells| - 1];
    if i == |init| {
      assert cells[i := t][..|init|] == init;
    } else {
      assert cells[i := t][..|init|] == init[i := t];
      FilledSet(init, i, t);
    }
  }

  lemma {:induction false} FilledNone(cells: seq<Token>)
    requires forall i :: 0 <= i < |cells| ==> cells[i] == EMPTY
    ensures Filled(cells) == 0
    decreases |cells|
  {
    if cells != [] {
      FilledNone(cells[..|cells| - 1]);
    }
  }

  /** The counter: how often something was added to a slot that was empty then. */
  function Used(added: seq<Gram>, size: Pos): (k: nat) {
    if added == [] then 0
    else
      var init, last := added[..|added| - 1], added[|added| - 1];
      Used(init, size) + if Follower(init, size, Slot(last.key, size)) == EMPTY then 1 else 0
  }

  lemma UsedSnoc(added: seq<Gram>, g: Gram, size: Pos)
    ensures Used(added + [g], size) == Used(added, size) + if Follower(added, size, Slot(g.key, size)) == EMPTY then 1 else 0
  {
    hide Follower, Slot;
    assert (added + [g])[..|added|] == added;
  }

  function Cells(added: seq<Gram>, size: Pos): (cells: seq<Token>)
    ensures |cells| == size
  {
    seq(size, i requires 0 <= i < size => Follower(added, size, i))
  }

  predicate NoEmpty(added: seq<Gram>) {
    forall g :: g in added ==> g.follower != EMPTY
  }

  /** The counter is the number of slots in use if and only if -1 was never added as a follower;
      otherwise it is too high. */
  lemma {:induction false} UsedIsFilledIff(added: seq<Gram>, size: Pos)
    ensures Filled(Cells(added, size)) <= Used(added, size)
    ensures Used(added, size) == Filled(Cells(added, size)) <==> NoEmpty(added)
    decreases |added|
  {
    hide Follower, Slot, Filled, Used;
    if added == [] {
      UsedNothing(size);
    } else {
      var init, last := added[..|added| - 1], added[|added| - 1];
      var slot := Slot(last.key, size);
      UsedIsFilledIff(init, size);
      assert added == init + [last];
      UsedSnoc(init, last, size);
      forall i | 0 <= i < size
        ensures Follower(added, size, i) == if i == slot then last.follower else Follower(init, size, i)
      {
        FollowerSnoc(init, last, size, i);
      }
      assert Cells(added, size) == Cells(init, size)[slot := last.follower];
      FilledSet(Cells(init, size), slot, last.follower);
      assert NoEmpty(added) <==> NoEmpty(init) && last.follower != EMPTY;
    }
  }

  lemma UsedNothing(size: Pos)
    ensures Used([], size) == 0 == Filled(Cells([], size)) && NoEmpty([])
  {
    FilledNone(Cells([], size));
  }

  // ----- the table -----

  /** `common_ngram_mod`. `added` records what was added since the last reset. */
  class Table {
    const n: Pos
    const size: Pos
    var used: nat
    const entries: array<Token>
    ghost var added: seq<Gram>

    ghost predicate Valid()
      reads this, entries
    {
      && entries.Length == size
      && (forall i :: 0 <= i < size ==> entries[i] == Follower(added, size, i))
      && used == Used(added, size)
    }

    constructor (n: Pos, size: Pos)
      ensures Valid() && fresh(entries) && this.n == n && this.size == size && added == []
    {
      this.n, this.size := n, size;
      used := 0;
      entries := new Token[size](_ => EMPTY);
      added := [];
    }

    method Idx(tokens: seq<Token>) returns (i: nat)
      requires Valid() && |tokens| >= n
      ensures i == Slot(tokens[..n], size)
    {
      var res := 0;
      for k := 0 to n
        invariant res == Hash(tokens[..k])
      {
        assert tokens[..k + 1][..k] == tokens[..k];
        res := (res * MULTIPLIER + tokens[k]) % WORD;
      }
      i := res % size;
    }

    method Add(tokens: seq<Token>)
      requires Valid() && |tokens| > n
      modifies this, entries
      ensures Valid() && added == old(added) + [Gram(tokens[..n], tokens[n])]
    {
      hide Slot, Follower, Used;
      var i := Idx(tokens);
      ghost var g := Gram(tokens[..n], tokens[n]);
      if entries[i] == EMPTY {
        used := used + 1;
      }
      entries[i] := tokens[n];
      forall k | 0 <= k < size
        ensures entries[k] == Follower(added + [g], size, k)
      {
        FollowerSnoc(added, g, size, k);
      }
      UsedSnoc(added, g, size);
      added := added + [g];
    }

    /** The follower added last for the slot of these tokens, or `EMPTY`. */
    method Get(tokens: seq<Token>) returns (t: Token)
      requires Valid() && |tokens| >= n
      ensures t == Follower(added, size, Slot(tokens[..n], size))
    {
      var i := Idx(tokens);
      t := entries[i];
    }

    /** The table is fuller than a quarter. */
    method Full() returns (full: bool)
      requires Valid()
      ensures full <==> 4 * Used(added, size) > size
    {
      full := 4 * used > size;
    }

    method Reset()
      requires Valid()
      modifies this, entries
      ensures Valid() && added == [] && used == 0
    {
      for k := 0 to entries.Length
        invariant entries.Length == size
        invariant forall i :: 0 <= i < k ==> entries[i] == EMPTY
      {
        entries[k] := EMPTY;
      }
      used := 0;
      added := [];
    }
  }

  // ----- drafting -----

  /** The grams of `prompt` that start at positions from, ..., upto - 1. */
  function Grams(prompt: seq<Token>, n: nat, from: nat, upto: nat): (gs: seq<Gram>)
    requires upto + n <= |prompt|
    ensures |gs| == if from <= upto then upto - from else 0
    decreases upto
  {
    if upto <= from then []
    else Grams(prompt, n, from, upto - 1) + [Gram(prompt[upto - 1..][..n], prompt[upto - 1 + n])]
  }

  lemma {:induction false} GramsAt(prompt: seq<Token>, n: nat, from: nat, upto: nat, p: nat)
    requires upto + n <= |prompt| && from <= p < upto
    ensures Grams(prompt, n, from, upto)[p - from] == Gram(prompt[p..][..n], prompt[p + n])
    decreases upto
  {
    if p < upto - 1 {
      GramsAt(prompt, n, from, upto - 1, p);
    }
  }

  /** Look up the last n tokens of `context`, append what is found, and so on. */
  function Chain(added: seq<Gram>, n: nat, size: Pos, context: seq<Token>, max: nat): (r: seq<Token>)
    requires |context| >= n
    ensures |r| <= max
    decreases max
  {
    if max == 0 then []
    else
      var t := Follower(added, size, Slot(context[|context| - n..], size));
      if t == EMPTY then [] else [t] + Chain(added, n, size, context + [t], max - 1)
  }

  /** The k-th token of the chain is what the table has for the n tokens before it, and a chain
      that is shorter than allowed ends where the table has nothing. */
  lemma {:induction false} ChainLooksUp(added: seq<Gram>, n: nat, size: Pos, context: seq<Token>, max: nat, k: nat)
    requires |context| >= n && k < max && k <= |Chain(added, n, size, context, max)|
    ensures
      var c := Chain(added, n, size, context, max);
      var before := context + c[..k];
      var t := Follower(added, size, Slot(before[|before| - n..], size));
      t == if k < |c| then c[k] else EMPTY
    decreases k
  {
    hide Follower, Slot;
    var c := Chain(added, n, size, context, max);
    if k == 0 {
      assert context + c[..0] == context;
    } else {
      ChainLooksUp(added, n, size, context + [c[0]], max - 1, k - 1);
      assert context + c[..k] == context + [c[0]] + c[1..][..k - 1];
    }
  }

  lemma ChainStep(added: seq<Gram>, n: nat, size: Pos, context: seq<Token>, max: nat)
    requires |context| >= n
    ensures
      var t := Follower(added, size, Slot(context[|context| - n..], size));
      Chain(added, n, size, context, max) ==
        if max == 0 || t == EMPTY then [] else [t] + Chain(added, n, size, context + [t], max - 1)
  {
    hide Follower, Slot;
  }

  lemma WindowIs(buffer: seq<Token>, context: seq<Token>, n: nat, i: nat)
    requires |context| == n + i <= |buffer| && buffer[..n + i] == context
    ensures buffer[i..][..n] == context[|context| - n..]
  {}

  lemma OneMore(buffer: seq<Token>, context: seq<Token>, got: seq<Token>, token: Token, n: nat, i: nat,
                all: seq<Token>, rest: seq<Token>)
    requires n + i < |buffer| && buffer[..n + i] == context + got && all == got + ([token] + rest)
    ensures buffer[n + i := token][..n + (i + 1)] == context + (got + [token]) == context + got + [token]
    ensures all == (got + [token]) + rest
  {
    assert buffer[n + i := token][..n + i] == buffer[..n + i];
  }

  /** Every gram of `prompt` that starts before `upto` has been added since the last reset. */
  ghost predicate Covers(added: seq<Gram>, prompt: seq<Token>, n: nat, upto: nat) {
    && (upto == 0 || upto + n <= |prompt|)
    && forall p :: 0 <= p < upto ==> Gram(prompt[p..][..n], prompt[p + n]) in added
  }

  /** As the prompt grows, catching up from where the drafter was covers all of it. */
  lemma CatchingUpCovers(added: seq<Gram>, earlier: seq<Token>, prompt: seq<Token>, n: nat, from: nat, upto: nat)
    requires Covers(added, earlier, n, from) && (from == 0 || earlier <= prompt) && upto + n <= |prompt| && from <= upto
    ensures Covers(added + Grams(prompt, n, from, upto), prompt, n, upto)
  {
    var gs := Grams(prompt, n, from, upto);
    forall p | 0 <= p < upto
      ensures Gram(prompt[p..][..n], prompt[p + n]) in added + gs
    {
      if p < from {
        assert prompt[p..][..n] == earlier[p..][..n];
      } else {
        GramsAt(prompt, n, from, upto, p);
        assert gs[p - from] in added + gs;
      }
    }
  }

  lemma CoversGrown(added: seq<Gram>, earlier: seq<Token>, prompt: seq<Token>, n: nat, upto: nat)
    requires Covers(added, earlier, n, upto) && earlier <= prompt
    ensures Covers(added, prompt, n, upto)
  {
    forall p | 0 <= p < upto
      ensures Gram(prompt[p..][..n], prompt[p + n]) in added
    {
      assert prompt[p..][..n] == earlier[p..][..n];
    }
  }

  /** In a covered prompt every n-gram is known: the table has the token that followed the last
      gram of its slot. */
  lemma CoveredIsKnown(added: seq<Gram>, prompt: seq<Token>, n: nat, upto: nat, size: Pos, p: nat)
    requires Covers(added, prompt, n, upto) && p < upto
    ensures var slot := Slot(prompt[p..][..n], size);
      exists i: nat :: LastFor(added, size, slot, i) && added[i].follower == Follower(added, size, slot)
  {
    FollowerIsLast(added, size, Slot(prompt[p..][..n], size));
    var i :| 0 <= i < |added| && added[i] == Gram(prompt[p..][..n], prompt[p + n]);
  }

  /** Right after a reset only a sequence that starts over is covered. */
  lemma AfterResetIff(prompt: seq<Token>, n: nat, upto: nat)
    requires upto == 0 || upto + n <= |prompt|
    ensures Covers([], prompt, n, upto) <==> upto == 0
  {
    if upto != 0 {
      var first := Gram(prompt[0..][..n], prompt[0 + n]);
      var none: seq<Gram> := [];
      assert first !in none;
    }
  }

  datatype SeqInfo = SeqInfo(iLast: nat, nDraftLast: nat, nLow: nat)

  /** The sequences in `intact` are covered as far as their records say. */
  ghost predicate AllCovered(added: seq<Gram>, prompts: seq<seq<Token>>, infos: seq<SeqInfo>, n: nat, intact: set<nat>) {
    && |prompts| == |infos|
    && forall k :: k in intact ==> k < |infos| && Covers(added, prompts[k], n, infos[k].iLast)
  }

  /** Whom a reset by sequence `id` leaves covered: the sequence itself, and those that have
      nothing behind them yet. */
  ghost function Surviving(intact: set<nat>, infos: seq<SeqInfo>, id: nat): (r: set<nat>) {
    {id} + set k | k in intact && k < |infos| && infos[k].iLast == 0
  }

  ghost function Ids(n: nat): (r: set<nat>)
    ensures forall k: nat :: k in r <==> k < n
  {
    if n == 0 then {} else Ids(n - 1) + {n - 1}
  }

  lemma CoveredByMore(added: seq<Gram>, more: seq<Gram>, prompts: seq<seq<Token>>, infos: seq<SeqInfo>, n: nat, intact: set<nat>)
    requires AllCovered(added, prompts, infos, n, intact)
    ensures AllCovered(added + more, prompts, infos, n, intact)
  {}

  lemma CoveredAlso(added: seq<Gram>, prompts: seq<seq<Token>>, infos: seq<SeqInfo>, n: nat, intact: set<nat>,
                    id: nat, prompt: seq<Token>, info: SeqInfo)
    requires AllCovered(added, prompts, infos, n, intact) && id < |infos| && Covers(added, prompt, n, info.iLast)
    ensures AllCovered(added, prompts[id := prompt], infos[id := info], n, intact + {id})
  {
    hide Covers;
  }

  lemma CoveredBut(added: seq<Gram>, prompts: seq<seq<Token>>, infos: seq<SeqInfo>, n: nat, intact: set<nat>,
                   id: nat, prompt: seq<Token>, info: SeqInfo)
    requires AllCovered(added, prompts, infos, n, intact) && id < |infos|
    ensures AllCovered(added, prompts[id := prompt], infos[id := info], n, intact - {id})
  {
    hide Covers;
  }

  lemma CoveredAfterReset(prompts: seq<seq<Token>>, infos: seq<SeqInfo>, n: nat, intact: set<nat>, id: nat,
                          prompt: seq<Token>, info: SeqInfo)
    requires |prompts| == |infos| && id < |infos| && info.iLast == 0
    ensures AllCovered([], prompts[id := prompt], infos[id := info], n, Surviving(intact, infos, id))
  {}

  lemma CoversNothing(added: seq<Gram>, prompt: seq<Token>, n: nat)
    ensures Covers(added, prompt, n, 0)
  {}

  /** After grams of its prompt were added from where it was, a sequence is covered. */
  lemma CaughtUp(added: seq<Gram>, prompts: seq<seq<Token>>, infos: seq<SeqInfo>, n: nat, intact: set<nat>,
                 id: nat, prompt: seq<Token>, info: SeqInfo, from: nat)
    requires AllCovered(added, prompts, infos, n, intact) && id < |infos| && n <= |prompt| && info.iLast == |prompt| - n
    requires from == 0 || (id in intact && infos[id].iLast == from && prompts[id] <= prompt)
    ensures AllCovered(added + Grams(prompt, n, from, |prompt| - n), prompts[id := prompt], infos[id := info], n, intact + {id})
  {
    var gs := Grams(prompt, n, from, |prompt| - n);
    if from == 0 {
      CoversNothing(added, prompt, n);
      CatchingUpCovers(added, prompt, prompt, n, 0, |prompt| - n);
    } else {
      assert Covers(added, prompts[id], n, from);
      CatchingUpCovers(added, prompts[id], prompt, n, from, |prompt| - n);
    }
    CoveredByMore(added, gs, prompts, infos, n, intact);
    CoveredAlso(added + gs, prompts, infos, n, intact, id, prompt, info);
  }

  /** A draft that catches up. */
  lemma Behind(added: seq<Gram>, prompts: seq<seq<Token>>, infos: seq<SeqInfo>, n: nat, intact: set<nat>,
               id: nat, prompt: seq<Token>, info: SeqInfo)
    requires AllCovered(added, prompts, infos, n, intact) && id < |infos| && n <= |prompt| && info.iLast == |prompt| - n
    ensures AllCovered(added + Grams(prompt, n, infos[id].iLast, |prompt| - n), prompts[id := prompt], infos[id := info], n,
                       if prompts[id] <= prompt then intact else intact - {id})
  {
    hide Covers, Grams;
    var gs := Grams(prompt, n, infos[id].iLast, |prompt| - n);
    if prompts[id] <= prompt && id in intact {
      CaughtUp(added, prompts, infos, n, intact, id, prompt, info, infos[id].iLast);
      assert intact + {id} == intact;
    } else {
      CoveredByMore(added, gs, prompts, infos, n, intact);
      CoveredBut(added + gs, prompts, infos, n, intact, id, prompt, info);
      assert id !in intact ==> intact - {id} == intact;
    }
  }

  /** A draft that does not catch up. */
  lemma StandsStill(added: seq<Gram>, prompts: seq<seq<Token>>, infos: seq<SeqInfo>, n: nat, intact: set<nat>,
                    id: nat, prompt: seq<Token>, info: SeqInfo)
    requires AllCovered(added, prompts, infos, n, intact) && id < |infos| && info.iLast == infos[id].iLast
    ensures AllCovered(added, prompts[id := prompt], infos[id := info], n,
                       if prompts[id] <= prompt then intact else intact - {id})
  {
    if prompts[id] <= prompt && id in intact {
      CoversGrown(added, prompts[id], prompt, n, info.iLast);
      hide Covers;
      CoveredAlso(added, prompts, infos, n, intact, id, prompt, info);
      assert intact + {id} == intact;
    } else {
      hide Covers;
      CoveredBut(added, prompts, infos, n, intact, id, prompt, info);
      assert id !in intact ==> intact - {id} == intact;
    }
  }

  lemma SameReset(added: seq<Gram>, prompts: seq<seq<Token>>, infos: seq<SeqInfo>, n: nat, intact: set<nat>,
                  id: nat, info: SeqInfo)
    requires AllCovered(added, prompts, infos, n, intact) && id < |infos| && info.iLast == 0
    ensures AllCovered([], prompts, infos[id := info], n, Surviving(intact, infos, id))
  {
    CoveredAfterReset(prompts, infos, n, intact, id, prompts[id], info);
    assert prompts[id := prompts[id]] == prompts;
  }

  lemma SameRecord(added: seq<Gram>, prompts: seq<seq<Token>>, infos: seq<SeqInfo>, n: nat, intact: set<nat>,
                   id: nat, info: SeqInfo)
    requires AllCovered(added, prompts, infos, n, intact) && id < |infos| && info.iLast == infos[id].iLast
    ensures AllCovered(added, prompts, infos[id := info], n, intact)
  {
    hide Covers;
  }

  /** The n-gram drafter; all sequences share one table. `prompts` holds the prompt each sequence
      was called with last, and `intact` the sequences of which the table has everything that
      their records say: no other sequence has reset it meanwhile, and their prompts only grew. */
  class Drafter {
    const nMin: int
    const mod: Table
    var sinfos: seq<SeqInfo>
    ghost var prompts: seq<seq<Token>>
    ghost var intact: set<nat>

    ghost predicate Valid()
      reads this, mod, mod.entries
    {
      mod.Valid() && |prompts| == |sinfos| && AllCovered(mod.added, prompts, sinfos, mod.n, intact)
    }

    constructor (nMatch: Pos, size: Pos, nMin: int, nSeq: nat)
      ensures Valid() && fresh(mod) && fresh(mod.entries) && mod.n == nMatch && mod.size == size && this.nMin == nMin
      ensures mod.added == [] && sinfos == seq(nSeq, _ => SeqInfo(0, 0, 0))
      ensures intact == Ids(nSeq) && prompts == seq(nSeq, _ => [])
    {
      this.nMin := nMin;
      sinfos := seq(nSeq, _ => SeqInfo(0, 0, 0));
      prompts := seq(nSeq, _ => []);
      intact := Ids(nSeq);
      mod := new Table(nMatch, size);
    }

    /** Add the grams that start at positions from, ..., upto - 1. */
    method AddAll(prompt: seq<Token>, from: nat, upto: nat)
      requires mod.Valid() && upto + mod.n <= |prompt|
      modifies mod, mod.entries
      ensures mod.Valid()
      ensures mod.added == old(mod.added) + Grams(prompt, mod.n, from, upto)
    {
      hide Table.Valid;
      var i := from;
      while i < upto
        invariant mod.Valid() && from <= i && (i <= upto || i == from)
        invariant mod.added == old(mod.added) + Grams(prompt, mod.n, from, if i <= upto then i else upto)
      {
        mod.Add(prompt[i..]);
        i := i + 1;
      }
    }

    method Begin(id: nat, prompt: seq<Token>)
      requires Valid() && id < |sinfos|
      modifies this, mod, mod.entries
      ensures Valid() && prompts == old(prompts)[id := prompt]
      ensures
        var s := old(sinfos)[id].(iLast := 0, nDraftLast := 0);
        if |prompt| < mod.n then
          sinfos == old(sinfos)[id := s] && mod.added == old(mod.added) && intact == old(intact) + {id}
        else
          var all := old(mod.added) + Grams(prompt, mod.n, 0, |prompt| - mod.n);
          if 4 * Used(all, mod.size) <= mod.size then
            mod.added == all && sinfos == old(sinfos)[id := s.(iLast := |prompt| - mod.n)] && intact == old(intact) + {id}
          else
            mod.added == [] && sinfos == old(sinfos)[id := s] && intact == Surviving(old(intact), old(sinfos), id)
    {
      hide Table.Valid, AllCovered, Covers, Surviving, Used, Grams;
      ghost var was, were, had, before := sinfos, prompts, intact, mod.added;
      prompts := prompts[id := prompt];
      sinfos := sinfos[id := sinfos[id].(iLast := 0, nDraftLast := 0)];
      var n := mod.n;
      if |prompt| < n {
        CoversNothing(before, prompt, n);
        CoveredAlso(before, were, was, n, had, id, prompt, sinfos[id]);
        intact := had + {id};
        return;
      }
      AddAll(prompt, 0, |prompt| - n);
      sinfos := sinfos[id := sinfos[id].(iLast := |prompt| - n)];
      var full := mod.Full();
      if full {
        mod.Reset();
        sinfos := sinfos[id := sinfos[id].(iLast := 0)];
        CoveredAfterReset(were, was, n, had, id, prompt, sinfos[id]);
        intact := Surviving(had, was, id);
      } else {
        CaughtUp(before, were, was, n, had, id, prompt, sinfos[id], 0);
        intact := had + {id};
      }
      assert sinfos == was[id := sinfos[id]];
    }

    /** `nMax` is the limit of the call; the result is empty where the drafter has nothing. */
    method Draft(id: nat, prompt: seq<Token>, idLast: Token, nMax: int) returns (result: seq<Token>)
      requires Valid() && id < |sinfos|
      modifies this, mod, mod.entries
      ensures Valid() && prompts == old(prompts)[id := prompt]
      ensures intact == if old(prompts)[id] <= prompt then old(intact) else old(intact) - {id}
      ensures |result| == 0 || |result| == nMax || nMin <= |result| < nMax
      ensures
        var n := mod.n;
        var s := old(sinfos)[id];
        var behind := |prompt| >= n && s.iLast + 32 < |prompt|;
        && mod.added == old(mod.added) + (if behind then Grams(prompt, n, s.iLast, |prompt| - n) else [])
        && sinfos == old(sinfos)[id := s.(iLast := if behind then |prompt| - n else s.iLast, nDraftLast := |result|)]
        && result == (
             if |prompt| < n || nMax <= 0 then []
             else
               var c := Chain(mod.added, n, mod.size, prompt[|prompt| - n + 1..] + [idLast], nMax);
               if |c| < nMax && |c| < nMin then [] else c)
    {
      hide Table.Valid, AllCovered, Chain, Grams, Follower, Slot;
      CatchUp(id, prompt);
      result := [];
      var n := mod.n;
      if |prompt| < n {
        return;
      }
      if nMax <= 0 {
        return;
      }
      var buffer := StartBuffer(prompt, idLast, nMax);
      result := Continue(buffer, nMax);
      SetDrafted(id, |result|);
    }

    /** What has been appended to the prompt is added once it has fallen behind enough. */
    method CatchUp(id: nat, prompt: seq<Token>)
      requires Valid() && id < |sinfos|
      modifies this, mod, mod.entries
      ensures Valid() && prompts == old(prompts)[id := prompt]
      ensures intact == if old(prompts)[id] <= prompt then old(intact) else old(intact) - {id}
      ensures
        var n := mod.n;
        var s := old(sinfos)[id];
        var behind := |prompt| >= n && s.iLast + 32 < |prompt|;
        && mod.added == old(mod.added) + (if behind then Grams(prompt, n, s.iLast, |prompt| - n) else [])
        && sinfos == old(sinfos)[id := s.(iLast := if behind then |prompt| - n else s.iLast, nDraftLast := 0)]
    {
      hide Table.Valid, AllCovered, Covers, Grams;
      ghost var was, were, had, before := sinfos, prompts, intact, mod.added;
      var n := mod.n;
      prompts := prompts[id := prompt];
      sinfos := sinfos[id := sinfos[id].(nDraftLast := 0)];
      if |prompt| >= n && sinfos[id].iLast + 32 < |prompt| {
        ghost var from := sinfos[id].iLast;
        AddAll(prompt, sinfos[id].iLast, |prompt| - n);
        sinfos := sinfos[id := sinfos[id].(iLast := |prompt| - n)];
        Behind(before, were, was, n, had, id, prompt, sinfos[id]);
      } else {
        StandsStill(before, were, was, n, had, id, prompt, sinfos[id]);
      }
      intact := if were[id] <= prompt then had else had - {id};
      assert sinfos == was[id := sinfos[id]];
    }

    method SetDrafted(id: nat, count: nat)
      requires Valid() && id < |sinfos|
      modifies this`sinfos
      ensures Valid() && sinfos == old(sinfos)[id := old(sinfos)[id].(nDraftLast := count)]
    {
      hide Table.Valid, Covers;
      sinfos := sinfos[id := sinfos[id].(nDraftLast := count)];
    }

    /** A buffer for n tokens and a draft, with the last n tokens in place. */
    method StartBuffer(prompt: seq<Token>, idLast: Token, nMax: nat) returns (buffer: seq<Token>)
      requires |prompt| >= mod.n
      ensures |buffer| == mod.n + nMax && buffer[..mod.n] == prompt[|prompt| - mod.n + 1..] + [idLast]
    {
      var n := mod.n;
      buffer := seq(n + nMax, _ => 0);
      for i := 0 to n - 1
        invariant |buffer| == n + nMax && buffer[..i] == prompt[|prompt| - n + 1..][..i]
      {
        buffer := buffer[i := prompt[|prompt| - n + 1 + i]];
      }
      buffer := buffer[n - 1 := idLast];
    }

    /** Draft into a buffer whose first n tokens are the context. */
    method Continue(start: seq<Token>, nMax: nat) returns (result: seq<Token>)
      requires mod.Valid() && |start| == mod.n + nMax
      ensures
        var c := Chain(mod.added, mod.n, mod.size, start[..mod.n], nMax);
        result == if |c| < nMax && |c| < nMin then [] else c
    {
      hide *;
      var n := mod.n;
      ghost var context := start[..n];
      ghost var all := Chain(mod.added, n, mod.size, context, nMax);
      ghost var got: seq<Token> := [];
      var buffer := start;
      var i := 0;
      assert context + [] == context;
      assert all == [] + all;
      while i < nMax
        invariant i <= nMax && |buffer| == n + nMax && |got| == i
        invariant buffer[..n + i] == context + got
        invariant all == got + Chain(mod.added, n, mod.size, context + got, nMax - i)
      {
        ghost var before := context + got;
        WindowIs(buffer, before, n, i);
        ChainStep(mod.added, n, mod.size, before, nMax - i);
        var token := mod.Get(buffer[i..]);
        if token == EMPTY {
          assert all == got;
          if i < nMin {
            return [];
          }
          buffer := buffer[..n + i];
          break;
        }
        OneMore(buffer, context, got, token, n, i, all, Chain(mod.added, n, mod.size, before + [token], nMax - i - 1));
        buffer := buffer[n + i := token];
        got := got + [token];
        i := i + 1;
      }
      if i == nMax {
        ChainStep(mod.added, n, mod.size, context + got, 0);
        assert buffer[..n + i] == buffer;
      }
      assert buffer == context + got && all == got;
      result := ShiftDown(buffer, n);
    }

    /** Move everything from position n on to the front and cut the rest off. */
    method ShiftDown(buffer: seq<Token>, n: nat) returns (result: seq<Token>)
      requires n <= |buffer|
      ensures result == buffer[n..]
    {
      result := buffer;
      var i := 0;
      while n + i < |result|
        invariant |result| == |buffer| && n + i <= |buffer|
        invariant forall k :: 0 <= k < i ==> result[k] == buffer[n + k]
        invariant forall k :: i <= k < |buffer| ==> result[k] == buffer[k]
      {
        result := result[i := result[n + i]];
        i := i + 1;
      }
      result := result[..|result| - n];
    }

    method Accept(id: nat, nAccepted: nat)
      requires Valid() && id < |sinfos|
      modifies this, mod, mod.entries
      ensures Valid() && prompts == old(prompts)
      ensures
        var s := old(sinfos)[id];
        var low := s.nDraftLast > 0 && 4 * nAccepted < s.nDraftLast;
        if low && s.nLow + 1 >= 5 then
          && mod.added == [] && sinfos == old(sinfos)[id := s.(nLow := 0, iLast := 0)]
          && intact == Surviving(old(intact), old(sinfos), id)
        else
          && mod.added == old(mod.added) && intact == old(intact)
          && sinfos == old(sinfos)[id := if low then s.(nLow := s.nLow + 1) else if s.nDraftLast > 0 then s.(nLow := 0) else s]
    {
      hide Table.Valid, AllCovered, Covers, Surviving;
      ghost var was, before := sinfos, mod.added;
      if sinfos[id].nDraftLast > 0 {
        if 4 * nAccepted < sinfos[id].nDraftLast {
          sinfos := sinfos[id := sinfos[id].(nLow := sinfos[id].nLow + 1)];
          if sinfos[id].nLow >= 5 {
            mod.Reset();
            sinfos := sinfos[id := sinfos[id].(nLow := 0, iLast := 0)];
            SameReset(before, prompts, was, mod.n, intact, id, sinfos[id]);
            intact := Surviving(intact, was, id);
            assert sinfos == was[id := sinfos[id]];
            return;
          }
        } else {
          sinfos := sinfos[id := sinfos[id].(nLow := 0)];
        }
        SameRecord(mod.added, prompts, was, mod.n, intact, id, sinfos[id]);
      }
    }
  }

  // ----- two sequences -----

  const SIZE: Pos := 4 * 1024 * 1024

  lemma {:induction false} UsedAtMost(added: seq<Gram>, size: Pos)
    ensures Used(added, size) <= |added|
    decreases |added|
  {
    hide Follower, Slot;
    if added != [] {
      UsedAtMost(added[..|added| - 1], size);
    }
  }

  lemma LastWins(added: seq<Gram>, g: Gram, size: Pos)
    ensures Follower(added + [g], size, Slot(g.key, size)) == g.follower
  {
    hide Slot;
    FollowerSnoc(added, g, size, Slot(g.key, size));
  }

  lemma OneLookUp(added: seq<Gram>, g: Gram, size: Pos)
    requires |g.key| == 1 && g.follower != EMPTY
    ensures Chain(added + [g], 1, size, g.key, 1) == [g.follower]
  {
    LastWins(added, g, size);
    assert g.key[0..] == g.key;
    hide Follower, Slot;
    assert Chain(added + [g], 1, size, g.key + [g.follower], 0) == [];
  }

  lemma {:induction false} NothingToFind(n: nat, size: Pos, context: seq<Token>, max: nat)
    requires |context| >= n
    ensures Chain([], n, size, context, max) == []
  {
    hide Slot;
  }

  lemma GramsOfThree(prompt: seq<Token>)
    requires |prompt| == 3
    ensures Grams(prompt, 1, 0, 2) == [Gram([prompt[0]], prompt[1]), Gram([prompt[1]], prompt[2])]
  {
    assert prompt[0..][..1] == [prompt[0]] && prompt[1..][..1] == [prompt[1]];
    assert Grams(prompt, 1, 0, 1) == [Gram([prompt[0]], prompt[1])];
  }

  lemma GramsOfTwo(prompt: seq<Token>)
    requires |prompt| == 2
    ensures Grams(prompt, 1, 0, 1) == [Gram([prompt[0]], prompt[1])]
  {
    assert prompt[0..][..1] == [prompt[0]];
  }

  /** Two sequences: after the second had five drafts in a row refused, the table is empty, while
      the record of the first says that two of its grams are in it, and it does not catch up. */
  method TwoSequences(first: seq<Token>, second: seq<Token>) returns (d: Drafter, result: seq<Token>)
    requires first == [1, 2, 3] && second == [5, 5]
    ensures fresh(d) && d.Valid() && |d.sinfos| == 2 && d.prompts[0] == first && d.sinfos[0].iLast == 2
    ensures 0 !in d.intact && !Covers(d.mod.added, first, 1, d.sinfos[0].iLast)
    ensures result == []
  {
    hide Table.Valid, AllCovered, Covers, Slot, Follower, Used, Grams, Chain;
    GramsOfThree(first);
    GramsOfTwo(second);
    var a, b, c := Gram([1], 2), Gram([2], 3), Gram([5], 5);
    d := new Drafter(1, SIZE, 0, 2);
    UsedAtMost([a, b], SIZE);
    d.Begin(0, first);
    assert [] + [a, b] == [a, b];
    UsedAtMost([a, b] + [c], SIZE);
    d.Begin(1, second);
    RefuseFive(d, [a, b], c, first, second);
    AfterResetIff(first, 1, 2);
    NothingToFind(1, SIZE, first[3..] + [1], 1);
    result := d.Draft(0, first, 1, 1);
    assert d.mod.added == [];
  }

  /** Five drafts of one token, all refused. */
  method RefuseFive(d: Drafter, others: seq<Gram>, c: Gram, first: seq<Token>, second: seq<Token>)
    requires d.Valid() && |d.sinfos| == 2 && d.mod.n == 1 && d.mod.size == SIZE && d.nMin == 0
    requires |second| == 2 && c == Gram([second[1]], second[1])
    requires d.mod.added == others + [c] && d.prompts == [first, second]
    requires d.sinfos[0].iLast > 0 && d.sinfos[1].iLast == 1 && d.sinfos[1].nLow == 0
    requires c.follower != EMPTY
    modifies d, d.mod, d.mod.entries
    ensures d.Valid() && d.mod.added == [] && |d.sinfos| == 2 && d.sinfos[0] == old(d.sinfos)[0]
    ensures d.prompts == [first, second] && 0 !in d.intact
  {
    hide Table.Valid, AllCovered, Covers, Slot, Follower, Used, Grams;
    OneLookUp(others, c, SIZE);
    hide Chain;
    for i := 0 to 5
      invariant d.Valid() && |d.sinfos| == 2 && d.prompts == [first, second]
      invariant d.sinfos[0] == old(d.sinfos)[0]
      invariant i < 5 ==> d.mod.added == others + [c]
      invariant i < 5 ==> d.sinfos[1].iLast == 1 && d.sinfos[1].nLow == i
      invariant i == 5 ==> d.mod.added == [] && 0 !in d.intact
    {
      assert second[2..] + [second[1]] == [second[1]];
      assert others + [c] + [] == others + [c];
      var draft := d.Draft(1, second, second[1], 1);
      assert |draft| == 1;
      d.Accept(1, 0);
    }
  }
}
