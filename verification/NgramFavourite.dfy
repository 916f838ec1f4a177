/** Which m-gram `common_ngram_map` drafts when it keeps values: when it is the most frequent one. */
module NgramFavourite {
  import opened Common
  import opened NgramSpec
  import opened NgramRuns

  // ----- the m-grams that follow a key -----

  /** Room for four. */
  function AddGram(known: seq<seq<Token>>, g: seq<Token>): (r: seq<seq<Token>>) {
    if g in known || |known| >= MAX_VALUES then known else known + [g]
  }

  /** `known`, and behind it the m-grams that follow the key at positions from lo up to and
      without hi, each once, in the order they are first met, four in all. */
  function Seen(inp: seq<Token>, key: seq<Token>, m: nat, known: seq<seq<Token>>, lo: nat, hi: nat): (r: seq<seq<Token>>)
    requires hi + |key| + m <= |inp| + 1
    decreases hi - lo
  {
    if lo >= hi then known
    else Seen(inp, key, m, if Occurs(inp, lo, key) then AddGram(known, Gram(inp, lo + |key|, m)) else known, lo + 1, hi)
  }

  /** The m-grams of the slots in use. */
  function Grams(inp: seq<Token>, values: seq<Value>, m: nat): (r: seq<seq<Token>>) {
    if values == [] || values[0].idx == 0 || values[0].idx + m > |inp| then []
    else [Gram(inp, values[0].idx, m)] + Grams(inp, values[1..], m)
  }

  /** How often an m-gram is stored as seen. */
  function Stored(inp: seq<Token>, values: seq<Value>, m: nat, g: seq<Token>): (k: nat) {
    if values == [] || values[0].idx == 0 || values[0].idx + m > |inp| then 0
    else if Gram(inp, values[0].idx, m) == g then values[0].num
    else Stored(inp, values[1..], m, g)
  }

  /** What a key's statistics look like: the values differ, and exactly those in use have been
      counted; a key without values has not been looked at yet. */
  predicate WellCounted(inp: seq<Token>, m: nat, k: Key) {
    && |k.values| == MAX_VALUES && Distinct(inp, k.values, m) && CountsCapped(k.values) && NumsOk(k.values)
    && (k.values[0].idx != 0 || k.stat == 0)
  }

  predicate NumsOk(values: seq<Value>) {
    forall v :: 0 <= v < |values| ==> (values[v].idx != 0 <==> values[v].num > 0)
  }

  /** What is stored for an m-gram, and its occurrences behind the key from `stat` to the match. */
  function Total(inp: seq<Token>, key: seq<Token>, m: nat, k: Key, p: nat, g: seq<Token>): (n: nat) {
    Stored(inp, k.values, m, g) + Times(inp, key + g, k.stat, p + 1)
  }

  /** `g` has a place among four m-grams, those stored first, and none of them was seen more
      often. */
  predicate MostFrequent(inp: seq<Token>, key: seq<Token>, m: nat, k: Key, p: nat, g: seq<Token>)
    requires p + |key| + m <= |inp|
  {
    var seen := Seen(inp, key, m, Grams(inp, k.values, m), k.stat, p + 1);
    g in seen && forall h :: h in seen ==> Total(inp, key, m, k, p, h) <= Total(inp, key, m, k, p, g)
  }

  // ----- the slots hold just those -----

  lemma GramsTail(inp: seq<Token>, values: seq<Value>, m: nat)
    requires Distinct(inp, values, m) && values != []
    ensures Distinct(inp, values[1..], m) && (values[0].idx == 0 ==> Grams(inp, values[1..], m) == [])
  {
    var tail := values[1..];
    forall u, v | 0 <= u < v < |tail| && tail[v].idx != 0
      ensures tail[u].idx != 0 && Gram(inp, tail[u].idx, m) != Gram(inp, tail[v].idx, m)
    {
      assert values[u + 1] == tail[u] && values[v + 1] == tail[v];
    }
    if values[0].idx == 0 && tail != [] {
      assert values[1] == tail[0];
    }
  }

  /** The i-th slot in use holds the i-th m-gram. */
  lemma {:induction false} GramsAre(inp: seq<Token>, values: seq<Value>, m: nat)
    requires Distinct(inp, values, m)
    ensures |Grams(inp, values, m)| <= |values|
    ensures forall v :: 0 <= v < |values| ==> (values[v].idx != 0 <==> v < |Grams(inp, values, m)|)
    ensures forall v :: 0 <= v < |Grams(inp, values, m)| ==> Grams(inp, values, m)[v] == Gram(inp, values[v].idx, m)
    decreases |values|
  {
    if values != [] {
      GramsTail(inp, values, m);
      GramsAre(inp, values[1..], m);
      var gs, rest := Grams(inp, values, m), Grams(inp, values[1..], m);
      forall v | 0 <= v < |values|
        ensures values[v].idx != 0 <==> v < |gs|
        ensures v < |gs| ==> gs[v] == Gram(inp, values[v].idx, m)
      {
        if v > 0 {
          assert values[1..][v - 1] == values[v];
        }
      }
    }
  }

  /** The slots in use are determined by their m-grams. */
  lemma {:induction false} GramsFrom(inp: seq<Token>, values: seq<Value>, m: nat, gs: seq<seq<Token>>)
    requires Distinct(inp, values, m) && |gs| <= |values|
    requires forall v :: 0 <= v < |values| ==> (values[v].idx != 0 <==> v < |gs|)
    requires forall v :: 0 <= v < |gs| ==> gs[v] == Gram(inp, values[v].idx, m)
    ensures Grams(inp, values, m) == gs
  {
    GramsAre(inp, values, m);
    hide Grams;
    var n := |Grams(inp, values, m)|;
    assert n < |values| ==> (values[n].idx != 0 <==> n < |gs|);
    assert |gs| < |values| ==> (values[|gs|].idx != 0 <==> |gs| < n);
  }

  lemma CountOneGrams(inp: seq<Token>, values: seq<Value>, m: nat, start: nat)
    requires 0 < start && start + m <= |inp| && Distinct(inp, values, m) && CountsCapped(values) && |values| == MAX_VALUES
    ensures Distinct(inp, CountOne(inp, values, m, start), m)
    ensures Grams(inp, CountOne(inp, values, m, start), m) == AddGram(Grams(inp, values, m), Gram(inp, start, m))
  {
    var r := CountOne(inp, values, m, start);
    var g, gs := Gram(inp, start, m), Grams(inp, values, m);
    CountOneIs(inp, values, m, start);
    GramsAre(inp, values, m);
    var s := SlotIs(inp, values, m, start, gs);
    hide SlotFor, Occurs, Grams, Kept, AllOnce, CountOne;
    KeptCapped(inp, values, r, m);
    hide Distinct, CountsCapped;
    if s < |gs| {
      assert gs[s] == g;
      GramsFrom(inp, r, m, gs);
    } else if s < |values| {
      GramsFrom(inp, r, m, gs + [g]);
    }
  }

  /** The slot is that of the m-gram, or the first that is free. */
  lemma SlotIs(inp: seq<Token>, values: seq<Value>, m: nat, start: nat, gs: seq<seq<Token>>) returns (s: nat)
    requires 0 < start && start + m <= |inp| && |values| == MAX_VALUES && |gs| <= MAX_VALUES
    requires Distinct(inp, values, m)
    requires forall v :: 0 <= v < |values| ==> (values[v].idx != 0 <==> v < |gs|)
    requires forall v :: 0 <= v < |gs| ==> gs[v] == Gram(inp, values[v].idx, m)
    ensures s <= |gs| && (if s < |gs| then gs[s] == Gram(inp, start, m) else Gram(inp, start, m) !in gs)
    ensures
      var r := CountOne(inp, values, m, start);
      if s == |values| then r == values
      else r == values[s := r[s]] && r[s].idx == if s < |gs| then values[s].idx else start
  {
    s := SlotFor(inp, values, m, start);
    forall v | 0 <= v < |gs| ensures Occurs(inp, values[v].idx, inp[start..start + m]) <==> gs[v] == Gram(inp, start, m) {}
    hide SlotFor, Occurs, Distinct;
    assert |gs| < |values| ==> values[|gs|].idx == 0;
  }

  lemma {:induction false} CountGrams(inp: seq<Token>, key: seq<Token>, m: nat, values: seq<Value>, i: nat, p: nat)
    requires p + |key| + m <= |inp| && |key| > 0 && Distinct(inp, values, m) && CountsCapped(values) && |values| == MAX_VALUES
    ensures Grams(inp, CountOf(inp, key, m, values, i, p), m) == Seen(inp, key, m, Grams(inp, values, m), i, p + 1)
    decreases p + 1 - i
  {
    hide Distinct, CountsCapped, CountOne, Grams, AddGram, Kept, AllOnce;
    if i <= p {
      if Occurs(inp, i, key) {
        var one := CountOne(inp, values, m, i + |key|);
        CountOneIs(inp, values, m, i + |key|);
        CountOneGrams(inp, values, m, i + |key|);
        KeptCapped(inp, values, one, m);
        CountGrams(inp, key, m, one, i + 1, p);
      } else {
        CountGrams(inp, key, m, values, i + 1, p);
      }
    }
  }

  lemma KeptCapped(inp: seq<Token>, values: seq<Value>, r: seq<Value>, m: nat)
    requires Kept(inp, values, r, m)
    ensures Distinct(inp, r, m) && CountsCapped(r) && |r| == |values|
  {}

  lemma {:induction false} NumsStay(inp: seq<Token>, key: seq<Token>, m: nat, values: seq<Value>, i: nat, p: nat)
    requires p + |key| + m <= |inp| && |key| > 0 && NumsOk(values)
    ensures NumsOk(CountOf(inp, key, m, values, i, p))
    decreases p + 1 - i
  {
    if i <= p {
      hide NumsOk, SlotFor, CountOne;
      if Occurs(inp, i, key) {
        NumsOne(inp, values, m, i + |key|);
        NumsStay(inp, key, m, CountOne(inp, values, m, i + |key|), i + 1, p);
      } else {
        NumsStay(inp, key, m, values, i + 1, p);
      }
    }
  }

  lemma NumsOne(inp: seq<Token>, values: seq<Value>, m: nat, start: nat)
    requires 0 < start && start + m <= |inp| && NumsOk(values)
    ensures NumsOk(CountOne(inp, values, m, start))
  {
    hide SlotFor;
  }

  /** A slot in use is stored under its m-gram. */
  lemma {:induction false} StoredAt(inp: seq<Token>, values: seq<Value>, m: nat, v: nat)
    requires Distinct(inp, values, m) && v < |values| && values[v].idx != 0
    ensures Stored(inp, values, m, Gram(inp, values[v].idx, m)) == values[v].num
    decreases |values|
  {
    if v > 0 {
      GramsTail(inp, values, m);
      assert values[1..][v - 1] == values[v];
      StoredAt(inp, values[1..], m, v - 1);
    }
  }

  lemma {:induction false} NotStored(inp: seq<Token>, values: seq<Value>, m: nat, g: seq<Token>)
    requires Distinct(inp, values, m) && forall v :: 0 <= v < |values| && values[v].idx != 0 ==> Gram(inp, values[v].idx, m) != g
    ensures Stored(inp, values, m, g) == 0
    decreases |values|
  {
    if values != [] {
      GramsTail(inp, values, m);
      forall v | 0 <= v < |values[1..]| && values[1..][v].idx != 0 ensures Gram(inp, values[1..][v].idx, m) != g {
        assert values[1..][v] == values[v + 1];
      }
      NotStored(inp, values[1..], m, g);
    }
  }

  /** After the count every slot in use stands at the total of its m-gram, as far as counts go. */
  lemma CountIsTotal(inp: seq<Token>, key: seq<Token>, m: nat, k: Key, p: nat, v: nat)
    requires p + |key| + m <= |inp| && |key| > 0 && WellCounted(inp, m, k) && v < MAX_VALUES
    ensures
      var r := CountOf(inp, key, m, k.values, k.stat, p);
      && Distinct(inp, r, m)
      && (r[v].idx != 0 ==> r[v].num == Capped(Total(inp, key, m, k, p, Gram(inp, r[v].idx, m))))
  {
    var r := CountOf(inp, key, m, k.values, k.stat, p);
    CountsAre(inp, key, m, k.values, k.stat, p);
    hide CountOf, Times;
    if r[v].idx != 0 {
      var g := Gram(inp, r[v].idx, m);
      assert CountedUp(inp, key, m, k.values[v], r[v], k.stat, p + 1);
      if k.values[v].idx != 0 {
        StoredAt(inp, k.values, m, v);
      } else {
        forall u | 0 <= u < MAX_VALUES && k.values[u].idx != 0 ensures Gram(inp, k.values[u].idx, m) != g {
          assert r[u].idx == k.values[u].idx;
          assert u < v || v < u;
        }
        NotStored(inp, k.values, m, g);
      }
    }
  }

  // ----- the value that is chosen -----

  /** The first of the most frequent values stands out when the values are not too mixed. */
  predicate StandsOut(values: seq<Value>, b: nat)
    requires b < |values|
  {
    forall v :: 0 <= v < |values| && v != b ==> values[v].num < values[b].num
  }

  lemma ChosenStandsOut(values: seq<Value>, b: nat)
    requires |values| == MAX_VALUES && b == FavouriteOf(values, MAX_VALUES) && NumsOk(values) && values[0].idx != 0
    requires Others(values, b) == 0 || values[b].num >= 2 * Others(values, b)
    ensures StandsOut(values, b) && values[b].idx != 0
  {
    hide FavouriteOf;
    assert values[0].num <= values[b].num;
  }

  /** After the count the chosen slot is that of an m-gram if and only if this is the most
      frequent one. */
  lemma ChosenIff(inp: seq<Token>, key: seq<Token>, m: nat, k: Key, p: nat, b: nat, g: seq<Token>)
    requires p + |key| + m <= |inp| && |key| > 0 && WellCounted(inp, m, k) && b < MAX_VALUES
    requires
      var r := CountOf(inp, key, m, k.values, k.stat, p);
      r[b].idx != 0 && StandsOut(r, b)
    ensures Distinct(inp, CountOf(inp, key, m, k.values, k.stat, p), m)
    ensures Gram(inp, CountOf(inp, key, m, k.values, k.stat, p)[b].idx, m) == g <==> MostFrequent(inp, key, m, k, p, g)
  {
    var r := CountOf(inp, key, m, k.values, k.stat, p);
    var seen := Seen(inp, key, m, Grams(inp, k.values, m), k.stat, p + 1);
    forall v | 0 <= v < MAX_VALUES
      ensures Distinct(inp, r, m) && (r[v].idx != 0 ==> r[v].num == Capped(Total(inp, key, m, k, p, Gram(inp, r[v].idx, m))))
    {
      CountIsTotal(inp, key, m, k, p, v);
    }
    CountGrams(inp, key, m, k.values, k.stat, p);
    GramsAre(inp, r, m);
    hide CountOf, Seen, Grams, Total, Distinct, WellCounted;
    var best := Gram(inp, r[b].idx, m);
    assert seen[b] == best;
    if best == g {
      forall h | h in seen ensures Total(inp, key, m, k, p, h) <= Total(inp, key, m, k, p, g) {
        var v :| 0 <= v < |seen| && seen[v] == h;
        assert r[v].idx != 0 && Gram(inp, r[v].idx, m) == h;
      }
    }
    if MostFrequent(inp, key, m, k, p, g) {
      var v :| 0 <= v < |seen| && seen[v] == g;
      assert r[v].idx != 0 && Gram(inp, r[v].idx, m) == g;
      assert Total(inp, key, m, k, p, best) <= Total(inp, key, m, k, p, g);
    }
  }

  // ----- the draft -----

  /** The key that the draft is for: the stored one, or a new one. */
  function KeyFor(m: nat, keys: seq<Key>, inp: seq<Token>, key: seq<Token>, p: nat): (k: Key) {
    var o := KeyIndex(inp, keys, key);
    if o < |keys| then keys[o] else NewKey(m, p)
  }

  lemma NewIsWellCounted(inp: seq<Token>, m: nat, p: nat)
    ensures WellCounted(inp, m, NewKey(m, p))
  {}

  lemma {:induction false} SeenSome(inp: seq<Token>, key: seq<Token>, m: nat, known: seq<seq<Token>>, lo: nat, hi: nat, q: nat)
    requires hi + |key| + m <= |inp| + 1
    requires known != [] || (lo <= q < hi && Occurs(inp, q, key))
    ensures Seen(inp, key, m, known, lo, hi) != []
    decreases hi - lo
  {
    if lo < hi {
      var next := if Occurs(inp, lo, key) then AddGram(known, Gram(inp, lo + |key|, m)) else known;
      assert known != [] ==> next != [];
      hide Occurs;
      SeenSome(inp, key, m, next, lo + 1, hi, q);
    }
  }

  /** The first slot is in use once the match has been counted. */
  lemma FirstInUse(inp: seq<Token>, key: seq<Token>, m: nat, k: Key, p: nat)
    requires p + |key| + m <= |inp| && |key| > 0 && WellCounted(inp, m, k) && Occurs(inp, p, key)
    ensures
      var r := CountOf(inp, key, m, k.values, k.stat, p);
      Distinct(inp, r, m) && NumsOk(r) && r[0].idx != 0
  {
    var r := CountOf(inp, key, m, k.values, k.stat, p);
    CountsAre(inp, key, m, k.values, k.stat, p);
    KeptCapped(inp, k.values, r, m);
    NumsStay(inp, key, m, k.values, k.stat, p);
    CountGrams(inp, key, m, k.values, k.stat, p);
    GramsAre(inp, k.values, m);
    GramsAre(inp, r, m);
    SeenSome(inp, key, m, Grams(inp, k.values, m), k.stat, p + 1, p);
    hide CountOf, Seen, Grams, Distinct, NumsOk, Occurs, AllCounted;
  }

  /** What was stored for the key of a draft, and which of its values was chosen. */
  lemma DraftedFor(c: Config, s: State, inp: seq<Token>, key: seq<Token>, p: nat)
    requires FourValues(s.keys) && |key| == c.n && p + c.Span() <= |inp| && !c.keyOnly && !s.created
    ensures
      var k := KeyFor(c.m, s.keys, inp, key, p);
      var (r, draft) := DraftFromOf(c, s, inp, key, p);
      r.created ==>
        var values := CountOf(inp, key, c.m, k.values, k.stat, p);
        && |values| == MAX_VALUES && r.keyIdx < |r.keys| && r.keys[r.keyIdx].values == values
        && r.valueIdx == FavouriteOf(values, MAX_VALUES)
        && (Others(values, r.valueIdx) == 0 || values[r.valueIdx].num >= 2 * Others(values, r.valueIdx))
        && draft == CopyOf(c, inp, p, values[r.valueIdx].accepted)
  {
    var o := KeyIndex(inp, s.keys, key);
    var hit := HitOf(c.m, s.keys, inp, key, p);
    var k := KeyFor(c.m, s.keys, inp, key, p);
    assert hit[o] == k.(num := Plus1(k.num));
    assert |k.values| == MAX_VALUES;
    hide HitOf, KeyIndex, CountOf, FavouriteOf, Others, CopyOf, FourValues, KeyFor;
  }

  /** The key a draft is for holds values that differ and counts that are counts. */
  predicate Counted(c: Config, s: State, inp: seq<Token>, key: seq<Token>, p: nat) {
    WellCounted(inp, c.m, KeyFor(c.m, s.keys, inp, key, p))
  }

  /** The m-gram behind the match is seen most often, as far as it was and will be counted. */
  predicate LastIsBest(c: Config, s: State, inp: seq<Token>, key: seq<Token>, p: nat)
    requires p + |key| + c.m <= |inp|
  {
    MostFrequent(inp, key, c.m, KeyFor(c.m, s.keys, inp, key, p), p, Gram(inp, p + |key|, c.m))
  }

  lemma DraftFromIff(c: Config, s: State, inp: seq<Token>, key: seq<Token>, p: nat, r: State, draft: seq<Token>)
    requires FourValues(s.keys) && |key| == c.n && c.n > 0 && p + c.Span() <= |inp| && !c.keyOnly && !s.created && Occurs(inp, p, key)
    requires Counted(c, s, inp, key, p) && DraftFromOf(c, s, inp, key, p) == (r, draft) && r.created && |draft| == c.m
    ensures HasChosen(r) && Chosen(r).idx + c.m <= |inp|
    ensures draft == Gram(inp, Chosen(r).idx, c.m) <==> LastIsBest(c, s, inp, key, p)
  {
    var k := KeyFor(c.m, s.keys, inp, key, p);
    var values := CountOf(inp, key, c.m, k.values, k.stat, p);
    DraftedFor(c, s, inp, key, p);
    hide DraftFromOf, KeyFor, CountOf, MostFrequent;
    FirstInUse(inp, key, c.m, k, p);
    hide WellCounted, NumsOk;
    ChosenStandsOut(values, r.valueIdx);
    hide StandsOut, FavouriteOf, Others;
    assert draft == Gram(inp, p + c.n, c.m);
    ChosenIff(inp, key, c.m, k, p, r.valueIdx, draft);
  }

  /** With values, a draft of all m tokens is the most frequent m-gram of its key if and only if
      no m-gram of the key was seen more often than the one behind the match, and that has a
      place among the four: stored counts and those from the last count to the match together. */
  lemma FavouriteDraftedIff(c: Config, s: State, inp: seq<Token>, sampled: Token, r: State, draft: seq<Token>, p: nat)
    requires Sound(c, s) && !c.keyOnly && |inp| >= 2 * c.n + c.m && s.idxLastCheck <= |inp|
    requires DraftOf(c, s, inp, sampled) == (r, draft) && SearchOf(c, s, inp, KeyNgram(c.n, inp, sampled)) == p
    requires Counted(c, s, inp, KeyNgram(c.n, inp, sampled), p) && r.created && |draft| == c.m
    ensures p + c.Span() <= |inp| && HasChosen(r) && Chosen(r).idx + c.m <= |inp|
    ensures draft == Gram(inp, Chosen(r).idx, c.m) <==> LastIsBest(c, s, inp, KeyNgram(c.n, inp, sampled), p)
  {
    var key := KeyNgram(c.n, inp, sampled);
    hide SearchOf, KeyNgram, DraftFromOf, AddHashesOf, Counted, LastIsBest, MapOk, KeysOk, FourValues;
    assert FourValues(s.keys) by { KeysAreFour(c, s); }
    if p != 0 {
      MatchDrafts(c, s, inp, sampled, key, p);
      SameKey(c, s, Prepared(c, s, inp), inp, key, p);
      DraftFromIff(c, Prepared(c, s, inp), inp, key, p, r, draft);
    }
  }

  lemma KeysAreFour(c: Config, s: State)
    requires Sound(c, s)
    ensures FourValues(s.keys)
  {}

  lemma SameKey(c: Config, s: State, s1: State, inp: seq<Token>, key: seq<Token>, p: nat)
    requires s1.keys == s.keys
    ensures Counted(c, s1, inp, key, p) == Counted(c, s, inp, key, p)
    ensures p + |key| + c.m <= |inp| ==> LastIsBest(c, s1, inp, key, p) == LastIsBest(c, s, inp, key, p)
  {
    hide KeyFor, WellCounted, MostFrequent;
  }

  /** The m-gram behind the match is among the first four that follow the key, and no other of
      them follows it more often up to the match. */
  predicate FirstIsBest(inp: seq<Token>, key: seq<Token>, m: nat, p: nat)
    requires p + |key| + m <= |inp|
  {
    var first, g := Seen(inp, key, m, [], 0, p + 1), Gram(inp, p + |key|, m);
    g in first && forall h :: h in first ==> Times(inp, key + h, 0, p + 1) <= Times(inp, key + g, 0, p + 1)
  }

  /** The first draft for a key. */
  lemma FirstDraftIff(c: Config, s: State, inp: seq<Token>, sampled: Token, r: State, draft: seq<Token>, p: nat)
    requires Sound(c, s) && !c.keyOnly && |inp| >= 2 * c.n + c.m && s.idxLastCheck <= |inp|
    requires DraftOf(c, s, inp, sampled) == (r, draft) && SearchOf(c, s, inp, KeyNgram(c.n, inp, sampled)) == p
    requires forall k :: k in s.keys ==> !Occurs(inp, k.idx, KeyNgram(c.n, inp, sampled))
    requires r.created && |draft| == c.m
    ensures p + c.Span() <= |inp| && HasChosen(r) && Chosen(r).idx + c.m <= |inp|
    ensures draft == Gram(inp, Chosen(r).idx, c.m) <==> FirstIsBest(inp, KeyNgram(c.n, inp, sampled), c.m, p)
  {
    hide SearchOf, KeyNgram, DraftOf, MapOk, KeysOk, Occurs, FirstIsBest, LastIsBest, Counted;
    NewKeyFor(c, s, inp, KeyNgram(c.n, inp, sampled), p);
    FavouriteDraftedIff(c, s, inp, sampled, r, draft, p);
  }

  lemma NewKeyFor(c: Config, s: State, inp: seq<Token>, key: seq<Token>, p: nat)
    requires forall k :: k in s.keys ==> !Occurs(inp, k.idx, key)
    ensures Counted(c, s, inp, key, p)
    ensures p + |key| + c.m <= |inp| ==> (LastIsBest(c, s, inp, key, p) <==> FirstIsBest(inp, key, c.m, p))
  {
    NoKey(inp, s.keys, key);
    NewIsWellCounted(inp, c.m, p);
    NothingStored(inp, key, c.m, p);
    hide KeyIndex, Occurs, WellCounted, Seen, Times, Grams, Total, NewKey;
  }

  lemma {:induction false} NoKey(inp: seq<Token>, keys: seq<Key>, key: seq<Token>)
    requires forall k :: k in keys ==> !Occurs(inp, k.idx, key)
    ensures KeyIndex(inp, keys, key) == |keys|
    decreases |keys|
  {
    hide Occurs;
    if keys != [] {
      assert keys[0] in keys;
      NoKey(inp, keys[1..], key);
    }
  }

  lemma NothingStored(inp: seq<Token>, key: seq<Token>, m: nat, p: nat)
    ensures Grams(inp, NewKey(m, p).values, m) == [] && NewKey(m, p).stat == 0
    ensures forall g :: Total(inp, key, m, NewKey(m, p), p, g) == Times(inp, key + g, 0, p + 1)
  {
    hide Times;
  }
}
