/** What the drafts of `common_ngram_map` and its statistics mean, and a run in which a value is
    kept that the history has lost. */
module NgramRuns {
  import opened Common
  import opened NgramSpec

  // ----- what is counted -----

  /** How many positions from lo up to and without hi `word` stands at. */
  function Times(inp: seq<Token>, word: seq<Token>, lo: nat, hi: nat): (k: nat)
    decreases hi - lo
  {
    if hi <= lo then 0 else (if Occurs(inp, lo, word) then 1 else 0) + Times(inp, word, lo + 1, hi)
  }

  function Gram(inp: seq<Token>, idx: nat, m: nat): (g: seq<Token>)
    requires idx + m <= |inp|
    ensures |g| == m
  {
    inp[idx..idx + m]
  }

  /** Used slots come first and hold different m-grams of the history. */
  predicate Distinct(inp: seq<Token>, values: seq<Value>, m: nat) {
    && (forall v :: 0 <= v < |values| && values[v].idx != 0 ==> values[v].idx + m <= |inp|)
    && (forall u, v :: 0 <= u < v < |values| && values[v].idx != 0 ==>
        values[u].idx != 0 && Gram(inp, values[u].idx, m) != Gram(inp, values[v].idx, m))
  }

  /** The count of a slot, where an unused one stands at 0. */
  function Count(value: Value): (k: nat) {
    if value.idx == 0 then 0 else value.num
  }

  function Capped(k: nat): (r: nat) {
    if k < MAX_VALUE_COUNT then k else MAX_VALUE_COUNT
  }

  predicate CountsCapped(values: seq<Value>) {
    forall v :: 0 <= v < |values| ==> values[v].num <= MAX_VALUE_COUNT
  }

  lemma OccursSplit(inp: seq<Token>, p: nat, key: seq<Token>, gram: seq<Token>)
    ensures Occurs(inp, p, key + gram) <==> Occurs(inp, p, key) && Occurs(inp, p + |key|, gram)
  {
    var word := key + gram;
    if p + |word| <= |inp| {
      assert inp[p..p + |word|] == inp[p..p + |key|] + inp[p + |key|..p + |key| + |gram|];
      assert inp[p..p + |word|][..|key|] == inp[p..p + |key|];
      assert word[..|key|] == key && word[|key|..] == gram;
    }
  }

  /** Slots in use stay, with different m-grams and bounded counts. */
  predicate Kept(inp: seq<Token>, values: seq<Value>, r: seq<Value>, m: nat) {
    && |r| == |values| && Distinct(inp, r, m) && CountsCapped(r)
    && forall v :: 0 <= v < |values| && values[v].idx != 0 ==> r[v].idx == values[v].idx
  }

  /** The m-gram at `start` was counted for slot v if the slot holds it now, and otherwise an
      earlier slot holds it, unless slot v is in use for another one. */
  predicate CountedOnce(inp: seq<Token>, was: Value, r: seq<Value>, m: nat, start: nat, v: nat)
    requires start + m <= |inp| && Distinct(inp, r, m) && v < |r|
  {
    if r[v].idx != 0 then
      Count(r[v]) == if Gram(inp, r[v].idx, m) == Gram(inp, start, m) then Plus1(Count(was)) else Count(was)
    else was.idx == 0 && exists u :: 0 <= u < v && r[u].idx != 0 && Gram(inp, r[u].idx, m) == Gram(inp, start, m)
  }

  lemma CountOneIs(inp: seq<Token>, values: seq<Value>, m: nat, start: nat)
    requires 0 < start && start + m <= |inp| && Distinct(inp, values, m) && CountsCapped(values)
    ensures Kept(inp, values, CountOne(inp, values, m, start), m)
    ensures AllOnce(inp, values, CountOne(inp, values, m, start), m, start)
  {
    var s := SlotFor(inp, values, m, start);
    var r := CountOne(inp, values, m, start);
    OneIsKept(inp, values, m, start, s, r);
    hide SlotFor, CountOne, Kept, Plus1;
    assert Distinct(inp, r, m) by { hide CountedOnce; KeptDistinct(inp, values, r, m); }
    forall v | 0 <= v < |values| ensures CountedOnce(inp, values[v], r, m, start, v) {
      OneIsCounted(inp, values, m, start, s, r, v);
    }
  }

  lemma KeptDistinct(inp: seq<Token>, values: seq<Value>, r: seq<Value>, m: nat)
    requires Kept(inp, values, r, m)
    ensures Distinct(inp, r, m)
  {}

  lemma OneIsKept(inp: seq<Token>, values: seq<Value>, m: nat, start: nat, s: nat, r: seq<Value>)
    requires 0 < start && start + m <= |inp| && Distinct(inp, values, m) && CountsCapped(values)
    requires s == SlotFor(inp, values, m, start) && r == CountOne(inp, values, m, start)
    ensures Kept(inp, values, r, m)
  {
    hide SlotFor;
    forall u, v | 0 <= u < v < |r| && r[v].idx != 0
      ensures r[u].idx != 0 && Gram(inp, r[u].idx, m) != Gram(inp, r[v].idx, m)
    {}
  }

  lemma OneIsCounted(inp: seq<Token>, values: seq<Value>, m: nat, start: nat, s: nat, r: seq<Value>, v: nat)
    requires 0 < start && start + m <= |inp| && Distinct(inp, values, m) && Distinct(inp, r, m) && v < |values|
    requires s == SlotFor(inp, values, m, start) && r == CountOne(inp, values, m, start)
    ensures CountedOnce(inp, values[v], r, m, start, v)
  {
    hide SlotFor;
    if s < |values| {
      assert r[s].idx != 0 && Gram(inp, r[s].idx, m) == Gram(inp, start, m);
    }
  }

  /** A slot in use has been counted up by the number of positions, from `lo` up to and without
      `hi`, where the key is followed by its m-gram. */
  predicate CountedUp(inp: seq<Token>, key: seq<Token>, m: nat, was: Value, now: Value, lo: nat, hi: nat) {
    now.idx != 0 && now.idx + m <= |inp| ==>
      Count(now) == Capped(Count(was) + Times(inp, key + Gram(inp, now.idx, m), lo, hi))
  }

  predicate AllCounted(inp: seq<Token>, key: seq<Token>, m: nat, values: seq<Value>, r: seq<Value>, lo: nat, hi: nat) {
    |r| == |values| && forall v :: 0 <= v < |values| ==> CountedUp(inp, key, m, values[v], r[v], lo, hi)
  }

  predicate AllOnce(inp: seq<Token>, values: seq<Value>, r: seq<Value>, m: nat, start: nat)
    requires start + m <= |inp| && Distinct(inp, r, m) && |r| == |values|
  {
    forall v :: 0 <= v < |values| ==> CountedOnce(inp, values[v], r, m, start, v)
  }

  /** One pass over the history counts every slot up to the match. */
  lemma {:induction false} CountsAre(inp: seq<Token>, key: seq<Token>, m: nat, values: seq<Value>, i: nat, p: nat)
    requires p + |key| + m <= |inp| && |key| > 0 && Distinct(inp, values, m) && CountsCapped(values)
    ensures Kept(inp, values, CountOf(inp, key, m, values, i, p), m)
    ensures AllCounted(inp, key, m, values, CountOf(inp, key, m, values, i, p), i, p + 1)
    decreases p + 1 - i
  {
    hide CountOne, Distinct, CountsCapped, AllCounted, AllOnce;
    var r := CountOf(inp, key, m, values, i, p);
    if i > p {
      CountedNone(inp, key, m, values, i, p + 1);
    } else if Occurs(inp, i, key) {
      var one := CountOne(inp, values, m, i + |key|);
      CountOneIs(inp, values, m, i + |key|);
      CountsAre(inp, key, m, one, i + 1, p);
      hide CountOf, Occurs;
      AllCountedHere(inp, key, m, values, one, r, i, p);
    } else {
      CountsAre(inp, key, m, values, i + 1, p);
      hide CountOf, Occurs;
      AllCountedElsewhere(inp, key, m, values, r, i, p + 1);
    }
  }

  lemma AllCountedHere(inp: seq<Token>, key: seq<Token>, m: nat, values: seq<Value>, one: seq<Value>, r: seq<Value>, i: nat, p: nat)
    requires i <= p && p + |key| + m <= |inp| && Occurs(inp, i, key)
    requires Kept(inp, values, one, m) && Kept(inp, one, r, m) && AllOnce(inp, values, one, m, i + |key|)
    requires AllCounted(inp, key, m, one, r, i + 1, p + 1)
    ensures AllCounted(inp, key, m, values, r, i, p + 1)
  {
    hide CountedUp, CountedOnce, Distinct, CountsCapped, Occurs;
    forall v | 0 <= v < |values|
      ensures CountedUp(inp, key, m, values[v], r[v], i, p + 1)
    {
      CountedHere(inp, key, m, values[v], one, r, i, p, v);
    }
  }

  lemma AllCountedElsewhere(inp: seq<Token>, key: seq<Token>, m: nat, values: seq<Value>, r: seq<Value>, lo: nat, hi: nat)
    requires lo < hi && !Occurs(inp, lo, key) && AllCounted(inp, key, m, values, r, lo + 1, hi)
    ensures AllCounted(inp, key, m, values, r, lo, hi)
  {
    hide CountedUp, Occurs;
    forall v | 0 <= v < |values|
      ensures CountedUp(inp, key, m, values[v], r[v], lo, hi)
    {
      CountedElsewhere(inp, key, m, values[v], r[v], lo, hi);
    }
  }

  lemma CountedNone(inp: seq<Token>, key: seq<Token>, m: nat, values: seq<Value>, lo: nat, hi: nat)
    requires hi <= lo && CountsCapped(values)
    ensures AllCounted(inp, key, m, values, values, lo, hi)
  {}

  lemma CountedElsewhere(inp: seq<Token>, key: seq<Token>, m: nat, was: Value, now: Value, lo: nat, hi: nat)
    requires lo < hi && !Occurs(inp, lo, key) && CountedUp(inp, key, m, was, now, lo + 1, hi)
    ensures CountedUp(inp, key, m, was, now, lo, hi)
  {
    if now.idx != 0 && now.idx + m <= |inp| {
      OccursSplit(inp, lo, key, Gram(inp, now.idx, m));
    }
  }

  /** The step of `CountsAre` for one slot, at a position where the key occurs. */
  lemma CountedHere(inp: seq<Token>, key: seq<Token>, m: nat, was: Value, one: seq<Value>, r: seq<Value>, i: nat, p: nat, v: nat)
    requires i <= p && p + |key| + m <= |inp| && v < |r| && Occurs(inp, i, key)
    requires Distinct(inp, one, m) && Kept(inp, one, r, m) && CountedOnce(inp, was, one, m, i + |key|, v)
    requires CountedUp(inp, key, m, one[v], r[v], i + 1, p + 1)
    ensures CountedUp(inp, key, m, was, r[v], i, p + 1)
  {
    if r[v].idx != 0 {
      var gram := Gram(inp, r[v].idx, m);
      OccursSplit(inp, i, key, gram);
      assert Occurs(inp, i + |key|, gram) <==> gram == Gram(inp, i + |key|, m);
      if one[v].idx == 0 {
        var u :| 0 <= u < v && one[u].idx != 0 && Gram(inp, one[u].idx, m) == Gram(inp, i + |key|, m);
        assert Gram(inp, r[u].idx, m) != gram;
      }
    }
  }

  predicate Unused(values: seq<Value>) {
    forall v :: 0 <= v < |values| ==> values[v].idx == 0 && values[v].num == 0
  }

  /** The first time the values of a key are counted the counts are the true ones: how often, up
      to the match, the key is followed by the m-gram of the slot. */
  lemma FirstCountTrue(inp: seq<Token>, key: seq<Token>, m: nat, values: seq<Value>, p: nat)
    requires p + |key| + m <= |inp| && |key| > 0 && Unused(values)
    ensures var r := CountOf(inp, key, m, values, 0, p);
      && Distinct(inp, r, m)
      && forall v :: 0 <= v < |values| && r[v].idx != 0 ==>
           r[v].num == Capped(Times(inp, key + Gram(inp, r[v].idx, m), 0, p + 1))
  {
    CountsAre(inp, key, m, values, 0, p);
  }

  lemma {:induction false} TimesSplit(inp: seq<Token>, word: seq<Token>, lo: nat, mid: nat, hi: nat)
    requires lo <= mid <= hi
    ensures Times(inp, word, lo, hi) == Times(inp, word, lo, mid) + Times(inp, word, mid, hi)
    decreases mid - lo
  {
    if lo < mid {
      TimesSplit(inp, word, lo + 1, mid, hi);
    }
  }

  /** Every later count starts at the match of the one before, and counts that again: a true
      count stays true if and only if the slot does not hold the m-gram behind that match,
      unless it has reached the greatest count. */
  lemma RecountIff(inp: seq<Token>, key: seq<Token>, m: nat, values: seq<Value>, stat: nat, p: nat, v: nat)
    requires stat <= p && p + |key| + m <= |inp| && |key| > 0 && Distinct(inp, values, m) && CountsCapped(values)
    requires Occurs(inp, stat, key) && v < |values| && values[v].idx != 0
    requires var gram := Gram(inp, values[v].idx, m);
      values[v].num == Times(inp, key + gram, 0, stat + 1) && Times(inp, key + gram, 0, p + 1) < MAX_VALUE_COUNT
    ensures var gram := Gram(inp, values[v].idx, m);
      CountOf(inp, key, m, values, stat, p)[v].num == Times(inp, key + gram, 0, p + 1) <==> gram != Gram(inp, stat + |key|, m)
  {
    var gram := Gram(inp, values[v].idx, m);
    var word := key + gram;
    CountsAre(inp, key, m, values, stat, p);
    TimesSplit(inp, word, 0, stat, stat + 1);
    TimesSplit(inp, word, 0, stat, p + 1);
    OccursSplit(inp, stat, key, gram);
    assert Times(inp, word, stat, stat + 1) == if Occurs(inp, stat, word) then 1 else 0;
    hide Times, CountOf, Distinct;
    assert Occurs(inp, stat + |key|, gram) <==> gram == Gram(inp, stat + |key|, m);
    assert CountedUp(inp, key, m, values[v], CountOf(inp, key, m, values, stat, p)[v], stat, p + 1);
  }

  // ----- what is drafted -----

  /** A draft for the key n-gram at `p`: what stands behind that occurrence, as many tokens as the
      chosen value was accepted last time and at most m, under a key that reads as the n-gram. */
  predicate IsDraft(c: Config, r: State, inp: seq<Token>, key: seq<Token>, p: nat, draft: seq<Token>) {
    && r.keyIdx < |r.keys| && r.valueIdx < MAX_VALUES == |r.keys[r.keyIdx].values|
    && 0 < p && Occurs(inp, p, key + draft) && Occurs(inp, r.keys[r.keyIdx].idx, key)
    && |draft| == Clamp(c.m, r.keys[r.keyIdx].values[r.valueIdx].accepted)
  }

  lemma DraftFromIs(c: Config, s: State, inp: seq<Token>, key: seq<Token>, p: nat)
    requires FourValues(s.keys) && |key| == c.n && p + c.Span() <= |inp| && 0 < p && Occurs(inp, p, key) && !s.created
    ensures var (r, draft) := DraftFromOf(c, s, inp, key, p);
      && (draft != [] ==> r.created)
      && (r.created ==> IsDraft(c, r, inp, key, p, draft))
      && (c.keyOnly ==> r.created)
  {
    var (r, draft) := DraftFromOf(c, s, inp, key, p);
    var hit := HitOf(c.m, s.keys, inp, key, p);
    var o := KeyIndex(inp, s.keys, key);
    assert Occurs(inp, hit[o].idx, key);
    assert FourValues(hit);
    hide HitOf, KeyIndex, CountOf, FavouriteOf, Others, Occurs, FourValues;
    assert !c.keyOnly ==> FourValues(UpdateOf(c, hit, inp, key, o, p));
    if r.created {
      assert draft == CopyOf(c, inp, p, r.keys[r.keyIdx].values[r.valueIdx].accepted);
      Behind(c, inp, key, p, r.keys[r.keyIdx].values[r.valueIdx].accepted);
    }
  }

  lemma Behind(c: Config, inp: seq<Token>, key: seq<Token>, p: nat, accepted: int)
    requires |key| == c.n && p + c.Span() <= |inp| && Occurs(inp, p, key)
    ensures Occurs(inp, p, key + CopyOf(c, inp, p, accepted))
  {
    OccursSplit(inp, p, key, CopyOf(c, inp, p, accepted));
  }

  /** Every draft is one for the last n tokens, at the match that the search finds. Without values
      a match always makes a draft. */
  lemma DraftIs(c: Config, s: State, inp: seq<Token>, sampled: Token)
    requires Sound(c, s) && (|inp| >= 2 * c.n + c.m ==> s.idxLastCheck <= |inp|)
    ensures var (r, draft) := DraftOf(c, s, inp, sampled);
      && (draft != [] ==> r.created)
      && (r.created ==> |inp| >= 2 * c.n + c.m)
      && (|inp| >= 2 * c.n + c.m ==>
          var key := KeyNgram(c.n, inp, sampled);
          var p := SearchOf(c, s, inp, key);
          (r.created ==> IsDraft(c, r, inp, key, p, draft)) && (c.keyOnly && p != 0 ==> r.created))
  {
    if |inp| >= 2 * c.n + c.m {
      var key := KeyNgram(c.n, inp, sampled);
      var p := SearchOf(c, s, inp, key);
      hide SearchOf, KeyNgram, DraftFromOf, IsDraft, Occurs;
      var s1 := AddHashesOf(c, s.(created := false, keyIdx := 0, valueIdx := 0).(idxLastCheck := |inp|), inp);
      assert !s1.created;
      if p != 0 {
        DraftFromIs(c, s1, inp, key, p);
      }
    }
  }

  /** A draft was made, for a value in use. */
  predicate HasChosen(r: State) {
    && r.created && r.keyIdx < |r.keys| && r.valueIdx < |r.keys[r.keyIdx].values|
    && r.keys[r.keyIdx].values[r.valueIdx].idx != 0
  }

  function Chosen(r: State): (v: Value)
    requires HasChosen(r)
  {
    r.keys[r.keyIdx].values[r.valueIdx]
  }

  lemma {:induction false} SkipTo(inp: seq<Token>, key: seq<Token>, m: nat, values: seq<Value>, i: nat, j: nat, p: nat)
    requires p + |key| + m <= |inp| && i <= j <= p && forall q :: i <= q < j ==> !Occurs(inp, q, key)
    ensures CountOf(inp, key, m, values, i, p) == CountOf(inp, key, m, values, j, p)
    decreases j - i
  {
    if i < j {
      SkipTo(inp, key, m, values, i + 1, j, p);
    }
  }

  lemma CountNext(inp: seq<Token>, key: seq<Token>, m: nat, values: seq<Value>, i: nat, p: nat)
    requires p + |key| + m <= |inp| && i <= p && Occurs(inp, i, key)
    ensures CountOf(inp, key, m, values, i, p) == CountOf(inp, key, m, CountOne(inp, values, m, i + |key|), i + 1, p)
  {}

  lemma CountDone(inp: seq<Token>, key: seq<Token>, m: nat, values: seq<Value>, i: nat, p: nat)
    requires p + |key| + m <= |inp| && i > p
    ensures CountOf(inp, key, m, values, i, p) == values
  {}

  const ONE_ONE := Config(1, 1, false, 1)
  const TWICE_SEEN: seq<Token> := [9, 7, 1, 7, 1, 7, 2, 9]

  /** An instance: token 7 was followed by 1 twice and by 2 once, the value chosen is 1, and 2 is
      drafted. */
  lemma DraftsAnotherValue(c: Config, s: State, inp: seq<Token>)
    requires c == ONE_ONE && s == Start(HASH_MAP_SIZE) && inp == TWICE_SEEN
    ensures var (r, draft) := DraftOf(c, s, inp, 7);
      HasChosen(r) && Chosen(r).idx == 2 && Chosen(r).num == 2 && Gram(inp, Chosen(r).idx, 1) == [1] && draft == [2]
  {
    hide SearchOf, KeyNgram, AddHashesOf, DraftFromOf, DraftOf, Start;
    FoundAtFive(c, s, inp);
    MatchDrafts(c, s, inp, 7, [7], 5);
    TwiceDrafted(c, Prepared(c, s, inp), inp);
    assert inp[2..3] == [1] && inp[6..7] == [2];
  }

  /** The state in which a match is turned into a draft. */
  function Prepared(c: Config, s: State, inp: seq<Token>): (r: State)
    requires c.n > 0 && |inp| >= c.Span() && s.sizeLastBegin <= |inp|
    ensures r.keys == s.keys && r.sizeLastBegin == s.sizeLastBegin && r.idxLastCheck == |inp|
  {
    AddHashesOf(c, s.(created := false, keyIdx := 0, valueIdx := 0).(idxLastCheck := |inp|), inp)
  }

  lemma MatchDrafts(c: Config, s: State, inp: seq<Token>, sampled: Token, key: seq<Token>, p: nat)
    requires c.n > 0 && FourValues(s.keys) && |inp| >= 2 * c.n + c.m && s.sizeLastBegin <= |inp|
    requires KeyNgram(c.n, inp, sampled) == key && SearchOf(c, s, inp, key) == p != 0
    ensures DraftOf(c, s, inp, sampled) == DraftFromOf(c, Prepared(c, s, inp), inp, key, p)
  {
    hide SearchOf, KeyNgram, AddHashesOf, DraftFromOf;
  }

  lemma FoundAtFive(c: Config, s: State, inp: seq<Token>)
    requires c == ONE_ONE && s == Start(HASH_MAP_SIZE) && inp == TWICE_SEEN
    ensures s.keys == [] && s.sizeLastBegin == 0 && KeyNgram(1, inp, 7) == [7] && SearchOf(c, s, inp, [7]) == 5
  {
    assert Occurs(inp, 5, [7]);
    hide Hash;
    assert LastIn(inp, [7], 5, 0) == 5;
  }

  lemma TwiceDrafted(c: Config, s: State, inp: seq<Token>)
    requires c == ONE_ONE && inp == TWICE_SEEN && s.keys == []
    ensures var (r, draft) := DraftFromOf(c, s, inp, [7], 5);
      && r == s.(keys := r.keys, created := true, keyIdx := 0, valueIdx := 0)
      && |r.keys| == 1 && |r.keys[0].values| == 4 && r.keys[0].values[0] == Value(2, 2, 1) && r.keys[0].values[1] == Value(6, 1, 1)
      && r.keys[0].values[2].idx == r.keys[0].values[3].idx == 0
      && draft == inp[6..7]
  {
    var key := [7];
    var none := Value(0, 0, 1);
    var unused := [none, none, none, none];
    var counted := [Value(2, 2, 1), Value(6, 1, 1), none, none];
    FirstHit(1, inp, key, 5);
    assert NewKey(1, 5).values == unused;
    TwiceCounted(inp, key, unused, counted);
    hide CountOf, HitOf, KeyIndex, NewKey;
    DraftsFirst(c, s, inp, key, 5, [NewKey(1, 5).(num := 1)], counted);
  }

  lemma FirstHit(m: nat, inp: seq<Token>, key: seq<Token>, p: nat)
    ensures KeyIndex(inp, [], key) == 0 && HitOf(m, [], inp, key, p) == [NewKey(m, p).(num := 1)]
  {}

  /** With one key and a clearly most frequent first value, that value is chosen. */
  lemma DraftsFirst(c: Config, s: State, inp: seq<Token>, key: seq<Token>, p: nat, hit: seq<Key>, values: seq<Value>)
    requires FourValues(s.keys) && !c.keyOnly && |key| == c.n && p + c.Span() <= |inp|
    requires KeyIndex(inp, s.keys, key) == 0 && hit == HitOf(c.m, s.keys, inp, key, p)
    requires c.minHits <= hit[0].num && CountOf(inp, key, c.m, hit[0].values, hit[0].stat, p) == values && |values| == MAX_VALUES
    requires values[1].num + values[2].num + values[3].num < values[0].num && 2 * Others(values, 0) <= values[0].num
    ensures DraftFromOf(c, s, inp, key, p)
            == (s.(keys := hit[0 := hit[0].(values := values, stat := p)], created := true, keyIdx := 0, valueIdx := 0),
                CopyOf(c, inp, p, values[0].accepted))
  {
    hide CountOf, HitOf, FavouriteOf, KeyIndex, CopyOf;
    assert FavouriteOf(values, MAX_VALUES) == 0;
  }

  lemma TwiceCounted(inp: seq<Token>, key: seq<Token>, unused: seq<Value>, counted: seq<Value>)
    requires inp == TWICE_SEEN && key == [7]
    requires unused == [Value(0, 0, 1), Value(0, 0, 1), Value(0, 0, 1), Value(0, 0, 1)]
    requires counted == [Value(2, 2, 1), Value(6, 1, 1), Value(0, 0, 1), Value(0, 0, 1)]
    ensures CountOf(inp, key, 1, unused, 0, 5) == counted
  {
    hide CountOne, SlotFor, CountOf;
    var one := unused[0 := Value(2, 1, 1)];
    var two := unused[0 := Value(2, 2, 1)];
    forall i: nat | i < 6
      ensures Occurs(inp, i, key) <==> inp[i] == 7
    {
      assert inp[i..i + 1] == [inp[i]];
    }
    assert Occurs(inp, 2, inp[4..5]) && !Occurs(inp, 2, inp[6..7]) by {
      assert inp[2..3] == inp[4..5] == [1] && inp[6..7] == [2];
    }
    hide Occurs;
    CountsInto(inp, unused, 1, 2, 0);
    CountsInto(inp, one, 1, 4, 0);
    CountsInto(inp, two, 1, 6, 1);
    assert CountOne(inp, unused, 1, 2) == one;
    assert CountOne(inp, one, 1, 4) == two;
    assert CountOne(inp, two, 1, 6) == counted;
    SkipTo(inp, key, 1, unused, 0, 1, 5);
    CountNext(inp, key, 1, unused, 1, 5);
    SkipTo(inp, key, 1, one, 2, 3, 5);
    CountNext(inp, key, 1, one, 3, 5);
    SkipTo(inp, key, 1, two, 4, 5, 5);
    CountNext(inp, key, 1, two, 5, 5);
    CountDone(inp, key, 1, counted, 6, 5);
  }

  /** The m-gram at `start` is counted for slot v when the earlier slots hold others. */
  lemma CountsInto(inp: seq<Token>, values: seq<Value>, m: nat, start: nat, v: nat)
    requires start + m <= |inp| && v < |values|
    requires forall u :: 0 <= u < v ==> values[u].idx != 0 && !Occurs(inp, values[u].idx, inp[start..start + m])
    requires values[v].idx == 0 || Occurs(inp, values[v].idx, inp[start..start + m])
    ensures CountOne(inp, values, m, start) ==
      var value := if values[v].idx == 0 then Value(start, 0, ToInt16(m)) else values[v];
      values[v := value.(num := Plus1(value.num))]
  {
    hide SlotFor, Occurs;
  }

  // ----- a history that comes back shorter -----

  const TWO_TWO := Config(2, 2, false, 1)
  const AT_FIRST: seq<Token> := [9, 1, 34383, 0, 0, 9, 9, 1]
  const LATER: seq<Token> := [9, 1, 34383, 0, 0, 9, 9, 1, 34383, 9, 9, 1, 34383, 9, 9, 1]

  predicate Reads(inp: seq<Token>, p: nat, a: Token, b: Token) {
    p + 2 <= |inp| && inp[p] == a && inp[p + 1] == b
  }

  lemma OccursPair(inp: seq<Token>, p: nat, a: Token, b: Token)
    ensures Occurs(inp, p, [a, b]) <==> Reads(inp, p, a, b)
  {
    if p + 2 <= |inp| {
      assert inp[p..p + 2] == [inp[p], inp[p + 1]];
    }
  }

  lemma HashPair(inp: seq<Token>, p: nat)
    requires p + 2 <= |inp|
    ensures Reads(inp, p, 0, 0) ==> Slot(2, inp, p, HASH_MAP_SIZE) == 0
    ensures Reads(inp, p, 1, 34383) ==> Slot(2, inp, p, HASH_MAP_SIZE) == 0
  {
    assert Hash(inp, p, 1) == (Hash(inp, p, 0) * 2654435761 + inp[p]) % 0x1_0000_0000;
    assert Hash(inp, p, 2) == (Hash(inp, p, 1) * 2654435761 + inp[p + 1]) % 0x1_0000_0000;
  }

  /** Entries stay once they are set. */
  lemma {:induction false} AddRangeKeeps(n: nat, keyMap: seq<nat>, inp: seq<Token>, hi: nat, lo: nat, h: nat)
    requires |keyMap| > 0 && hi + n <= |inp| && h < |keyMap| && keyMap[h] != 0
    ensures AddRangeOf(n, keyMap, inp, hi, lo)[h] == keyMap[h]
    decreases hi
  {
    if hi > lo {
      var g := Slot(n, inp, hi, |keyMap|);
      AddRangeKeeps(n, if keyMap[g] == 0 then keyMap[g := hi] else keyMap, inp, hi - 1, lo, h);
    }
  }

  lemma {:induction false} NoneIn(inp: seq<Token>, key: seq<Token>, hi: nat, p: nat, lo: nat)
    requires p <= hi && forall q :: p < q <= hi ==> !Occurs(inp, q, key)
    ensures LastIn(inp, key, hi, lo) == if p > lo && Occurs(inp, p, key) then p else LastIn(inp, key, p, lo)
    decreases hi
  {
    if hi > p && hi > lo {
      NoneIn(inp, key, hi - 1, p, lo);
    }
  }

  lemma PairsOf(inp: seq<Token>, key: seq<Token>)
    requires key == [1, 34383]
    ensures forall q: nat :: Occurs(inp, q, key) <==> Reads(inp, q, 1, 34383)
  {
    forall q: nat
      ensures Occurs(inp, q, key) <==> Reads(inp, q, 1, 34383)
    {
      OccursPair(inp, q, 1, 34383);
    }
  }

  /** The first draft: the pair (1, 34383) is found at 1 and becomes a key, while (0, 0), which
      hashes to the same slot, takes that slot. */
  lemma FirstDraft(c: Config, s: State, inp: seq<Token>)
    requires c == TWO_TWO && s == Start(HASH_MAP_SIZE) && inp == AT_FIRST
    ensures var r := DraftOf(c, s, inp, 34383).0;
      && |r.keys| == 1 && r.keys[0].idx == 1 && r.keys[0].stat == 1 && r.keys[0].num == 1
      && r.keys[0].values == [Value(3, 1, 2), Value(0, 0, 2), Value(0, 0, 2), Value(0, 0, 2)]
      && r.sizeLastBegin == 0 && r.idxLastCheck == 8
      && |r.keyMap| == HASH_MAP_SIZE && r.keyMap[0] == 3 && r.keyMapLastIdx == 3
  {
    var key := [1, 34383];
    hide SearchOf, KeyNgram, AddHashesOf, DraftFromOf, DraftOf, CountOf, FourValues;
    FirstSearch(c, s, inp, key);
    MatchDrafts(c, s, inp, 34383, key, 1);
    FirstHashes(c, s, inp);
    var none := Value(0, 0, 2);
    var values := [Value(3, 1, 2), none, none, none];
    FirstHit(2, inp, key, 1);
    FirstCount(inp, key, NewKey(2, 1).values, values);
    hide HitOf, KeyIndex, NewKey;
    DraftsFirst(c, Prepared(c, s, inp), inp, key, 1, [NewKey(2, 1).(num := 1)], values);
  }

  lemma FirstSearch(c: Config, s: State, inp: seq<Token>, key: seq<Token>)
    requires c == TWO_TWO && s == Start(HASH_MAP_SIZE) && inp == AT_FIRST && key == [1, 34383]
    ensures s.keys == [] && FourValues(s.keys) && s.sizeLastBegin == 0
    ensures KeyNgram(2, inp, 34383) == key && SearchOf(c, s, inp, key) == 1
  {
    PairsOf(inp, key);
    hide Occurs, Hash, LastIn;
    NoneIn(inp, key, 3, 1, 0);
  }

  lemma FirstHashes(c: Config, s: State, inp: seq<Token>)
    requires c == TWO_TWO && s == Start(HASH_MAP_SIZE) && inp == AT_FIRST
    ensures var r := Prepared(c, s, inp);
      |r.keyMap| == HASH_MAP_SIZE && r.keyMap[0] == 3 && r.keyMapLastIdx == 3
  {
    HashPair(inp, 3);
    AddRangeKeeps(2, s.keyMap[0 := 3], inp, 2, 0, 0);
    hide Hash, Slot;
    assert AddRangeOf(2, s.keyMap, inp, 3, 0) == AddRangeOf(2, s.keyMap[0 := 3], inp, 2, 0);
  }

  lemma FirstCount(inp: seq<Token>, key: seq<Token>, unused: seq<Value>, values: seq<Value>)
    requires inp == AT_FIRST && key == [1, 34383] && unused == NewKey(2, 1).values
    requires values == [Value(3, 1, 2), Value(0, 0, 2), Value(0, 0, 2), Value(0, 0, 2)]
    ensures CountOf(inp, key, 2, unused, 0, 1) == values
  {
    PairsOf(inp, key);
    hide Occurs, CountOf, CountOne, SlotFor;
    CountsInto(inp, unused, 2, 3, 0);
    assert CountOne(inp, unused, 2, 3) == values;
    SkipTo(inp, key, 2, unused, 0, 1, 1);
    CountNext(inp, key, 2, unused, 1, 1);
    CountDone(inp, key, 2, values, 2, 1);
  }

  /** What the first draft leaves, when a generation starts with ten tokens then. */
  predicate StartedAtTen(s: State) {
    && |s.keys| == 1 && s.keys[0].idx == 1 && s.keys[0].stat == 1 && s.keys[0].num == 1
    && s.keys[0].values == [Value(3, 1, 2), Value(0, 0, 2), Value(0, 0, 2), Value(0, 0, 2)]
    && s.sizeLastBegin == s.idxLastCheck == 10
    && |s.keyMap| == HASH_MAP_SIZE && s.keyMap[0] == 3 && s.keyMapLastIdx == 3
  }

  const TWO_VALUES: seq<Value> := [Value(3, 2, 2), Value(9, 2, 2), Value(0, 0, 2), Value(0, 0, 2)]

  /** The second draft: the hash map knows the pair only under (0, 0), so the search goes on to the
      part behind the last start and finds it at 11. The occurrence at 7 is counted on the way, with
      a value that starts at 9. */
  lemma SecondDraft(c: Config, s: State, inp: seq<Token>)
    requires c == TWO_TWO && StartedAtTen(s) && inp == LATER
    ensures FourValues(s.keys)
    ensures var r := DraftOf(c, s, inp, 34383).0;
      |r.keys| == 1 && r.keys[0].idx == 1 && r.keys[0].values == TWO_VALUES && r.sizeLastBegin == 10 && r.idxLastCheck == 16
  {
    var key := [1, 34383];
    hide SearchOf, KeyNgram, AddHashesOf, DraftFromOf, DraftOf, CountOf;
    SecondSearch(c, s, inp, key);
    MatchDrafts(c, s, inp, 34383, key, 11);
    SecondCount(inp, key, s.keys[0].values, TWO_VALUES);
    PairsOf(inp, key);
    assert KeyIndex(inp, s.keys, key) == 0;
    hide KeyIndex, Occurs;
    MixedDrafts(c, Prepared(c, s, inp), inp, key, 11, TWO_VALUES);
  }

  /** With one key and values that are too mixed there is no draft. */
  lemma MixedDrafts(c: Config, s: State, inp: seq<Token>, key: seq<Token>, p: nat, values: seq<Value>)
    requires |s.keys| == 1 && FourValues(s.keys) && !c.keyOnly && |key| == c.n && p + c.Span() <= |inp|
    requires KeyIndex(inp, s.keys, key) == 0 && s.keys[0].num == 1 == c.minHits
    requires CountOf(inp, key, c.m, s.keys[0].values, s.keys[0].stat, p) == values && |values| == MAX_VALUES
    requires 0 < values[0].num == values[1].num && values[2].num == values[3].num == 0
    ensures DraftFromOf(c, s, inp, key, p) == (s.(keys := [s.keys[0].(num := 2, values := values, stat := p)]), [])
  {
    hide CountOf, FavouriteOf, KeyIndex;
    var hit := HitOf(c.m, s.keys, inp, key, p);
    assert hit == [s.keys[0].(num := 2)];
    assert UpdateOf(c, hit, inp, key, 0, p) == [s.keys[0].(num := 2, values := values, stat := p)];
    assert FavouriteOf(values, MAX_VALUES) == 0;
  }

  lemma SecondSearch(c: Config, s: State, inp: seq<Token>, key: seq<Token>)
    requires c == TWO_TWO && StartedAtTen(s) && inp == LATER && key == [1, 34383]
    ensures FourValues(s.keys) && KeyNgram(2, inp, 34383) == key && SearchOf(c, s, inp, key) == 11
  {
    PairsOf(inp, key);
    HashPair(key, 0);
    hide Occurs, Hash, LastIn, Slot;
    assert LookUpOf(c, s.keyMap, inp, key) == 0;
    hide LookUpOf;
    NoneIn(inp, key, 5, 3, 3);
    LastInNone(inp, key, 3, 3);
    NoneIn(inp, key, 11, 11, 10);
  }

  lemma LastInNone(inp: seq<Token>, key: seq<Token>, hi: nat, lo: nat)
    requires hi <= lo
    ensures LastIn(inp, key, hi, lo) == 0
  {}

  lemma SecondCount(inp: seq<Token>, key: seq<Token>, first: seq<Value>, values: seq<Value>)
    requires inp == LATER && key == [1, 34383] && values == TWO_VALUES
    requires first == [Value(3, 1, 2), Value(0, 0, 2), Value(0, 0, 2), Value(0, 0, 2)]
    ensures CountOf(inp, key, 2, first, 1, 11) == values
  {
    hide CountOf, CountOne, SlotFor;
    PairsOf(inp, key);
    var one := first[0 := Value(3, 2, 2)];
    var two := one[1 := Value(9, 1, 2)];
    SecondGrams(inp);
    hide Occurs;
    CountsInto(inp, first, 2, 3, 0);
    CountsInto(inp, one, 2, 9, 1);
    CountsInto(inp, two, 2, 13, 1);
    assert CountOne(inp, first, 2, 3) == one;
    assert CountOne(inp, one, 2, 9) == two;
    assert CountOne(inp, two, 2, 13) == values;
    CountNext(inp, key, 2, first, 1, 11);
    SkipTo(inp, key, 2, one, 2, 7, 11);
    CountNext(inp, key, 2, one, 7, 11);
    SkipTo(inp, key, 2, two, 8, 11, 11);
    CountNext(inp, key, 2, two, 11, 11);
    CountDone(inp, key, 2, values, 12, 11);
  }

  lemma SecondGrams(inp: seq<Token>)
    requires inp == LATER
    ensures Occurs(inp, 3, inp[3..5]) && !Occurs(inp, 3, inp[9..11]) && !Occurs(inp, 3, inp[13..15]) && Occurs(inp, 9, inp[13..15])
  {
    assert inp[3] == inp[4] == 0 && inp[9] == inp[10] == inp[13] == inp[14] == 9;
    assert inp[3..5] == [inp[3], inp[4]] && inp[9..11] == [inp[9], inp[10]] && inp[13..15] == [inp[13], inp[14]];
    OccursPair(inp, 3, 0, 0);
    OccursPair(inp, 3, 9, 9);
    OccursPair(inp, 9, 9, 9);
  }

  /** When the history comes back with the ten tokens it had at the last start, the value at 9 is
      kept, and its second token is gone. */
  lemma ValueKept(c: Config, s: State)
    requires c == TWO_TWO && |s.keys| == 1 && s.keys[0].idx == 1 && s.keys[0].values == TWO_VALUES
    requires s.sizeLastBegin == 10 && s.idxLastCheck == 16
    ensures FourValues(s.keys)
    ensures var r := BeginOf(c, s, 10);
      r.keys == s.keys && r.keys[0].values[1].idx != 0 && r.keys[0].values[1].idx + c.m > 10
  {
    OneKeyStays(c, s.keys[0], 10);
    assert s.keys == [s.keys[0]];
  }

  /** The whole run: an empty map, a draft, a start with ten tokens, a draft, and a start with the
      same ten tokens. */
  lemma ShortenedRun()
    ensures AT_FIRST <= LATER && |LATER| == 16
    ensures var one := DraftOf(TWO_TWO, Start(HASH_MAP_SIZE), AT_FIRST, 34383).0;
      var two := DraftOf(TWO_TWO, BeginOf(TWO_TWO, one, 10), LATER, 34383).0;
      var r := BeginOf(TWO_TWO, two, 10);
      |r.keys| == 1 && |r.keys[0].values| == 4 && r.keys[0].values[1].idx != 0 && r.keys[0].values[1].idx + TWO_TWO.m > 10
  {
    var c, s := TWO_TWO, Start(HASH_MAP_SIZE);
    FirstDraft(c, s, AT_FIRST);
    var one := DraftOf(c, s, AT_FIRST, 34383).0;
    hide DraftOf, Start;
    var ten := BeginOf(c, one, 10);
    SecondDraft(c, ten, LATER);
    ValueKept(c, DraftOf(c, ten, LATER, 34383).0);
  }
}
