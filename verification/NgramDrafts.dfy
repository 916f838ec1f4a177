/** What a start of `common_ngram_map` keeps, what its hash map holds, where it finds a match and
    when that becomes a draft. */
module NgramDrafts {
  import opened Common
  import opened NgramSpec
  import Horner

  // ----- the hash -----

  /** The hash of a run of tokens is their polynomial in the factor, in 32 bits. */
  lemma {:induction false} HashIs(tokens: seq<Token>, start: nat, len: nat)
    requires start + len <= |tokens|
    ensures Hash(tokens, start, len) == Horner.Weighted(tokens[start..start + len], 2654435761) % 0x1_0000_0000
  {
    if len > 0 {
      HashIs(tokens, start, len - 1);
      var front, last := tokens[start..start + len - 1], tokens[start + len - 1];
      assert tokens[start..start + len] == front + [last];
      Horner.WeightedSnoc(front, last, 2654435761);
      Horner.RemainderStep(Horner.Weighted(front, 2654435761), 2654435761, last, 0x1_0000_0000);
    }
  }

  // ----- what a start keeps -----

  /** The values in use that start before `cut`, in order. */
  function Early(values: seq<Value>, cut: nat): (r: seq<Value>) {
    if values == [] then []
    else (if 0 < values[0].idx < cut then [values[0]] else []) + Early(values[1..], cut)
  }

  lemma {:induction false} EarlyJoins(a: seq<Value>, b: seq<Value>, cut: nat)
    ensures Early(a + b, cut) == Early(a, cut) + Early(b, cut)
  {
    if a == [] {
      assert a + b == b;
    } else {
      assert (a + b)[1..] == a[1..] + b;
      EarlyJoins(a[1..], b, cut);
    }
  }

  lemma DropEarly(values: seq<Value>, j: nat, cut: nat)
    requires j < |values| && values[j].idx >= cut
    ensures Early(DropValue(values, j), cut) == Early(values, cut)
  {
    var gone := values[|values| - 1].(idx := 0, num := 0);
    assert values == values[..j] + ([values[j]] + values[j + 1..]);
    EarlyJoins(values[..j], [values[j]] + values[j + 1..], cut);
    EarlyJoins([values[j]], values[j + 1..], cut);
    EarlyJoins(values[..j] + values[j + 1..], [gone], cut);
    EarlyJoins(values[..j], values[j + 1..], cut);
    assert Early([values[j]], cut) == [] && Early([gone], cut) == [];
  }

  /** Cleaning loses no value before the cut. */
  lemma {:induction false} CleanKeeps(values: seq<Value>, cut: nat, j: nat)
    requires j <= |values|
    ensures Early(CleanValues(values, cut, j), cut) == Early(values, cut)
    decreases j
  {
    if j > 0 {
      if values[j - 1].idx != 0 && values[j - 1].idx >= cut {
        DropEarly(values, j - 1, cut);
        CleanKeeps(DropValue(values, j - 1), cut, j - 1);
      } else {
        CleanKeeps(values, cut, j - 1);
      }
    }
  }

  /** The slots in use come before the others. */
  predicate UsedFirst(values: seq<Value>) {
    forall u, v :: 0 <= u < v < |values| && values[v].idx != 0 ==> values[u].idx != 0
  }

  lemma {:induction false} UsedStayFirst(values: seq<Value>, cut: nat, j: nat)
    requires j <= |values| && UsedFirst(values)
    ensures UsedFirst(CleanValues(values, cut, j))
    decreases j
  {
    if j > 0 {
      if values[j - 1].idx != 0 && values[j - 1].idx >= cut {
        UsedStayFirst(DropValue(values, j - 1), cut, j - 1);
      } else {
        UsedStayFirst(values, cut, j - 1);
      }
    }
  }

  lemma {:induction false} EarlySome(values: seq<Value>, cut: nat)
    ensures Early(values, cut) != [] <==> exists i :: 0 <= i < |values| && 0 < values[i].idx < cut
  {
    if values != [] {
      EarlySome(values[1..], cut);
      if i :| 0 <= i < |values| && 0 < values[i].idx < cut {
        assert i > 0 ==> values[1..][i - 1] == values[i];
      }
      if i :| 0 <= i < |values| - 1 && 0 < values[1..][i].idx < cut {
        assert values[i + 1] == values[1..][i];
      }
    }
  }

  /** A key outlives a cleanup if and only if it starts before the cut and, where values are kept,
      some value does. */
  lemma SurvivesIff(k: Key, keyOnly: bool, cut: nat)
    requires |k.values| == MAX_VALUES && UsedFirst(k.values)
    ensures Survives(k, keyOnly, cut) <==> k.idx < cut && (keyOnly || exists i :: 0 <= i < MAX_VALUES && 0 < k.values[i].idx < cut)
    ensures Survives(k, keyOnly, cut) <==> k.idx < cut && (keyOnly || Early(k.values, cut) != [])
    ensures Early(CleanKey(k, keyOnly, cut).values, cut) == Early(k.values, cut)
  {
    var clean := CleanValues(k.values, cut, MAX_VALUES);
    CleanKeeps(k.values, cut, MAX_VALUES);
    UsedStayFirst(k.values, cut, MAX_VALUES);
    assert k.values[MAX_VALUES..] == [];
    CleanBelow(k.values, cut, MAX_VALUES);
    EarlySome(k.values, cut);
    EarlySome(clean, cut);
    hide CleanValues, Early;
    if clean[0].idx != 0 {
      assert clean[0] in clean;
    }
  }

  /** Where what is remembered is given up: from the last start on, or, where the history has become
      shorter than at that start, from its last n + m tokens on. */
  function GivenUp(c: Config, sizeLastBegin: nat, size: nat): (cut: nat) {
    if size >= sizeLastBegin then sizeLastBegin else if size >= c.n + c.m then size - (c.n + c.m) else 0
  }

  /** A start keeps everything where the history has not become shorter, and else exactly the hash
      entries and keys before the cut, keys without values excepted, and all values before it. */
  lemma StartKeeps(c: Config, s: State, size: nat)
    requires FourValues(s.keys) && forall k :: k in s.keys ==> UsedFirst(k.values)
    ensures
      var r, cut := BeginOf(c, s, size), GivenUp(c, s.sizeLastBegin, size);
      if size >= s.idxLastCheck then r.keys == s.keys && r.keyMap == s.keyMap && r.keyMapLastIdx == s.keyMapLastIdx
      else
        && |r.keyMap| == |s.keyMap|
        && (forall h :: 0 <= h < |s.keyMap| ==> r.keyMap[h] == if s.keyMap[h] < cut then s.keyMap[h] else 0)
        && (s.keyMap != [] ==> r.keyMapLastIdx == if cut == 0 then 0 else cut - 1)
        && KeptKeys(s.keys, c.keyOnly, cut, r.keys)
  {
    if size < s.idxLastCheck {
      KeysKept(s.keys, c.keyOnly, Cut(c, s.sizeLastBegin, size));
    }
  }

  /** `r` lists the keys of `keys` that start before the cut and, where values are kept, have a
      value before it: the same keys with the same values before the cut. */
  ghost predicate KeptKeys(keys: seq<Key>, keyOnly: bool, cut: nat, r: seq<Key>) {
    if keys == [] then r == []
    else if keys[0].idx < cut && (keyOnly || Early(keys[0].values, cut) != []) then
      r != [] && SameKey(keys[0], r[0], cut) && KeptKeys(keys[1..], keyOnly, cut, r[1..])
    else KeptKeys(keys[1..], keyOnly, cut, r)
  }

  predicate SameKey(k: Key, r: Key, cut: nat) {
    r.idx == k.idx && r.stat == k.stat && r.num == k.num && Early(r.values, cut) == Early(k.values, cut)
  }

  lemma {:induction false} KeysKept(keys: seq<Key>, keyOnly: bool, cut: nat)
    requires FourValues(keys) && forall k :: k in keys ==> UsedFirst(k.values)
    ensures KeptKeys(keys, keyOnly, cut, CleanKeys(keys, keyOnly, cut))
  {
    if keys != [] {
      SurvivesIff(keys[0], keyOnly, cut);
      KeysKept(keys[1..], keyOnly, cut);
      var r := CleanKeys(keys, keyOnly, cut);
      assert keys[0] in keys;
      hide Early, UsedFirst, CleanValues;
      if Survives(keys[0], keyOnly, cut) {
        assert r[1..] == CleanKeys(keys[1..], keyOnly, cut);
        assert SameKey(keys[0], r[0], cut);
      } else {
        assert r == CleanKeys(keys[1..], keyOnly, cut);
      }
    }
  }

  // ----- what the hash map holds -----

  /** The greatest position in (lo, hi] with hash slot h, or 0. */
  ghost predicate LastWith(n: nat, inp: seq<Token>, hi: nat, lo: nat, size: nat, h: nat, q: nat)
    requires size > 0 && hi + n <= |inp|
  {
    && (q == 0 || (lo < q <= hi && Hash(inp, q, n) % size == h))
    && forall j :: lo < j <= hi && j > q ==> Hash(inp, j, n) % size != h
  }

  /** A free slot gets the last position of the range that belongs there, if there is one; a slot
      that is taken stays as it is. */
  lemma {:induction false} RangeEnters(n: nat, keyMap: seq<nat>, inp: seq<Token>, hi: nat, lo: nat, h: nat)
    requires |keyMap| > 0 && hi + n <= |inp| && h < |keyMap|
    ensures keyMap[h] != 0 ==> AddRangeOf(n, keyMap, inp, hi, lo)[h] == keyMap[h]
    ensures keyMap[h] == 0 ==> LastWith(n, inp, hi, lo, |keyMap|, h, AddRangeOf(n, keyMap, inp, hi, lo)[h])
    decreases hi
  {
    if hi > lo {
      var i := Slot(n, inp, hi, |keyMap|);
      RangeEnters(n, if keyMap[i] == 0 then keyMap[i := hi] else keyMap, inp, hi - 1, lo, h);
    }
  }

  /** What a free slot holds after a search: `early` is the last position that belongs there and
      fitted the history at the last start, or 0; without one, it is the last one behind that. */
  ghost predicate EntryIs(c: Config, s: State, inp: seq<Token>, h: nat, early: nat, now: nat)
    requires |inp| >= c.n + c.m + 1 && s.sizeLastBegin <= |inp| && s.keyMap != []
  {
    var span := c.n + c.m + 1;
    && (if s.sizeLastBegin > span then LastWith(c.n, inp, s.sizeLastBegin - span, s.keyMapLastIdx, |s.keyMap|, h, early)
        else early == 0)
    && (early != 0 ==> now == early)
    && (early == 0 ==>
          LastWith(c.n, inp, |inp| - span, if s.sizeLastBegin > s.keyMapLastIdx then s.sizeLastBegin else s.keyMapLastIdx,
                   |s.keyMap|, h, now))
  }

  /** After a search every free slot has the last position that belongs there: first of those that
      fitted the history at the last start, then of those behind it, as far as they fit now. */
  lemma HashesAre(c: Config, s: State, inp: seq<Token>, h: nat)
    requires c.n > 0 && |inp| >= c.n + c.m + 1 && s.sizeLastBegin <= |inp| && h < |s.keyMap|
    ensures
      var r := AddHashesOf(c, s, inp);
      && |r.keyMap| == |s.keyMap|
      && (s.keyMap[h] != 0 ==> r.keyMap[h] == s.keyMap[h])
      && (s.keyMap[h] == 0 ==> exists early :: EntryIs(c, s, inp, h, early, r.keyMap[h]))
      && r.keyMapLastIdx == if |inp| - (c.n + c.m + 1) > s.keyMapLastIdx then |inp| - (c.n + c.m + 1) else s.keyMapLastIdx
  {
    var first := if s.sizeLastBegin > c.Span() then
                   AddRangeOf(c.n, s.keyMap, inp, s.sizeLastBegin - c.Span(), s.keyMapLastIdx)
                 else s.keyMap;
    if s.sizeLastBegin > c.Span() {
      RangeEnters(c.n, s.keyMap, inp, s.sizeLastBegin - c.Span(), s.keyMapLastIdx, h);
    }
    RangeEnters(c.n, first, inp, |inp| - c.Span(), Max(s.sizeLastBegin, s.keyMapLastIdx), h);
    hide AddRangeOf, LastWith;
    if s.keyMap[h] == 0 {
      assert EntryIs(c, s, inp, h, first[h], AddHashesOf(c, s, inp).keyMap[h]);
    }
  }

  // ----- where a match is found -----

  /** The last occurrence that fitted the history at the last start, or without one the last behind
      that start; 0 if there is none. Positions up to `keyMapLastIdx` are left to the hash map. */
  ghost predicate Preferred(c: Config, s: State, inp: seq<Token>, key: seq<Token>, p: nat) {
    if p == 0 then forall q: nat :: Searched(c, s, |inp|, q) ==> !Occurs(inp, q, key)
    else
      && Searched(c, s, |inp|, p) && Occurs(inp, p, key)
      && forall q: nat :: Searched(c, s, |inp|, q) && Occurs(inp, q, key) ==>
           if p <= s.sizeLastBegin then q <= p || q > s.sizeLastBegin else s.sizeLastBegin < q <= p
  }

  /** An entry of the hash map that reads as the key and fits with room to spare goes before all
      others. */
  lemma SearchOrder(c: Config, s: State, inp: seq<Token>, key: seq<Token>)
    requires Sound(c, s) && |key| == c.n && |inp| >= c.Span() && s.idxLastCheck <= |inp|
    ensures
      var p := SearchOf(c, s, inp, key);
      var entry := if s.keyMap == [] then 0 else s.keyMap[Hash(key, 0, c.n) % |s.keyMap|];
      if entry != 0 && entry + (c.n + c.m + 1) < |inp| && inp[entry..entry + c.n] == key then p == entry
      else Preferred(c, s, inp, key, p)
  {}

  // ----- when a match becomes a draft -----

  /** One value was seen at least twice as often as the others together. */
  predicate Convincing(values: seq<Value>)
    requires |values| == 4
  {
    || values[0].num >= 2 * (values[1].num + values[2].num + values[3].num)
    || values[1].num >= 2 * (values[0].num + values[2].num + values[3].num)
    || values[2].num >= 2 * (values[0].num + values[1].num + values[3].num)
    || values[3].num >= 2 * (values[0].num + values[1].num + values[2].num)
  }

  lemma ConvincingIff(values: seq<Value>)
    requires |values| == MAX_VALUES
    ensures
      var b := FavouriteOf(values, MAX_VALUES);
      Convincing(values) <==> !(Others(values, b) > 0 && values[b].num < 2 * Others(values, b))
  {
    var b := FavouriteOf(values, MAX_VALUES);
    assert values[0].num <= values[b].num && values[1].num <= values[b].num;
    assert values[2].num <= values[b].num && values[3].num <= values[b].num;
    hide FavouriteOf;
  }

  /** The key that a match counts for: the first stored one that reads as it, or a new one behind
      all others; and how often it was met with this match. */
  predicate HitAt(keys: seq<Key>, inp: seq<Token>, key: seq<Token>, o: nat, hits: nat) {
    && o <= |keys| && (forall i :: 0 <= i < o ==> !Occurs(inp, keys[i].idx, key))
    && (o < |keys| ==> Occurs(inp, keys[o].idx, key) && hits == if keys[o].num >= 16379 then 16380 else keys[o].num + 1)
    && (o == |keys| ==> hits == 1)
  }

  /** The key has been counted, and a draft is made if and only if no values are kept or the key has
      been met often enough and one value convinces. */
  ghost predicate Decided(c: Config, keys: seq<Key>, inp: seq<Token>, key: seq<Token>, r: State, o: nat) {
    && HitAt(keys, inp, key, o, if o < |r.keys| then r.keys[o].num else 0)
    && |r.keys| == (if o < |keys| then |keys| else |keys| + 1) && FourValues(r.keys)
    && (r.created <==> c.keyOnly || (r.keys[o].num >= c.minHits && Convincing(r.keys[o].values)))
    && (r.created ==> r.keyIdx == o)
    && forall i :: 0 <= i < |keys| && i != o ==> r.keys[i] == keys[i]
  }

  lemma FromMatch(c: Config, s: State, inp: seq<Token>, key: seq<Token>, p: nat)
    requires FourValues(s.keys) && |key| == c.n && p + c.Span() <= |inp| && !s.created
    ensures
      var (r, draft) := DraftFromOf(c, s, inp, key, p);
      && Decided(c, s.keys, inp, key, r, KeyIndex(inp, s.keys, key)) && (draft != [] ==> r.created)
      && (c.keyOnly || r.keys[KeyIndex(inp, s.keys, key)].num < c.minHits || r.keys[KeyIndex(inp, s.keys, key)].stat == p)
  {
    var o := KeyIndex(inp, s.keys, key);
    var hit := HitOf(c.m, s.keys, inp, key, p);
    assert HitAt(s.keys, inp, key, o, hit[o].num);
    hide KeyIndex, CountOf, FavouriteOf, Others, Occurs, HitAt, Convincing, CopyOf;
    if !c.keyOnly && hit[o].num >= c.minHits {
      ConvincingIff(UpdateOf(c, hit, inp, key, o, p)[o].values);
    }
  }

  /** The chosen value was accepted with so many tokens last, m at most. */
  predicate Accepted(m: nat, r: State, count: nat) {
    && r.keyIdx < |r.keys| && r.valueIdx < |r.keys[r.keyIdx].values|
    && var last := r.keys[r.keyIdx].values[r.valueIdx].accepted;
    count == if last <= 0 then 0 else if last <= m then last else m
  }

  lemma DraftedTokens(c: Config, s: State, inp: seq<Token>, key: seq<Token>, p: nat)
    requires FourValues(s.keys) && |key| == c.n && p + c.Span() <= |inp| && !s.created
    ensures
      var (r, draft) := DraftFromOf(c, s, inp, key, p);
      && r.keyMap == s.keyMap
      && (r.created ==> Accepted(c.m, r, |draft|) && Occurs(inp, p + c.n, draft))
  {
    var hit := HitOf(c.m, s.keys, inp, key, p);
    assert FourValues(hit);
    hide KeyIndex, HitOf, CountOf, FavouriteOf, Others, Occurs;
  }

  /** What is left to be done for a history that is long enough. */
  lemma DraftCases(c: Config, s: State, inp: seq<Token>, sampled: Token, key: seq<Token>, p: nat, s1: State)
    requires Sound(c, s) && |inp| >= 2 * c.n + c.m && s.idxLastCheck <= |inp|
    requires key == inp[|inp| - (c.n - 1)..] + [sampled] && p == SearchOf(c, s, inp, key)
    requires s1 == AddHashesOf(c, s.(created := false, keyIdx := 0, valueIdx := 0).(idxLastCheck := |inp|), inp)
    ensures s1.keys == s.keys && !s1.created && s1.keyMap == AddHashesOf(c, s, inp).keyMap
    ensures DraftOf(c, s, inp, sampled) == if p == 0 then (s1, []) else DraftFromOf(c, s1, inp, key, p)
  {
    hide SearchOf, DraftFromOf, AddRangeOf, MapOk, KeysOk, Occurs;
  }

  /** A draft is made if and only if there is a match and it decides for one. It then stands behind
      the match, as long as the value it is for was accepted last, and at most m. */
  ghost predicate Made(c: Config, keys: seq<Key>, inp: seq<Token>, key: seq<Token>, p: nat, r: State, draft: seq<Token>) {
    && (!r.created ==> draft == [])
    && (if p == 0 then !r.created && r.keys == keys else exists o :: Decided(c, keys, inp, key, r, o))
    && (r.created ==> Accepted(c.m, r, |draft|) && Occurs(inp, p + c.n, draft))
  }

  lemma MadeFrom(c: Config, s: State, inp: seq<Token>, key: seq<Token>, p: nat)
    requires FourValues(s.keys) && |key| == c.n && p + c.Span() <= |inp| && !s.created && p != 0
    ensures var (r, draft) := DraftFromOf(c, s, inp, key, p); Made(c, s.keys, inp, key, p, r, draft) && r.keyMap == s.keyMap
  {
    FromMatch(c, s, inp, key, p);
    DraftedTokens(c, s, inp, key, p);
    hide *;
    var (r, draft) := DraftFromOf(c, s, inp, key, p);
    var o := KeyIndex(inp, s.keys, key);
    assert Decided(c, s.keys, inp, key, r, o);
    MadeBy(c, s.keys, inp, key, p, r, draft, o);
  }

  lemma MadeBy(c: Config, keys: seq<Key>, inp: seq<Token>, key: seq<Token>, p: nat, r: State, draft: seq<Token>, o: nat)
    requires p != 0 && Decided(c, keys, inp, key, r, o) && (draft != [] ==> r.created)
    requires r.created ==> Accepted(c.m, r, |draft|) && Occurs(inp, p + c.n, draft)
    ensures Made(c, keys, inp, key, p, r, draft)
  {
    hide Decided, Accepted, Occurs;
  }

  /** The match is one for the last n - 1 tokens and the sampled one. */
  lemma DraftMadeIff(c: Config, s: State, inp: seq<Token>, sampled: Token)
    requires Sound(c, s) && (|inp| >= 2 * c.n + c.m ==> s.idxLastCheck <= |inp|)
    ensures
      var (r, draft) := DraftOf(c, s, inp, sampled);
      if |inp| < 2 * c.n + c.m then !r.created && draft == [] && r.keys == s.keys && r.keyMap == s.keyMap
      else
        var key := inp[|inp| - (c.n - 1)..] + [sampled];
        r.keyMap == AddHashesOf(c, s, inp).keyMap && Made(c, s.keys, inp, key, SearchOf(c, s, inp, key), r, draft)
  {
    if |inp| >= 2 * c.n + c.m {
      hide SearchOf, DraftFromOf, DraftOf, AddHashesOf, Made, Occurs, MapOk;
      var key := inp[|inp| - (c.n - 1)..] + [sampled];
      var p := SearchOf(c, s, inp, key);
      var s1 := AddHashesOf(c, s.(created := false, keyIdx := 0, valueIdx := 0).(idxLastCheck := |inp|), inp);
      DraftCases(c, s, inp, sampled, key, p, s1);
      if p != 0 {
        MadeFrom(c, s1, inp, key, p);
      } else {
        NotMade(c, s.keys, inp, key, s1);
      }
    }
  }

  lemma NotMade(c: Config, keys: seq<Key>, inp: seq<Token>, key: seq<Token>, r: State)
    requires !r.created && r.keys == keys
    ensures Made(c, keys, inp, key, 0, r, [])
  {}
}
