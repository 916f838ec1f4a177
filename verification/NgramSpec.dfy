/** What `common_ngram_map` computes, as functions of its state: the map remembers positions in a
    token history that is owned by the caller.  The history grows between drafts and may be cut
    back at the start of a generation. */
module NgramSpec {
  import opened Common

  const UINT32_MAX: nat := 0xffff_ffff
  const MAX_VALUE_COUNT: nat := 16380
  const MAX_VALUES: nat := 4
  const HASH_MAP_SIZE: nat := 262144

  datatype Value = Value(idx: nat, num: nat, accepted: int)
  datatype Key = Key(idx: nat, stat: nat, num: nat, values: seq<Value>)

  /** The lengths of keys and values, and how a map is used. */
  datatype Config = Config(n: nat, m: nat, keyOnly: bool, minHits: nat) {
    /** An n-gram, the m tokens behind it and one more. */
    function Span(): (len: nat) {
      n + m + 1
    }
  }

  datatype State = State(keys: seq<Key>, sizeLastBegin: nat, idxLastCheck: nat,
                         created: bool, keyIdx: nat, valueIdx: nat, keyMap: seq<nat>, keyMapLastIdx: nat)

  function Start(hashSize: nat): (s: State) {
    State([], 0, 0, false, 0, 0, seq(hashSize, _ => 0), 0)
  }

  /** `uint32_t` arithmetic of the LCG hash. */
  function Hash(tokens: seq<Token>, start: nat, len: nat): (h: nat)
    requires start + len <= |tokens|
    ensures h <= UINT32_MAX
  {
    if len == 0 then 0
    else (Hash(tokens, start, len - 1) * 2654435761 + tokens[start + len - 1]) % 0x1_0000_0000
  }

  function ToInt16(x: nat): (r: int) {
    if x % 0x1_0000 < 0x8000 then x % 0x1_0000 else x % 0x1_0000 - 0x1_0000
  }

  /** The n-gram `key` stands at position `p`. */
  predicate Occurs(tokens: seq<Token>, p: nat, key: seq<Token>) {
    p + |key| <= |tokens| && tokens[p..p + |key|] == key
  }

  lemma HashOfCopy(a: seq<Token>, p: nat, b: seq<Token>, q: nat, len: nat)
    requires p + len <= |a| && q + len <= |b| && a[p..p + len] == b[q..q + len]
    ensures Hash(a, p, len) == Hash(b, q, len)
  {
    if len > 0 {
      assert a[p..p + len][..len - 1] == a[p..p + len - 1] && b[q..q + len][..len - 1] == b[q..q + len - 1];
      HashOfCopy(a, p, b, q, len - 1);
      assert a[p + len - 1] == a[p..p + len][len - 1] && b[q + len - 1] == b[q..q + len][len - 1];
    }
  }

  // ----- what a cut-back history leaves of the map -----

  /** Slot `j` is deleted: later slots move up and the last one is marked unused. */
  function DropValue(values: seq<Value>, j: nat): (r: seq<Value>)
    requires j < |values|
    ensures |r| == |values|
  {
    values[..j] + values[j + 1..] + [values[|values| - 1].(idx := 0, num := 0)]
  }

  /** Slots from the last down to slot 0 are deleted when they start at `cut` or later. */
  function CleanValues(values: seq<Value>, cut: nat, j: nat): (r: seq<Value>)
    requires j <= |values|
    ensures |r| == |values|
    decreases j
  {
    if j == 0 then values
    else if values[j - 1].idx != 0 && values[j - 1].idx >= cut then CleanValues(DropValue(values, j - 1), cut, j - 1)
    else CleanValues(values, cut, j - 1)
  }

  predicate Survives(k: Key, keyOnly: bool, cut: nat)
    requires |k.values| == MAX_VALUES
  {
    k.idx < cut && (keyOnly || CleanValues(k.values, cut, MAX_VALUES)[0].idx != 0)
  }

  function CleanKey(k: Key, keyOnly: bool, cut: nat): (r: Key)
    requires |k.values| == MAX_VALUES
  {
    if keyOnly then k else k.(values := CleanValues(k.values, cut, MAX_VALUES))
  }

  predicate FourValues(keys: seq<Key>) {
    forall i :: 0 <= i < |keys| ==> |keys[i].values| == MAX_VALUES
  }

  /** The keys that survive a cleanup, in order, with their values cleaned. */
  function CleanKeys(keys: seq<Key>, keyOnly: bool, cut: nat): (r: seq<Key>)
    requires FourValues(keys)
  {
    if keys == [] then []
    else (if Survives(keys[0], keyOnly, cut) then [CleanKey(keys[0], keyOnly, cut)] else [])
         + CleanKeys(keys[1..], keyOnly, cut)
  }

  predicate Below(values: seq<Value>, cut: nat) {
    forall v :: v in values ==> v.idx == 0 || v.idx < cut
  }

  /** Cleaning leaves no value that starts at `cut` or later, and invents none. */
  lemma {:induction false} CleanBelow(values: seq<Value>, cut: nat, j: nat)
    requires j <= |values| && Below(values[j..], cut)
    ensures Below(CleanValues(values, cut, j), cut)
    ensures forall v :: v in CleanValues(values, cut, j) && v.idx != 0 ==> exists u :: u in values && u.idx == v.idx
    decreases j
  {
    if j == 0 {
      assert values[0..] == values;
    } else if values[j - 1].idx != 0 && values[j - 1].idx >= cut {
      var d := DropValue(values, j - 1);
      assert d[j - 1..] == values[j..] + [values[|values| - 1].(idx := 0, num := 0)];
      CleanBelow(d, cut, j - 1);
      assert forall v :: v in d && v.idx != 0 ==> v in values;
    } else {
      assert values[j - 1..] == [values[j - 1]] + values[j..];
      CleanBelow(values, cut, j - 1);
    }
  }

  lemma {:induction false} CleanKeysAre(keys: seq<Key>, keyOnly: bool, cut: nat)
    requires FourValues(keys)
    ensures FourValues(CleanKeys(keys, keyOnly, cut))
    ensures forall k :: k in CleanKeys(keys, keyOnly, cut) ==>
      exists o :: o in keys && k == CleanKey(o, keyOnly, cut) && o.idx < cut
  {
    if keys != [] {
      CleanKeysAre(keys[1..], keyOnly, cut);
    }
  }

  lemma CleanKeysStep(all: seq<Key>, i: nat, keyOnly: bool, cut: nat)
    requires i < |all| && FourValues(all)
    ensures FourValues(all[i..]) && FourValues(all[i + 1..])
    ensures CleanKeys(all[i..], keyOnly, cut)
            == (if Survives(all[i], keyOnly, cut) then [CleanKey(all[i], keyOnly, cut)] else []) + CleanKeys(all[i + 1..], keyOnly, cut)
  {
    assert all[i..][1..] == all[i + 1..];
  }

  // ----- what is remembered fits -----

  /** An n-gram at `p` and the m tokens behind it fit the history checked last, and even the
      history at the last start of a generation, unless `p` lies behind that. */
  predicate Placed(c: Config, s: State, p: nat) {
    p + c.Span() <= s.idxLastCheck && (p + c.Span() <= s.sizeLastBegin || p > s.sizeLastBegin)
  }

  predicate MapOk(c: Config, s: State) {
    forall h :: 0 <= h < |s.keyMap| ==> s.keyMap[h] == 0 || Placed(c, s, s.keyMap[h])
  }

  /** The m tokens of every value lie in a history of `size` tokens. */
  predicate ValuesFit(values: seq<Value>, m: nat, size: nat) {
    forall v :: v in values ==> v.idx == 0 || v.idx + m <= size
  }

  predicate KeysOk(c: Config, s: State, ks: seq<Key>) {
    FourValues(ks) && forall k :: k in ks ==> Placed(c, s, k.idx) && (c.keyOnly || ValuesFit(k.values, c.m, s.idxLastCheck))
  }

  predicate Sound(c: Config, s: State) {
    c.n > 0 && s.sizeLastBegin <= s.idxLastCheck && MapOk(c, s) && KeysOk(c, s, s.keys)
  }

  // ----- starting a generation -----

  /** From where on remembered positions are given up when a generation starts with `size`
      tokens. */
  function Cut(c: Config, sizeLastBegin: nat, size: nat): (cut: nat) {
    if sizeLastBegin <= size then sizeLastBegin
    else if size > c.n + c.m then size - c.n - c.m
    else 0
  }

  /** The entries of the hash map without those from `cut` on. */
  function CleanMap(keyMap: seq<nat>, cut: nat): (r: seq<nat>)
    ensures |r| == |keyMap|
  {
    seq(|keyMap|, h requires 0 <= h < |keyMap| => if keyMap[h] >= cut then 0 else keyMap[h])
  }

  /** `common_ngram_map_begin` with a history of `size` tokens. */
  function BeginOf(c: Config, s: State, size: nat): (r: State)
    requires FourValues(s.keys)
    ensures r.sizeLastBegin == r.idxLastCheck == size && FourValues(r.keys)
  {
    var cut := Cut(c, s.sizeLastBegin, size);
    var cleaned :=
      if size < s.idxLastCheck then
        CleanKeysAre(s.keys, c.keyOnly, cut);
        s.(keys := CleanKeys(s.keys, c.keyOnly, cut),
           keyMap := CleanMap(s.keyMap, cut),
           keyMapLastIdx := if s.keyMap == [] then s.keyMapLastIdx else if cut > 0 then cut - 1 else 0)
      else s;
    cleaned.(idxLastCheck := size, sizeLastBegin := size)
  }

  /** The sizes a history may have at the start of a generation. Without values any will do. With
      values it must not end in the m tokens behind the last token of the last start, unless no
      key fits the history of that start. */
  predicate MayBegin(c: Config, last: nat, check: nat, size: nat) {
    c.keyOnly || size >= check || size < last || size + 1 >= last + c.m || last < c.Span()
  }

  lemma PlacedStays(c: Config, s: State, size: nat, p: nat)
    requires Placed(c, s, p) && s.sizeLastBegin <= s.idxLastCheck
    requires size >= s.idxLastCheck || p < Cut(c, s.sizeLastBegin, size)
    ensures p + c.Span() <= size
  {}

  /** What is left after a start fits the new history. */
  lemma BeginSound(c: Config, s: State, size: nat)
    requires Sound(c, s) && MayBegin(c, s.sizeLastBegin, s.idxLastCheck, size)
    ensures Sound(c, BeginOf(c, s, size))
  {
    var r := BeginOf(c, s, size);
    var cut := Cut(c, s.sizeLastBegin, size);
    forall h | 0 <= h < |r.keyMap|
      ensures r.keyMap[h] == 0 || Placed(c, r, r.keyMap[h])
    {
      assert s.keyMap[h] == 0 || Placed(c, s, s.keyMap[h]);
    }
    if size < s.idxLastCheck {
      CleanKeysAre(s.keys, c.keyOnly, cut);
      forall k | k in r.keys
        ensures Placed(c, r, k.idx) && (c.keyOnly || ValuesFit(k.values, c.m, size))
      {
        var o :| o in s.keys && k == CleanKey(o, c.keyOnly, cut) && o.idx < cut;
        PlacedStays(c, s, size, o.idx);
        if !c.keyOnly {
          CleanFits(o.values, c.m, s.idxLastCheck, cut);
        }
      }
    }
  }

  lemma CleanFits(values: seq<Value>, m: nat, check: nat, cut: nat)
    requires |values| == MAX_VALUES && ValuesFit(values, m, check)
    ensures forall v :: v in CleanValues(values, cut, MAX_VALUES) ==> v.idx == 0 || (v.idx < cut && v.idx + m <= check)
  {
    assert values[MAX_VALUES..] == [];
    CleanBelow(values, cut, MAX_VALUES);
  }

  /** The condition is exact: for any other size there is a sound map of which a value is kept
      whose m tokens leave the new history. */
  lemma MayBeginIff(c: Config, last: nat, check: nat, size: nat)
    requires c.n > 0 && last <= check
    ensures MayBegin(c, last, check, size) <==>
      forall s: State :: Sound(c, s) && s.sizeLastBegin == last && s.idxLastCheck == check ==> Sound(c, BeginOf(c, s, size))
  {
    if MayBegin(c, last, check, size) {
      forall s: State | Sound(c, s) && s.sizeLastBegin == last && s.idxLastCheck == check
        ensures Sound(c, BeginOf(c, s, size))
      {
        BeginSound(c, s, size);
      }
    } else {
      var p := if last - 1 + c.m <= check then last - 1 else check - c.m;
      var value := Value(p, 1, c.m);
      var key := Key(0, 0, 1, [value, Value(0, 0, c.m), Value(0, 0, c.m), Value(0, 0, c.m)]);
      var s := Start(0).(keys := [key], sizeLastBegin := last, idxLastCheck := check);
      assert Sound(c, s);
      OneKeyStays(c, key, last);
      assert BeginOf(c, s, size).keys == [key];
      assert value in key.values;
    }
  }

  lemma OneKeyStays(c: Config, key: Key, cut: nat)
    requires |key.values| == MAX_VALUES && key.idx < cut && !c.keyOnly && key.values[0].idx != 0 && Below(key.values, cut)
    ensures CleanKeys([key], c.keyOnly, cut) == [key]
  {
    NothingToClean(key.values, cut, MAX_VALUES);
  }

  lemma {:induction false} NothingToClean(values: seq<Value>, cut: nat, j: nat)
    requires j <= |values| && Below(values, cut)
    ensures CleanValues(values, cut, j) == values
  {
    if j > 0 {
      assert values[j - 1] in values;
      NothingToClean(values, cut, j - 1);
    }
  }

  // ----- searching -----

  /** The last n-1 tokens of the history and the token just sampled. */
  function KeyNgram(n: nat, inp: seq<Token>, sampled: Token): (key: seq<Token>)
    requires 0 < n <= |inp| + 1
    ensures |key| == n
  {
    inp[|inp| + 1 - n..] + [sampled]
  }

  /** The last occurrence in (lo, hi], or 0. */
  function LastIn(inp: seq<Token>, key: seq<Token>, hi: nat, lo: nat): (p: nat)
    ensures p == 0 || (lo < p <= hi && Occurs(inp, p, key))
    ensures forall j :: lo < j <= hi && j > p ==> !Occurs(inp, j, key)
  {
    if hi <= lo then 0 else if Occurs(inp, hi, key) then hi else LastIn(inp, key, hi - 1, lo)
  }

  function Slot(n: nat, tokens: seq<Token>, p: nat, size: nat): (h: nat)
    requires p + n <= |tokens| && size > 0
    ensures h < size
  {
    Hash(tokens, p, n) % size
  }

  function LookUpOf(c: Config, keyMap: seq<nat>, inp: seq<Token>, key: seq<Token>): (p: nat)
    requires |key| == c.n && |inp| >= c.Span()
    ensures p == 0 || (p in keyMap && p + c.Span() < |inp| && Occurs(inp, p, key))
  {
    if keyMap == [] then 0
    else
      var e := keyMap[Slot(c.n, key, 0, |keyMap|)];
      if e != 0 && e < |inp| - c.Span() && Occurs(inp, e, key) then e else 0
  }

  function Max(a: nat, b: nat): (r: nat) {
    if a > b then a else b
  }

  /** The hash map, then the history before the last start, then the part behind it. */
  function SearchOf(c: Config, s: State, inp: seq<Token>, key: seq<Token>): (p: nat)
    requires |key| == c.n && |inp| >= c.Span() && s.sizeLastBegin <= |inp|
    ensures p == 0 || (p + c.Span() <= |inp| && Occurs(inp, p, key))
  {
    var p := LookUpOf(c, s.keyMap, inp, key);
    if p != 0 then p
    else
      var q := if s.sizeLastBegin > c.Span() then LastIn(inp, key, s.sizeLastBegin - c.Span(), s.keyMapLastIdx) else 0;
      if q != 0 then q
      else LastIn(inp, key, |inp| - c.Span(), Max(s.sizeLastBegin, s.keyMapLastIdx))
  }

  /** Positions that the search goes through in a history of this length; those up to
      `keyMapLastIdx` are left to the hash map. */
  predicate Searched(c: Config, s: State, len: nat, p: nat) {
    && s.keyMapLastIdx < p
    && (p + c.Span() <= s.sizeLastBegin || (s.sizeLastBegin < p && p + c.Span() <= len))
  }

  /** A position found is an occurrence that fits, and if none is found there is none where the
      search goes. Without a hash map it finds one if and only if there is one. */
  lemma SearchFinds(c: Config, s: State, inp: seq<Token>, key: seq<Token>)
    requires Sound(c, s) && |key| == c.n && |inp| >= c.Span() && s.idxLastCheck <= |inp|
    ensures var p := SearchOf(c, s, inp, key);
      && (p == 0 ==> forall q: nat :: Searched(c, s, |inp|, q) ==> !Occurs(inp, q, key))
      && (p != 0 ==> Placed(c, s.(idxLastCheck := |inp|), p) && Occurs(inp, p, key))
      && (s.keyMap == [] && p != 0 ==> Searched(c, s, |inp|, p))
  {}

  /** Positions in (lo, hi] enter the hash map, later ones first, unless the slot is taken. */
  function AddRangeOf(n: nat, keyMap: seq<nat>, inp: seq<Token>, hi: nat, lo: nat): (r: seq<nat>)
    requires |keyMap| > 0 && hi + n <= |inp|
    ensures |r| == |keyMap|
    decreases hi
  {
    if hi <= lo then keyMap
    else
      var h := Slot(n, inp, hi, |keyMap|);
      AddRangeOf(n, if keyMap[h] == 0 then keyMap[h := hi] else keyMap, inp, hi - 1, lo)
  }

  function AddHashesOf(c: Config, s: State, inp: seq<Token>): (r: State)
    requires c.n > 0 && |inp| >= c.Span() && s.sizeLastBegin <= |inp|
    ensures r.keys == s.keys && r.sizeLastBegin == s.sizeLastBegin && r.idxLastCheck == s.idxLastCheck
  {
    if s.keyMap == [] then s
    else
      var first := if s.sizeLastBegin > c.Span() then
                     AddRangeOf(c.n, s.keyMap, inp, s.sizeLastBegin - c.Span(), s.keyMapLastIdx)
                   else s.keyMap;
      s.(keyMap := AddRangeOf(c.n, first, inp, |inp| - c.Span(), Max(s.sizeLastBegin, s.keyMapLastIdx)),
         keyMapLastIdx := Max(|inp| - c.Span(), s.keyMapLastIdx))
  }

  predicate EntriesPlaced(c: Config, s: State, keyMap: seq<nat>) {
    forall h :: 0 <= h < |keyMap| ==> keyMap[h] == 0 || Placed(c, s, keyMap[h])
  }

  /** Every entry of the hash map is the position of an n-gram with that hash. */
  predicate MapAgrees(n: nat, keyMap: seq<nat>, tokens: seq<Token>) {
    forall h :: 0 <= h < |keyMap| && keyMap[h] != 0 ==>
      keyMap[h] + n <= |tokens| && Slot(n, tokens, keyMap[h], |keyMap|) == h
  }

  /** Growing the history keeps the entries right. */
  lemma MapStillAgrees(n: nat, keyMap: seq<nat>, before: seq<Token>, tokens: seq<Token>)
    requires MapAgrees(n, keyMap, before) && before <= tokens
    ensures MapAgrees(n, keyMap, tokens)
  {
    forall h | 0 <= h < |keyMap| && keyMap[h] != 0
      ensures keyMap[h] + n <= |tokens| && Slot(n, tokens, keyMap[h], |keyMap|) == h
    {
      var p := keyMap[h];
      assert before[p..p + n] == tokens[p..p + n];
      HashOfCopy(before, p, tokens, p, n);
    }
  }

  lemma {:induction false} AddRangeStays(c: Config, s: State, keyMap: seq<nat>, inp: seq<Token>, hi: nat, lo: nat)
    requires |keyMap| > 0 && hi + c.n <= |inp|
    requires EntriesPlaced(c, s, keyMap) && forall p :: lo < p <= hi ==> Placed(c, s, p)
    ensures EntriesPlaced(c, s, AddRangeOf(c.n, keyMap, inp, hi, lo))
    ensures MapAgrees(c.n, keyMap, inp) ==> MapAgrees(c.n, AddRangeOf(c.n, keyMap, inp, hi, lo), inp)
    decreases hi
  {
    hide Slot, Placed;
    if hi > lo {
      var h := Slot(c.n, inp, hi, |keyMap|);
      AddRangeStays(c, s, if keyMap[h] == 0 then keyMap[h := hi] else keyMap, inp, hi - 1, lo);
    }
  }

  lemma CheckedSound(c: Config, s: State, size: nat)
    requires Sound(c, s) && s.idxLastCheck <= size
    ensures Sound(c, s.(idxLastCheck := size))
  {}

  /** Which value was drafted last does not matter to what fits. */
  lemma Forgotten(c: Config, s: State, r: State)
    requires Sound(c, s) && r == s.(created := r.created, keyIdx := r.keyIdx, valueIdx := r.valueIdx)
    ensures Sound(c, r) && FourValues(s.keys) && c.n > 0 && s.sizeLastBegin <= s.idxLastCheck
  {}

  lemma SearchForgets(c: Config, s: State, r: State, inp: seq<Token>, key: seq<Token>)
    requires |key| == c.n && |inp| >= c.Span() && s.sizeLastBegin <= |inp|
    requires r == s.(created := r.created, keyIdx := r.keyIdx, valueIdx := r.valueIdx)
    ensures SearchOf(c, r, inp, key) == SearchOf(c, s, inp, key)
  {}

  /** What enters the hash map fits the history, and stands under its hash. */
  lemma AddHashesStay(c: Config, s: State, inp: seq<Token>)
    requires Sound(c, s) && s.idxLastCheck == |inp| && |inp| >= c.Span()
    ensures Sound(c, AddHashesOf(c, s, inp))
    ensures MapAgrees(c.n, s.keyMap, inp) ==> MapAgrees(c.n, AddHashesOf(c, s, inp).keyMap, inp)
  {
    if s.keyMap != [] {
      assert EntriesPlaced(c, s, s.keyMap);
      hide AddRangeOf, Slot, KeysOk, EntriesPlaced, MapAgrees, MapOk;
      var first := s.keyMap;
      if s.sizeLastBegin > c.Span() {
        AddRangeStays(c, s, first, inp, s.sizeLastBegin - c.Span(), s.keyMapLastIdx);
        first := AddRangeOf(c.n, first, inp, s.sizeLastBegin - c.Span(), s.keyMapLastIdx);
      }
      AddRangeStays(c, s, first, inp, |inp| - c.Span(), Max(s.sizeLastBegin, s.keyMapLastIdx));
      SameKeys(c, s, AddHashesOf(c, s, inp));
    }
  }

  lemma SameKeys(c: Config, s: State, r: State)
    requires KeysOk(c, s, s.keys) && r.keys == s.keys && r.sizeLastBegin == s.sizeLastBegin && r.idxLastCheck == s.idxLastCheck
    requires EntriesPlaced(c, s, r.keyMap)
    ensures KeysOk(c, r, r.keys) && MapOk(c, r)
  {}

  // ----- statistics -----

  function Plus1(num: nat): (r: nat) {
    if num + 1 < MAX_VALUE_COUNT then num + 1 else MAX_VALUE_COUNT
  }

  /** The number of keys before the first that reads as `key`. */
  function KeyIndex(inp: seq<Token>, keys: seq<Key>, key: seq<Token>): (i: nat)
    ensures i <= |keys| && (i < |keys| ==> Occurs(inp, keys[i].idx, key))
    ensures forall j :: 0 <= j < i ==> !Occurs(inp, keys[j].idx, key)
  {
    if keys == [] then 0
    else if Occurs(inp, keys[0].idx, key) then 0
    else 1 + KeyIndex(inp, keys[1..], key)
  }

  function NewKey(m: nat, p: nat): (k: Key)
    ensures |k.values| == MAX_VALUES
  {
    Key(p, 0, 0, seq(MAX_VALUES, _ => Value(0, 0, ToInt16(m))))
  }

  /** The key is found or created, and its hits are counted. */
  function HitOf(m: nat, keys: seq<Key>, inp: seq<Token>, key: seq<Token>, p: nat): (r: seq<Key>)
    ensures KeyIndex(inp, keys, key) < |r|
    ensures FourValues(keys) ==> FourValues(r)
  {
    var o := KeyIndex(inp, keys, key);
    var all := if o == |keys| then keys + [NewKey(m, p)] else keys;
    all[o := all[o].(num := Plus1(all[o].num))]
  }

  /** The first slot that is unused or holds the m-gram at `start`, or 4. */
  function SlotFor(inp: seq<Token>, values: seq<Value>, m: nat, start: nat, v: nat := 0): (r: nat)
    requires start + m <= |inp| && v <= |values|
    ensures v <= r <= |values|
    ensures r < |values| ==> values[r].idx == 0 || Occurs(inp, values[r].idx, inp[start..start + m])
    ensures forall u :: v <= u < r ==> values[u].idx != 0 && !Occurs(inp, values[u].idx, inp[start..start + m])
    decreases |values| - v
  {
    if v == |values| || values[v].idx == 0 || Occurs(inp, values[v].idx, inp[start..start + m]) then v
    else SlotFor(inp, values, m, start, v + 1)
  }

  function CountOne(inp: seq<Token>, values: seq<Value>, m: nat, start: nat): (r: seq<Value>)
    requires start + m <= |inp|
    ensures |r| == |values|
  {
    var v := SlotFor(inp, values, m, start);
    if v == |values| then values
    else
      var value := if values[v].idx == 0 then Value(start, 0, ToInt16(m)) else values[v];
      values[v := value.(num := Plus1(value.num))]
  }

  /** Every occurrence of the key from `i` up to the match is counted for the m-gram behind it. */
  function CountOf(inp: seq<Token>, key: seq<Token>, m: nat, values: seq<Value>, i: nat, p: nat): (r: seq<Value>)
    requires p + |key| + m <= |inp|
    ensures |r| == |values|
    decreases p + 1 - i
  {
    if i > p then values
    else CountOf(inp, key, m, if Occurs(inp, i, key) then CountOne(inp, values, m, i + |key|) else values, i + 1, p)
  }

  /** The first of the most frequent values among the first k. */
  function FavouriteOf(values: seq<Value>, k: nat): (b: nat)
    requires 0 < k <= |values|
    ensures b < k && forall v :: 0 <= v < k ==> values[v].num <= values[b].num
    ensures forall v :: 0 <= v < b ==> values[v].num < values[b].num
  {
    if k == 1 then 0
    else
      var b := FavouriteOf(values, k - 1);
      if values[k - 1].num > values[b].num then k - 1 else b
  }

  /** How often the values other than `b` were seen together. */
  function Others(values: seq<Value>, b: nat): (sum: nat)
    requires |values| == MAX_VALUES && b < MAX_VALUES
    ensures sum + values[b].num == values[0].num + values[1].num + values[2].num + values[3].num
  {
    values[0].num + values[1].num + values[2].num + values[3].num - values[b].num
  }

  // ----- drafting -----

  /** How many tokens are drafted when a value was accepted so far. */
  function Clamp(m: nat, accepted: int): (k: nat)
    ensures k <= m
  {
    if accepted < 0 then 0 else if accepted < m then accepted else m
  }

  function CopyOf(c: Config, inp: seq<Token>, p: nat, accepted: int): (draft: seq<Token>)
    requires p + c.Span() <= |inp|
    ensures |draft| == Clamp(c.m, accepted)
  {
    inp[p + c.n..p + c.n + Clamp(c.m, accepted)]
  }

  /** The statistics of the key at `o` are brought up to the match. */
  function UpdateOf(c: Config, keys: seq<Key>, inp: seq<Token>, key: seq<Token>, o: nat, p: nat): (r: seq<Key>)
    requires o < |keys| && |key| == c.n && p + c.Span() <= |inp|
    ensures FourValues(keys) ==> FourValues(r)
  {
    keys[o := keys[o].(values := CountOf(inp, key, c.m, keys[o].values, keys[o].stat, p), stat := p)]
  }

  /** What a match leads to: a draft, unless the key is too rare or its values too mixed. */
  function DraftFromOf(c: Config, s: State, inp: seq<Token>, key: seq<Token>, p: nat): (r: (State, seq<Token>))
    requires FourValues(s.keys) && |key| == c.n && p + c.Span() <= |inp|
    ensures FourValues(r.0.keys) && r.0.sizeLastBegin == s.sizeLastBegin && r.0.idxLastCheck == s.idxLastCheck
  {
    var o := KeyIndex(inp, s.keys, key);
    var hit := HitOf(c.m, s.keys, inp, key, p);
    if c.keyOnly then
      (s.(keys := hit, created := true, keyIdx := o, valueIdx := 0), CopyOf(c, inp, p, hit[o].values[0].accepted))
    else if hit[o].num < c.minHits then (s.(keys := hit), [])
    else
      var ks := UpdateOf(c, hit, inp, key, o, p);
      var values := ks[o].values;
      var b := FavouriteOf(values, MAX_VALUES);
      if Others(values, b) > 0 && values[b].num < 2 * Others(values, b) then (s.(keys := ks), [])
      else (s.(keys := ks, created := true, keyIdx := o, valueIdx := b), CopyOf(c, inp, p, values[b].accepted))
  }

  /** `common_ngram_map_draft`. */
  function DraftOf(c: Config, s: State, inp: seq<Token>, sampled: Token): (r: (State, seq<Token>))
    requires c.n > 0 && FourValues(s.keys) && (|inp| >= 2 * c.n + c.m ==> s.sizeLastBegin <= |inp|)
    ensures FourValues(r.0.keys) && r.0.sizeLastBegin == s.sizeLastBegin
    ensures r.0.idxLastCheck == if |inp| < 2 * c.n + c.m then s.idxLastCheck else |inp|
  {
    var s0 := s.(created := false, keyIdx := 0, valueIdx := 0);
    if |inp| < 2 * c.n + c.m then (s0, [])
    else
      var key := KeyNgram(c.n, inp, sampled);
      var p := SearchOf(c, s, inp, key);
      var s1 := AddHashesOf(c, s0.(idxLastCheck := |inp|), inp);
      if p == 0 then (s1, []) else DraftFromOf(c, s1, inp, key, p)
  }
}
