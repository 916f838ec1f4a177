/** Self-speculative drafting from a map of n-grams, `common_ngram_map`: the methods, each proved
    to compute what `NgramSpec` says, and to keep what is remembered inside the history. */
module NgramMap {
  import opened Common
  import opened NgramSpec
  import opened NgramRuns

  /** Erasing or replacing the last element of a front part. */
  lemma EraseOrReplace<T>(all: seq<T>, i: nat, rest: seq<T>)
    requires i < |all|
    ensures (all[..i + 1] + rest)[i] == all[i]
    ensures (all[..i + 1] + rest)[..i] + (all[..i + 1] + rest)[i + 1..] == all[..i] + rest
    ensures forall x :: (all[..i + 1] + rest)[i := x] == all[..i] + ([x] + rest)
  {}

  class NgramMap {
    const c: Config

    var keys: seq<Key>
    var sizeLastBegin: nat
    var idxLastCheck: nat
    var lastDraftCreated: bool
    var lastDraftKeyIdx: nat
    var lastDraftValueIdx: nat
    var keyMap: seq<nat>
    var keyMapLastIdx: nat

    constructor (c: Config, hashSize: nat)
      requires c.n > 0
      ensures this.c == c && Now() == Start(hashSize) && Valid()
    {
      this.c := c;
      keys, sizeLastBegin, idxLastCheck, keyMapLastIdx := [], 0, 0, 0;
      lastDraftCreated, lastDraftKeyIdx, lastDraftValueIdx := false, 0, 0;
      keyMap := seq(hashSize, _ => 0);
    }

    ghost function Now(): (s: State)
      reads this
    {
      State(keys, sizeLastBegin, idxLastCheck, lastDraftCreated, lastDraftKeyIdx, lastDraftValueIdx, keyMap, keyMapLastIdx)
    }

    ghost predicate Valid()
      reads this
    {
      Sound(c, Now())
    }

    /** The key and slot of the last draft are still there. */
    ghost predicate DraftPending()
      reads this
    {
      lastDraftCreated ==> lastDraftKeyIdx < |keys| && lastDraftValueIdx < MAX_VALUES
    }

    /** `common_ngram_map_begin`. */
    method Begin(tokens: seq<Token>)
      requires Valid()
      modifies this
      ensures Now() == BeginOf(c, old(Now()), |tokens|)
      ensures MayBegin(c, old(sizeLastBegin), old(idxLastCheck), |tokens|) ==> Valid()
    {
      if MayBegin(c, sizeLastBegin, idxLastCheck, |tokens|) {
        BeginSound(c, Now(), |tokens|);
      }
      var size := |tokens|;
      var cut := sizeLastBegin;
      if cut > size {
        cut := if size > c.n + c.m then size - c.n - c.m else 0;
      }
      if |keyMap| > 0 && size < idxLastCheck {
        ClearOutdated(cut);
        keyMapLastIdx := if cut > 0 then cut - 1 else 0;
      }
      if size < idxLastCheck && |keys| > 0 {
        DropKeys(cut);
      }
      idxLastCheck := size;
      sizeLastBegin := size;
    }

    /** Outdated hash entries are cleared. */
    method ClearOutdated(cut: nat)
      modifies this`keyMap
      ensures keyMap == CleanMap(old(keyMap), cut)
    {
      for i := 0 to |keyMap|
        invariant |keyMap| == |old(keyMap)|
        invariant forall h :: 0 <= h < i ==> keyMap[h] == if old(keyMap)[h] >= cut then 0 else old(keyMap)[h]
        invariant forall h :: i <= h < |keyMap| ==> keyMap[h] == old(keyMap)[h]
      {
        if keyMap[i] != 0 && keyMap[i] >= cut {
          keyMap := keyMap[i := 0];
        }
      }
    }

    /** Outdated keys are erased and the values of the others cleaned, from the last key on. */
    method DropKeys(cut: nat)
      requires FourValues(keys)
      modifies this`keys
      ensures keys == CleanKeys(old(keys), c.keyOnly, cut)
    {
      ghost var all := keys;
      ghost var kept: seq<Key> := [];
      var i := |keys|;
      assert all[i..] == [] && all[..i] == all;
      while i > 0
        invariant 0 <= i <= |all| && keys == all[..i] + kept && kept == CleanKeys(all[i..], c.keyOnly, cut)
      {
        i := i - 1;
        CleanKeysStep(all, i, c.keyOnly, cut);
        EraseOrReplace(all, i, kept);
        hide CleanKeys, CleanKey, Survives;
        var keep, key := Examine(keys[i], cut);
        if keep {
          keys := keys[i := key];
          kept := [key] + kept;
        } else {
          keys := keys[..i] + keys[i + 1..];
        }
      }
      assert all[0..] == all;
    }

    /** One key: erased for its position, or cleaned, or erased for want of values. */
    method Examine(key: Key, cut: nat) returns (keep: bool, cleaned: Key)
      requires |key.values| == MAX_VALUES
      ensures keep <==> Survives(key, c.keyOnly, cut)
      ensures keep ==> cleaned == CleanKey(key, c.keyOnly, cut)
    {
      cleaned := key;
      if key.idx >= cut {
        return false, key;
      }
      if c.keyOnly {
        return true, key;
      }
      var values := DropValues(key.values, cut);
      return values[0].idx != 0, key.(values := values);
    }

    method DropValues(values: seq<Value>, cut: nat) returns (r: seq<Value>)
      requires |values| == MAX_VALUES
      ensures r == CleanValues(values, cut, MAX_VALUES)
    {
      r := values;
      var j: nat := MAX_VALUES;
      while j > 0
        invariant j <= MAX_VALUES == |r| && CleanValues(values, cut, MAX_VALUES) == CleanValues(r, cut, j)
      {
        j := j - 1;
        if r[j].idx != 0 && r[j].idx >= cut {
          r := ShiftLeft(r, j);
        }
      }
    }

    method ShiftLeft(values: seq<Value>, j: nat) returns (r: seq<Value>)
      requires j < |values| == MAX_VALUES
      ensures r == DropValue(values, j)
    {
      r := values;
      for k := j to MAX_VALUES - 1
        invariant |r| == MAX_VALUES
        invariant r == values[..j] + values[j + 1..k + 1] + values[k..]
      {
        r := r[k := r[k + 1]];
      }
      r := r[MAX_VALUES - 1 := r[MAX_VALUES - 1].(idx := 0, num := 0)];
    }

    // ----- drafting -----

    method CollectKey(inp: seq<Token>, sampled: Token) returns (key: seq<Token>)
      requires 0 < c.n <= |inp| + 1
      ensures key == KeyNgram(c.n, inp, sampled)
    {
      key := [];
      for j := |inp| - c.n + 1 to |inp|
        invariant key == inp[|inp| - c.n + 1..j]
      {
        key := key + [inp[j]];
      }
      key := key + [sampled];
    }

    static method MatchAt(inp: seq<Token>, p: nat, key: seq<Token>) returns (match_: bool)
      requires p + |key| <= |inp|
      ensures match_ <==> Occurs(inp, p, key)
    {
      match_ := true;
      for k := 0 to |key|
        invariant match_ && inp[p..p + k] == key[..k]
      {
        if inp[p + k] != key[k] {
          match_ := false;
          assert inp[p..p + |key|][k] == inp[p + k];
          break;
        }
        assert inp[p..p + k + 1] == inp[p..p + k] + [inp[p + k]];
      }
    }

    /** Descending search. */
    static method ScanDown(inp: seq<Token>, key: seq<Token>, hi: nat, lo: nat) returns (p: nat)
      requires hi + |key| <= |inp|
      ensures p == LastIn(inp, key, hi, lo)
    {
      p := 0;
      var j: nat := hi;
      while j > lo
        invariant j <= hi && LastIn(inp, key, hi, lo) == LastIn(inp, key, j, lo)
      {
        var found := MatchAt(inp, j, key);
        if found {
          return j;
        }
        j := j - 1;
      }
    }

    static method HashAt(tokens: seq<Token>, start: nat, len: nat) returns (h: nat)
      requires start + len <= |tokens|
      ensures h == Hash(tokens, start, len)
    {
      h := 0;
      for i := 0 to len
        invariant h == Hash(tokens, start, i)
      {
        h := (h * 2654435761 + tokens[start + i]) % 0x1_0000_0000;
      }
    }

    method LookUp(inp: seq<Token>, key: seq<Token>) returns (p: nat)
      requires |key| == c.n && |inp| >= c.Span()
      ensures p == LookUpOf(c, keyMap, inp, key)
    {
      p := 0;
      if |keyMap| > 0 {
        var h := HashAt(key, 0, c.n);
        var e := keyMap[h % |keyMap|];
        if e != 0 && e < |inp| - c.Span() {
          var found := MatchAt(inp, e, key);
          if found {
            p := e;
          }
        }
      }
    }

    /** The hash map, then the history before the last start, then the part behind it. */
    method Search(inp: seq<Token>, key: seq<Token>) returns (p: nat)
      requires |key| == c.n && |inp| >= c.Span() && sizeLastBegin <= |inp|
      ensures p == SearchOf(c, Now(), inp, key)
    {
      p := LookUp(inp, key);
      if p == 0 && sizeLastBegin > c.Span() {
        p := ScanDown(inp, key, sizeLastBegin - c.Span(), keyMapLastIdx);
      }
      if p == 0 {
        p := ScanDown(inp, key, |inp| - c.Span(), Max(sizeLastBegin, keyMapLastIdx));
      }
    }

    /** Positions in (lo, hi] enter the hash map, later ones first, unless the slot is taken. */
    method AddRange(inp: seq<Token>, hi: nat, lo: nat)
      requires |keyMap| > 0 && hi + c.n <= |inp|
      modifies this`keyMap
      ensures keyMap == AddRangeOf(c.n, old(keyMap), inp, hi, lo)
    {
      var j: nat := hi;
      while j > lo
        invariant j <= hi && |keyMap| == |old(keyMap)|
        invariant AddRangeOf(c.n, keyMap, inp, j, lo) == AddRangeOf(c.n, old(keyMap), inp, hi, lo)
      {
        var h := HashAt(inp, j, c.n);
        var slot := h % |keyMap|;
        if keyMap[slot] == 0 {
          keyMap := keyMap[slot := j];
        }
        j := j - 1;
      }
    }

    method AddHashes(inp: seq<Token>)
      requires c.n > 0 && |inp| >= c.Span() && sizeLastBegin <= |inp|
      modifies this`keyMap, this`keyMapLastIdx
      ensures Now() == AddHashesOf(c, old(Now()), inp)
    {
      hide AddRangeOf;
      if |keyMap| > 0 {
        if sizeLastBegin > c.Span() {
          AddRange(inp, sizeLastBegin - c.Span(), keyMapLastIdx);
        }
        AddRange(inp, |inp| - c.Span(), Max(sizeLastBegin, keyMapLastIdx));
        keyMapLastIdx := Max(|inp| - c.Span(), keyMapLastIdx);
      }
    }

    /** The first stored key that reads as `key`, or the number of keys. */
    method FindKey(inp: seq<Token>, key: seq<Token>) returns (offset: nat)
      requires Valid() && |key| == c.n && idxLastCheck == |inp|
      ensures offset == KeyIndex(inp, keys, key)
    {
      assert keys[0..] == keys;
      for i := 0 to |keys|
        invariant KeyIndex(inp, keys, key) == i + KeyIndex(inp, keys[i..], key)
      {
        assert keys[i] in keys && keys[i..][1..] == keys[i + 1..];
        var found := MatchAt(inp, keys[i].idx, key);
        if found {
          return i;
        }
      }
      return |keys|;
    }

    /** The slot for the m-gram at `start`. */
    method FindSlot(inp: seq<Token>, values: seq<Value>, start: nat) returns (slot: nat)
      requires |values| == MAX_VALUES && ValuesFit(values, c.m, |inp|) && start + c.m <= |inp|
      ensures slot == SlotFor(inp, values, c.m, start)
    {
      for v := 0 to MAX_VALUES
        invariant SlotFor(inp, values, c.m, start) == SlotFor(inp, values, c.m, start, v)
      {
        assert values[v] in values;
        if values[v].idx == 0 {
          return v;
        }
        var same := MatchAt(inp, values[v].idx, inp[start..start + c.m]);
        if same {
          return v;
        }
      }
      return MAX_VALUES;
    }

    /** The m-gram at `start` is counted. */
    method CountGram(inp: seq<Token>, values: seq<Value>, start: nat) returns (r: seq<Value>)
      requires |values| == MAX_VALUES && ValuesFit(values, c.m, |inp|) && 0 < start && start + c.m <= |inp|
      ensures r == CountOne(inp, values, c.m, start) && ValuesFit(r, c.m, |inp|)
    {
      r := values;
      var slot := FindSlot(inp, values, start);
      if slot < MAX_VALUES {
        if r[slot].idx == 0 {
          r := r[slot := Value(start, 0, ToInt16(c.m))];
        }
        assert r[slot].idx + c.m <= |inp| by {
          assert r[slot] in r;
        }
        r := r[slot := r[slot].(num := Plus1(r[slot].num))];
      }
    }

    /** The statistics of a key: every occurrence from `stat` up to the match is counted. */
    method CountValues(inp: seq<Token>, key: seq<Token>, values: seq<Value>, stat: nat, matchPos: nat) returns (r: seq<Value>)
      requires c.n > 0 && |key| == c.n && |values| == MAX_VALUES && ValuesFit(values, c.m, |inp|)
      requires matchPos + c.Span() <= |inp|
      ensures r == CountOf(inp, key, c.m, values, stat, matchPos) && ValuesFit(r, c.m, |inp|)
    {
      hide CountOne, Occurs, ValuesFit;
      r := values;
      var i := stat;
      while i <= matchPos
        invariant |r| == MAX_VALUES && ValuesFit(r, c.m, |inp|)
        invariant CountOf(inp, key, c.m, r, i, matchPos) == CountOf(inp, key, c.m, values, stat, matchPos)
        decreases matchPos + 1 - i
      {
        var found := MatchAt(inp, i, key);
        if found {
          r := CountGram(inp, r, i + c.n);
        }
        i := i + 1;
      }
    }

    /** The first most frequent value, and how often the others were seen together. */
    static method Favourite(values: seq<Value>) returns (slot: nat, most: nat, others: nat)
      requires |values| == MAX_VALUES
      ensures slot == FavouriteOf(values, MAX_VALUES) && most == values[slot].num && others == Others(values, slot)
    {
      slot, most := 0, 0;
      for v := 0 to MAX_VALUES
        invariant slot < MAX_VALUES
        invariant if v == 0 then slot == most == 0 else slot == FavouriteOf(values, v) && most == values[slot].num
      {
        if values[v].num > most {
          most, slot := values[v].num, v;
        }
      }
      others := 0;
      for v := 0 to MAX_VALUES
        invariant others == (if v > 0 && slot != 0 then values[0].num else 0) + (if v > 1 && slot != 1 then values[1].num else 0)
                            + (if v > 2 && slot != 2 then values[2].num else 0) + (if v > 3 && slot != 3 then values[3].num else 0)
      {
        if v != slot {
          others := others + values[v].num;
        }
      }
    }

    method CopyDraft(inp: seq<Token>, matchPos: nat, accepted: int) returns (draft: seq<Token>)
      requires matchPos + c.Span() <= |inp|
      ensures draft == CopyOf(c, inp, matchPos, accepted)
    {
      var count := if accepted < c.m then accepted else c.m;
      draft := [];
      var i := 0;
      while i < count
        invariant 0 <= i && (i <= count || i == 0) && draft == inp[matchPos + c.n..matchPos + c.n + i]
      {
        draft := draft + [inp[matchPos + c.n + i]];
        i := i + 1;
      }
    }

    /** `common_ngram_map_draft`.  The history must not be shorter than at the last check. */
    method Draft(inp: seq<Token>, sampled: Token) returns (draft: seq<Token>)
      requires Valid() && |inp| < UINT32_MAX && (|inp| >= 2 * c.n + c.m ==> |inp| >= idxLastCheck)
      modifies this
      ensures (Now(), draft) == DraftOf(c, old(Now()), inp, sampled)
      ensures Valid() && DraftPending()
      ensures MapAgrees(c.n, old(keyMap), inp) ==> MapAgrees(c.n, keyMap, inp)
    {
      hide Sound, SearchOf, AddHashesOf, DraftFromOf, MapAgrees, KeyNgram;
      lastDraftCreated, lastDraftKeyIdx, lastDraftValueIdx := false, 0, 0;
      Forgotten(c, old(Now()), Now());
      draft := [];
      if |inp| < 2 * c.n + c.m {
        return;
      }
      var key := CollectKey(inp, sampled);
      SearchForgets(c, old(Now()), Now(), inp, key);
      var matchPos := Check(inp, key);
      if matchPos != 0 {
        draft := DraftFrom(inp, key, matchPos);
      }
    }

    /** The history is searched for the key, and its n-grams enter the hash map. */
    method Check(inp: seq<Token>, key: seq<Token>) returns (matchPos: nat)
      requires Valid() && |inp| >= idxLastCheck && |inp| >= c.Span() && |key| == c.n
      modifies this`idxLastCheck, this`keyMap, this`keyMapLastIdx
      ensures Valid() && Now() == AddHashesOf(c, old(Now()).(idxLastCheck := |inp|), inp)
      ensures matchPos == SearchOf(c, old(Now()), inp, key)
      ensures matchPos == 0 || Placed(c, Now(), matchPos)
      ensures MapAgrees(c.n, old(keyMap), inp) ==> MapAgrees(c.n, keyMap, inp)
    {
      SearchFinds(c, Now(), inp, key);
      ghost var checked := Now().(idxLastCheck := |inp|);
      CheckedSound(c, Now(), |inp|);
      AddHashesStay(c, checked, inp);
      hide SearchOf, AddHashesOf, Sound, MapAgrees;
      matchPos := Search(inp, key);
      idxLastCheck := |inp|;
      AddHashes(inp);
    }

    /** What a match leads to: a draft, unless the key is too rare or its values too mixed. */
    method DraftFrom(inp: seq<Token>, key: seq<Token>, matchPos: nat) returns (draft: seq<Token>)
      requires Valid() && |key| == c.n && idxLastCheck == |inp| && Placed(c, Now(), matchPos) && matchPos > 0
      requires !lastDraftCreated && lastDraftKeyIdx == lastDraftValueIdx == 0
      modifies this`keys, this`lastDraftCreated, this`lastDraftKeyIdx, this`lastDraftValueIdx
      ensures (Now(), draft) == DraftFromOf(c, old(Now()), inp, key, matchPos)
      ensures Valid() && DraftPending()
    {
      draft := [];
      var offset := HitKey(inp, key, matchPos);
      assert keys[offset] in keys;
      hide HitOf, KeyIndex, Occurs, CopyOf;
      if c.keyOnly {
        draft := DraftValue(inp, matchPos, offset, 0);
      } else if keys[offset].num >= c.minHits {
        UpdateStatistics(inp, key, offset, matchPos);
        assert keys[offset] in keys;
        hide UpdateOf, FavouriteOf, Others, Sound;
        var slot, most, others := Favourite(keys[offset].values);
        if others == 0 || most >= 2 * others {
          draft := DraftValue(inp, matchPos, offset, slot);
        }
      }
    }

    /** The tokens behind the match are drafted for a value of a key. */
    method DraftValue(inp: seq<Token>, matchPos: nat, offset: nat, slot: nat) returns (draft: seq<Token>)
      requires Valid() && offset < |keys| && slot < MAX_VALUES && FourValues(keys) && matchPos + c.Span() <= |inp|
      modifies this`lastDraftCreated, this`lastDraftKeyIdx, this`lastDraftValueIdx
      ensures Now() == old(Now()).(created := true, keyIdx := offset, valueIdx := slot) && Valid()
      ensures draft == CopyOf(c, inp, matchPos, keys[offset].values[slot].accepted)
    {
      draft := CopyDraft(inp, matchPos, keys[offset].values[slot].accepted);
      lastDraftCreated, lastDraftKeyIdx, lastDraftValueIdx := true, offset, slot;
      Forgotten(c, old(Now()), Now());
    }

    /** The key is found or created, and its hits are counted. */
    method HitKey(inp: seq<Token>, key: seq<Token>, matchPos: nat) returns (offset: nat)
      requires Valid() && |key| == c.n && idxLastCheck == |inp| && Placed(c, Now(), matchPos)
      modifies this`keys
      ensures Valid() && offset == KeyIndex(inp, old(keys), key) && keys == HitOf(c.m, old(keys), inp, key, matchPos)
    {
      offset := FindKey(inp, key);
      hide KeyIndex, Occurs;
      if offset == |keys| {
        keys := keys + [NewKey(c.m, matchPos)];
      }
      var k := keys[offset];
      assert k in keys;
      keys := keys[offset := k.(num := Plus1(k.num))];
    }

    method UpdateStatistics(inp: seq<Token>, key: seq<Token>, offset: nat, matchPos: nat)
      requires Valid() && !c.keyOnly && |key| == c.n && idxLastCheck == |inp| && Placed(c, Now(), matchPos) && offset < |keys|
      modifies this`keys
      ensures Valid() && keys == UpdateOf(c, old(keys), inp, key, offset, matchPos)
    {
      var k := keys[offset];
      assert k in keys;
      var values := CountValues(inp, key, k.values, k.stat, matchPos);
      hide CountOf, ValuesFit;
      keys := keys[offset := k.(values := values, stat := matchPos)];
    }

    /** `common_ngram_map_accept`: the chosen value remembers how much of it was accepted. */
    method Accept(accepted: nat)
      requires Valid() && DraftPending()
      modifies this`keys
      ensures Valid() && DraftPending() && |keys| == |old(keys)|
      ensures forall i :: 0 <= i < |keys| && !(lastDraftCreated && i == lastDraftKeyIdx) ==> keys[i] == old(keys)[i]
      ensures lastDraftCreated ==>
        var k := old(keys)[lastDraftKeyIdx];
        keys[lastDraftKeyIdx] == k.(values := k.values[lastDraftValueIdx := k.values[lastDraftValueIdx].(accepted := ToInt16(accepted))])
    {
      if lastDraftCreated {
        var k := keys[lastDraftKeyIdx];
        assert k in keys;
        var v := k.values[lastDraftValueIdx];
        assert v in k.values;
        keys := keys[lastDraftKeyIdx := k.(values := k.values[lastDraftValueIdx := v.(accepted := ToInt16(accepted))])];
      }
    }
  }

  /** Calls after which a value is kept whose m tokens are not all in the history any more: a
      draft, a start with ten tokens, a draft, and a start with the same ten tokens. */
  method KeepTooMuch() returns (map_: NgramMap)
    ensures fresh(map_) && !map_.c.keyOnly && map_.idxLastCheck == 10
    ensures |map_.keys| == 1 && |map_.keys[0].values| == MAX_VALUES
    ensures var v := map_.keys[0].values[1]; v.idx != 0 && v.idx + map_.c.m > map_.idxLastCheck
  {
    ShortenedRun();
    hide DraftOf, Sound;
    var ten := LATER[..10];
    map_ := new NgramMap(TWO_TWO, HASH_MAP_SIZE);
    var draft := map_.Draft(AT_FIRST, 34383);
    map_.Begin(ten);
    draft := map_.Draft(LATER, 34383);
    map_.Begin(ten);
  }
}
