/** The n-gram cache: how often each token followed each n-gram, updated as a token list grows,
    merged, saved and loaded. */
module NgramCache {
  import opened Common

  const NGRAM_MAX: nat := 4
  const NO_TOKEN := -1

  /** An n-gram, filled up with `NO_TOKEN`. */
  type Ngram = seq<Token>

  type Part = map<Token, nat>

  type Cache = map<Ngram, Part>

  function NgramOf(tokens: seq<Token>): (g: Ngram)
    requires |tokens| <= NGRAM_MAX
    ensures |g| == NGRAM_MAX
  {
    tokens + seq(NGRAM_MAX - |tokens|, _ => NO_TOKEN)
  }

  /** How often the cache says that `t` followed `g`. */
  function Count(c: Cache, g: Ngram, t: Token): (k: nat) {
    if g in c && t in c[g] then c[g][t] else 0
  }

  function PartCount(p: Part, t: Token): nat {
    if t in p then p[t] else 0
  }

  /** Nothing is stored that has not been seen. */
  ghost predicate Clean(c: Cache) {
    forall g :: g in c ==> CleanPart(c[g])
  }

  ghost predicate CleanPart(p: Part) {
    (exists t :: t in p) && (forall t :: t in p ==> p[t] > 0)
  }

  /** A cache without waste is determined by its counts. */
  lemma CountsDetermine(a: Cache, b: Cache)
    requires Clean(a) && Clean(b)
    requires forall g, t :: Count(a, g, t) == Count(b, g, t)
    ensures a == b
  {
    forall g
      ensures g in a <==> g in b
      ensures g in a ==> a[g] == b[g]
    {
      if g in a {
        SamePart(a, b, g);
      } else if g in b {
        SamePart(b, a, g);
      }
    }
  }

  lemma SamePart(a: Cache, b: Cache, g: Ngram)
    requires Clean(a) && Clean(b) && g in a
    requires forall t :: Count(a, g, t) == Count(b, g, t)
    ensures g in b && a[g] == b[g]
  {
    assert CleanPart(a[g]);
    var t0 :| t0 in a[g];
    assert Count(b, g, t0) > 0;
    forall t
      ensures t in a[g] <==> t in b[g]
      ensures t in a[g] ==> a[g][t] == b[g][t]
    {
      assert Count(a, g, t) == Count(b, g, t);
    }
  }

  // ----- true counts -----

  /** For tokens that exist the counts are about the tokens themselves: `t` follows the n-gram of
      a key at just the positions behind an occurrence of the key. */
  lemma FollowsIs(inp: seq<Token>, size: nat, i: nat, key: seq<Token>, t: Token)
    requires size <= NGRAM_MAX && |key| <= NGRAM_MAX && NO_TOKEN !in key && NO_TOKEN !in inp
    ensures Follows(inp, size, i, NgramOf(key), t) <==>
      |key| == size && size <= i < |inp| && inp[i - size..i] == key && inp[i] == t
  {
    if size <= i < |inp| {
      var before := inp[i - size..i];
      assert forall j :: 0 <= j < |before| ==> before[j] in inp;
      NgramsDiffer(before, key);
    }
  }

  /** The tokens of an n-gram. */
  function TokensOf(g: Ngram): (ts: seq<Token>) {
    if g == [] || g[0] == NO_TOKEN then [] else [g[0]] + TokensOf(g[1..])
  }

  lemma {:induction false} TokensStay(ts: seq<Token>, n: nat)
    requires NO_TOKEN !in ts
    ensures TokensOf(ts + seq(n, _ => NO_TOKEN)) == ts
  {
    var g := ts + seq(n, _ => NO_TOKEN);
    if ts != [] {
      TokensStay(ts[1..], n);
      assert g[1..] == ts[1..] + seq(n, _ => NO_TOKEN) && g[0] == ts[0] && ts[0] in ts;
    }
  }

  /** Different keys have different n-grams. */
  lemma NgramsDiffer(a: seq<Token>, b: seq<Token>)
    requires |a| <= NGRAM_MAX && |b| <= NGRAM_MAX && NO_TOKEN !in a && NO_TOKEN !in b
    ensures NgramOf(a) == NgramOf(b) <==> a == b
  {
    TokensStay(a, NGRAM_MAX - |a|);
    TokensStay(b, NGRAM_MAX - |b|);
  }

  /** Token `t` stands at position i of `inp`, right after `g` as its last `size` tokens. */
  predicate Follows(inp: seq<Token>, size: nat, i: nat, g: Ngram, t: Token)
    requires size <= NGRAM_MAX
  {
    size <= i < |inp| && inp[i] == t && NgramOf(inp[i - size..i]) == g
  }

  /** The positions from, ..., upto - 1 where it does. */
  function Positions(inp: seq<Token>, size: nat, from: nat, upto: nat, g: Ngram, t: Token): (s: set<nat>)
    requires size <= NGRAM_MAX
    ensures forall i :: i in s <==> from <= i < upto && Follows(inp, size, i, g, t)
  {
    set i: nat | from <= i < upto && Follows(inp, size, i, g, t)
  }

  function Seen(inp: seq<Token>, size: nat, from: nat, upto: nat, g: Ngram, t: Token): (k: nat)
    requires size <= NGRAM_MAX
  {
    |Positions(inp, size, from, upto, g, t)|
  }

  /** Summed over the n-gram sizes min, ..., upto - 1. */
  function SeenAll(inp: seq<Token>, min: nat, upto: nat, from: nat, g: Ngram, t: Token): (k: nat)
    requires upto <= NGRAM_MAX + 1
    decreases upto
  {
    if upto <= min then 0
    else SeenAll(inp, min, upto - 1, from, g, t) + Seen(inp, upto - 1, from, |inp|, g, t)
  }

  lemma SeenNext(inp: seq<Token>, size: nat, from: nat, upto: nat, g: Ngram, t: Token)
    requires size <= NGRAM_MAX && from <= upto
    ensures Seen(inp, size, from, upto + 1, g, t) ==
            Seen(inp, size, from, upto, g, t) + if Follows(inp, size, upto, g, t) then 1 else 0
  {
    hide Follows, Positions;
    var a := Positions(inp, size, from, upto, g, t);
    var b := Positions(inp, size, from, upto + 1, g, t);
    assert b == if Follows(inp, size, upto, g, t) then a + {upto} else a;
  }

  lemma SeenFromSize(inp: seq<Token>, size: nat, from: nat, start: nat, g: Ngram, t: Token)
    requires size <= NGRAM_MAX && start == if from >= size then from else size
    ensures Seen(inp, size, start, |inp|, g, t) == Seen(inp, size, from, |inp|, g, t)
  {
    hide Positions;
    assert Positions(inp, size, start, |inp|, g, t) == Positions(inp, size, from, |inp|, g, t);
  }

  /** Positions of the longer list are positions of the shorter one or new. */
  lemma SeenSplits(earlier: seq<Token>, inp: seq<Token>, size: nat, from: nat, g: Ngram, t: Token)
    requires size <= NGRAM_MAX && earlier <= inp && from <= |earlier|
    ensures Seen(inp, size, from, |inp|, g, t) ==
            Seen(earlier, size, from, |earlier|, g, t) + Seen(inp, size, |earlier|, |inp|, g, t)
  {
    hide Positions, Follows;
    var all := Positions(inp, size, from, |inp|, g, t);
    var before := Positions(earlier, size, from, |earlier|, g, t);
    var since := Positions(inp, size, |earlier|, |inp|, g, t);
    forall i: nat | i < |earlier|
      ensures Follows(earlier, size, i, g, t) == Follows(inp, size, i, g, t)
    {
      FollowsEarlier(earlier, inp, size, i, g, t);
    }
    assert all == before + since;
    assert before !! since;
  }

  lemma FollowsEarlier(earlier: seq<Token>, inp: seq<Token>, size: nat, i: nat, g: Ngram, t: Token)
    requires size <= NGRAM_MAX && earlier <= inp && i < |earlier|
    ensures Follows(earlier, size, i, g, t) == Follows(inp, size, i, g, t)
  {
    if size <= i {
      assert earlier[i - size..i] == inp[i - size..i];
    }
  }

  lemma {:induction false} SeenAllSplits(earlier: seq<Token>, inp: seq<Token>, min: nat, upto: nat, g: Ngram, t: Token)
    requires upto <= NGRAM_MAX + 1 && earlier <= inp
    ensures SeenAll(inp, min, upto, 0, g, t) ==
            SeenAll(earlier, min, upto, 0, g, t) + SeenAll(inp, min, upto, |earlier|, g, t)
    decreases upto
  {
    hide Seen;
    if upto > min {
      SeenAllSplits(earlier, inp, min, upto - 1, g, t);
      SeenSplits(earlier, inp, upto - 1, 0, g, t);
    }
  }

  // ----- updating -----

  function BumpedPart(p: Part, t: Token): (r: Part)
    ensures forall u :: PartCount(r, u) == PartCount(p, u) + if u == t then 1 else 0
    ensures (forall u :: u in p ==> p[u] > 0) ==> CleanPart(r)
  {
    var r := if t !in p then p[t := 1] else p[t := p[t] + 1];
    assert t in r;
    r
  }

  function Bumped(c: Cache, g: Ngram, t: Token): (r: Cache) {
    c[g := if g !in c then map[t := 1] else BumpedPart(c[g], t)]
  }

  lemma BumpedCounts(c: Cache, g: Ngram, t: Token)
    ensures Clean(c) ==> Clean(Bumped(c, g, t))
    ensures forall h, u :: Count(Bumped(c, g, t), h, u) == Count(c, h, u) + if h == g && u == t then 1 else 0
  {
    var r := Bumped(c, g, t);
    assert t in r[g];
    forall h, u
      ensures Count(r, h, u) == Count(c, h, u) + if h == g && u == t then 1 else 0
    {
      if h == g && g in c {
        assert PartCount(r[g], u) == PartCount(c[g], u) + if u == t then 1 else 0;
      }
    }
  }

  /** The counts have grown by what is in the last `nNew` positions. */
  ghost predicate Updated(was: Cache, now: Cache, min: nat, max: nat, inp: seq<Token>, nNew: nat)
    requires max <= NGRAM_MAX
  {
    && Clean(now)
    && forall g, t :: Count(now, g, t) ==
         Count(was, g, t) + SeenAll(inp, min, max + 1, if nNew <= |inp| then |inp| - nNew else 0, g, t)
  }

  /** `common_ngram_cache_update`. */
  method Update(cache: Cache, min: nat, max: nat, inp: seq<Token>, nNew: nat) returns (r: Cache)
    requires min <= max <= NGRAM_MAX && Clean(cache)
    ensures Updated(cache, r, min, max, inp, nNew)
  {
    hide Seen, Count, Clean;
    r := cache;
    ghost var from := if nNew <= |inp| then |inp| - nNew else 0;
    for size := min to max + 1
      invariant Clean(r)
      invariant forall g, t :: Count(r, g, t) == Count(cache, g, t) + SeenAll(inp, min, size, from, g, t)
    {
      ghost var before := r;
      r := UpdateSize(r, size, inp, nNew);
    }
  }

  method UpdateSize(cache: Cache, size: nat, inp: seq<Token>, nNew: nat) returns (r: Cache)
    requires size <= NGRAM_MAX && Clean(cache)
    ensures Clean(r)
    ensures
      var from := if nNew <= |inp| then |inp| - nNew else 0;
      forall g, t :: Count(r, g, t) == Count(cache, g, t) + Seen(inp, size, from, |inp|, g, t)
  {
    hide Seen, Count, Clean, Bumped, Follows;
    var start := if |inp| - nNew >= size then |inp| - nNew else size;
    r := cache;
    var i := start;
    forall g, t
      ensures Seen(inp, size, start, start, g, t) == 0
    {
      SeenNone(inp, size, start, g, t);
    }
    while i < |inp|
      invariant start <= i && (i <= |inp| || i == start) && Clean(r)
      invariant forall g, t :: Count(r, g, t) == Count(cache, g, t) + Seen(inp, size, start, i, g, t)
    {
      var ngram := NgramOf(inp[i - size..i]);
      ghost var before := r;
      BumpedCounts(r, ngram, inp[i]);
      r := Bumped(r, ngram, inp[i]);
      forall g, t
        ensures Count(r, g, t) == Count(cache, g, t) + Seen(inp, size, start, i + 1, g, t)
      {
        SeenNext(inp, size, start, i, g, t);
        FollowsHere(inp, size, i, g, t);
      }
      i := i + 1;
    }
    forall g, t
      ensures Count(r, g, t) == Count(cache, g, t) + Seen(inp, size, if nNew <= |inp| then |inp| - nNew else 0, |inp|, g, t)
    {
      SeenFromSize(inp, size, if nNew <= |inp| then |inp| - nNew else 0, start, g, t);
      if start > |inp| {
        SeenBeyond(inp, size, start, g, t);
      }
    }
  }

  lemma SeenNone(inp: seq<Token>, size: nat, at: nat, g: Ngram, t: Token)
    requires size <= NGRAM_MAX
    ensures Seen(inp, size, at, at, g, t) == 0
  {
    hide Follows, Positions;
    assert Positions(inp, size, at, at, g, t) == {};
  }

  lemma SeenBeyond(inp: seq<Token>, size: nat, start: nat, g: Ngram, t: Token)
    requires size <= NGRAM_MAX && start > |inp|
    ensures Seen(inp, size, start, |inp|, g, t) == 0
  {
    hide Follows, Positions;
    assert Positions(inp, size, start, |inp|, g, t) == {};
  }

  lemma FollowsHere(inp: seq<Token>, size: nat, i: nat, g: Ngram, t: Token)
    requires size <= NGRAM_MAX && size <= i < |inp|
    ensures Follows(inp, size, i, g, t) <==> NgramOf(inp[i - size..i]) == g && inp[i] == t
  {}

  // ----- chunks -----

  /** The cache holds the true counts of `inp`. */
  ghost predicate Counts(c: Cache, min: nat, max: nat, inp: seq<Token>)
    requires max <= NGRAM_MAX
  {
    Clean(c) && forall g, t :: Count(c, g, t) == SeenAll(inp, min, max + 1, 0, g, t)
  }

  /** `caches[k + 1]` comes from `caches[k]` by an update with `inps[k]`, which only adds tokens
      to the list of the update before. */
  ghost predicate Chunks(caches: seq<Cache>, inps: seq<seq<Token>>, min: nat, max: nat)
    requires max <= NGRAM_MAX
  {
    && |caches| == |inps| + 1 && caches[0] == map[]
    && forall k :: 0 <= k < |inps| ==> Chunk(caches[k], caches[k + 1], if k == 0 then [] else inps[k - 1], inps[k], min, max)
  }

  ghost predicate Chunk(was: Cache, now: Cache, earlier: seq<Token>, inp: seq<Token>, min: nat, max: nat)
    requires max <= NGRAM_MAX
  {
    earlier <= inp && Updated(was, now, min, max, inp, |inp| - |earlier|)
  }

  lemma ChunkCounts(was: Cache, now: Cache, earlier: seq<Token>, inp: seq<Token>, min: nat, max: nat)
    requires max <= NGRAM_MAX && Counts(was, min, max, earlier) && Chunk(was, now, earlier, inp, min, max)
    ensures Counts(now, min, max, inp)
  {
    hide Count, SeenAll, Clean;
    forall g: Ngram, t: Token
      ensures Count(now, g, t) == SeenAll(inp, min, max + 1, 0, g, t)
    {
      SeenAllSplits(earlier, inp, min, max + 1, g, t);
    }
  }

  lemma EmptyCounts(min: nat, max: nat)
    requires max <= NGRAM_MAX
    ensures Counts(map[], min, max, [])
  {
    forall g: Ngram, t: Token
      ensures Count(map[], g, t) == SeenAll([], min, max + 1, 0, g, t)
    {
      NothingSeen(min, max + 1, g, t);
    }
  }

  lemma {:induction false} NothingSeen(min: nat, upto: nat, g: Ngram, t: Token)
    requires upto <= NGRAM_MAX + 1
    ensures SeenAll([], min, upto, 0, g, t) == 0
    decreases upto
  {
    hide Seen;
    if upto > min {
      NothingSeen(min, upto - 1, g, t);
      SeenNone([], upto - 1, 0, g, t);
    }
  }

  /** Whatever the chunks, the cache ends with the true counts of the whole list. */
  lemma {:induction false} ChunksCount(caches: seq<Cache>, inps: seq<seq<Token>>, min: nat, max: nat)
    requires max <= NGRAM_MAX && Chunks(caches, inps, min, max)
    ensures Counts(caches[|inps|], min, max, if inps == [] then [] else inps[|inps| - 1])
    decreases |inps|
  {
    hide Counts, Chunk;
    var n := |inps|;
    if n == 0 {
      EmptyCounts(min, max);
    } else {
      ChunksCount(caches[..n], inps[..n - 1], min, max);
      assert Chunk(caches[n - 1], caches[n], if n == 1 then [] else inps[n - 2], inps[n - 1], min, max);
      ChunkCounts(caches[n - 1], caches[n], if n == 1 then [] else inps[n - 2], inps[n - 1], min, max);
    }
  }

  /** So it is the very cache that one pass over the list makes. */
  lemma ChunksAreOnePass(caches: seq<Cache>, inps: seq<seq<Token>>, min: nat, max: nat, once: Cache)
    requires max <= NGRAM_MAX && Chunks(caches, inps, min, max) && inps != []
    requires Updated(map[], once, min, max, inps[|inps| - 1], |inps[|inps| - 1]|)
    ensures caches[|inps|] == once
  {
    hide SeenAll, Clean;
    ChunksCount(caches, inps, min, max);
    CountsDetermine(caches[|inps|], once);
  }

  // ----- merging -----

  /** Some element: the order in which a hash map is walked is not known. */
  method AnyOf<T(==)>(s: set<T>) returns (x: T)
    requires s != {}
    ensures x in s
  {
    x :| x in s;
  }

  /** The counts of `r` for `g` are those of `a` and `b` together. */
  ghost predicate AddsUp(r: Cache, a: Cache, b: Cache, g: Ngram) {
    forall t :: Count(r, g, t) == Count(a, g, t) + Count(b, g, t)
  }

  lemma ReplacedAddsUp(before: Cache, target: Cache, add: Cache, g: Ngram, part: Part)
    requires g in add && if g in target then forall t :: PartCount(part, t) == PartCount(target[g], t) + PartCount(add[g], t)
                         else part == add[g]
    ensures AddsUp(before[g := part], target, add, g)
  {
    var r := before[g := part];
    forall t
      ensures Count(r, g, t) == Count(target, g, t) + Count(add, g, t)
    {
      assert g in target ==> PartCount(part, t) == PartCount(target[g], t) + PartCount(add[g], t);
    }
  }

  lemma OthersAddUp(before: Cache, target: Cache, add: Cache, g: Ngram, part: Part, h: Ngram)
    requires h != g && AddsUp(before, target, add, h)
    ensures AddsUp(before[g := part], target, add, h)
  {
    var r := before[g := part];
    forall t
      ensures Count(r, h, t) == Count(before, h, t)
    {}
  }

  /** `common_ngram_cache_merge`: the counts are added, in whatever order the maps are walked. */
  method Merge(target: Cache, add: Cache) returns (r: Cache)
    requires Clean(target) && Clean(add)
    ensures Clean(r)
    ensures forall g, t :: Count(r, g, t) == Count(target, g, t) + Count(add, g, t)
  {
    r := target;
    var left := add.Keys;
    while left != {}
      invariant left <= add.Keys && Clean(r)
      invariant forall g :: g !in left ==> AddsUp(r, target, add, g)
      invariant forall g :: g in left ==> (g in r <==> g in target) && (g in r ==> r[g] == target[g])
      decreases |left|
    {
      hide CleanPart, AddsUp, Count;
      var g := AnyOf(left);
      ghost var before := r;
      var part := add[g];
      if g in r {
        part := MergePart(r[g], add[g]);
      }
      r := r[g := part];
      forall h | h !in left - {g}
        ensures AddsUp(r, target, add, h)
      {
        if h == g {
          ReplacedAddsUp(before, target, add, g, part);
        } else {
          assert AddsUp(before, target, add, h);
          OthersAddUp(before, target, add, g, part, h);
        }
      }
      left := left - {g};
    }
    forall g, t
      ensures Count(r, g, t) == Count(target, g, t) + Count(add, g, t)
    {
      assert AddsUp(r, target, add, g);
    }
  }

  method MergePart(target: Part, add: Part) returns (r: Part)
    requires CleanPart(target) && CleanPart(add)
    ensures CleanPart(r) && forall t :: PartCount(r, t) == PartCount(target, t) + PartCount(add, t)
  {
    r := target;
    var left := add.Keys;
    while left != {}
      invariant left <= add.Keys && CleanPart(r)
      invariant forall t :: PartCount(r, t) == PartCount(target, t) + if t in left then 0 else PartCount(add, t)
      decreases |left|
    {
      var t := AnyOf(left);
      if t !in r {
        r := r[t := add[t]];
      } else {
        r := r[t := r[t] + add[t]];
      }
      assert t in r;
      left := left - {t};
    }
  }

  // ----- saving and loading -----

  /** One n-gram and its counts, in the order they are written. */
  datatype Record = Record(ngram: Ngram, counts: seq<(Token, nat)>)

  function PairWords(ps: seq<(Token, nat)>): (ws: seq<int>)
    ensures |ws| == 2 * |ps|
  {
    if ps == [] then [] else [ps[0].0, ps[0].1] + PairWords(ps[1..])
  }

  function RecordWords(r: Record): (ws: seq<int>) {
    r.ngram + [|r.counts|] + PairWords(r.counts)
  }

  /** The file as 32-bit words. */
  function File(rs: seq<Record>): (ws: seq<int>) {
    if rs == [] then [] else RecordWords(rs[0]) + File(rs[1..])
  }

  lemma {:induction false} PairsLieAt(ps: seq<(Token, nat)>, i: nat)
    requires i < |ps|
    ensures PairWords(ps)[2 * i] == ps[i].0 && PairWords(ps)[2 * i + 1] == ps[i].1
  {
    if i > 0 {
      PairsLieAt(ps[1..], i - 1);
      assert PairWords(ps)[2 * i] == PairWords(ps[1..])[2 * (i - 1)];
      assert PairWords(ps)[2 * i + 1] == PairWords(ps[1..])[2 * (i - 1) + 1];
    }
  }

  lemma {:induction false} FileJoins(a: seq<Record>, b: seq<Record>)
    ensures File(a + b) == File(a) + File(b)
  {
    hide RecordWords;
    if a == [] {
      assert a + b == b;
    } else {
      assert (a + b)[1..] == a[1..] + b;
      FileJoins(a[1..], b);
    }
  }

  lemma WordAt(r: Record, i: nat)
    requires |r.ngram| == NGRAM_MAX && i < |r.counts|
    ensures |RecordWords(r)| == 5 + 2 * |r.counts|
    ensures RecordWords(r)[5 + 2 * i] == r.counts[i].0 && RecordWords(r)[6 + 2 * i] == r.counts[i].1
  {
    PairsLieAt(r.counts, i);
    hide PairWords;
    assert RecordWords(r)[5 + 2 * i] == PairWords(r.counts)[2 * i];
    assert RecordWords(r)[6 + 2 * i] == PairWords(r.counts)[2 * i + 1];
  }

  lemma RecordHead(r: Record)
    requires |r.ngram| == NGRAM_MAX
    ensures |RecordWords(r)| == 5 + 2 * |r.counts|
    ensures (forall k :: 0 <= k < 4 ==> RecordWords(r)[k] == r.ngram[k]) && RecordWords(r)[4] == |r.counts|
  {
    hide PairWords;
  }

  lemma Embedded(a: seq<int>, words: seq<int>, b: seq<int>)
    ensures |a + words + b| == |a| + |words| + |b|
    ensures forall k :: 0 <= k < |words| ==> (a + words + b)[|a| + k] == words[k]
  {}

  lemma RecordBetween(before: seq<Record>, r: Record, behind: seq<Record>)
    ensures File(before + [r] + behind) == File(before) + RecordWords(r) + File(behind)
  {
    FileJoins(before + [r], behind);
    FileJoins(before, [r]);
    assert File([r]) == RecordWords(r) + File([]) == RecordWords(r);
  }

  /** Where a record lies in a file: behind those before it stand the four tokens of its n-gram, the
      number of its counts, and each token with its count. */
  lemma RecordLiesAt(before: seq<Record>, r: Record, behind: seq<Record>)
    requires |r.ngram| == NGRAM_MAX
    ensures
      var file, at := File(before + [r] + behind), |File(before)|;
      && |file| == at + 5 + 2 * |r.counts| + |File(behind)|
      && (forall k :: 0 <= k < 4 ==> file[at + k] == r.ngram[k]) && file[at + 4] == |r.counts|
      && forall i :: 0 <= i < |r.counts| ==>
           file[at + (5 + 2 * i)] == r.counts[i].0 && file[at + (6 + 2 * i)] == r.counts[i].1
  {
    hide *;
    RecordBetween(before, r, behind);
    var words := RecordWords(r);
    RecordHead(r);
    Embedded(File(before), words, File(behind));
    forall i | 0 <= i < |r.counts|
      ensures words[5 + 2 * i] == r.counts[i].0 && words[6 + 2 * i] == r.counts[i].1
    {
      WordAt(r, i);
    }
  }

  /** `emplace`: the first entry for a key stays. */
  function Emplace<K, V>(m: map<K, V>, k: K, v: V): map<K, V> {
    if k in m then m else m[k := v]
  }

  function PartOf(ps: seq<(Token, nat)>): (p: Part) {
    if ps == [] then map[]
    else Emplace(PartOf(ps[..|ps| - 1]), ps[|ps| - 1].0, ps[|ps| - 1].1)
  }

  function CacheOf(rs: seq<Record>): (c: Cache) {
    if rs == [] then map[]
    else Emplace(CacheOf(rs[..|rs| - 1]), rs[|rs| - 1].ngram, PartOf(rs[|rs| - 1].counts))
  }

  /** The records list this cache: every key once, in some order. */
  ghost predicate Lists(rs: seq<Record>, c: Cache) {
    && CacheOf(rs) == c && |rs| == |c|
    && forall r :: r in rs ==> |r.ngram| == NGRAM_MAX && Listed(r.counts) && Once(r.counts)
  }

  ghost predicate Listed(ps: seq<(Token, nat)>) {
    ps != [] && forall p :: p in ps ==> p.1 > 0
  }

  /** Every token once. */
  predicate Once(ps: seq<(Token, nat)>) {
    |PartOf(ps)| == |ps|
  }

  /** `m` is `whole` without the keys that are left. */
  ghost predicate Without<K(!new), V>(m: map<K, V>, whole: map<K, V>, left: set<K>) {
    && (forall k :: k in m <==> k in whole && k !in left)
    && (forall k :: k in m ==> m[k] == whole[k])
  }

  lemma WithoutNext<K(!new), V>(m: map<K, V>, whole: map<K, V>, left: set<K>, k: K)
    requires Without(m, whole, left) && k in left && k in whole
    ensures Without(Emplace(m, k, whole[k]), whole, left - {k})
  {}

  lemma WithoutNone<K(!new), V>(m: map<K, V>, whole: map<K, V>)
    requires Without(m, whole, {})
    ensures m == whole
  {
    assert forall k :: k in m <==> k in whole;
  }

  lemma WithoutAll<K(!new), V>(whole: map<K, V>)
    ensures Without(map[], whole, whole.Keys)
  {}

  /** The file holds this cache. */
  ghost predicate Holds(file: seq<int>, cache: Cache) {
    exists rs :: file == File(rs) && Lists(rs, cache)
  }

  /** `common_ngram_cache_save`, for whatever order the maps are walked in. */
  method Save(cache: Cache) returns (file: seq<int>)
    requires Clean(cache) && forall g :: g in cache ==> |g| == NGRAM_MAX
    ensures Holds(file, cache)
  {
    hide CleanPart, Listed, Once, PairWords, PartOf, Without, Emplace, File, CacheOf;
    file := [];
    ghost var rs: seq<Record> := [];
    NothingListed();
    var left := cache.Keys;
    WithoutAll(cache);
    while left != {}
      invariant left <= cache.Keys && file == File(rs) && Without(CacheOf(rs), cache, left) && |rs| + |left| == |cache|
      invariant forall r :: r in rs ==> |r.ngram| == NGRAM_MAX && Listed(r.counts) && Once(r.counts)
      decreases |left|
    {
      var g := AnyOf(left);
      var words, n, ps := SavePart(cache[g]);
      var r := Record(g, ps);
      FileSnoc(rs, r);
      CacheSnoc(rs, r);
      WithoutNext(CacheOf(rs), cache, left, g);
      file := file + (g + [n] + words);
      rs := rs + [r];
      left := left - {g};
    }
    WithoutNone(CacheOf(rs), cache);
    assert Lists(rs, cache);
  }

  lemma NothingListed()
    ensures File([]) == [] && CacheOf([]) == map[] && PartOf([]) == map[] && PairWords([]) == []
  {}

  method SavePart(part: Part) returns (words: seq<int>, n: nat, ghost ps: seq<(Token, nat)>)
    requires CleanPart(part)
    ensures words == PairWords(ps) && n == |ps| && PartOf(ps) == part && Listed(ps) && Once(ps)
  {
    hide Without, Emplace, PartOf, PairWords;
    words, n, ps := [], 0, [];
    NothingListed();
    var left := part.Keys;
    WithoutAll(part);
    while left != {}
      invariant left <= part.Keys && words == PairWords(ps) && n == |ps| && Without(PartOf(ps), part, left)
      invariant |ps| + |left| == |part|
      invariant forall p :: p in ps ==> p.1 > 0
      invariant ps == [] ==> left == part.Keys
      decreases |left|
    {
      var t := AnyOf(left);
      PairWordsSnoc(ps, (t, part[t]));
      PartSnoc(ps, (t, part[t]));
      WithoutNext(PartOf(ps), part, left, t);
      words, n := words + [t, part[t]], n + 1;
      ps := ps + [(t, part[t])];
      left := left - {t};
    }
    WithoutNone(PartOf(ps), part);
  }

  lemma PartSnoc(ps: seq<(Token, nat)>, p: (Token, nat))
    ensures PartOf(ps + [p]) == Emplace(PartOf(ps), p.0, p.1)
  {
    assert (ps + [p])[..|ps|] == ps;
  }

  lemma {:induction false} PairWordsSnoc(ps: seq<(Token, nat)>, p: (Token, nat))
    ensures PairWords(ps + [p]) == PairWords(ps) + [p.0, p.1]
  {
    if ps == [] {
      assert ps + [p] == [p];
    } else {
      PairWordsSnoc(ps[1..], p);
      assert (ps + [p])[1..] == ps[1..] + [p];
    }
  }

  lemma {:induction false} FileSnoc(rs: seq<Record>, r: Record)
    ensures File(rs + [r]) == File(rs) + RecordWords(r)
  {
    hide RecordWords;
    if rs == [] {
      assert rs + [r] == [r];
    } else {
      FileSnoc(rs[1..], r);
      assert (rs + [r])[1..] == rs[1..] + [r];
    }
  }

  /** The pairs of a record, or None where the file breaks off or a count is not positive. */
  function ReadPairs(ws: seq<int>, n: nat): (r: Option<seq<(Token, nat)>>)
    ensures r.Some? ==> |r.value| == n && 2 * n <= |ws|
    decreases n
  {
    if n == 0 then Some([])
    else if |ws| < 2 || ws[1] <= 0 then None
    else
      var rest := ReadPairs(ws[2..], n - 1);
      if rest.None? then None else Some([(ws[0], ws[1])] + rest.value)
  }

  /** The records of a file; less than an n-gram at the end counts as the end. */
  function ReadRecords(ws: seq<int>): (r: Option<seq<Record>>)
    decreases |ws|
  {
    if |ws| < NGRAM_MAX then Some([])
    else if |ws| == NGRAM_MAX || ws[NGRAM_MAX] <= 0 then None
    else
      var counts := ReadPairs(ws[NGRAM_MAX + 1..], ws[NGRAM_MAX]);
      if counts.None? then None
      else
        var rest := ReadRecords(ws[NGRAM_MAX + 1 + 2 * ws[NGRAM_MAX]..]);
        if rest.None? then None else Some([Record(ws[..NGRAM_MAX], counts.value)] + rest.value)
  }

  lemma {:induction false} PairsRoundTrip(ps: seq<(Token, nat)>, rest: seq<int>)
    requires forall p :: p in ps ==> p.1 > 0
    ensures ReadPairs(PairWords(ps) + rest, |ps|) == Some(ps)
    decreases |ps|
  {
    if ps == [] {
      NothingListed();
    } else {
      hide PairWords;
      PairAtFront(ps, rest);
      assert ps[0] in ps;
      PairsRoundTrip(ps[1..], rest);
      assert [ps[0]] + ps[1..] == ps;
    }
  }

  lemma PairAtFront(ps: seq<(Token, nat)>, rest: seq<int>)
    requires ps != []
    ensures
      var ws := PairWords(ps) + rest;
      |ws| >= 2 && ws[0] == ps[0].0 && ws[1] == ps[0].1 && ws[2..] == PairWords(ps[1..]) + rest
  {
    var tail := PairWords(ps[1..]);
    assert PairWords(ps) == [ps[0].0, ps[0].1] + tail;
    hide PairWords;
    TwoInFront(ps[0].0, ps[0].1, tail, rest);
  }

  lemma TwoInFront(a: int, b: int, tail: seq<int>, rest: seq<int>)
    ensures var ws := [a, b] + tail + rest; ws[0] == a && ws[1] == b && ws[2..] == tail + rest
  {}

  lemma {:induction false} RecordsRoundTrip(rs: seq<Record>)
    requires forall r :: r in rs ==> |r.ngram| == NGRAM_MAX && Listed(r.counts)
    ensures ReadRecords(File(rs)) == Some(rs)
    decreases |rs|
  {
    hide PairWords, ReadPairs, RecordWords, Listed;
    if rs != [] {
      var r, ws := rs[0], File(rs);
      var rest := File(rs[1..]);
      RecordsRoundTrip(rs[1..]);
      ListedPositive(r.counts);
      PairsRoundTrip(r.counts, rest);
      RecordAtFront(r, rest);
      assert [Record(r.ngram, r.counts)] + rs[1..] == rs;
    }
  }

  lemma ListedPositive(ps: seq<(Token, nat)>)
    requires Listed(ps)
    ensures forall p :: p in ps ==> p.1 > 0
  {}

  /** The first record of a file and where the others start. */
  lemma RecordAtFront(r: Record, rest: seq<int>)
    requires |r.ngram| == NGRAM_MAX && Listed(r.counts)
    ensures
      var ws := RecordWords(r) + rest;
      && |ws| >= NGRAM_MAX + 1 + 2 * |r.counts|
      && ws[..NGRAM_MAX] == r.ngram && ws[NGRAM_MAX] == |r.counts| > 0
      && ws[NGRAM_MAX + 1..] == PairWords(r.counts) + rest
      && ws[NGRAM_MAX + 1 + 2 * |r.counts|..] == rest
  {
    hide PairWords;
    var ws := RecordWords(r) + rest;
    assert ws == r.ngram + ([|r.counts|] + (PairWords(r.counts) + rest));
    assert ws[NGRAM_MAX + 1..] == PairWords(r.counts) + rest;
    assert ws[NGRAM_MAX + 1..][2 * |r.counts|..] == rest;
  }

  /** The rest of a record whose n-gram ends before position `from`. */
  method LoadRecord(file: seq<int>, at: nat) returns (r: Option<Part>, next: nat, ghost ps: seq<(Token, nat)>)
    requires at + NGRAM_MAX <= |file|
    ensures r.None? ==> ReadRecords(file[at..]).None?
    ensures r.Some? ==>
      && at < next <= |file| && r.value == PartOf(ps)
      && ReadRecords(file[at..]) == AfterRecords([Record(file[at..at + NGRAM_MAX], ps)], ReadRecords(file[next..]))
  {
    hide PartOf, ReadPairs;
    ghost var ws := file[at..];
    assert file[at..at + NGRAM_MAX] == ws[..NGRAM_MAX];
    next := at + NGRAM_MAX;
    if next == |file| || file[next] <= 0 {
      return None, next, [];
    }
    var n := file[next];
    next := next + 1;
    assert ws[NGRAM_MAX + 1..] == file[next..];
    r, ps := LoadPart(file, next, n);
    if r.Some? {
      next := next + 2 * n;
      assert ws[NGRAM_MAX + 1 + 2 * n..] == file[next..];
    }
  }

  /** `common_ngram_cache_load`. */
  method Load(file: seq<int>) returns (r: Option<Cache>)
    ensures r == if ReadRecords(file).None? then None else Some(CacheOf(ReadRecords(file).value))
  {
    hide PartOf, CacheOf, ReadRecords, AfterRecords, Emplace;
    NoRecords(file);
    var cache: Cache := map[];
    var at := 0;
    ghost var done: seq<Record> := [];
    assert file[0..] == file;
    AfterNone(ReadRecords(file));
    while |file| - at >= NGRAM_MAX
      invariant at <= |file| && cache == CacheOf(done)
      invariant ReadRecords(file) == AfterRecords(done, ReadRecords(file[at..]))
      decreases |file| - at
    {
      var ngram := file[at..at + NGRAM_MAX];
      var counts, next, ps := LoadRecord(file, at);
      AfterNoRecord(done);
      if counts.None? {
        return None;
      }
      CacheSnoc(done, Record(ngram, ps));
      cache := Emplace(cache, ngram, counts.value);
      AfterOne(done, Record(ngram, ps), ReadRecords(file[next..]));
      done := done + [Record(ngram, ps)];
      at := next;
    }
    NoRecords(file[at..]);
    AfterEnd(done);
    r := Some(cache);
  }

  lemma NoRecords(ws: seq<int>)
    ensures |ws| < NGRAM_MAX ==> ReadRecords(ws) == Some([])
    ensures CacheOf([]) == map[]
  {}

  lemma AfterNoRecord(done: seq<Record>)
    ensures AfterRecords(done, None) == None
  {}

  lemma AfterEnd(done: seq<Record>)
    ensures AfterRecords(done, Some([])) == Some(done)
  {
    assert done + [] == done;
  }

  function AfterRecords(done: seq<Record>, rest: Option<seq<Record>>): Option<seq<Record>> {
    if rest.None? then None else Some(done + rest.value)
  }

  lemma AfterNone(rest: Option<seq<Record>>)
    ensures AfterRecords([], rest) == rest
  {
    if rest.Some? {
      assert [] + rest.value == rest.value;
    }
  }

  lemma AfterOne(done: seq<Record>, r: Record, rest: Option<seq<Record>>)
    ensures AfterRecords(done, AfterRecords([r], rest)) == AfterRecords(done + [r], rest)
  {
    if rest.Some? {
      assert done + ([r] + rest.value) == done + [r] + rest.value;
    }
  }

  lemma CacheSnoc(done: seq<Record>, r: Record)
    ensures CacheOf(done + [r]) == Emplace(CacheOf(done), r.ngram, PartOf(r.counts))
  {
    assert (done + [r])[..|done|] == done;
  }

  method LoadPart(file: seq<int>, from: nat, n: nat) returns (r: Option<Part>, ghost ps: seq<(Token, nat)>)
    requires from <= |file|
    ensures r.Some? <==> ReadPairs(file[from..], n).Some?
    ensures r.Some? ==> ps == ReadPairs(file[from..], n).value && r.value == PartOf(ps)
  {
    var part: Part := map[];
    ps := [];
    AfterNoPair(ReadPairs(file[from..], n));
    for i := 0 to n
      invariant from + 2 * i <= |file| && part == PartOf(ps)
      invariant ReadPairs(file[from..], n) == AfterPairs(ps, ReadPairs(file[from + 2 * i..], n - i))
    {
      ghost var ws := file[from + 2 * i..];
      if |file| < from + 2 * i + 2 || file[from + 2 * i + 1] <= 0 {
        return None, ps;
      }
      var p := (file[from + 2 * i], file[from + 2 * i + 1]);
      assert ws[2..] == file[from + 2 * (i + 1)..];
      assert (ps + [p])[..|ps|] == ps;
      part := Emplace(part, p.0, p.1);
      AfterPair(ps, p, ReadPairs(file[from + 2 * (i + 1)..], n - i - 1));
      ps := ps + [p];
    }
    assert ps + [] == ps;
    r := Some(part);
  }

  function AfterPairs(done: seq<(Token, nat)>, rest: Option<seq<(Token, nat)>>): Option<seq<(Token, nat)>> {
    if rest.None? then None else Some(done + rest.value)
  }

  lemma AfterNoPair(rest: Option<seq<(Token, nat)>>)
    ensures AfterPairs([], rest) == rest
  {
    if rest.Some? {
      assert [] + rest.value == rest.value;
    }
  }

  lemma AfterPair(done: seq<(Token, nat)>, p: (Token, nat), rest: Option<seq<(Token, nat)>>)
    ensures AfterPairs(done, AfterPairs([p], rest)) == AfterPairs(done + [p], rest)
  {
    if rest.Some? {
      assert done + ([p] + rest.value) == done + [p] + rest.value;
    }
  }

  /** Loading what was saved gives the cache back, in whatever order it was written. */
  method SaveThenLoad(cache: Cache) returns (r: Option<Cache>)
    requires Clean(cache) && forall g :: g in cache ==> |g| == NGRAM_MAX
    ensures r == Some(cache)
  {
    hide *;
    var file := Save(cache);
    HoldsOne(file, cache);
    r := Load(file);
  }

  /** A file holds at most one cache, and reading it gives that cache. */
  lemma HoldsOne(file: seq<int>, cache: Cache)
    requires Holds(file, cache)
    ensures ReadRecords(file).Some? && CacheOf(ReadRecords(file).value) == cache
  {
    hide File, CacheOf, ReadRecords, Listed;
    var rs :| file == File(rs) && Lists(rs, cache);
    RecordsRoundTrip(rs);
  }

  /** Where a file may break off.  With `j` whole records left it is read as those records if
      less than an n-gram follows them, and is an error otherwise. */
  lemma {:induction false} CutFile(rs: seq<Record>, j: nat, k: nat)
    requires forall r :: r in rs ==> |r.ngram| == NGRAM_MAX && Listed(r.counts)
    requires j <= |rs| && |File(rs[..j])| <= k <= |File(rs)|
    requires j < |rs| ==> k < |File(rs[..j + 1])|
    ensures ReadRecords(File(rs)[..k]) == if k - |File(rs[..j])| < NGRAM_MAX then Some(rs[..j]) else None
    decreases |rs|
  {
    hide File, RecordWords, Listed, ReadRecords;
    var ws := File(rs)[..k];
    FileNone();
    if j == 0 {
      assert rs[..0] == [];
      NoRecords(ws);
      if rs != [] && k >= NGRAM_MAX {
        FileCons(rs);
        FileCons(rs[..1]);
        assert rs[..1][1..] == [] && rs[..1][0] == rs[0];
        CutRecord(rs[0], File(rs[1..]), k);
      }
    } else {
      var size := |RecordWords(rs[0])|;
      FileCons(rs);
      FileCons(rs[..j]);
      assert rs[..j][1..] == rs[1..][..j - 1];
      if j < |rs| {
        FileCons(rs[..j + 1]);
        assert rs[..j + 1][1..] == rs[1..][..j];
      }
      assert ws == RecordWords(rs[0]) + File(rs[1..])[..k - size];
      CutFile(rs[1..], j - 1, k - size);
      WholeRecord(rs[0], File(rs[1..])[..k - size]);
      assert rs[..j] == [rs[0]] + rs[1..][..j - 1];
    }
  }

  lemma FileNone()
    ensures |File([])| == 0
  {}

  lemma FileCons(rs: seq<Record>)
    requires rs != []
    ensures File(rs) == RecordWords(rs[0]) + File(rs[1..])
  {}

  lemma WholeRecord(r: Record, rest: seq<int>)
    requires |r.ngram| == NGRAM_MAX && Listed(r.counts)
    ensures
      var others := ReadRecords(rest);
      ReadRecords(RecordWords(r) + rest) == if others.None? then None else Some([r] + others.value)
  {
    hide RecordWords, PairWords, ReadPairs, Listed;
    RecordAtFront(r, rest);
    ListedPositive(r.counts);
    PairsRoundTrip(r.counts, rest);
  }

  /** A record that breaks off behind its n-gram. */
  lemma CutRecord(r: Record, rest: seq<int>, k: nat)
    requires |r.ngram| == NGRAM_MAX && Listed(r.counts)
    requires NGRAM_MAX <= k < |RecordWords(r)|
    ensures ReadRecords((RecordWords(r) + rest)[..k]) == None
  {
    hide RecordWords, PairWords, ReadPairs, Listed;
    RecordAtFront(r, rest);
    RecordSize(r);
    var ws := (RecordWords(r) + rest)[..k];
    if k > NGRAM_MAX {
      assert ws[NGRAM_MAX] == |r.counts|;
      assert |ws[NGRAM_MAX + 1..]| < 2 * |r.counts|;
      assert ReadPairs(ws[NGRAM_MAX + 1..], |r.counts|).None?;
    }
  }

  lemma RecordSize(r: Record)
    requires |r.ngram| == NGRAM_MAX
    ensures |RecordWords(r)| == NGRAM_MAX + 1 + 2 * |r.counts|
  {
    PairWordsSize(r.counts);
  }

  lemma {:induction false} PairWordsSize(ps: seq<(Token, nat)>)
    ensures |PairWords(ps)| == 2 * |ps|
  {
    if ps != [] {
      PairWordsSize(ps[1..]);
    }
  }
}
