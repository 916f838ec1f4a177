/** Partial matching by reversal: `regex_to_reversed_partial_regex` rewrites a pattern into
    one that, run over the reversed input, recognises a final piece of the input that could
    be the beginning of a match.

    Patterns are trees here and regular expressions denote languages; which characters a
    single-character symbol (`a`, `\d`, `[x-z]`, `.`) matches is the engine's business and
    is given by `m`. */
module RegexPartial {
  import opened Common

  type Matcher = (string, char) -> bool

  /** A reluctant quantifier counts like the greedy one. */
  datatype Quant =
    | Once | Maybe | Star | Plus
    | LazyMaybe | LazyStar | LazyPlus
    | Times(min: nat, max: Limit)
  datatype Base = Symbol(text: string) | Sub(branches: seq<Branch>)
  datatype Item = Item(base: Base, quant: Quant)
  datatype Branch = Branch(items: seq<Item>)

  // ----- words -----

  function Rev(w: string): (r: string)
    ensures |r| == |w|
  {
    if w == "" then "" else Rev(w[1..]) + [w[0]]
  }

  lemma Regroup<T>(a: seq<T>, b: seq<T>, c: seq<T>)
    ensures (a + b) + c == a + (b + c)
  {}

  lemma {:induction false} ConcatAppend(a: seq<string>, b: seq<string>)
    ensures Concat(a + b) == Concat(a) + Concat(b)
  {
    if a == [] {
      assert a + b == b;
    } else {
      ConcatAppend(a[1..], b);
      assert (a + b)[1..] == a[1..] + b;
      Regroup(a[0], Concat(a[1..]), Concat(b));
    }
  }

  lemma {:induction false} RevAppend(a: string, b: string)
    ensures Rev(a + b) == Rev(b) + Rev(a)
  {
    if a == "" {
      assert a + b == b;
    } else {
      RevAppend(a[1..], b);
      assert (a + b)[1..] == a[1..] + b;
      Regroup(Rev(b), Rev(a[1..]), [a[0]]);
    }
  }

  lemma {:induction false} RevTwice(a: string)
    ensures Rev(Rev(a)) == a
  {
    if a != "" {
      RevTwice(a[1..]);
      RevAppend(Rev(a[1..]), [a[0]]);
    }
  }

  // ----- what a pattern matches -----

  predicate CountOk(q: Quant, k: nat) {
    match q
    case Once => k == 1
    case Maybe | LazyMaybe => k <= 1
    case Star | LazyStar => true
    case Plus | LazyPlus => k >= 1
    case Times(min, max) => min <= k && (max.AtMost? ==> k <= max.n)
  }

  ghost predicate MatchBase(m: Matcher, b: Base, w: string)
    decreases b, 0
  {
    match b
    case Symbol(text) => |w| == 1 && m(text, w[0])
    case Sub(branches) => MatchAny(m, branches, w)
  }

  ghost predicate MatchItem(m: Matcher, item: Item, w: string)
    decreases item, 0
  {
    exists ws: seq<string> :: CountOk(item.quant, |ws|) && Concat(ws) == w
                              && forall i :: 0 <= i < |ws| ==> MatchBase(m, item.base, ws[i])
  }

  ghost predicate MatchSeq(m: Matcher, items: seq<Item>, w: string)
    decreases items, 1
  {
    if items == [] then w == ""
    else exists k :: 0 <= k <= |w| && MatchItem(m, items[0], w[..k]) && MatchSeq(m, items[1..], w[k..])
  }

  /** `w` is matched by one of the alternatives. */
  ghost predicate MatchAny(m: Matcher, branches: seq<Branch>, w: string)
    decreases branches, 1
  {
    exists i :: 0 <= i < |branches| && MatchSeq(m, branches[i].items, w)
  }

  // ----- regular expressions, the target of the rewriting -----

  datatype Rx =
    | Atom(text: string)
    | Void
    | Cat(first: Rx, second: Rx)
    | Or(left: Rx, right: Rx)
    | Quantified(body: Rx, quant: Quant)

  ghost predicate In(m: Matcher, r: Rx, w: string)
    decreases r
  {
    match r
    case Atom(text) => |w| == 1 && m(text, w[0])
    case Void => false
    case Cat(first, second) => exists k :: 0 <= k <= |w| && In(m, first, w[..k]) && In(m, second, w[k..])
    case Or(left, right) => In(m, left, w) || In(m, right, w)
    case Quantified(body, q) =>
      exists ws: seq<string> :: CountOk(q, |ws|) && Concat(ws) == w
                                && forall i :: 0 <= i < |ws| ==> In(m, body, ws[i])
  }

  // ----- the rewriting -----

  /** The parts one quantified item contributes: `x{2,4}` becomes `x`, `x`, `x?`, `x?`. */
  function Copies<T>(x: T, n: nat): (xs: seq<T>)
    ensures |xs| == n && forall i :: 0 <= i < n ==> xs[i] == x
  {
    seq(n, _ => x)
  }

  /** The quantifiers of those parts; a reluctant star becomes eager. */
  function Unfold(q: Quant): (qs: seq<Quant>) {
    if q.LazyStar? then [Star]
    else if !q.Times? then [q]
    else
      Copies(Once, q.min)
      + if q.max.NoLimit? then [Star]
        else if q.max.n >= q.min then Copies(Maybe, q.max.n - q.min) else []
  }

  function PartsOf(item: Item): (ps: seq<Rx>)
    ensures |ps| == |Unfold(item.quant)|
    decreases item, 0
  {
    var base := Reversed(item.base);
    var qs := Unfold(item.quant);
    seq(|qs|, i requires 0 <= i < |qs| => Quantified(base, qs[i]))
  }

  function PartsOfAll(items: seq<Item>): (ps: seq<Rx>)
    decreases items, 1
  {
    if items == [] then [] else PartsOf(items[0]) + PartsOfAll(items[1..])
  }

  /** `abc` becomes `((c)?b)?a`. */
  function Chain(parts: seq<Rx>): (r: Rx)
    requires parts != []
  {
    if |parts| == 1 then parts[0]
    else Cat(Quantified(Chain(parts[1..]), Maybe), parts[0])
  }

  /** No alternative is without parts; on such an alternative the source's loop bound wraps. */
  predicate Rewritable(branches: seq<Branch>)
    decreases branches, 1
  {
    forall i :: 0 <= i < |branches| ==> PartsOfAll(branches[i].items) != [] && RewritableItems(branches[i].items)
  }

  predicate RewritableItems(items: seq<Item>)
    decreases items, 1
  {
    items == [] || (RewritableItem(items[0]) && RewritableItems(items[1..]))
  }

  predicate RewritableItem(item: Item)
    decreases item, 0
  {
    RewritableBase(item.base)
  }

  predicate RewritableBase(b: Base)
    decreases b, 0
  {
    b.Sub? ==> Rewritable(b.branches)
  }

  function Reversed(b: Base): (r: Rx)
    decreases b, 0
  {
    match b
    case Symbol(text) => Atom(text)
    case Sub(branches) => ReversedAny(branches)
  }

  /** The pattern inside the capturing group of the result. */
  function ReversedAny(branches: seq<Branch>): (r: Rx)
    decreases branches, 1
  {
    if branches == [] then Void
    else
      var parts := PartsOfAll(branches[0].items);
      var rest := ReversedAny(branches[1..]);
      if parts == [] then rest
      else Or(Chain(parts), rest)
  }

  // ----- counting copies -----

  function Join<T>(gs: seq<seq<T>>): (s: seq<T>) {
    if gs == [] then [] else gs[0] + Join(gs[1..])
  }

  ghost predicate CountsOk<T>(qs: seq<Quant>, gs: seq<seq<T>>) {
    |gs| == |qs| && forall i :: 0 <= i < |qs| ==> CountOk(qs[i], |gs[i]|)
  }

  lemma {:induction false} JoinCounts<T>(qs: seq<Quant>, gs: seq<seq<T>>, lo: nat, hi: nat)
    requires CountsOk(qs, gs)
    requires |qs| == lo + hi
    requires forall i :: 0 <= i < lo ==> qs[i] == Once
    requires forall i :: lo <= i < lo + hi ==> qs[i] == Maybe
    ensures lo <= |Join(gs)| <= lo + hi
  {
    if qs != [] {
      if lo > 0 {
        assert CountOk(qs[0], |gs[0]|);
        JoinCounts(qs[1..], gs[1..], lo - 1, hi);
      } else {
        assert CountOk(qs[0], |gs[0]|);
        JoinCounts(qs[1..], gs[1..], lo, hi - 1);
      }
    }
  }

  lemma {:induction false} JoinAppend<T>(a: seq<seq<T>>, b: seq<seq<T>>)
    ensures Join(a + b) == Join(a) + Join(b)
  {
    if a == [] {
      assert a + b == b;
    } else {
      JoinAppend(a[1..], b);
      assert (a + b)[1..] == a[1..] + b;
      Regroup(a[0], Join(a[1..]), Join(b));
    }
  }

  /** Copies of the parts add up to an allowed number of copies of the item ... */
  lemma UnfoldSound<T>(q: Quant, gs: seq<seq<T>>)
    requires CountsOk(Unfold(q), gs)
    requires q.Times? && q.max.AtMost? ==> q.min <= q.max.n
    ensures CountOk(q, |Join(gs)|)
  {
    var qs := Unfold(q);
    if !q.Times? {
      assert CountOk(qs[0], |gs[0]|);
      JoinOne(gs[0]);
      assert gs == [gs[0]];
      hide Join;
    } else {
      var n := q.min;
      JoinCounts(qs[..n], gs[..n], n, 0);
      assert gs == gs[..n] + gs[n..];
      JoinAppend(gs[..n], gs[n..]);
      if q.max.AtMost? {
        JoinCounts(qs, gs, n, q.max.n - n);
      }
      hide Join;
    }
  }

  function Chunk<T>(ws: seq<T>, i: nat): (g: seq<T>) {
    if i < |ws| then [ws[i]] else []
  }

  lemma {:induction false} JoinChunks<T>(ws: seq<T>, n: nat)
    ensures Join(seq(n, i requires 0 <= i < n => Chunk(ws, i))) == if n <= |ws| then ws[..n] else ws
  {
    var gs := seq(n, i requires 0 <= i < n => Chunk(ws, i));
    if n > 0 {
      JoinChunks(ws, n - 1);
      assert gs[..n - 1] == seq(n - 1, i requires 0 <= i < n - 1 => Chunk(ws, i));
      assert gs == gs[..n - 1] + [Chunk(ws, n - 1)];
      JoinAppend(gs[..n - 1], [Chunk(ws, n - 1)]);
      JoinOne(Chunk(ws, n - 1));
      hide Join;
    }
  }

  /** ... and every allowed number of copies can be dealt out to the parts. */
  lemma UnfoldComplete<T>(q: Quant, ws: seq<T>) returns (gs: seq<seq<T>>)
    requires CountOk(q, |ws|)
    ensures CountsOk(Unfold(q), gs) && Join(gs) == ws
  {
    if !q.Times? {
      gs := [ws];
      JoinOne(ws);
    } else {
      var n := if q.max.AtMost? then q.max.n else q.min;
      gs := seq(n, i requires 0 <= i < n => Chunk(ws, i));
      JoinChunks(ws, n);
      hide Join;
      if q.max.NoLimit? {
        JoinTwo(gs, ws[..n], ws[n..]);
        assert ws == ws[..n] + ws[n..];
        gs := gs + [ws[n..]];
      }
      ChunksCount(q, ws, gs);
    }
  }

  lemma ChunksCount<T>(q: Quant, ws: seq<T>, gs: seq<seq<T>>)
    requires q.Times? && CountOk(q, |ws|)
    requires
      var n := if q.max.AtMost? then q.max.n else q.min;
      var chunks := seq(n, i requires 0 <= i < n => Chunk(ws, i));
      gs == if q.max.AtMost? then chunks else chunks + [ws[n..]]
    ensures CountsOk(Unfold(q), gs)
  {}

  lemma JoinTwo<T>(gs: seq<seq<T>>, a: seq<T>, b: seq<T>)
    requires Join(gs) == a
    ensures Join(gs + [b]) == a + b
  {
    JoinAppend(gs, [b]);
    JoinOne(b);
  }

  lemma JoinOne<T>(ws: seq<T>)
    ensures Join([ws]) == ws
  {
    assert [ws][1..] == [];
    assert Join([ws]) == ws + [];
  }

  lemma {:induction false} ConcatJoin(gs: seq<seq<string>>)
    ensures Concat(Join(gs)) == Concat(Concats(gs))
  {
    if gs != [] {
      ConcatJoin(gs[1..]);
      ConcatAppend(gs[0], Join(gs[1..]));
      assert Concats(gs)[1..] == Concats(gs[1..]);
    }
  }

  function Concats(gs: seq<seq<string>>): (vs: seq<string>)
  {
    seq(|gs|, i requires 0 <= i < |gs| => Concat(gs[i]))
  }

  // ----- nothing is missed -----

  /** A beginning of `w`, not empty unless `w` is. */
  predicate Opening(u: string, w: string) {
    u <= w && (u != "" || w == "")
  }

  /** `r` accepts the reverse of every opening of `w`. */
  ghost predicate Covers(m: Matcher, r: Rx, w: string) {
    forall u :: Opening(u, w) ==> In(m, r, Rev(u))
  }

  ghost predicate BaseComplete(m: Matcher, b: Base) {
    forall w :: MatchBase(m, b, w) ==> Covers(m, Reversed(b), w)
  }

  lemma CoversAt(m: Matcher, r: Rx, w: string, u: string)
    requires Covers(m, r, w) && Opening(u, w)
    ensures In(m, r, Rev(u))
  {}

  /** An opening that reaches beyond the first word is that word and an opening of the rest. */
  lemma CutOpening(v: string, rest: string, u: string) returns (u': string)
    requires Opening(u, v + rest) && |u| > |v|
    ensures u == v + u' && Opening(u', rest)
  {
    u' := u[|v|..];
    assert u == (v + rest)[..|u|];
    assert u' == rest[..|u'|];
  }

  /** The reverse of an opening of a run of words is a run of the same kind. */
  lemma {:induction false} ReversedRun(m: Matcher, r: Rx, ws: seq<string>, u: string) returns (vs: seq<string>)
    requires forall i :: 0 <= i < |ws| ==> Covers(m, r, ws[i])
    requires Opening(u, Concat(ws))
    ensures Concat(vs) == Rev(u) && forall i :: 0 <= i < |vs| ==> In(m, r, vs[i])
    ensures |vs| <= |ws| && (ws != [] ==> vs != [])
  {
    hide In, Covers;
    if ws == [] {
      vs := [];
    } else if |u| <= |ws[0]| {
      assert u == Concat(ws)[..|u|] == ws[0][..|u|];
      CoversAt(m, r, ws[0], u);
      vs := [Rev(u)];
      assert Concat(vs) == Rev(u) + Concat([]);
    } else {
      var v := ws[0];
      var u' := CutOpening(v, Concat(ws[1..]), u);
      var vs' := ReversedRun(m, r, ws[1..], u');
      vs := vs' + [Rev(v)];
      CoversAt(m, r, v, v);
      ConcatAppend(vs', [Rev(v)]);
      assert Concat([Rev(v)]) == Rev(v) + Concat([]);
      RevAppend(v, u');
    }
  }

  lemma QuantifiedCovers(m: Matcher, r: Rx, q: Quant, ws: seq<string>)
    requires !q.Times? && CountOk(q, |ws|)
    requires forall i :: 0 <= i < |ws| ==> Covers(m, r, ws[i])
    ensures Covers(m, Quantified(r, q), Concat(ws))
  {
    forall u | Opening(u, Concat(ws)) ensures In(m, Quantified(r, q), Rev(u)) {
      var vs := ReversedRun(m, r, ws, u);
    }
  }

  ghost predicate AllCover(m: Matcher, parts: seq<Rx>, vs: seq<string>) {
    |vs| == |parts| && forall i :: 0 <= i < |parts| ==> Covers(m, parts[i], vs[i])
  }

  lemma AllCoverAppend(m: Matcher, p: seq<Rx>, a: seq<string>, q: seq<Rx>, b: seq<string>)
    requires AllCover(m, p, a) && AllCover(m, q, b)
    ensures AllCover(m, p + q, a + b)
  {
    hide Covers;
  }

  lemma ItemCovered(m: Matcher, item: Item, w: string) returns (vs: seq<string>)
    requires BaseComplete(m, item.base) && MatchItem(m, item, w)
    ensures AllCover(m, PartsOf(item), vs) && Concat(vs) == w
  {
    var ws := Run(m, item, w);
    hide MatchBase, MatchItem, In, Covers, Reversed, PartsOf, AllCover, BaseComplete;
    forall i | 0 <= i < |ws| ensures Covers(m, Reversed(item.base), ws[i]) {
      BaseCovers(m, item.base, ws[i]);
    }
    var gs := UnfoldComplete(item.quant, ws);
    ConcatJoin(gs);
    vs := Concats(gs);
    PartsCover(m, item, gs);
  }

  lemma PartsCover(m: Matcher, item: Item, gs: seq<seq<string>>)
    requires CountsOk(Unfold(item.quant), gs)
    requires forall i :: 0 <= i < |Join(gs)| ==> Covers(m, Reversed(item.base), Join(gs)[i])
    ensures AllCover(m, PartsOf(item), Concats(gs))
  {
    hide In, Covers, Reversed, Join;
    var qs, parts := Unfold(item.quant), PartsOf(item);
    forall i | 0 <= i < |parts| ensures Covers(m, parts[i], Concats(gs)[i]) {
      UnfoldSimple(item.quant, i);
      forall j | 0 <= j < |gs[i]| ensures Covers(m, Reversed(item.base), gs[i][j]) {
        InJoin(gs, i, j);
      }
      QuantifiedCovers(m, Reversed(item.base), qs[i], gs[i]);
    }
  }

  lemma UnfoldSimple(q: Quant, i: nat)
    requires i < |Unfold(q)|
    ensures !Unfold(q)[i].Times?
  {}

  lemma BaseCovers(m: Matcher, b: Base, w: string)
    requires BaseComplete(m, b) && MatchBase(m, b, w)
    ensures Covers(m, Reversed(b), w)
  {
    hide Covers, MatchBase;
  }

  lemma {:induction false} InJoin<T>(gs: seq<seq<T>>, i: nat, j: nat)
    requires i < |gs| && j < |gs[i]|
    ensures gs[i][j] in Join(gs)
  {
    if i > 0 {
      InJoin(gs[1..], i - 1, j);
      assert gs[1..][i - 1] == gs[i];
    }
  }

  lemma FirstItem(m: Matcher, items: seq<Item>, w: string) returns (k: nat)
    requires items != [] && MatchSeq(m, items, w)
    ensures k <= |w| && MatchItem(m, items[0], w[..k]) && MatchSeq(m, items[1..], w[k..])
  {
    k :| k <= |w| && MatchItem(m, items[0], w[..k]) && MatchSeq(m, items[1..], w[k..]);
  }

  lemma MatchSeqCons(m: Matcher, items: seq<Item>, x: string, y: string)
    requires items != [] && MatchItem(m, items[0], x) && MatchSeq(m, items[1..], y)
    ensures MatchSeq(m, items, x + y)
  {
    assert (x + y)[..|x|] == x && (x + y)[|x|..] == y;
  }

  lemma {:induction false} SeqCovered(m: Matcher, items: seq<Item>, w: string) returns (vs: seq<string>)
    requires forall i :: 0 <= i < |items| ==> BaseComplete(m, items[i].base)
    requires MatchSeq(m, items, w)
    ensures AllCover(m, PartsOfAll(items), vs) && Concat(vs) == w
  {
    if items == [] {
      vs := [];
    } else {
      var k := FirstItem(m, items, w);
      hide MatchItem, MatchSeq, BaseComplete, PartsOf, AllCover;
      var a := ItemCovered(m, items[0], w[..k]);
      assert forall i :: 0 <= i < |items[1..]| ==> items[1..][i] == items[i + 1];
      var b := SeqCovered(m, items[1..], w[k..]);
      vs := a + b;
      ConcatAppend(a, b);
      AllCoverAppend(m, PartsOf(items[0]), a, PartsOfAll(items[1..]), b);
      assert w == w[..k] + w[k..];
    }
  }

  lemma InCat(m: Matcher, a: Rx, b: Rx, x: string, y: string)
    requires In(m, a, x) && In(m, b, y)
    ensures In(m, Cat(a, b), x + y)
  {
    assert (x + y)[..|x|] == x && (x + y)[|x|..] == y;
  }

  lemma InMaybe(m: Matcher, r: Rx, x: string)
    requires x == "" || In(m, r, x)
    ensures In(m, Quantified(r, Maybe), x)
  {
    var ws := if x == "" then [] else [x];
    assert ws != [] ==> Concat(ws) == x + Concat(ws[1..]);
    assert Concat(ws) == x;
  }

  /** An opening of `v1 v2 ...` is cut inside some `vi`; the parts behind it are skipped. */
  lemma {:induction false} ChainCovers(m: Matcher, parts: seq<Rx>, vs: seq<string>)
    requires parts != [] && AllCover(m, parts, vs)
    ensures Covers(m, Chain(parts), Concat(vs))
  {
    var v := vs[0];
    assert Concat(vs) == v + Concat(vs[1..]);
    if |parts| == 1 {
      assert Concat(vs) == v;
    } else {
      ChainCovers(m, parts[1..], vs[1..]);
      var tail := Quantified(Chain(parts[1..]), Maybe);
      forall u | Opening(u, Concat(vs)) ensures In(m, Chain(parts), Rev(u)) {
        hide In;
        if |u| <= |v| {
          assert u == Concat(vs)[..|u|] == v[..|u|];
          assert Opening(u, v);
          InMaybe(m, Chain(parts[1..]), "");
          InCat(m, tail, parts[0], "", Rev(u));
          assert "" + Rev(u) == Rev(u);
        } else {
          var u' := CutOpening(v, Concat(vs[1..]), u);
          assert Opening(v, v);
          RevAppend(v, u');
          InMaybe(m, Chain(parts[1..]), Rev(u'));
          InCat(m, tail, parts[0], Rev(u'), Rev(v));
        }
      }
    }
  }

  lemma {:induction false} AnyContains(m: Matcher, branches: seq<Branch>, i: nat, x: string)
    requires i < |branches| && PartsOfAll(branches[i].items) != []
    requires In(m, Chain(PartsOfAll(branches[i].items)), x)
    ensures In(m, ReversedAny(branches), x)
  {
    if i > 0 {
      AnyContains(m, branches[1..], i - 1, x);
    }
  }

  lemma {:induction false} BaseCovered(m: Matcher, b: Base)
    requires RewritableBase(b)
    ensures BaseComplete(m, b)
    decreases b, 0
  {
    match b
    case Symbol(text) =>
      forall w, u | MatchBase(m, b, w) && Opening(u, w) ensures In(m, Reversed(b), Rev(u)) {
        assert u == w && Rev(w[1..]) == "";
      }
    case Sub(branches) =>
      forall w | MatchAny(m, branches, w) ensures Covers(m, ReversedAny(branches), w) {
        AnyCovered(m, branches, w);
      }
  }

  lemma ItemBaseCovered(m: Matcher, item: Item)
    requires RewritableItem(item)
    ensures BaseComplete(m, item.base)
    decreases item, 0
  {
    BaseCovered(m, item.base);
  }

  lemma {:induction false} ItemsCovered(m: Matcher, items: seq<Item>)
    requires RewritableItems(items)
    ensures forall i :: 0 <= i < |items| ==> BaseComplete(m, items[i].base)
    decreases items, 1
  {
    if items != [] {
      ItemBaseCovered(m, items[0]);
      ItemsCovered(m, items[1..]);
    }
  }

  /** Completeness: the rewritten group accepts the reverse of every opening of every word
      the pattern matches. */
  lemma {:induction false} AnyCovered(m: Matcher, branches: seq<Branch>, w: string)
    requires Rewritable(branches) && MatchAny(m, branches, w)
    ensures Covers(m, ReversedAny(branches), w)
    decreases branches, 1
  {
    var i :| 0 <= i < |branches| && MatchSeq(m, branches[i].items, w);
    ItemsCovered(m, branches[i].items);
    var vs := SeqCovered(m, branches[i].items, w);
    var parts := PartsOfAll(branches[i].items);
    ChainCovers(m, parts, vs);
    forall u | Opening(u, w) ensures In(m, ReversedAny(branches), Rev(u)) {
      AnyContains(m, branches, i, Rev(u));
    }
  }

  // ----- nothing else is accepted, when groups stand where they may be left -----

  /** Every symbol matches some character and every range `{m,n}` has m <= n. */
  ghost predicate Inhabited(m: Matcher, branches: seq<Branch>)
    decreases branches, 1
  {
    branches == [] || (InhabitedItems(m, branches[0].items) && Inhabited(m, branches[1..]))
  }

  ghost predicate InhabitedItems(m: Matcher, items: seq<Item>)
    decreases items, 1
  {
    items == [] || (InhabitedItem(m, items[0]) && InhabitedItems(m, items[1..]))
  }

  ghost predicate InhabitedItem(m: Matcher, item: Item)
    decreases item, 0
  {
    && (item.quant.Times? && item.quant.max.AtMost? ==> item.quant.min <= item.quant.max.n)
    && match item.base
       case Symbol(text) => exists c :: m(text, c)
       case Sub(branches) => branches != [] && Inhabited(m, branches)
  }

  // The items after repetition ranges are written out; each gives one part.

  function ExpandedItem(item: Item): (its: seq<Item>) {
    var qs := Unfold(item.quant);
    seq(|qs|, i requires 0 <= i < |qs| => Item(item.base, qs[i]))
  }

  function Expanded(items: seq<Item>): (its: seq<Item>) {
    if items == [] then [] else ExpandedItem(items[0]) + Expanded(items[1..])
  }

  function PartOf(item: Item): (r: Rx) {
    Quantified(Reversed(item.base), item.quant)
  }

  function PartsEach(its: seq<Item>): (ps: seq<Rx>) {
    seq(|its|, i requires 0 <= i < |its| => PartOf(its[i]))
  }

  lemma {:induction false} PartsAreExpanded(items: seq<Item>)
    ensures PartsOfAll(items) == PartsEach(Expanded(items))
  {
    if items != [] {
      PartsAreExpanded(items[1..]);
      var a, b := ExpandedItem(items[0]), Expanded(items[1..]);
      assert PartsEach(a + b) == PartsEach(a) + PartsEach(b);
      assert PartsOf(items[0]) == PartsEach(a);
    }
  }

  ghost predicate MatchEach(m: Matcher, its: seq<Item>, vs: seq<string>) {
    |vs| == |its| && forall i :: 0 <= i < |its| ==> MatchItem(m, its[i], vs[i])
  }

  /** A way to read `v` as copies of the base. */
  ghost function Run(m: Matcher, item: Item, v: string): (ws: seq<string>)
    requires MatchItem(m, item, v)
    ensures CountOk(item.quant, |ws|) && Concat(ws) == v
    ensures forall i :: 0 <= i < |ws| ==> MatchBase(m, item.base, ws[i])
  {
    var ws: seq<string> :| CountOk(item.quant, |ws|) && Concat(ws) == v
                           && forall i :: 0 <= i < |ws| ==> MatchBase(m, item.base, ws[i]);
    ws
  }

  lemma ItemCollapses(m: Matcher, item: Item, vs: seq<string>)
    requires item.quant.Times? && item.quant.max.AtMost? ==> item.quant.min <= item.quant.max.n
    requires MatchEach(m, ExpandedItem(item), vs)
    ensures MatchItem(m, item, Concat(vs))
  {
    hide MatchBase, MatchItem;
    var its := ExpandedItem(item);
    var gs := seq(|its|, i requires 0 <= i < |its| => Run(m, its[i], vs[i]));
    assert CountsOk(Unfold(item.quant), gs);
    UnfoldSound(item.quant, gs);
    ConcatJoin(gs);
    assert Concats(gs) == vs;
    JoinAll(m, item.base, gs);
    RunMatches(m, item, Join(gs));
  }

  lemma RunMatches(m: Matcher, item: Item, ws: seq<string>)
    requires CountOk(item.quant, |ws|) && forall i :: 0 <= i < |ws| ==> MatchBase(m, item.base, ws[i])
    ensures MatchItem(m, item, Concat(ws))
  {}

  lemma {:induction false} JoinAll(m: Matcher, b: Base, gs: seq<seq<string>>)
    requires forall i :: 0 <= i < |gs| ==> forall j :: 0 <= j < |gs[i]| ==> MatchBase(m, b, gs[i][j])
    ensures forall i :: 0 <= i < |Join(gs)| ==> MatchBase(m, b, Join(gs)[i])
  {
    hide MatchBase;
    if gs != [] {
      JoinAll(m, b, gs[1..]);
    }
  }

  lemma MatchEachSplit(m: Matcher, a: seq<Item>, b: seq<Item>, vs: seq<string>) returns (v: seq<string>, u: seq<string>)
    requires MatchEach(m, a + b, vs)
    ensures vs == v + u && MatchEach(m, a, v) && MatchEach(m, b, u)
  {
    hide MatchItem;
    v, u := vs[..|a|], vs[|a|..];
    forall i | 0 <= i < |a| ensures MatchItem(m, a[i], v[i]) {
      assert (a + b)[i] == a[i];
    }
    forall i | 0 <= i < |b| ensures MatchItem(m, b[i], u[i]) {
      assert (a + b)[|a| + i] == b[i];
    }
  }

  lemma InhabitedCons(m: Matcher, items: seq<Item>)
    requires InhabitedItems(m, items) && items != []
    ensures InhabitedItems(m, items[1..])
    ensures items[0].quant.Times? && items[0].quant.max.AtMost? ==> items[0].quant.min <= items[0].quant.max.n
  {}

  lemma ExpandedCons(items: seq<Item>)
    requires items != []
    ensures Expanded(items) == ExpandedItem(items[0]) + Expanded(items[1..])
  {}

  lemma MatchEachCons(m: Matcher, its: seq<Item>, v: string, vs: seq<string>)
    requires its != [] && MatchItem(m, its[0], v) && MatchEach(m, its[1..], vs)
    ensures MatchEach(m, its, [v] + vs)
  {
    hide MatchItem;
  }

  /** Words matched by the written-out items make up a word matched by the items. */
  lemma {:induction false} SeqCollapses(m: Matcher, items: seq<Item>, vs: seq<string>)
    requires InhabitedItems(m, items) && MatchEach(m, Expanded(items), vs)
    ensures MatchSeq(m, items, Concat(vs))
  {
    if items != [] {
      hide *;
      ExpandedCons(items);
      InhabitedCons(m, items);
      var v, u := MatchEachSplit(m, ExpandedItem(items[0]), Expanded(items[1..]), vs);
      ItemCollapses(m, items[0], v);
      SeqCollapses(m, items[1..], u);
      ConcatAppend(v, u);
      MatchSeqCons(m, items, Concat(v), Concat(u));
    }
  }

  /** A run of words backwards, each word reversed. */
  lemma {:induction false} RunReversed(ws: seq<string>) returns (vs: seq<string>)
    ensures |vs| == |ws| && Concat(vs) == Rev(Concat(ws))
    ensures forall i :: 0 <= i < |ws| ==> vs[i] == Rev(ws[|ws| - 1 - i])
  {
    if ws == [] {
      vs := [];
    } else {
      var rest := RunReversed(ws[1..]);
      vs := rest + [Rev(ws[0])];
      ConcatAppend(rest, [Rev(ws[0])]);
      RevAppend(ws[0], Concat(ws[1..]));
      assert Concat([Rev(ws[0])]) == Rev(ws[0]) + Concat([]);
    }
  }

  /** What the rewriting of `b` accepts is, reversed, a whole word of `b`. */
  ghost predicate BaseExact(m: Matcher, b: Base) {
    forall x :: In(m, Reversed(b), x) ==> MatchBase(m, b, Rev(x))
  }

  lemma BaseExactAt(m: Matcher, b: Base, x: string)
    requires BaseExact(m, b) && In(m, Reversed(b), x)
    ensures MatchBase(m, b, Rev(x))
  {}

  lemma ExactItem(m: Matcher, item: Item, x: string)
    requires BaseExact(m, item.base) && In(m, PartOf(item), x)
    ensures MatchItem(m, item, Rev(x))
  {
    var ws: seq<string> :| CountOk(item.quant, |ws|) && Concat(ws) == x
                           && forall i :: 0 <= i < |ws| ==> In(m, Reversed(item.base), ws[i]);
    hide In, MatchBase, BaseExact, Reversed;
    var vs := RunReversed(ws);
    forall i | 0 <= i < |vs| ensures MatchBase(m, item.base, vs[i]) {
      BaseExactAt(m, item.base, ws[|ws| - 1 - i]);
    }
  }

  /** What `r` accepts is, reversed, the beginning of something the item matches. */
  ghost predicate PartSound(m: Matcher, item: Item) {
    forall x :: In(m, PartOf(item), x) ==> exists v :: MatchItem(m, item, v) && Rev(x) <= v
  }

  ghost predicate Some(m: Matcher, item: Item) {
    exists v :: MatchItem(m, item, v)
  }

  ghost predicate AllSome(m: Matcher, its: seq<Item>) {
    forall i :: 0 <= i < |its| ==> Some(m, its[i])
  }

  ghost predicate LastSound(m: Matcher, its: seq<Item>) {
    && its != [] && PartSound(m, its[|its| - 1])
    && forall i :: 0 <= i < |its| - 1 ==> BaseExact(m, its[i].base)
  }

  lemma {:induction false} SomeWords(m: Matcher, its: seq<Item>) returns (vs: seq<string>)
    requires AllSome(m, its)
    ensures MatchEach(m, its, vs)
  {
    hide MatchItem;
    if its == [] {
      vs := [];
    } else {
      assert Some(m, its[0]);
      var v :| MatchItem(m, its[0], v);
      assert AllSome(m, its[1..]) by { hide Some; }
      var rest := SomeWords(m, its[1..]);
      MatchEachCons(m, its, v, rest);
      vs := [v] + rest;
    }
  }

  lemma MaybeCases(m: Matcher, r: Rx, x: string)
    requires In(m, Quantified(r, Maybe), x)
    ensures x == "" || In(m, r, x)
  {
    var ws: seq<string> :| CountOk(Maybe, |ws|) && Concat(ws) == x
                           && forall i :: 0 <= i < |ws| ==> In(m, r, ws[i]);
    if ws != [] {
      assert Concat(ws) == ws[0] + Concat(ws[1..]) && ws[1..] == [];
      assert x == ws[0];
    }
  }

  lemma {:induction false} ChainSound(m: Matcher, its: seq<Item>, x: string) returns (vs: seq<string>)
    requires its != [] && LastSound(m, its) && AllSome(m, its)
    requires In(m, Chain(PartsEach(its)), x)
    ensures MatchEach(m, its, vs) && Rev(x) <= Concat(vs)
  {
    hide In, MatchItem, AllSome, LastSound, PartSound, MatchEach, Reversed, BaseExact;
    var parts := PartsEach(its);
    if |its| == 1 {
      vs := LastAlone(m, its, x);
    } else {
      var rest := its[1..];
      assert parts[1..] == PartsEach(rest) && parts[0] == PartOf(its[0]);
      assert Chain(parts) == Cat(Quantified(Chain(parts[1..]), Maybe), parts[0]);
      ghost var k := CatCut(m, Quantified(Chain(parts[1..]), Maybe), parts[0], x);
      MaybeCases(m, Chain(parts[1..]), x[..k]);
      TailHypotheses(m, its);
      FirstIsExact(m, its);
      ExactItem(m, its[0], x[k..]);
      var us;
      if x[..k] == "" {
        us := SomeWords(m, rest);
      } else {
        us := ChainSound(m, rest, x[..k]);
      }
      MatchEachCons(m, its, Rev(x[k..]), us);
      vs := [Rev(x[k..])] + us;
      assert x == x[..k] + x[k..];
      RevAppend(x[..k], x[k..]);
      assert Concat(vs) == Rev(x[k..]) + Concat(us);
    }
  }

  lemma LastAlone(m: Matcher, its: seq<Item>, x: string) returns (vs: seq<string>)
    requires LastSound(m, its) && |its| == 1 && In(m, PartOf(its[0]), x)
    ensures MatchEach(m, its, vs) && Rev(x) <= Concat(vs)
  {
    assert PartSound(m, its[0]);
    var v :| MatchItem(m, its[0], v) && Rev(x) <= v;
    vs := [v];
    assert Concat(vs) == v + Concat([]);
  }

  lemma FirstIsExact(m: Matcher, its: seq<Item>)
    requires LastSound(m, its) && |its| > 1
    ensures BaseExact(m, its[0].base)
  {
    hide BaseExact, PartSound;
  }

  lemma TailHypotheses(m: Matcher, its: seq<Item>)
    requires LastSound(m, its) && AllSome(m, its) && |its| > 1
    ensures LastSound(m, its[1..]) && AllSome(m, its[1..])
  {
    hide Some, PartSound, BaseExact;
    assert forall i :: 0 <= i < |its[1..]| ==> its[1..][i] == its[i + 1];
  }

  lemma CatCut(m: Matcher, a: Rx, b: Rx, x: string) returns (k: nat)
    requires In(m, Cat(a, b), x)
    ensures k <= |x| && In(m, a, x[..k]) && In(m, b, x[k..])
  {
    k :| k <= |x| && In(m, a, x[..k]) && In(m, b, x[k..]);
  }

  lemma InOrCases(m: Matcher, branches: seq<Branch>, x: string)
    requires In(m, ReversedAny(branches), x)
    ensures branches != []
    ensures In(m, ReversedAny(branches[1..]), x)
         || (PartsOfAll(branches[0].items) != [] && In(m, Chain(PartsOfAll(branches[0].items)), x))
  {
    if branches != [] {
      var rest := ReversedAny(branches[1..]);
      var parts := PartsOfAll(branches[0].items);
      assert ReversedAny(branches) == if parts == [] then rest else Or(Chain(parts), rest);
    }
  }

  lemma {:induction false} AnyCases(m: Matcher, branches: seq<Branch>, x: string) returns (i: nat)
    requires In(m, ReversedAny(branches), x)
    ensures i < |branches| && PartsOfAll(branches[i].items) != []
    ensures In(m, Chain(PartsOfAll(branches[i].items)), x)
  {
    hide *;
    InOrCases(m, branches, x);
    if PartsOfAll(branches[0].items) != [] && In(m, Chain(PartsOfAll(branches[0].items)), x) {
      i := 0;
    } else {
      var k := AnyCases(m, branches[1..], x);
      assert branches[1..][k] == branches[k + 1];
      i := k + 1;
    }
  }

  // Which patterns match something, and which groups may be left early.

  lemma OneWord(m: Matcher, item: Item, w: string)
    requires CountOk(item.quant, 1) && MatchBase(m, item.base, w)
    ensures MatchItem(m, item, w)
  {
    var ws := [w];
    assert Concat(ws) == w + Concat([]);
  }

  lemma NoWord(m: Matcher, item: Item)
    requires CountOk(item.quant, 0)
    ensures MatchItem(m, item, "")
  {
    var ws: seq<string> := [];
    assert Concat(ws) == "";
  }

  lemma UnfoldTakesOne(q: Quant, i: nat)
    requires i < |Unfold(q)|
    ensures CountOk(Unfold(q)[i], 1)
  {}

  lemma AllSomeAppend(m: Matcher, a: seq<Item>, b: seq<Item>)
    requires AllSome(m, a) && AllSome(m, b)
    ensures AllSome(m, a + b)
  {
    hide Some;
  }

  lemma {:induction false} ItemsSome(m: Matcher, items: seq<Item>)
    requires InhabitedItems(m, items)
    ensures AllSome(m, Expanded(items))
    decreases items, 1
  {
    if items != [] {
      ItemSome(m, items[0]);
      ItemsSome(m, items[1..]);
      AllSomeAppend(m, ExpandedItem(items[0]), Expanded(items[1..]));
    }
  }

  lemma {:induction false} ItemSome(m: Matcher, item: Item)
    requires InhabitedItem(m, item)
    ensures AllSome(m, ExpandedItem(item))
    decreases item, 0
  {
    var w;
    match item.base {
      case Symbol(text) =>
        var c :| m(text, c);
        w := [c];
      case Sub(branches) =>
        w := AnyInhabited(m, branches);
    }
    assert MatchBase(m, item.base, w);
    hide MatchBase, MatchItem;
    var its := ExpandedItem(item);
    forall i | 0 <= i < |its| ensures Some(m, its[i]) {
      UnfoldTakesOne(item.quant, i);
      OneWord(m, its[i], w);
    }
  }

  /** The pattern matches something. */
  lemma {:induction false} AnyInhabited(m: Matcher, branches: seq<Branch>) returns (w: string)
    requires branches != [] && Inhabited(m, branches)
    ensures MatchAny(m, branches, w)
    decreases branches, 2
  {
    var items := branches[0].items;
    ItemsSome(m, items);
    hide MatchItem, AllSome, MatchEach;
    var vs := SomeWords(m, Expanded(items));
    SeqCollapses(m, items, vs);
    w := Concat(vs);
  }

  predicate InOrder(q: Quant) {
    q.Times? && q.max.AtMost? ==> q.min <= q.max.n
  }

  /** Reading may stop inside a group after any character: what has been read of a word is a
      word too.  In each alternative everything behind the first part may be left out, and
      the groups in it are of the same kind.  `(a|b)`, `([0-9]+)` and `(ab?c*)` are such
      groups, `(ab)` is not. */
  predicate Stoppable(b: Base)
    decreases b, 0
  {
    b.Sub? ==> StoppableAny(b.branches)
  }

  predicate StoppableAny(branches: seq<Branch>)
    decreases branches, 1
  {
    branches == [] || (StoppableItems(branches[0].items) && LeavesOff(Expanded(branches[0].items)) && StoppableAny(branches[1..]))
  }

  predicate StoppableItems(items: seq<Item>)
    decreases items, 1
  {
    items == [] || (StoppableItem(items[0]) && StoppableItems(items[1..]))
  }

  predicate StoppableItem(item: Item)
    decreases item, 0
  {
    InOrder(item.quant) && Stoppable(item.base)
  }

  predicate LeavesOff(its: seq<Item>) {
    forall i :: 1 <= i < |its| ==> CountOk(its[i].quant, 0)
  }

  ghost predicate AllExact(m: Matcher, its: seq<Item>) {
    forall i :: 0 <= i < |its| ==> BaseExact(m, its[i].base)
  }

  lemma {:induction false} Nothing(m: Matcher, its: seq<Item>) returns (vs: seq<string>)
    requires forall i :: 0 <= i < |its| ==> CountOk(its[i].quant, 0)
    ensures MatchEach(m, its, vs) && Concat(vs) == ""
  {
    hide MatchItem;
    if its == [] {
      vs := [];
    } else {
      assert forall i :: 0 <= i < |its[1..]| ==> its[1..][i] == its[i + 1];
      var rest := Nothing(m, its[1..]);
      NoWord(m, its[0]);
      MatchEachCons(m, its, "", rest);
      vs := [""] + rest;
    }
  }

  lemma TailOfExact(m: Matcher, its: seq<Item>)
    requires AllExact(m, its) && LeavesOff(its) && its != []
    ensures BaseExact(m, its[0].base) && AllExact(m, its[1..]) && LeavesOff(its[1..])
    ensures forall i :: 0 <= i < |its[1..]| ==> CountOk(its[1..][i].quant, 0)
  {
    hide BaseExact;
    assert forall i :: 0 <= i < |its[1..]| ==> its[1..][i] == its[i + 1];
  }

  lemma {:induction false} ChainExact(m: Matcher, its: seq<Item>, x: string) returns (vs: seq<string>)
    requires its != [] && AllExact(m, its) && LeavesOff(its)
    requires In(m, Chain(PartsEach(its)), x)
    ensures MatchEach(m, its, vs) && Rev(x) == Concat(vs)
  {
    hide In, MatchItem, AllExact, LeavesOff, BaseExact, MatchEach, Reversed;
    var parts, rest := PartsEach(its), its[1..];
    TailOfExact(m, its);
    if |its| == 1 {
      ExactItem(m, its[0], x);
      var none := Nothing(m, rest);
      MatchEachCons(m, its, Rev(x), none);
      vs := [Rev(x)] + none;
      assert Concat(vs) == Rev(x) + Concat(none);
    } else {
      assert parts[1..] == PartsEach(rest) && parts[0] == PartOf(its[0]);
      assert Chain(parts) == Cat(Quantified(Chain(parts[1..]), Maybe), parts[0]);
      ghost var k := CatCut(m, Quantified(Chain(parts[1..]), Maybe), parts[0], x);
      MaybeCases(m, Chain(parts[1..]), x[..k]);
      ExactItem(m, its[0], x[k..]);
      var us;
      if x[..k] == "" {
        us := Nothing(m, rest);
      } else {
        us := ChainExact(m, rest, x[..k]);
      }
      MatchEachCons(m, its, Rev(x[k..]), us);
      vs := [Rev(x[k..])] + us;
      assert x == x[..k] + x[k..];
      RevAppend(x[..k], x[k..]);
      assert Concat(vs) == Rev(x[k..]) + Concat(us);
    }
  }

  lemma AllExactAppend(m: Matcher, a: seq<Item>, b: seq<Item>)
    requires AllExact(m, a) && AllExact(m, b)
    ensures AllExact(m, a + b)
  {
    hide BaseExact;
  }

  lemma SameBase(m: Matcher, item: Item)
    requires BaseExact(m, item.base)
    ensures AllExact(m, ExpandedItem(item))
  {
    hide BaseExact;
  }

  lemma {:induction false} StoppableAreExact(m: Matcher, items: seq<Item>)
    requires StoppableItems(items)
    ensures AllExact(m, Expanded(items))
    decreases items, 1
  {
    if items != [] {
      hide AllExact, BaseExact;
      StoppableItemExact(m, items[0]);
      SameBase(m, items[0]);
      StoppableAreExact(m, items[1..]);
      AllExactAppend(m, ExpandedItem(items[0]), Expanded(items[1..]));
    }
  }

  lemma StoppableItemExact(m: Matcher, item: Item)
    requires StoppableItem(item)
    ensures BaseExact(m, item.base)
    decreases item, 0
  {
    StoppableExact(m, item.base);
  }

  /** Of such a group only whole words are accepted. */
  lemma {:induction false} StoppableExact(m: Matcher, b: Base)
    requires Stoppable(b)
    ensures BaseExact(m, b)
    decreases b, 0
  {
    match b {
      case Symbol(text) =>
        forall x | In(m, Reversed(b), x) ensures MatchBase(m, b, Rev(x)) {
          assert Rev(x[1..]) == "" && Rev(x) == x;
        }
      case Sub(branches) =>
        forall x | In(m, Reversed(b), x) ensures MatchBase(m, b, Rev(x)) {
          StoppableAnyExact(m, branches, x);
        }
    }
  }

  lemma {:induction false} StoppableBranch(branches: seq<Branch>, i: nat)
    requires StoppableAny(branches) && i < |branches|
    ensures StoppableItems(branches[i].items) && LeavesOff(Expanded(branches[i].items))
  {
    if i > 0 {
      StoppableBranch(branches[1..], i - 1);
    }
  }

  lemma {:induction false} OrderedCollapse(m: Matcher, items: seq<Item>, vs: seq<string>)
    requires StoppableItems(items) && MatchEach(m, Expanded(items), vs)
    ensures MatchSeq(m, items, Concat(vs))
    decreases |items|
  {
    if items != [] {
      StoppableCons(items);
      hide *;
      ExpandedCons(items);
      var v, u := MatchEachSplit(m, ExpandedItem(items[0]), Expanded(items[1..]), vs);
      ItemCollapses(m, items[0], v);
      OrderedCollapse(m, items[1..], u);
      ConcatAppend(v, u);
      MatchSeqCons(m, items, Concat(v), Concat(u));
    }
  }

  lemma StoppableCons(items: seq<Item>)
    requires StoppableItems(items) && items != []
    ensures StoppableItems(items[1..])
    ensures items[0].quant.Times? && items[0].quant.max.AtMost? ==> items[0].quant.min <= items[0].quant.max.n
  {}

  lemma {:induction false} StoppableAnyExact(m: Matcher, branches: seq<Branch>, x: string)
    requires StoppableAny(branches) && In(m, ReversedAny(branches), x)
    ensures MatchAny(m, branches, Rev(x))
    decreases branches, 2
  {
    var i := AnyCases(m, branches, x);
    StoppableBranch(branches, i);
    var items := branches[i].items;
    StoppableAreExact(m, items);
    hide In, AllExact, LeavesOff, MatchEach, MatchSeq, StoppableItems;
    PartsAreExpanded(items);
    var vs := ChainExact(m, Expanded(items), x);
    OrderedCollapse(m, items, vs);
  }

  // Soundness, by recursion over the pattern.

  /** At most one copy of a group is read. */
  predicate AtMostOnce(q: Quant) {
    q.Once? || q.Maybe? || q.LazyMaybe? || (q.Times? && q.max.AtMost? && q.max.n <= 1)
  }

  /** A group is one that may be left early, or it ends its sequence, is read at most once
      and has only such groups in it. */
  predicate Fits(branches: seq<Branch>)
    decreases branches, 1
  {
    branches == [] || (FitsItems(branches[0].items) && Fits(branches[1..]))
  }

  predicate FitsItems(items: seq<Item>)
    decreases items, 1
  {
    items == [] || (FitsItem(items[0], |items| == 1) && FitsItems(items[1..]))
  }

  predicate FitsItem(item: Item, last: bool)
    decreases item, 0
  {
    StoppableItem(item) || (last && AtMostOnce(item.quant) && item.base.Sub? && Fits(item.base.branches))
  }

  /** The parts of an item that fits: exact ones, or a single sound one. */
  ghost predicate GoodParts(m: Matcher, its: seq<Item>) {
    forall i :: 0 <= i < |its| ==>
      PartSound(m, its[i]) && (i < |its| - 1 ==> BaseExact(m, its[i].base))
  }

  lemma GoodPartsAppend(m: Matcher, a: seq<Item>, b: seq<Item>)
    requires AllExact(m, a) && GoodParts(m, a) && GoodParts(m, b)
    ensures GoodParts(m, a + b)
  {
    hide PartSound, BaseExact;
  }

  lemma ExactIsSound(m: Matcher, item: Item)
    requires BaseExact(m, item.base)
    ensures PartSound(m, item)
  {
    forall x | In(m, PartOf(item), x) ensures MatchItem(m, item, Rev(x)) {
      ExactItem(m, item, x);
    }
  }

  lemma ExactAreGood(m: Matcher, its: seq<Item>)
    requires AllExact(m, its)
    ensures GoodParts(m, its)
  {
    forall i | 0 <= i < |its| ensures PartSound(m, its[i]) {
      hide PartSound, BaseExact;
      ExactIsSound(m, its[i]);
    }
    hide PartSound, BaseExact;
  }

  lemma {:induction false} ItemsGood(m: Matcher, items: seq<Item>)
    requires FitsItems(items) && InhabitedItems(m, items)
    ensures GoodParts(m, Expanded(items))
    decreases items, 1
  {
    if items != [] {
      ItemsGood(m, items[1..]);
      ExpandedCons(items);
      if StoppableItem(items[0]) {
        StoppableItemExact(m, items[0]);
        hide GoodParts, AllExact, BaseExact;
        SameBase(m, items[0]);
        ExactAreGood(m, ExpandedItem(items[0]));
        GoodPartsAppend(m, ExpandedItem(items[0]), Expanded(items[1..]));
      } else {
        LastItemGood(m, items[0]);
        assert Expanded(items[1..]) == [];
      }
    }
  }

  lemma {:induction false} LastItemGood(m: Matcher, item: Item)
    requires AtMostOnce(item.quant) && item.base.Sub? && Fits(item.base.branches) && InhabitedItem(m, item)
    ensures GoodParts(m, ExpandedItem(item)) && |ExpandedItem(item)| <= 1
    decreases item, 0
  {
    var branches, its := item.base.branches, ExpandedItem(item);
    var w := AnyInhabited(m, branches);
    forall i | 0 <= i < |its| ensures PartSound(m, its[i]) {
      var part := its[i];
      forall x | In(m, PartOf(part), x) ensures exists v :: MatchItem(m, part, v) && Rev(x) <= v {
        AtMostOneCases(m, Reversed(item.base), part.quant, x);
        if x == "" {
          OneWord(m, part, w);
          assert Rev(x) <= w;
        } else {
          var v := AnySound(m, branches, x);
          OneWord(m, part, v);
        }
      }
    }
  }

  lemma AtMostOneCases(m: Matcher, r: Rx, q: Quant, x: string)
    requires forall k :: CountOk(q, k) ==> k <= 1
    requires In(m, Quantified(r, q), x)
    ensures x == "" || In(m, r, x)
  {
    var ws: seq<string> :| CountOk(q, |ws|) && Concat(ws) == x
                           && forall i :: 0 <= i < |ws| ==> In(m, r, ws[i]);
    if ws != [] {
      assert Concat(ws) == ws[0] + Concat(ws[1..]) && ws[1..] == [];
      assert x == ws[0];
    }
  }

  lemma BranchSound(m: Matcher, branch: Branch)
    requires FitsItems(branch.items) && InhabitedItems(m, branch.items)
    ensures AllSome(m, Expanded(branch.items))
    ensures Expanded(branch.items) != [] ==> LastSound(m, Expanded(branch.items))
    decreases branch, 0
  {
    ItemsSome(m, branch.items);
    ItemsGood(m, branch.items);
    hide Some, PartSound, BaseExact;
  }

  /** Soundness: what the rewritten group accepts is, reversed, the beginning of a word the
      pattern matches. */
  lemma {:induction false} AnySound(m: Matcher, branches: seq<Branch>, x: string) returns (w: string)
    requires Fits(branches) && Inhabited(m, branches)
    requires In(m, ReversedAny(branches), x)
    ensures MatchAny(m, branches, w) && Rev(x) <= w
    decreases branches, 2
  {
    var i := AnyCases(m, branches, x);
    BranchOf(m, branches, i);
    var items := branches[i].items;
    BranchSound(m, branches[i]);
    PartsAreExpanded(items);
    var vs := ChainSound(m, Expanded(items), x);
    SeqCollapses(m, items, vs);
    w := Concat(vs);
  }

  lemma {:induction false} BranchOf(m: Matcher, branches: seq<Branch>, i: nat)
    requires Fits(branches) && Inhabited(m, branches) && i < |branches|
    ensures FitsItems(branches[i].items) && InhabitedItems(m, branches[i].items)
  {
    if i > 0 {
      BranchOf(m, branches[1..], i - 1);
    }
  }

  // ----- what else is accepted, when a group stands elsewhere -----

  /** `v` is read as copies of the item's base, each left after an opening of a word. */
  ghost predicate LeftEarly(m: Matcher, item: Item, v: string) {
    exists vs: seq<string> :: CountOk(item.quant, |vs|) && Concat(vs) == v
                              && forall i :: 0 <= i < |vs| ==> Opens(m, item.base, vs[i])
  }

  ghost predicate Opens(m: Matcher, b: Base, v: string) {
    exists w :: MatchBase(m, b, w) && Opening(v, w)
  }

  ghost predicate ReadsEach(m: Matcher, parts: seq<Rx>, vs: seq<string>) {
    |vs| == |parts| && forall i :: 0 <= i < |parts| ==> In(m, parts[i], Rev(vs[i]))
  }

  lemma ReadsEachAppend(m: Matcher, p: seq<Rx>, a: seq<string>, q: seq<Rx>, b: seq<string>)
    requires ReadsEach(m, p, a) && ReadsEach(m, q, b)
    ensures ReadsEach(m, p + q, a + b)
  {
    hide In;
  }

  lemma CoveredIsRead(m: Matcher, parts: seq<Rx>, vs: seq<string>)
    requires AllCover(m, parts, vs)
    ensures ReadsEach(m, parts, vs)
  {
    hide In, Covers;
    forall i | 0 <= i < |parts| ensures In(m, parts[i], Rev(vs[i])) {
      CoversAt(m, parts[i], vs[i], vs[i]);
    }
  }

  lemma {:induction false} PartsAppend(a: seq<Item>, b: seq<Item>)
    ensures PartsOfAll(a + b) == PartsOfAll(a) + PartsOfAll(b)
    decreases |a|
  {
    if a == [] {
      assert a + b == b;
    } else {
      assert (a + b)[1..] == a[1..] + b;
      PartsAppend(a[1..], b);
      Regroup(PartsOf(a[0]), PartsOfAll(a[1..]), PartsOfAll(b));
    }
  }

  lemma OpensIsRead(m: Matcher, b: Base, v: string)
    requires BaseComplete(m, b) && Opens(m, b, v)
    ensures In(m, Reversed(b), Rev(v))
  {
    hide MatchBase, In;
    var w :| MatchBase(m, b, w) && Opening(v, w);
    BaseCovers(m, b, w);
  }

  lemma RunIsRead(m: Matcher, r: Rx, q: Quant, vs: seq<string>)
    requires CountOk(q, |vs|) && forall i :: 0 <= i < |vs| ==> In(m, r, Rev(vs[i]))
    ensures In(m, Quantified(r, q), Rev(Concat(vs)))
  {
    var us := RunReversed(vs);
    forall i | 0 <= i < |us| ensures In(m, r, us[i]) {
      assert us[i] == Rev(vs[|vs| - 1 - i]);
    }
  }

  lemma EarlyIsRead(m: Matcher, item: Item, v: string) returns (us: seq<string>)
    requires BaseComplete(m, item.base) && LeftEarly(m, item, v)
    ensures ReadsEach(m, PartsOf(item), us) && Concat(us) == v
  {
    hide In, Opens, BaseComplete, Reversed;
    var vs: seq<string> :| CountOk(item.quant, |vs|) && Concat(vs) == v
                           && forall i :: 0 <= i < |vs| ==> Opens(m, item.base, vs[i]);
    forall i | 0 <= i < |vs| ensures In(m, Reversed(item.base), Rev(vs[i])) {
      OpensIsRead(m, item.base, vs[i]);
    }
    var gs := UnfoldComplete(item.quant, vs);
    ConcatJoin(gs);
    us := Concats(gs);
    PartsRead(m, item, gs);
  }

  lemma PartsRead(m: Matcher, item: Item, gs: seq<seq<string>>)
    requires CountsOk(Unfold(item.quant), gs)
    requires forall i :: 0 <= i < |Join(gs)| ==> In(m, Reversed(item.base), Rev(Join(gs)[i]))
    ensures ReadsEach(m, PartsOf(item), Concats(gs))
  {
    hide In, Reversed, Join;
    var qs, parts := Unfold(item.quant), PartsOf(item);
    forall i | 0 <= i < |parts| ensures In(m, parts[i], Rev(Concats(gs)[i])) {
      forall j | 0 <= j < |gs[i]| ensures In(m, Reversed(item.base), Rev(gs[i][j])) {
        InJoin(gs, i, j);
      }
      RunIsRead(m, Reversed(item.base), qs[i], gs[i]);
    }
  }

  /** Whatever the parts in front read is read before what the chain behind them reads. */
  lemma {:induction false} ChainReads(m: Matcher, front: seq<Rx>, us: seq<string>, back: seq<Rx>, b: string)
    requires ReadsEach(m, front, us) && front + back != []
    requires if back == [] then b == "" else In(m, Chain(back), Rev(b))
    ensures In(m, Chain(front + back), Rev(Concat(us) + b))
    decreases |front|
  {
    hide In;
    var parts := front + back;
    if front == [] {
      assert parts == back && Concat(us) + b == b;
    } else {
      var u := Concat(us[1..]) + b;
      assert Concat(us) + b == us[0] + u;
      RevAppend(us[0], u);
      assert parts[1..] == front[1..] + back && parts[0] == front[0];
      if |parts| == 1 {
        assert us[1..] == [] && u == "" && Rev("") + Rev(us[0]) == Rev(us[0]);
      } else {
        ChainReads(m, front[1..], us[1..], back, b);
        InMaybe(m, Chain(parts[1..]), Rev(u));
        InCat(m, Quantified(Chain(parts[1..]), Maybe), parts[0], Rev(u), Rev(us[0]));
      }
    }
  }

  lemma NoneCovered(m: Matcher, zs: seq<string>)
    requires AllCover(m, [], zs)
    ensures zs == []
  {}

  lemma TailRead(m: Matcher, items: seq<Item>, z: string, b: string)
    requires forall i :: 0 <= i < |items| ==> BaseComplete(m, items[i].base)
    requires MatchSeq(m, items, z) && Opening(b, z)
    ensures if PartsOfAll(items) == [] then b == "" else In(m, Chain(PartsOfAll(items)), Rev(b))
  {
    hide In, MatchSeq, BaseComplete, AllCover;
    var zs := SeqCovered(m, items, z);
    if PartsOfAll(items) == [] {
      NoneCovered(m, zs);
    } else {
      ChainCovers(m, PartsOfAll(items), zs);
      CoversAt(m, Chain(PartsOfAll(items)), z, b);
    }
  }

  /** Whatever the pattern: every group may be left early and the reading goes on with what
      follows it. */
  lemma EarlyAccepted(m: Matcher, branches: seq<Branch>, i: nat, before: seq<Item>, item: Item, behind: seq<Item>,
                      a: string, v: string, z: string, b: string)
    requires Rewritable(branches) && i < |branches| && branches[i].items == before + [item] + behind
    requires MatchSeq(m, before, a) && LeftEarly(m, item, v) && MatchSeq(m, behind, z) && Opening(b, z)
    ensures In(m, ReversedAny(branches), Rev(a + v + b))
  {
    ItemsCovered(m, branches[i].items);
    hide In, MatchSeq, LeftEarly, BaseComplete, ReadsEach, AllCover, Rewritable;
    SplitComplete(m, before, item, behind);
    var us := SeqCovered(m, before, a);
    CoveredIsRead(m, PartsOfAll(before), us);
    var vs := EarlyIsRead(m, item, v);
    ReadsEachAppend(m, PartsOfAll(before), us, PartsOf(item), vs);
    ConcatAppend(us, vs);
    TailRead(m, behind, z, b);
    PartsSplit(before, item, behind);
    HasParts(branches, i);
    ChainReads(m, PartsOfAll(before) + PartsOf(item), us + vs, PartsOfAll(behind), b);
    AnyContains(m, branches, i, Rev(a + v + b));
  }

  lemma HasParts(branches: seq<Branch>, i: nat)
    requires Rewritable(branches) && i < |branches|
    ensures PartsOfAll(branches[i].items) != []
  {}

  lemma SplitComplete(m: Matcher, before: seq<Item>, item: Item, behind: seq<Item>)
    requires forall i :: 0 <= i < |before + [item] + behind| ==> BaseComplete(m, (before + [item] + behind)[i].base)
    ensures forall i :: 0 <= i < |before| ==> BaseComplete(m, before[i].base)
    ensures BaseComplete(m, item.base)
    ensures forall i :: 0 <= i < |behind| ==> BaseComplete(m, behind[i].base)
  {
    hide BaseComplete;
    var all := before + [item] + behind;
    assert all[|before|] == item;
    assert forall i :: 0 <= i < |before| ==> all[i] == before[i];
    forall i | 0 <= i < |behind| ensures BaseComplete(m, behind[i].base) {
      assert all[|before| + 1 + i] == behind[i];
    }
  }

  lemma PartsSplit(before: seq<Item>, item: Item, behind: seq<Item>)
    ensures PartsOfAll(before + [item] + behind) == (PartsOfAll(before) + PartsOf(item)) + PartsOfAll(behind)
  {
    hide *;
    PartsAppend(before + [item], behind);
    PartsAppend(before, [item]);
    PartsOfOne(item);
  }

  lemma PartsOfOne(item: Item)
    ensures PartsOfAll([item]) == PartsOf(item)
  {
    assert [item][1..] == [] && PartsOfAll([]) == [];
    hide PartsOf;
  }

  // ----- the theorems, and what `search` reports -----

  /** The text accepted are exactly the reversed non-empty beginnings of matches. */
  ghost predicate Exact(m: Matcher, branches: seq<Branch>) {
    forall x :: x != "" ==> (In(m, ReversedAny(branches), x) <==> BeginsMatch(m, branches, Rev(x)))
  }

  ghost predicate BeginsMatch(m: Matcher, branches: seq<Branch>, u: string) {
    exists w :: MatchAny(m, branches, w) && u <= w
  }

  /** Every non-empty beginning of a match is found, whatever the pattern. */
  lemma PartialComplete(m: Matcher, branches: seq<Branch>, u: string)
    requires Rewritable(branches) && u != "" && BeginsMatch(m, branches, u)
    ensures In(m, ReversedAny(branches), Rev(u))
  {
    var w :| MatchAny(m, branches, w) && u <= w;
    AnyCovered(m, branches, w);
    assert Opening(u, w);
  }

  /** With groups only where they may be left, nothing but beginnings of matches is found. */
  lemma PartialExact(m: Matcher, branches: seq<Branch>, x: string)
    requires Rewritable(branches) && Fits(branches) && Inhabited(m, branches) && x != ""
    ensures In(m, ReversedAny(branches), x) <==> BeginsMatch(m, branches, Rev(x))
  {
    RevTwice(x);
    if In(m, ReversedAny(branches), x) {
      var w := AnySound(m, branches, x);
    }
    if BeginsMatch(m, branches, Rev(x)) {
      PartialComplete(m, branches, Rev(x));
    }
  }

  /** Hence a group that can be left where no match goes on makes the pattern inexact. */
  lemma EarlyBreaks(m: Matcher, branches: seq<Branch>, i: nat, before: seq<Item>, item: Item, behind: seq<Item>,
                    a: string, v: string, z: string, b: string)
    requires Rewritable(branches) && i < |branches| && branches[i].items == before + [item] + behind
    requires MatchSeq(m, before, a) && LeftEarly(m, item, v) && MatchSeq(m, behind, z) && Opening(b, z)
    requires a + v + b != "" && !BeginsMatch(m, branches, a + v + b)
    ensures !Exact(m, branches)
  {
    EarlyAccepted(m, branches, i, before, item, behind, a, v, z, b);
    RevTwice(a + v + b);
    hide In, MatchSeq, BeginsMatch, LeftEarly;
    var x := Rev(a + v + b);
    assert x != "" && In(m, ReversedAny(branches), x) && !BeginsMatch(m, branches, Rev(x));
  }

  /** The second half of `search` matches `(group)[\s\S]*` against the reversed input and
      reports the piece of input the group stands for, if not empty. */
  ghost predicate Reported(m: Matcher, branches: seq<Branch>, input: string, begin: nat) {
    exists g, rest :: Rev(input) == g + rest && g != "" && In(m, ReversedAny(branches), g)
                      && begin + |g| == |input|
  }

  lemma ReportedMeans(m: Matcher, branches: seq<Branch>, input: string, begin: nat)
    requires begin < |input|
    ensures Reported(m, branches, input, begin) <==> In(m, ReversedAny(branches), Rev(input[begin..]))
  {
    assert input == input[..begin] + input[begin..];
    RevAppend(input[..begin], input[begin..]);
    var g, rest := Rev(input[begin..]), Rev(input[..begin]);
    assert Rev(input) == g + rest && g != "" && begin + |g| == |input|;
    if Reported(m, branches, input, begin) {
      var g', rest' :| Rev(input) == g' + rest' && g' != "" && In(m, ReversedAny(branches), g')
                       && begin + |g'| == |input|;
      assert g' == Rev(input)[..|g'|] == g;
    }
  }

  /** A partial match can be reported at `begin` if and only if the rest of the input from
      there begins a match (one direction for every pattern). */
  lemma SearchReports(m: Matcher, branches: seq<Branch>, input: string, begin: nat)
    requires Rewritable(branches) && begin < |input|
    ensures BeginsMatch(m, branches, input[begin..]) ==> Reported(m, branches, input, begin)
    ensures Fits(branches) && Inhabited(m, branches) ==>
      (Reported(m, branches, input, begin) <==> BeginsMatch(m, branches, input[begin..]))
  {
    ReportedMeans(m, branches, input, begin);
    var u := input[begin..];
    if BeginsMatch(m, branches, u) {
      PartialComplete(m, branches, u);
    }
    if Fits(branches) && Inhabited(m, branches) {
      PartialExact(m, branches, Rev(u));
      RevTwice(u);
    }
  }

  function Sym(c: char): (item: Item) { Item(Symbol([c]), Once) }

  function Inner(): (p: seq<Branch>) { [Branch([Sym('b'), Sym('c')])] }
  function Outer(): (p: seq<Branch>) { [Branch([Item(Sub(Inner()), Once), Sym('d')])] }

  /** `(a|b)*c` and `(b)d` are covered by `PartialExact`. */
  lemma LettersInGroupsFit()
    ensures Fits([Branch([Item(Sub([Branch([Sym('a')]), Branch([Sym('b')])]), Star), Sym('c')])])
    ensures Fits([Branch([Item(Sub([Branch([Sym('b')])]), Once), Sym('d')])])
  {
    var none: seq<Branch> := [];
    LetterMayBeLeft('b', none);
    LetterMayBeLeft('a', [Branch([Sym('b')])]);
    ThenLetterFits(Item(Sub([Branch([Sym('a')]), Branch([Sym('b')])]), Star), 'c');
    ThenLetterFits(Item(Sub([Branch([Sym('b')])]), Once), 'd');
  }

  lemma LetterMayBeLeft(c: char, others: seq<Branch>)
    requires StoppableAny(others)
    ensures StoppableAny([Branch([Sym(c)])] + others)
  {
    var items := [Sym(c)];
    assert items[1..] == [] && ([Branch(items)] + others)[1..] == others;
    assert Expanded(items[1..]) == [];
    assert Expanded(items) == ExpandedItem(Sym(c)) + Expanded(items[1..]);
    assert Stoppable(Sym(c).base) && StoppableItem(Sym(c));
    assert StoppableItems(items) && LeavesOff(Expanded(items));
  }

  lemma ThenLetterFits(group: Item, c: char)
    requires StoppableItem(group)
    ensures Fits([Branch([group, Sym(c)])])
  {
    assert [group, Sym(c)][1..] == [Sym(c)] && [Sym(c)][1..] == [];
    assert Stoppable(Sym(c).base) && StoppableItem(Sym(c));
    assert FitsItems([Sym(c)]) && FitsItems([group, Sym(c)]);
  }

  // ----- a group of words in front of a letter -----

  ghost predicate LettersMatch(m: Matcher) {
    forall text, c :: m(text, c) <==> text == [c]
  }

  function Letters(w: string): (items: seq<Item>) {
    if w == "" then [] else [Sym(w[0])] + Letters(w[1..])
  }

  function Words(ws: seq<string>): (branches: seq<Branch>)
    ensures |branches| == |ws| && forall i :: 0 <= i < |ws| ==> branches[i] == Branch(Letters(ws[i]))
  {
    seq(|ws|, i requires 0 <= i < |ws| => Branch(Letters(ws[i])))
  }

  /** Some letters, a group of words, another letter, and anything. */
  function GroupOfWords(front: string, ws: seq<string>, d: char, more: seq<Item>): (p: seq<Branch>) {
    [Branch(Letters(front) + [Item(Sub(Words(ws)), Once)] + ([Sym(d)] + more))]
  }

  /** None of the words has ended within `v`, and none goes on from there with `d`. */
  predicate NoneGoesOn(ws: seq<string>, v: string, d: char) {
    forall i :: 0 <= i < |ws| ==> !(ws[i] <= v) && !(v + [d] <= ws[i])
  }

  lemma OnceItem(m: Matcher, item: Item, w: string)
    requires item.quant == Once
    ensures MatchItem(m, item, w) <==> MatchBase(m, item.base, w)
  {
    if MatchItem(m, item, w) {
      var ws := Run(m, item, w);
      assert Concat(ws) == ws[0] + Concat(ws[1..]) && ws[1..] == [];
      assert w == ws[0];
    }
    if MatchBase(m, item.base, w) {
      var ws := [w];
      assert Concat(ws) == w + Concat(ws[1..]) && Concat(ws) == w;
    }
  }

  lemma LetterThen(m: Matcher, items: seq<Item>, c: char, u: string)
    requires LettersMatch(m) && items != [] && items[0] == Sym(c)
    ensures MatchSeq(m, items, u) <==> u != "" && u[0] == c && MatchSeq(m, items[1..], u[1..])
  {
    OnceItem(m, Sym(c), [c]);
    hide MatchSeq, MatchItem;
    if MatchSeq(m, items, u) {
      var k := FirstItem(m, items, u);
      OnceItem(m, Sym(c), u[..k]);
      assert u[..k] == [c] && k == 1 && u[0] == u[..k][0];
    }
    if u != "" && u[0] == c && MatchSeq(m, items[1..], u[1..]) {
      MatchSeqCons(m, items, [c], u[1..]);
      assert u == [c] + u[1..];
    }
  }

  lemma {:induction false} LettersThen(m: Matcher, w: string, items: seq<Item>, u: string)
    requires LettersMatch(m)
    ensures MatchSeq(m, Letters(w) + items, u) <==> w <= u && MatchSeq(m, items, u[|w|..])
  {
    var all := Letters(w) + items;
    if w == "" {
      assert all == items && u[0..] == u;
    } else {
      assert all[0] == Sym(w[0]) && all[1..] == Letters(w[1..]) + items;
      hide *;
      LetterThen(m, all, w[0], u);
      PrefixStep(w, u);
      if u != "" {
        LettersThen(m, w[1..], items, u[1..]);
      }
    }
  }

  lemma PrefixStep(w: string, u: string)
    requires w != ""
    ensures w <= u <==> u != "" && u[0] == w[0] && w[1..] <= u[1..]
    ensures w <= u ==> u[1..][|w[1..]|..] == u[|w|..]
  {
    assert w == [w[0]] + w[1..];
    if u != "" { assert u == [u[0]] + u[1..]; }
  }

  /** Of two beginnings of one text the shorter begins the longer. */
  lemma TwoBeginnings(front: string, v: string, d: char, w: string, k: nat)
    requires front <= w && front + v + [d] <= w && |front| + k <= |w|
    ensures
      var word := w[|front|..][..k];
      word <= v || v + [d] <= word
  {
    var word, vd := w[|front|..][..k], v + [d];
    assert forall i :: 0 <= i < |vd| ==> vd[i] == (front + v + [d])[|front| + i];
    assert forall i :: 0 <= i < k && i < |vd| ==> word[i] == vd[i];
  }

  lemma WordMatches(m: Matcher, w: string, u: string)
    requires LettersMatch(m)
    ensures MatchSeq(m, Letters(w), u) <==> u == w
  {
    LettersThen(m, w, [], u);
    assert Letters(w) + [] == Letters(w);
  }

  lemma WordsMatch(m: Matcher, ws: seq<string>, u: string)
    requires LettersMatch(m)
    ensures MatchBase(m, Sub(Words(ws)), u) <==> u in ws
  {
    forall i | 0 <= i < |ws| ensures MatchSeq(m, Words(ws)[i].items, u) <==> u == ws[i] {
      WordMatches(m, ws[i], u);
    }
    hide MatchSeq, Letters;
  }

  /** Where no word of the group goes on with the letter behind it, the pattern is inexact: the
      group may be left there, the letter is read, and no match begins that way. */
  lemma WordsLeftEarly(m: Matcher, front: string, ws: seq<string>, d: char, more: seq<Item>, i: nat, v: string)
    requires LettersMatch(m) && Rewritable(GroupOfWords(front, ws, d, more)) && Inhabited(m, [Branch(more)])
    requires i < |ws| && v <= ws[i] && v != "" && NoneGoesOn(ws, v, d)
    ensures In(m, ReversedAny(GroupOfWords(front, ws, d, more)), Rev(front + v + [d]))
    ensures !BeginsMatch(m, GroupOfWords(front, ws, d, more), front + v + [d])
    ensures !Exact(m, GroupOfWords(front, ws, d, more))
  {
    var p := GroupOfWords(front, ws, d, more);
    var group, behind := Item(Sub(Words(ws)), Once), [Sym(d)] + more;
    var y := AnyInhabited(m, [Branch(more)]);
    LetterThen(m, [Sym(d)] + more, d, [d] + y);
    assert ([d] + y)[1..] == y && ([Sym(d)] + more)[1..] == more;
    WordMatches(m, front, front);
    WordsMatch(m, ws, ws[i]);
    hide In, MatchSeq, MatchBase, MatchItem, Rewritable, Inhabited, Letters, Words;
    OneEarly(m, group, v, ws[i]);
    forall w ensures !(MatchAny(m, p, w) && front + v + [d] <= w) {
      if MatchAny(m, p, w) {
        NotBegun(m, front, ws, d, more, v, w);
      }
    }
    EarlyBreaks(m, p, 0, Letters(front), group, behind, front, v, [d] + y, [d]);
    EarlyAccepted(m, p, 0, Letters(front), group, behind, front, v, [d] + y, [d]);
  }

  lemma OneEarly(m: Matcher, item: Item, v: string, w: string)
    requires item.quant == Once && MatchBase(m, item.base, w) && Opening(v, w)
    ensures LeftEarly(m, item, v)
  {
    hide MatchBase;
    var vs := [v];
    assert Concat(vs) == v + Concat(vs[1..]) && Concat(vs) == v;
  }

  lemma NotBegun(m: Matcher, front: string, ws: seq<string>, d: char, more: seq<Item>, v: string, w: string)
    requires LettersMatch(m) && NoneGoesOn(ws, v, d) && MatchAny(m, GroupOfWords(front, ws, d, more), w)
    ensures !(front + v + [d] <= w)
  {
    var group, behind := Item(Sub(Words(ws)), Once), [Sym(d)] + more;
    var items := [group] + behind;
    assert Letters(front) + [group] + behind == Letters(front) + items && items[1..] == behind;
    LettersThen(m, front, items, w);
    hide MatchSeq, MatchItem, MatchBase, Letters, Words;
    var rest := w[|front|..];
    var k := FirstItem(m, items, rest);
    OnceItem(m, group, rest[..k]);
    WordsMatch(m, ws, rest[..k]);
    var j :| 0 <= j < |ws| && ws[j] == rest[..k];
    if front + v + [d] <= w {
      TwoBeginnings(front, v, d, w, k);
    }
  }

  /** `(bc)d` is such a pattern: the text `bd` is reported, although no match begins that way. */
  lemma MiddleGroupInexact(m: Matcher)
    requires LettersMatch(m)
    ensures Rewritable(Outer()) && Inhabited(m, Outer())
    ensures In(m, ReversedAny(Outer()), Rev("bd")) && !BeginsMatch(m, Outer(), "bd")
  {
    OuterWellFormed(m);
    OuterIsOfWords();
    hide In, MatchAny, ReversedAny, Rewritable, Inhabited, Inner, Outer;
    var ws, d, none := ["bc"], 'd', [];
    assert "b" <= ws[0] && NoneGoesOn(ws, "b", d);
    NothingFollows(m, none);
    WordsLeftEarly(m, "", ws, d, none, 0, "b");
    assert "" + "b" + [d] == "bd";
  }

  lemma NothingFollows(m: Matcher, none: seq<Item>)
    requires none == []
    ensures Inhabited(m, [Branch(none)])
  {
    var all := [Branch(none)];
    assert all[1..] == [];
  }

  lemma OuterIsOfWords()
    ensures GroupOfWords("", ["bc"], 'd', []) == Outer()
  {
    assert "bc"[1..] == "c" && "c"[1..] == "";
    assert Letters("c") == [Sym('c')];
    assert Letters("bc") == [Sym('b')] + Letters("c");
    assert Words(["bc"])[0] == Inner()[0];
    assert Words(["bc"]) == Inner();
    assert Letters("") + [Item(Sub(Inner()), Once)] + ([Sym('d')] + []) == Outer()[0].items;
  }

  lemma OuterWellFormed(m: Matcher)
    requires LettersMatch(m)
    ensures Rewritable(Outer()) && Inhabited(m, Outer())
  {
    TwoParts(Sym('b'), Sym('c'));
    TwoParts(Item(Sub(Inner()), Once), Sym('d'));
    assert m("b", 'b') && m("c", 'c') && m("d", 'd');
    assert Inner()[0].items[1..] == [Sym('c')] && Outer()[0].items[1..] == [Sym('d')];
    assert Rewritable(Inner());
    assert RewritableItem(Outer()[0].items[0]);
    assert InhabitedItems(m, [Sym('c')]) && InhabitedItems(m, [Sym('d')]);
    assert InhabitedItems(m, Inner()[0].items);
    assert Inhabited(m, Inner());
  }

  lemma TwoParts(x: Item, y: Item)
    requires x.quant == y.quant == Once
    ensures PartsOfAll([x, y]) == [Quantified(Reversed(x.base), Once), Quantified(Reversed(y.base), Once)]
  {
    assert [x, y][1..] == [y] && [y][1..] == [];
    assert PartsOf(x) == [Quantified(Reversed(x.base), Once)];
    assert PartsOf(y) == [Quantified(Reversed(y.base), Once)];
    assert PartsOfAll([y]) == PartsOf(y) + PartsOfAll([]);
    assert PartsOfAll([x, y]) == PartsOf(x) + PartsOfAll([y]);
  }
}
