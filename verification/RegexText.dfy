/** The text side of `regex_to_reversed_partial_regex`: one pass over the lexemes of a pattern
    that collects the parts of every alternative and writes them reversed and nested. On the
    text of any pattern tree it writes the text of the tree's rewriting. */
module RegexText {
  import opened Common
  import opened RegexPartial

  /** `Sym` is a literal, an escape or a character class; `Open` is `(` or `(?:`; a range holds
      the bounds of `{...}`. */
  datatype Lexeme = Sym(text: string) | Open | Close | Bar | Mark(c: char) | Range(min: nat, max: Option<nat>)

  type Alts = a: seq<seq<string>> | |a| > 0 witness [[]]

  // ----- what the pass does, alternative by alternative -----

  function Last(alts: Alts): (parts: seq<string>) {
    alts[|alts| - 1]
  }

  function WithLast(alts: Alts, parts: seq<string>): (r: Alts) {
    alts[|alts| - 1 := parts]
  }

  function Push(alts: Alts, part: string): (r: Alts) {
    WithLast(alts, Last(alts) + [part])
  }

  /** `x{2,4}` as `x`, `x`, `x?`, `x?`; an open end is a star. */
  function Repeated(part: string, min: nat, max: Option<nat>): (parts: seq<string>)
    requires max.Some? ==> min <= max.value
  {
    Copies(part, min) + if max.None? then [part + "*"] else Copies(part + "?", max.value - min)
  }

  /** From the lexemes `rest` on, with the alternatives collected so far, up to a closing
      parenthesis or the end: all alternatives, and the lexemes not read. */
  function Collect(rest: seq<Lexeme>, alts: Alts): (r: Result<(Alts, seq<Lexeme>)>)
    ensures r.Ok? ==> |r.value.1| <= |rest| && (r.value.1 == [] || r.value.1[0] == Close)
    decreases |rest|, 0
  {
    if rest == [] || rest[0] == Close then Ok((alts, rest))
    else
      var parts := Last(alts);
      match rest[0]
      case Sym(text) => Collect(rest[1..], Push(alts, text))
      case Bar => Collect(rest[1..], alts + [[]])
      case Mark(c) =>
        if parts == [] then Invalid
        else
          var marked := WithLast(alts, parts[|parts| - 1 := parts[|parts| - 1] + [c]]);
          if c == '*' && |rest| > 1 && rest[1] == Mark('?') then Collect(rest[2..], marked)
          else Collect(rest[1..], marked)
      case Range(min, max) =>
        if parts == [] || (max.Some? && max.value < min) then Invalid
        else
          var part := parts[|parts| - 1];
          Collect(rest[1..], WithLast(alts, parts[..|parts| - 1] + Repeated(part, min, max)))
      case Open =>
        var sub := Rewrite(rest[1..]);
        if sub.Invalid? || sub.value.1 == [] then Invalid
        else Collect(sub.value.1[1..], Push(alts, "(?:" + sub.value.0 + ")"))
      case Close => Invalid
  }

  /** `process`: the rewritten group, and the lexemes not read. An alternative without parts
      makes the program's loop bound wrap; it ends in an error. */
  function Rewrite(rest: seq<Lexeme>): (r: Result<(string, seq<Lexeme>)>)
    ensures r.Ok? ==> |r.value.1| <= |rest| && (r.value.1 == [] || r.value.1[0] == Close)
    decreases |rest|, 1
  {
    var alts := Collect(rest, [[]]);
    if alts.Invalid? || [] in alts.value.0 then Invalid
    else Ok((Alternatives(alts.value.0), alts.value.1))
  }

  /** `abc` as `(?:(?:c)?b)?a`. */
  function ChainText(parts: seq<string>): (s: string)
    requires parts != []
  {
    if |parts| == 1 then parts[0] else "(?:" + ChainText(parts[1..]) + ")?" + parts[0]
  }

  function Alternatives(alts: seq<seq<string>>): (s: string)
    requires [] !in alts
  {
    if alts == [] then ""
    else if |alts| == 1 then ChainText(alts[0])
    else ChainText(alts[0]) + "|" + Alternatives(alts[1..])
  }

  // ----- the text of trees -----

  function MarkText(q: Quant): (s: string) {
    match q
    case Maybe => "?"
    case Star => "*"
    case Plus => "+"
    case LazyMaybe => "??"
    case LazyStar => "*?"
    case LazyPlus => "+?"
    case _ => ""
  }

  /** A regular expression as text; everything but a single symbol is put in a group before it
      is quantified. */
  function RxText(r: Rx): (s: string) {
    match r
    case Atom(text) => text
    case Void => ""
    case Cat(a, b) => RxText(a) + RxText(b)
    case Or(a, b) => if b.Void? then RxText(a) else RxText(a) + "|" + RxText(b)
    case Quantified(body, q) => (if body.Atom? then body.text else "(?:" + RxText(body) + ")") + MarkText(q)
  }

  function QuantLexemes(q: Quant): (ls: seq<Lexeme>) {
    match q
    case Once => []
    case Times(min, max) => [Range(min, if max.AtMost? then Some(max.n) else None)]
    case LazyMaybe | LazyStar | LazyPlus => [Mark(MarkText(q)[0]), Mark('?')]
    case _ => [Mark(MarkText(q)[0])]
  }

  /** A pattern tree as lexemes. */
  function ShowBase(b: Base): (ls: seq<Lexeme>)
    decreases b, 0
  {
    match b
    case Symbol(text) => [Sym(text)]
    case Sub(branches) => [Open] + ShowAny(branches) + [Close]
  }

  function ShowItems(items: seq<Item>): (ls: seq<Lexeme>)
    decreases items, 1
  {
    if items == [] then [] else ShowItem(items[0]) + ShowItems(items[1..])
  }

  function ShowItem(item: Item): (ls: seq<Lexeme>)
    decreases item, 0
  {
    ShowBase(item.base) + QuantLexemes(item.quant)
  }

  function ShowAny(branches: seq<Branch>): (ls: seq<Lexeme>)
    decreases branches, 1
  {
    if branches == [] then []
    else if |branches| == 1 then ShowItems(branches[0].items)
    else ShowItems(branches[0].items) + [Bar] + ShowAny(branches[1..])
  }

  // ----- the pass writes the rewriting -----

  function Texts(ps: seq<Rx>): (ts: seq<string>)
    ensures |ts| == |ps| && forall i :: 0 <= i < |ps| ==> ts[i] == RxText(ps[i])
  {
    seq(|ps|, i requires 0 <= i < |ps| => RxText(ps[i]))
  }

  /** Every group has an alternative and every range is in order. */
  predicate Proper(branches: seq<Branch>)
    decreases branches, 1
  {
    branches != [] && forall i :: 0 <= i < |branches| ==> ProperItems(branches[i].items)
  }

  predicate ProperItems(items: seq<Item>)
    decreases items, 1
  {
    items == [] || (ProperItem(items[0]) && ProperItems(items[1..]))
  }

  predicate ProperItem(item: Item)
    decreases item, 0
  {
    && (item.quant.Times? && item.quant.max.AtMost? ==> item.quant.min <= item.quant.max.n)
    && ProperBase(item.base)
  }

  predicate ProperBase(b: Base)
    decreases b, 0
  {
    b.Sub? ==> Proper(b.branches)
  }

  /** No quantifier comes next. */
  predicate NoQuantifier(rest: seq<Lexeme>) {
    rest == [] || !(rest[0].Mark? || rest[0].Range?)
  }

  /** The text of a base as it is pushed. */
  function BaseText(b: Base): string {
    if b.Symbol? then b.text else "(?:" + RxText(ReversedAny(b.branches)) + ")"
  }

  lemma ReversedIsOr(branches: seq<Branch>)
    requires Rewritable(branches) && branches != []
    ensures ReversedAny(branches).Or?
  {}

  lemma PartText(b: Base, q: Quant)
    requires RewritableBase(b) && ProperBase(b)
    ensures RxText(Quantified(Reversed(b), q)) == BaseText(b) + MarkText(q)
  {
    if b.Sub? {
      ReversedIsOr(b.branches);
      hide RxText;
      assert RxText(Quantified(Reversed(b), q)) == "(?:" + RxText(Reversed(b)) + ")" + MarkText(q) by {
        QuantifiedText(Reversed(b), q);
      }
    }
  }

  lemma QuantifiedText(r: Rx, q: Quant)
    ensures RxText(Quantified(r, q)) == (if r.Atom? then r.text else "(?:" + RxText(r) + ")") + MarkText(q)
  {}

  lemma PartTexts(item: Item)
    requires RewritableBase(item.base) && ProperItem(item)
    ensures
      var b := BaseText(item.base);
      Texts(PartsOf(item)) ==
        match item.quant
        case Times(min, max) => Repeated(b, min, if max.AtMost? then Some(max.n) else None)
        case q => [b + MarkText(Unfold(q)[0])]
  {
    hide RxText, BaseText;
    var b, qs := BaseText(item.base), Unfold(item.quant);
    forall i | 0 <= i < |qs|
      ensures Texts(PartsOf(item))[i] == b + MarkText(qs[i])
    {
      PartText(item.base, qs[i]);
    }
    assert b + "" == b;
  }

  lemma CollectQuant(q: Quant, rest: seq<Lexeme>, alts: Alts, part: string)
    requires q.Times? && q.max.AtMost? ==> q.min <= q.max.n
    requires NoQuantifier(rest)
    ensures
      var parts := match q
        case Times(min, max) => Repeated(part, min, if max.AtMost? then Some(max.n) else None)
        case _ => [part + MarkText(Unfold(q)[0])];
      Collect(QuantLexemes(q) + rest, Push(alts, part)) == Collect(rest, WithLast(alts, Last(alts) + parts))
  {
    hide Collect, Rewrite, Repeated;
    var pushed := Push(alts, part);
    if q.Once? {
      assert QuantLexemes(q) + rest == rest;
      assert part + "" == part;
    } else if q.Times? {
      var max := if q.max.AtMost? then Some(q.max.n) else None;
      CollectRange(q.min, max, rest, pushed);
      RepeatedLast(alts, part, Repeated(part, q.min, max));
    } else {
      CollectMarks(q, rest, alts, part);
    }
  }

  lemma RepeatedLast(alts: Alts, part: string, parts: seq<string>)
    ensures
      var pushed := Push(alts, part);
      WithLast(pushed, Last(pushed)[..|Last(pushed)| - 1] + parts) == WithLast(alts, Last(alts) + parts)
  {
    var pushed := Push(alts, part);
    assert Last(pushed)[..|Last(pushed)| - 1] == Last(alts);
  }

  lemma CollectMarks(q: Quant, rest: seq<Lexeme>, alts: Alts, part: string)
    requires !q.Once? && !q.Times? && NoQuantifier(rest)
    ensures Collect(QuantLexemes(q) + rest, Push(alts, part)) == Collect(rest, Push(alts, part + MarkText(Unfold(q)[0])))
  {
    hide Collect, Rewrite, WithLast, Last, Push;
    var pushed, c := Push(alts, part), MarkText(q)[0];
    PushedLast(alts, part);
    MarkedLast(alts, part, c);
    if q.LazyMaybe? || q.LazyPlus? {
      CollectMark(c, [Mark('?')] + rest, pushed);
      CollectMark('?', rest, Push(alts, part + [c]));
      PushedLast(alts, part + [c]);
      MarkedLast(alts, part + [c], '?');
      assert QuantLexemes(q) + rest == [Mark(c)] + ([Mark('?')] + rest);
      assert part + [c] + ['?'] == part + MarkText(q);
    } else if q.LazyStar? {
      CollectMark(c, [Mark('?')] + rest, pushed);
      assert QuantLexemes(q) + rest == [Mark(c)] + ([Mark('?')] + rest);
      assert ([Mark('?')] + rest)[1..] == rest;
    } else {
      CollectMark(c, rest, pushed);
      assert QuantLexemes(q) == [Mark(c)] && MarkText(q) == [c];
    }
  }

  lemma PushedLast(alts: Alts, part: string)
    ensures Last(Push(alts, part)) != []
  {}

  lemma MarkedLast(alts: Alts, part: string, c: char)
    ensures
      var pushed := Push(alts, part);
      WithLast(pushed, Last(pushed)[|Last(pushed)| - 1 := Last(pushed)[|Last(pushed)| - 1] + [c]]) == Push(alts, part + [c])
  {
    var parts := Last(Push(alts, part));
    assert parts[|parts| - 1 := part + [c]] == Last(alts) + [part + [c]];
  }

  lemma {:induction false} CollectItem(item: Item, rest: seq<Lexeme>, alts: Alts)
    requires RewritableItem(item) && ProperItem(item) && NoQuantifier(rest)
    ensures Collect(ShowItem(item) + rest, alts) == Collect(rest, WithLast(alts, Last(alts) + Texts(PartsOf(item))))
    decreases item, 0
  {
    hide Collect, Repeated, QuantLexemes;
    var quant := QuantLexemes(item.quant);
    assert ShowItem(item) + rest == ShowBase(item.base) + (quant + rest);
    CollectBase(item.base, quant + rest, alts);
    CollectQuant(item.quant, rest, alts, BaseText(item.base));
    PartTexts(item);
  }

  lemma {:induction false} CollectBase(b: Base, rest: seq<Lexeme>, alts: Alts)
    requires RewritableBase(b) && ProperBase(b)
    ensures Collect(ShowBase(b) + rest, alts) == Collect(rest, Push(alts, BaseText(b)))
    decreases b, 0
  {
    match b {
      case Symbol(text) =>
        CollectSym(text, rest, alts);
      case Sub(branches) =>
        assert ShowBase(b) + rest == [Open] + (ShowAny(branches) + ([Close] + rest));
        hide Collect, Rewrite, ShowAny;
        RewriteAny(branches, [Close] + rest);
        CollectOpen(ShowAny(branches) + ([Close] + rest), alts);
        assert ([Close] + rest)[1..] == rest;
    }
  }

  lemma CollectOpen(rest: seq<Lexeme>, alts: Alts)
    ensures
      var sub := Rewrite(rest);
      Collect([Open] + rest, alts) ==
        if sub.Invalid? || sub.value.1 == [] then Invalid
        else Collect(sub.value.1[1..], Push(alts, "(?:" + sub.value.0 + ")"))
  {
    hide Rewrite;
    assert ([Open] + rest)[1..] == rest;
  }

  lemma {:induction false} CollectItems(items: seq<Item>, rest: seq<Lexeme>, alts: Alts)
    requires RewritableItems(items) && ProperItems(items) && NoQuantifier(rest)
    ensures Collect(ShowItems(items) + rest, alts) == Collect(rest, WithLast(alts, Last(alts) + Texts(PartsOfAll(items))))
    decreases items, 1
  {
    hide Collect, ShowItem, PartsOf;
    if items == [] {
      assert ShowItems(items) + rest == rest;
      assert Last(alts) + Texts([]) == Last(alts);
      assert WithLast(alts, Last(alts)) == alts;
    } else {
      var item, others := items[0], ShowItems(items[1..]) + rest;
      assert ShowItems(items) + rest == ShowItem(item) + others;
      ItemsStart(items[1..], rest);
      CollectItem(item, others, alts);
      CollectItems(items[1..], rest, WithLast(alts, Last(alts) + Texts(PartsOf(item))));
      TextsConcat(PartsOf(item), PartsOfAll(items[1..]));
      AddedTwice(alts, Texts(PartsOf(item)), Texts(PartsOfAll(items[1..])));
    }
  }

  lemma TextsConcat(a: seq<Rx>, b: seq<Rx>)
    ensures Texts(a + b) == Texts(a) + Texts(b)
  {}

  lemma AddedTwice(alts: Alts, a: seq<string>, b: seq<string>)
    ensures
      var after := WithLast(alts, Last(alts) + a);
      WithLast(after, Last(after) + b) == WithLast(alts, Last(alts) + (a + b))
  {
    assert Last(alts) + a + b == Last(alts) + (a + b);
  }

  lemma AddedToNew(before: seq<seq<string>>, mine: seq<string>)
    ensures
      var alts: Alts := before + [[]];
      WithLast(alts, Last(alts) + mine) == before + [mine]
  {
    assert [] + mine == mine;
  }

  lemma ItemsStart(items: seq<Item>, rest: seq<Lexeme>)
    requires NoQuantifier(rest)
    ensures NoQuantifier(ShowItems(items) + rest)
  {
    if items != [] {
      BaseStart(items[0].base);
    } else {
      assert ShowItems(items) + rest == rest;
    }
  }

  lemma BaseStart(b: Base)
    ensures ShowBase(b) != [] && (ShowBase(b)[0] == Open || ShowBase(b)[0].Sym?)
  {}

  /** The parts of every alternative, as texts. */
  function TextsAny(branches: seq<Branch>): (alts: seq<seq<string>>)
    ensures |alts| == |branches|
    ensures forall i :: 0 <= i < |branches| ==> alts[i] == Texts(PartsOfAll(branches[i].items))
  {
    seq(|branches|, i requires 0 <= i < |branches| => Texts(PartsOfAll(branches[i].items)))
  }

  lemma {:induction false} CollectAny(branches: seq<Branch>, rest: seq<Lexeme>, before: seq<seq<string>>)
    requires Rewritable(branches) && Proper(branches) && (rest == [] || rest[0] == Close)
    ensures Collect(ShowAny(branches) + rest, before + [[]]) == Ok((before + TextsAny(branches), rest))
    decreases branches, 2
  {
    hide Collect, ShowAny, ShowItems, TextsAny, WithLast, Last, PartsOfAll;
    var items := branches[0].items;
    var alts: Alts := before + [[]];
    var done := before + [Texts(PartsOfAll(items))];
    var others := ShowAny(branches[1..]) + rest;
    AddedToNew(before, Texts(PartsOfAll(items)));
    ShowAnyStep(branches, rest);
    TextsAnyStep(branches, before);
    if |branches| == 1 {
      CollectItems(items, rest, alts);
      CollectStops(rest, done);
    } else {
      CollectItems(items, [Bar] + others, alts);
      CollectBar(others, done);
      CollectAny(branches[1..], rest, done);
    }
  }

  lemma ShowAnyStep(branches: seq<Branch>, rest: seq<Lexeme>)
    requires branches != []
    ensures ShowAny(branches) + rest ==
            ShowItems(branches[0].items) + if |branches| == 1 then rest else [Bar] + (ShowAny(branches[1..]) + rest)
  {
    var first, others := ShowItems(branches[0].items), ShowAny(branches[1..]);
    assert |branches| > 1 ==> ShowAny(branches) == first + ([Bar] + others);
    hide ShowItems, ShowAny;
    AppendTwice(first, others, rest);
  }

  lemma AppendTwice(first: seq<Lexeme>, others: seq<Lexeme>, rest: seq<Lexeme>)
    ensures first + ([Bar] + others) + rest == first + ([Bar] + (others + rest))
  {}

  lemma TextsAnyStep(branches: seq<Branch>, before: seq<seq<string>>)
    requires branches != []
    ensures before + TextsAny(branches) == before + [Texts(PartsOfAll(branches[0].items))] + TextsAny(branches[1..])
    ensures |branches| == 1 ==> before + TextsAny(branches) == before + [Texts(PartsOfAll(branches[0].items))]
  {
    hide PartsOfAll, Texts;
  }

  lemma CollectStops(rest: seq<Lexeme>, alts: Alts)
    requires rest == [] || rest[0] == Close
    ensures Collect(rest, alts) == Ok((alts, rest))
  {}

  lemma CollectBar(rest: seq<Lexeme>, alts: Alts)
    ensures Collect([Bar] + rest, alts) == Collect(rest, alts + [[]])
  {
    hide Rewrite;
    assert ([Bar] + rest)[1..] == rest;
  }

  lemma {:induction false} ChainTextIs(parts: seq<Rx>)
    requires parts != [] && forall p :: p in parts ==> p.Quantified?
    ensures ChainText(Texts(parts)) == RxText(Chain(parts)) && !Chain(parts).Atom?
  {
    if |parts| == 1 {
      assert parts[0] in parts;
    } else {
      ChainTextIs(parts[1..]);
      assert Texts(parts)[1..] == Texts(parts[1..]);
      ChainStep(parts);
    }
  }

  lemma ChainStep(parts: seq<Rx>)
    requires |parts| > 1 && !Chain(parts[1..]).Atom?
    ensures RxText(Chain(parts)) == "(?:" + RxText(Chain(parts[1..])) + ")?" + RxText(parts[0])
  {
    var inner := Chain(parts[1..]);
    QuantifiedText(inner, Maybe);
    CatText(Quantified(inner, Maybe), parts[0]);
    assert Chain(parts) == Cat(Quantified(inner, Maybe), parts[0]);
    hide Chain, RxText;
    OptionalGroupText(RxText(inner), RxText(parts[0]));
  }

  lemma CatText(a: Rx, b: Rx)
    ensures RxText(Cat(a, b)) == RxText(a) + RxText(b)
  {}

  lemma OptionalGroupText(x: string, y: string)
    ensures "(?:" + x + ")" + "?" + y == "(?:" + x + ")?" + y
  {
    assert ")?" == ")" + "?";
  }

  lemma {:induction false} PartsAreQuantified(items: seq<Item>)
    ensures forall p :: p in PartsOfAll(items) ==> p.Quantified?
    decreases |items|
  {
    if items != [] {
      PartsAreQuantified(items[1..]);
    }
  }

  lemma {:induction false} AlternativesIs(branches: seq<Branch>)
    requires Rewritable(branches)
    ensures [] !in TextsAny(branches)
    ensures Alternatives(TextsAny(branches)) == RxText(ReversedAny(branches))
    decreases |branches|
  {
    if branches != [] {
      var parts := PartsOfAll(branches[0].items);
      assert parts != [];
      PartsAreQuantified(branches[0].items);
      ChainTextIs(parts);
      AlternativesIs(branches[1..]);
      assert TextsAny(branches)[1..] == TextsAny(branches[1..]);
    }
  }

  /** On the text of a tree the pass writes the text of the tree's rewriting, and stops where
      the tree's text stops. */
  lemma {:induction false} RewriteAny(branches: seq<Branch>, rest: seq<Lexeme>)
    requires Rewritable(branches) && Proper(branches) && (rest == [] || rest[0] == Close)
    ensures Rewrite(ShowAny(branches) + rest) == Ok((RxText(ReversedAny(branches)), rest))
    decreases branches, 3
  {
    hide Collect, ShowAny, ReversedAny, RxText;
    var none: seq<seq<string>> := [];
    CollectAny(branches, rest, none);
    assert none + [[]] == [[]];
    assert none + TextsAny(branches) == TextsAny(branches);
    AlternativesIs(branches);
  }

  // ----- the pass itself -----

  function Opens(n: nat): (s: string) {
    if n == 0 then "" else "(?:" + Opens(n - 1)
  }

  lemma {:induction false} OpensSnoc(n: nat)
    ensures Opens(n + 1) == Opens(n) + "(?:"
  {
    if n > 0 {
      OpensSnoc(n - 1);
    }
  }

  /** The parts from the last one down, each but the first closing a group. */
  function Closes(parts: seq<string>): (s: string)
    requires parts != []
  {
    if |parts| == 1 then parts[0] else Closes(parts[1..]) + ")?" + parts[0]
  }

  lemma {:induction false} ChainTextSplits(parts: seq<string>)
    requires parts != []
    ensures ChainText(parts) == Opens(|parts| - 1) + Closes(parts)
  {
    if |parts| > 1 {
      ChainTextSplits(parts[1..]);
      var opens, closes := Opens(|parts| - 2), Closes(parts[1..]);
      assert "(?:" + (opens + closes) + ")?" + parts[0] == ("(?:" + opens) + (closes + ")?" + parts[0]);
    }
  }

  /** One alternative, written by two loops. */
  method WriteChain(parts: seq<string>) returns (res: string)
    requires parts != []
    ensures res == ChainText(parts)
  {
    res := "";
    for i := 0 to |parts| - 1
      invariant res == Opens(i)
    {
      OpensSnoc(i);
      res := res + "(?:";
    }
    ghost var opens := res;
    var i := |parts|;
    while i > 0
      invariant 0 <= i <= |parts|
      invariant res == opens + if i == |parts| then "" else Closes(parts[i..]) + if i > 0 then ")?" else ""
    {
      i := i - 1;
      assert parts[i..][1..] == parts[i + 1..] && parts[i..][0] == parts[i];
      ghost var before := res;
      res := res + parts[i];
      assert res == opens + Closes(parts[i..]);
      if i > 0 {
        res := res + ")?";
      }
    }
    assert parts[0..] == parts;
    ChainTextSplits(parts);
  }

  method WriteAlternatives(alts: Alts) returns (r: Result<string>)
    ensures r == if [] in alts then Invalid else Ok(Alternatives(alts))
  {
    var written: seq<string> := [];
    for i := 0 to |alts|
      invariant |written| == i && forall k :: 0 <= k < i ==> alts[k] != [] && written[k] == ChainText(alts[k])
    {
      if alts[i] == [] {
        return Invalid;
      }
      var chain := WriteChain(alts[i]);
      written := written + [chain];
    }
    var res := "";
    var k := |alts|;
    assert [] !in alts[k..];
    while k > 0
      invariant 0 <= k <= |alts| && [] !in alts[k..] && res == Alternatives(alts[k..])
    {
      k := k - 1;
      assert alts[k..][1..] == alts[k + 1..] && alts[k..][0] == alts[k];
      assert alts[k..] == [alts[k]] + alts[k + 1..];
      res := if k == |alts| - 1 then written[k] else written[k] + "|" + res;
    }
    assert alts[0..] == alts;
    r := Ok(res);
  }

  /** `process`: `it` moves over the lexemes, `alternatives` grows. */
  method Process(lex: seq<Lexeme>, from: nat) returns (r: Result<string>, it: nat)
    requires from <= |lex|
    ensures from <= it <= |lex|
    ensures Rewrite(lex[from..]) == if r.Invalid? then Invalid else Ok((r.value, lex[it..]))
    decreases |lex| - from
  {
    hide *;
    var alternatives: Alts := [[]];
    it := from;
    RewriteIs(lex[from..]);
    while it < |lex| && lex[it] != Close
      invariant from <= it <= |lex|
      invariant Collect(lex[from..], [[]]) == Collect(lex[it..], alternatives)
    {
      var parts := Last(alternatives);
      assert lex[it..] == [lex[it]] + lex[it + 1..];
      match lex[it] {
        case Sym(text) =>
          CollectSym(text, lex[it + 1..], alternatives);
          alternatives := Push(alternatives, text);
          it := it + 1;
        case Bar =>
          CollectBar(lex[it + 1..], alternatives);
          alternatives := alternatives + [[]];
          it := it + 1;
        case Mark(c) =>
          CollectMark(c, lex[it + 1..], alternatives);
          if parts == [] {
            return Invalid, it;
          }
          alternatives := WithLast(alternatives, parts[|parts| - 1 := parts[|parts| - 1] + [c]]);
          it := it + 1;
          if c == '*' && it < |lex| && lex[it] == Mark('?') {
            assert lex[it..][1..] == lex[it + 1..];
            it := it + 1;
          }
        case Range(min, max) =>
          CollectRange(min, max, lex[it + 1..], alternatives);
          if parts == [] || (max.Some? && max.value < min) {
            return Invalid, it;
          }
          var part := parts[|parts| - 1];
          alternatives := WithLast(alternatives, parts[..|parts| - 1] + Repeated(part, min, max));
          it := it + 1;
        case Open =>
          CollectOpen(lex[it + 1..], alternatives);
          var sub, next := Process(lex, it + 1);
          if sub.Invalid? || next == |lex| {
            return Invalid, it;
          }
          assert lex[next..][1..] == lex[next + 1..];
          alternatives := Push(alternatives, "(?:" + sub.value + ")");
          it := next + 1;
      }
    }
    CollectStops(lex[it..], alternatives);
    r := WriteAlternatives(alternatives);
  }

  lemma CollectSym(text: string, rest: seq<Lexeme>, alts: Alts)
    ensures Collect([Sym(text)] + rest, alts) == Collect(rest, Push(alts, text))
  {
    hide Rewrite;
    assert ([Sym(text)] + rest)[1..] == rest;
  }

  lemma CollectMark(c: char, rest: seq<Lexeme>, alts: Alts)
    ensures
      var parts := Last(alts);
      Collect([Mark(c)] + rest, alts) ==
        if parts == [] then Invalid
        else
          Collect(if c == '*' && rest != [] && rest[0] == Mark('?') then rest[1..] else rest,
                  WithLast(alts, parts[|parts| - 1 := parts[|parts| - 1] + [c]]))
  {
    hide Rewrite;
    var all := [Mark(c)] + rest;
    assert all[1..] == rest;
    if rest != [] {
      assert all[1] == rest[0] && all[2..] == rest[1..];
    }
  }

  lemma CollectRange(min: nat, max: Option<nat>, rest: seq<Lexeme>, alts: Alts)
    ensures
      var parts := Last(alts);
      Collect([Range(min, max)] + rest, alts) ==
        if parts == [] || (max.Some? && max.value < min) then Invalid
        else Collect(rest, WithLast(alts, parts[..|parts| - 1] + Repeated(parts[|parts| - 1], min, max)))
  {
    hide Rewrite, Repeated;
    assert ([Range(min, max)] + rest)[1..] == rest;
  }

  lemma RewriteIs(rest: seq<Lexeme>)
    ensures
      var alts := Collect(rest, [[]]);
      Rewrite(rest) == if alts.Invalid? || [] in alts.value.0 then Invalid
                       else Ok((Alternatives(alts.value.0), alts.value.1))
  {}

  /** `regex_to_reversed_partial_regex`. */
  method ToReversedPartialRegex(lex: seq<Lexeme>) returns (r: Result<string>)
    ensures
      var all := Rewrite(lex);
      r == if all.Ok? && all.value.1 == [] then Ok("(" + all.value.0 + ")[\\s\\S]*") else Invalid
  {
    hide Rewrite;
    assert lex[0..] == lex;
    var res, it := Process(lex, 0);
    if res.Invalid? || it != |lex| {
      return Invalid;
    }
    r := Ok("(" + res.value + ")[\\s\\S]*");
  }

  /** For every pattern tree the program returns the text of the tree's rewriting. */
  method RewriteTree(branches: seq<Branch>) returns (r: Result<string>)
    requires Rewritable(branches) && Proper(branches)
    ensures r == Ok("(" + RxText(ReversedAny(branches)) + ")[\\s\\S]*")
  {
    hide Rewrite, RxText, ReversedAny, ShowAny;
    RewriteAny(branches, []);
    assert ShowAny(branches) + [] == ShowAny(branches);
    r := ToReversedPartialRegex(ShowAny(branches));
  }
}
