/** What a regular expression engine reads in a pattern, the one given to
    `regex_to_reversed_partial_regex` and the one it returns: bars bind loosest, then sequencing,
    and a quantifier belongs to the symbol or group in front of it. */
module RegexReader {
  import opened Common
  import Decimal
  import opened RegexPartial
  import opened RegexText

  // ----- reading -----

  /** The rest of a character class behind its opening bracket, and what follows. */
  function ReadClass(s: string): (r: Option<(string, string)>)
    ensures r.Some? ==> r.value.0 + r.value.1 == s && r.value.0 != ""
  {
    if s == "" then None
    else if s[0] == ']' then Some((s[..1], s[1..]))
    else
      var n := if s[0] == '\\' then 2 else 1;
      if |s| < n then None
      else
        var more := ReadClass(s[n..]);
        if more.None? then None else Some((s[..n] + more.value.0, more.value.1))
  }

  /** The greatest count that is understood. */
  const MAX_COUNT: nat := 0x7fff_ffff

  function ReadCount(s: string): (r: Option<(nat, string)>)
    ensures r.Some? ==> |r.value.1| < |s|
  {
    var digits := Decimal.ReadDigits(s);
    if digits.0 == "" || Decimal.Value(digits.0) > MAX_COUNT then None else Some((Decimal.Value(digits.0), digits.1))
  }

  /** `{m}`, `{m,}` or `{m,n}`, or none of them. */
  function ReadRange(s: string): (r: Option<(Quant, string)>)
    requires s != "" && s[0] == '{'
    ensures r.Some? ==> |r.value.1| < |s|
  {
    var low := ReadCount(s[1..]);
    if low.None? || low.value.1 == "" then None
    else
      var (min, more) := low.value;
      if more[0] == '}' then Some((Times(min, AtMost(min)), more[1..]))
      else if more[0] != ',' || |more| == 1 then None
      else if more[1] == '}' then Some((Times(min, NoLimit), more[2..]))
      else
        var high := ReadCount(more[1..]);
        if high.None? || high.value.1 == "" || high.value.1[0] != '}' then None
        else Some((Times(min, AtMost(high.value.0)), high.value.1[1..]))
  }

  /** A quantifier, reluctant or not, or none. */
  function ReadQuant(s: string): (r: (Quant, string))
    ensures |r.1| <= |s|
  {
    if s != "" && s[0] == '{' && ReadRange(s).Some? then ReadRange(s).value
    else if s == "" || s[0] !in "?*+" then (Once, s)
    else
      var lazy := |s| > 1 && s[1] == '?';
      (match s[0]
       case '?' => if lazy then LazyMaybe else Maybe
       case '*' => if lazy then LazyStar else Star
       case _ => if lazy then LazyPlus else Plus,
       if lazy then s[2..] else s[1..])
  }

  function ReadBase(s: string): (r: Option<(Base, string)>)
    requires s != ""
    ensures r.Some? ==> |r.value.1| < |s|
    decreases |s|, 0
  {
    if s[0] == '(' then
      var sub := ReadAny(if "(?:" <= s then s[3..] else s[1..]);
      if sub.None? || sub.value.1 == "" || sub.value.1[0] != ')' then None
      else Some((Sub(sub.value.0), sub.value.1[1..]))
    else if s[0] == '[' then
      var rest := ReadClass(s[1..]);
      if rest.None? then None else Some((Symbol("[" + rest.value.0), rest.value.1))
    else if s[0] == '\\' then
      if |s| == 1 then None else Some((Symbol(s[..2]), s[2..]))
    else if s[0] in SPECIAL then None
    else Some((Symbol(s[..1]), s[1..]))
  }

  const SPECIAL := "()[{*+?|\\"

  /** The items of a sequence, up to a bar, a closing parenthesis or the end. */
  function ReadItems(s: string): (r: Option<(seq<Item>, string)>)
    ensures r.Some? ==> |r.value.1| <= |s|
    decreases |s|, 1
  {
    if s == "" || s[0] == '|' || s[0] == ')' then Some(([], s))
    else
      var base := ReadBase(s);
      if base.None? then None
      else
        var mark := ReadQuant(base.value.1);
        AllOf([Item(base.value.0, mark.0)], ReadItems(mark.1))
  }

  function AllOf(xs: seq<Item>, r: Option<(seq<Item>, string)>): Option<(seq<Item>, string)> {
    if r.None? then None else Some((xs + r.value.0, r.value.1))
  }

  /** The alternatives of a pattern or group, up to a closing parenthesis or the end. */
  function ReadAny(s: string): (r: Option<(seq<Branch>, string)>)
    ensures r.Some? ==> |r.value.1| <= |s| && r.value.0 != []
    decreases |s|, 2
  {
    var first := ReadItems(s);
    if first.None? then None
    else if first.value.1 == "" || first.value.1[0] != '|' then Some(([Branch(first.value.0)], first.value.1))
    else
      var others := ReadAny(first.value.1[1..]);
      if others.None? then None else Some(([Branch(first.value.0)] + others.value.0, others.value.1))
  }

  /** The whole text is one pattern. */
  predicate IsPattern(text: string, branches: seq<Branch>) {
    ReadAny(text) == Some((branches, ""))
  }

  // ----- what is written -----

  /** A literal, an escape or a class, as a pattern is cut into symbols. */
  predicate IsSymbol(text: string) {
    || (|text| == 1 && text[0] !in SPECIAL)
    || (|text| == 2 && text[0] == '\\')
    || (|text| > 1 && text[0] == '[' && ReadClass(text[1..]) == Some((text[1..], "")))
  }

  predicate SymbolsOk(branches: seq<Branch>)
    decreases branches, 1
  {
    forall i :: 0 <= i < |branches| ==> SymbolsOkItems(branches[i].items)
  }

  predicate SymbolsOkItems(items: seq<Item>)
    decreases items, 1
  {
    items == [] || (SymbolsOkItem(items[0]) && SymbolsOkItems(items[1..]))
  }

  predicate SymbolsOkItem(item: Item)
    decreases item, 0
  {
    SymbolsOkBase(item.base)
  }

  predicate SymbolsOkBase(b: Base)
    decreases b, 0
  {
    match b
    case Symbol(text) => IsSymbol(text)
    case Sub(branches) => SymbolsOk(branches)
  }

  /** Sequences of quantified symbols and groups. */
  predicate SeqForm(r: Rx)
    decreases r, 0
  {
    match r
    case Quantified(body, q) => !q.Times? && if body.Atom? then IsSymbol(body.text) else AltsForm(body)
    case Cat(a, b) => SeqForm(a) && SeqForm(b)
    case _ => false
  }

  /** Alternatives of such sequences. */
  predicate AltsForm(r: Rx)
    decreases r, 1
  {
    match r
    case Or(a, b) => SeqForm(a) && (b.Void? || (b.Or? && AltsForm(b)))
    case _ => SeqForm(r)
  }

  // ----- what is read there -----

  function ItemsRead(r: Rx): (items: seq<Item>)
    requires SeqForm(r)
    decreases r, 0
  {
    match r
    case Quantified(body, q) => [Item(if body.Atom? then Symbol(body.text) else Sub(AltsRead(body)), q)]
    case Cat(a, b) => ItemsRead(a) + ItemsRead(b)
  }

  function AltsRead(r: Rx): (branches: seq<Branch>)
    requires AltsForm(r)
    decreases r, 1
  {
    if r.Or? then [Branch(ItemsRead(r.left))] + if r.right.Void? then [] else AltsRead(r.right)
    else [Branch(ItemsRead(r))]
  }

  /** Nothing that belongs to what stands in front of it. */
  predicate NoMark(s: string) {
    s == "" || s[0] !in "?*+{"
  }

  lemma {:induction false} ClassReadBack(a: string, rest: string)
    requires ReadClass(a) == Some((a, ""))
    ensures ReadClass(a + rest) == Some((a, rest))
  {
    var all := a + rest;
    if a[0] == ']' {
      assert a == a[..1] + "" && a[1..] == "";
      assert all[1..] == rest;
    } else {
      var n := if a[0] == '\\' then 2 else 1;
      var more := ReadClass(a[n..]);
      assert a[..n] + more.value.0 == a[..n] + a[n..];
      assert (a[..n] + more.value.0)[n..] == more.value.0;
      ClassReadBack(a[n..], rest);
      assert all[n..] == a[n..] + rest && all[..n] == a[..n];
    }
  }

  lemma SymbolReadBack(text: string, rest: string)
    requires IsSymbol(text)
    ensures text != "" && ReadBase(text + rest) == Some((Symbol(text), rest)) && NoMark(text + rest)
    ensures text[0] != '|' && text[0] != ')'
  {
    var all := text + rest;
    hide ReadAny, ReadClass;
    if |text| == 1 && text[0] !in SPECIAL {
      assert all[..1] == text && all[1..] == rest;
    } else if |text| == 2 && text[0] == '\\' {
      assert all[..2] == text && all[2..] == rest;
    } else {
      ClassReadBack(text[1..], rest);
      assert all[1..] == text[1..] + rest;
      assert "[" + text[1..] == text;
    }
  }

  lemma QuantReadBack(q: Quant, rest: string)
    requires !q.Times? && NoMark(rest)
    ensures ReadQuant(MarkText(q) + rest) == (q, rest)
  {
    hide ReadRange;
    var all := MarkText(q) + rest;
    if q.Once? {
      assert all == rest;
    } else if q.LazyMaybe? || q.LazyStar? || q.LazyPlus? {
      assert all[2..] == rest && all[1] == '?';
    } else {
      assert all[1..] == rest;
      assert |all| > 1 ==> all[1] == rest[0];
    }
  }

  /** What a sequence starts with. */
  predicate Starts(s: string) {
    s != "" && s[0] !in "?*+{|)"
  }

  lemma {:induction false} SeqStarts(r: Rx)
    requires SeqForm(r)
    ensures Starts(RxText(r))
  {
    if r.Quantified? {
      hide IsSymbol;
      if r.body.Atom? {
        SymbolReadBack(r.body.text, "");
        assert r.body.text + "" == r.body.text;
      }
    } else {
      SeqStarts(r.first);
    }
  }

  /** A symbol, or a group in its brackets. */
  function BaseOf(body: Rx): (s: string) {
    if body.Atom? then body.text else "(?:" + RxText(body) + ")"
  }

  lemma {:induction false} SeqReadBack(r: Rx, rest: string)
    requires SeqForm(r) && NoMark(rest)
    ensures ReadItems(RxText(r) + rest) == AllOf(ItemsRead(r), ReadItems(rest))
    decreases r, 0
  {
    SeqStarts(r);
    if r.Quantified? {
      if !r.body.Atom? {
        AltsReadBack(r.body, ")" + (MarkText(r.quant) + rest));
      }
      ItemReadBack(r, rest);
    } else {
      SeqStarts(r.second);
      hide ReadItems, RxText;
      SeqReadBack(r.first, RxText(r.second) + rest);
      SeqReadBack(r.second, rest);
      CatText(r.first, r.second);
      hide *;
      OneAfterOther(RxText(r.first), RxText(r.second), rest);
      AllOfBoth(ItemsRead(r.first), ItemsRead(r.second), ReadItems(rest));
    }
  }

  lemma OneAfterOther(a: string, b: string, c: string)
    ensures (a + b) + c == a + (b + c)
  {}

  lemma AllOfBoth(xs: seq<Item>, ys: seq<Item>, r: Option<(seq<Item>, string)>)
    ensures AllOf(xs, AllOf(ys, r)) == AllOf(xs + ys, r)
  {
    if r.Some? {
      assert xs + (ys + r.value.0) == (xs + ys) + r.value.0;
    }
  }

  lemma ItemReadBack(r: Rx, rest: string)
    requires r.Quantified? && SeqForm(r) && NoMark(rest) && Starts(RxText(r))
    requires !r.body.Atom? ==>
      var tail := MarkText(r.quant) + rest;
      ReadAny(RxText(r.body) + (")" + tail)) == Some((AltsRead(r.body), ")" + tail))
    ensures ReadItems(RxText(r) + rest) == AllOf(ItemsRead(r), ReadItems(rest))
  {
    ItemShape(r, rest);
    hide *;
    var tail := MarkText(r.quant) + rest;
    QuantReadBack(r.quant, rest);
    if r.body.Atom? {
      SymbolReadBack(r.body.text, tail);
      SeqStep(BaseOf(r.body) + tail, Symbol(r.body.text), r.quant, rest);
    } else {
      GroupReadBack(r.body, tail);
      SeqStep(BaseOf(r.body) + tail, Sub(AltsRead(r.body)), r.quant, rest);
    }
  }

  lemma ItemShape(r: Rx, rest: string)
    requires r.Quantified? && SeqForm(r) && Starts(RxText(r))
    ensures !r.quant.Times? && (r.body.Atom? ==> IsSymbol(r.body.text) && BaseOf(r.body) == r.body.text)
    ensures RxText(r) + rest == BaseOf(r.body) + (MarkText(r.quant) + rest)
    ensures var s := RxText(r) + rest; s != "" && s[0] != '|' && s[0] != ')'
    ensures ItemsRead(r) == [Item(if r.body.Atom? then Symbol(r.body.text) else Sub(AltsRead(r.body)), r.quant)]
  {
    QuantifiedText(r.body, r.quant);
    hide RxText, MarkText, IsSymbol, AltsRead, AltsForm;
    assert RxText(r) == BaseOf(r.body) + MarkText(r.quant);
    assert (RxText(r) + rest)[0] == RxText(r)[0];
  }

  lemma SeqStep(s: string, base: Base, q: Quant, rest: string)
    requires s != "" && s[0] != '|' && s[0] != ')' && ReadBase(s).Some?
    requires ReadBase(s).value.0 == base && ReadQuant(ReadBase(s).value.1) == (q, rest)
    ensures ReadItems(s) == AllOf([Item(base, q)], ReadItems(rest))
  {
    hide ReadBase, ReadQuant;
  }

  lemma GroupReadBack(body: Rx, tail: string)
    requires !body.Atom? && ReadAny(RxText(body) + (")" + tail)).Some?
    requires ReadAny(RxText(body) + (")" + tail)).value.1 == ")" + tail
    ensures ReadBase(BaseOf(body) + tail) == Some((Sub(ReadAny(RxText(body) + (")" + tail)).value.0), tail))
  {
    var all := BaseOf(body) + tail;
    assert all == "(?:" + (RxText(body) + (")" + tail));
    assert all[3..] == RxText(body) + (")" + tail) && (")" + tail)[1..] == tail;
    hide ReadAny, RxText;
  }

  lemma {:induction false} AltsReadBack(r: Rx, rest: string)
    requires AltsForm(r) && (rest == "" || rest[0] == ')')
    ensures ReadAny(RxText(r) + rest) == Some((AltsRead(r), rest))
    decreases r, 1
  {
    assert ReadItems(rest) == Some(([], rest));
    if r.Or? {
      if r.right.Void? {
        SeqReadBack(r.left, rest);
        assert ItemsRead(r.left) + [] == ItemsRead(r.left);
        LastAlternative(RxText(r.left) + rest, ItemsRead(r.left), rest);
        assert [Branch(ItemsRead(r.left))] + [] == [Branch(ItemsRead(r.left))];
      } else {
        var others := RxText(r.right) + rest;
        assert RxText(r) + rest == RxText(r.left) + ("|" + others);
        SeqReadBack(r.left, "|" + others);
        assert ReadItems("|" + others) == Some(([], "|" + others));
        assert ItemsRead(r.left) + [] == ItemsRead(r.left);
        AltsReadBack(r.right, rest);
        hide ReadItems, RxText, AltsForm, ItemsRead;
        NextAlternative(RxText(r.left) + ("|" + others), ItemsRead(r.left), others);
      }
    } else {
      SeqReadBack(r, rest);
      assert ItemsRead(r) + [] == ItemsRead(r);
      LastAlternative(RxText(r) + rest, ItemsRead(r), rest);
    }
  }

  lemma LastAlternative(s: string, items: seq<Item>, rest: string)
    requires ReadItems(s) == Some((items, rest)) && (rest == "" || rest[0] == ')')
    ensures ReadAny(s) == Some(([Branch(items)], rest))
  {
    hide ReadItems;
  }

  lemma NextAlternative(s: string, items: seq<Item>, others: string)
    requires ReadItems(s) == Some((items, "|" + others))
    ensures ReadAny(s) ==
      if ReadAny(others).None? then None
      else Some(([Branch(items)] + ReadAny(others).value.0, ReadAny(others).value.1))
  {
    assert ("|" + others)[1..] == others;
    hide ReadItems;
  }

  // ----- what it means -----

  /** The words of two sequences, one behind the other. */
  ghost predicate OneBehind(m: Matcher, xs: seq<Item>, ys: seq<Item>, w: string) {
    exists k :: 0 <= k <= |w| && MatchSeq(m, xs, w[..k]) && MatchSeq(m, ys, w[k..])
  }

  lemma BothFirst(m: Matcher, xs: seq<Item>, ys: seq<Item>, w: string, j: nat)
    requires xs != [] && j <= |w| && MatchItem(m, xs[0], w[..j]) && OneBehind(m, xs[1..], ys, w[j..])
    ensures OneBehind(m, xs, ys, w)
  {
    hide MatchItem, MatchSeq;
    var u := w[j..];
    var k :| 0 <= k <= |u| && MatchSeq(m, xs[1..], u[..k]) && MatchSeq(m, ys, u[k..]);
    MatchSeqCons(m, xs, w[..j], u[..k]);
    assert w[..j + k] == w[..j] + u[..k] && w[j + k..] == u[k..];
  }

  lemma FirstOfBoth(m: Matcher, xs: seq<Item>, ys: seq<Item>, w: string) returns (j: nat)
    requires xs != [] && OneBehind(m, xs, ys, w)
    ensures j <= |w| && MatchItem(m, xs[0], w[..j]) && OneBehind(m, xs[1..], ys, w[j..])
  {
    hide MatchItem, MatchSeq;
    var k :| 0 <= k <= |w| && MatchSeq(m, xs, w[..k]) && MatchSeq(m, ys, w[k..]);
    j := FirstItem(m, xs, w[..k]);
    var u := w[j..];
    assert w[..k][..j] == w[..j] && u[..k - j] == w[..k][j..] && u[k - j..] == w[k..];
  }

  lemma NoneFirst(m: Matcher, ys: seq<Item>, w: string)
    ensures MatchSeq(m, ys, w) <==> OneBehind(m, [], ys, w)
  {
    var none: seq<Item> := [];
    assert forall v :: MatchSeq(m, none, v) <==> v == "";
    hide MatchSeq;
    assert w[..0] == "" && w[0..] == w;
    assert forall k :: 0 <= k <= |w| && w[..k] == "" ==> k == 0;
    if MatchSeq(m, ys, w) { assert MatchSeq(m, none, w[..0]) && MatchSeq(m, ys, w[0..]); }
  }

  lemma {:induction false} MatchBoth(m: Matcher, xs: seq<Item>, ys: seq<Item>, w: string)
    ensures MatchSeq(m, xs + ys, w) <==> OneBehind(m, xs, ys, w)
    decreases |xs|
  {
    hide *;
    if xs == [] {
      assert xs + ys == ys;
      NoneFirst(m, ys, w);
    } else {
      var all := xs + ys;
      assert all[0] == xs[0] && all[1..] == xs[1..] + ys;
      if MatchSeq(m, all, w) {
        var j := FirstItem(m, all, w);
        MatchBoth(m, xs[1..], ys, w[j..]);
        BothFirst(m, xs, ys, w, j);
      }
      if OneBehind(m, xs, ys, w) {
        var j := FirstOfBoth(m, xs, ys, w);
        MatchBoth(m, xs[1..], ys, w[j..]);
        MatchSeqCons(m, all, w[..j], w[j..]);
        assert w == w[..j] + w[j..];
      }
    }
  }

  lemma MatchOne(m: Matcher, item: Item, w: string)
    ensures MatchSeq(m, [item], w) <==> MatchItem(m, item, w)
  {
    assert [item][1..] == [];
    hide MatchItem;
    if MatchItem(m, item, w) {
      assert w[..|w|] == w && MatchSeq(m, [], w[|w|..]);
    }
    if MatchSeq(m, [item], w) {
      var k := FirstItem(m, [item], w);
      assert w[k..] == "" && w[..k] == w;
    }
  }

  lemma QuantifiedSame(m: Matcher, b: Base, r: Rx, q: Quant, w: string)
    requires forall v :: MatchBase(m, b, v) <==> In(m, r, v)
    ensures MatchItem(m, Item(b, q), w) <==> In(m, Quantified(r, q), w)
  {
    hide MatchBase;
    if MatchItem(m, Item(b, q), w) {
      var ws: seq<string> :| CountOk(q, |ws|) && Concat(ws) == w && forall i :: 0 <= i < |ws| ==> MatchBase(m, b, ws[i]);
      assert forall i :: 0 <= i < |ws| ==> In(m, r, ws[i]);
    }
    if In(m, Quantified(r, q), w) {
      var ws: seq<string> :| CountOk(q, |ws|) && Concat(ws) == w && forall i :: 0 <= i < |ws| ==> In(m, r, ws[i]);
      assert forall i :: 0 <= i < |ws| ==> MatchBase(m, b, ws[i]);
    }
  }

  lemma {:induction false} SeqSame(m: Matcher, r: Rx, w: string)
    requires SeqForm(r)
    ensures MatchSeq(m, ItemsRead(r), w) <==> In(m, r, w)
    decreases r, 0
  {
    if r.Quantified? {
      var base := if r.body.Atom? then Symbol(r.body.text) else Sub(AltsRead(r.body));
      forall v ensures MatchBase(m, base, v) <==> In(m, r.body, v) {
        if !r.body.Atom? { AltsSame(m, r.body, v); }
      }
      assert ItemsRead(r) == [Item(base, r.quant)];
      hide In, MatchSeq, MatchItem, MatchBase, AltsRead, ItemsRead;
      MatchOne(m, Item(base, r.quant), w);
      QuantifiedSame(m, base, r.body, r.quant, w);
    } else {
      var xs, ys := ItemsRead(r.first), ItemsRead(r.second);
      MatchBoth(m, xs, ys, w);
      forall k | 0 <= k <= |w|
        ensures MatchSeq(m, xs, w[..k]) <==> In(m, r.first, w[..k])
        ensures MatchSeq(m, ys, w[k..]) <==> In(m, r.second, w[k..])
      {
        SeqSame(m, r.first, w[..k]);
        SeqSame(m, r.second, w[k..]);
      }
      hide MatchSeq;
    }
  }

  /** The alternatives read have the language of the expression written. */
  lemma {:induction false} AltsSame(m: Matcher, r: Rx, w: string)
    requires AltsForm(r)
    ensures MatchAny(m, AltsRead(r), w) <==> In(m, r, w)
    decreases r, 1
  {
    var first := if r.Or? then r.left else r;
    SeqSame(m, first, w);
    if r.Or? && !r.right.Void? {
      AltsSame(m, r.right, w);
      assert AltsRead(r) == [Branch(ItemsRead(r.left))] + AltsRead(r.right);
      hide SeqForm, ItemsRead, MatchSeq, AltsRead;
      FirstOrOthers(m, Branch(ItemsRead(r.left)), AltsRead(r.right), w);
    } else {
      hide SeqForm, ItemsRead, MatchSeq;
      assert AltsRead(r) == [Branch(ItemsRead(first))];
      FirstOrOthers(m, Branch(ItemsRead(first)), [], w);
      assert [Branch(ItemsRead(first))] + [] == [Branch(ItemsRead(first))];
    }
  }

  lemma FirstOrOthers(m: Matcher, first: Branch, others: seq<Branch>, w: string)
    ensures MatchAny(m, [first] + others, w) <==> MatchSeq(m, first.items, w) || MatchAny(m, others, w)
  {
    hide MatchSeq;
    var all := [first] + others;
    assert all[0] == first && forall i :: 0 <= i < |others| ==> all[i + 1] == others[i];
    if MatchAny(m, all, w) {
      var i :| 0 <= i < |all| && MatchSeq(m, all[i].items, w);
      assert i > 0 ==> others[i - 1] == all[i];
    }
    if MatchAny(m, others, w) {
      var i :| 0 <= i < |others| && MatchSeq(m, others[i].items, w);
      assert MatchSeq(m, all[i + 1].items, w);
    }
  }

  // ----- the rewriting is of this form -----

  predicate PartForm(r: Rx) {
    r.Quantified? && SeqForm(r)
  }

  lemma {:induction false} ChainForm(parts: seq<Rx>)
    requires parts != [] && forall p :: p in parts ==> PartForm(p)
    ensures SeqForm(Chain(parts)) && !Chain(parts).Atom? && !Chain(parts).Or?
  {
    if |parts| > 1 {
      ChainForm(parts[1..]);
      assert parts[0] in parts;
      var inner := Quantified(Chain(parts[1..]), Maybe);
      hide IsSymbol;
      assert AltsForm(Chain(parts[1..])) && SeqForm(inner);
    } else {
      assert parts[0] in parts;
    }
  }

  lemma {:induction false} PartsForm(items: seq<Item>)
    requires RewritableItems(items) && ProperItems(items) && SymbolsOkItems(items)
    ensures forall p :: p in PartsOfAll(items) ==> PartForm(p)
    decreases items, 1
  {
    if items != [] {
      ItemForm(items[0]);
      PartsForm(items[1..]);
      hide PartForm, PartsOf;
    }
  }

  lemma {:induction false} ItemForm(item: Item)
    requires RewritableItem(item) && ProperItem(item) && SymbolsOkItem(item)
    ensures forall p :: p in PartsOf(item) ==> PartForm(p)
    decreases item, 0
  {
    var qs := Unfold(item.quant);
    if item.base.Sub? { ReversedForm(item.base.branches); }
    hide IsSymbol, ReversedAny;
    forall i | 0 <= i < |qs| ensures PartForm(PartsOf(item)[i]) {
      assert !qs[i].Times?;
    }
  }

  lemma {:induction false} ReversedForm(branches: seq<Branch>)
    requires Rewritable(branches) && Proper(branches) && SymbolsOk(branches)
    ensures ReversedAny(branches).Or? && AltsForm(ReversedAny(branches))
    decreases branches, 2
  {
    var parts := PartsOfAll(branches[0].items);
    PartsForm(branches[0].items);
    ChainForm(parts);
    if |branches| > 1 {
      ReversedForm(branches[1..]);
    } else {
      assert branches[1..] == [];
    }
  }

  // ----- what the program returns -----

  /** The pattern of all characters, behind the group. */
  const ANYTHING := "[\\s\\S]"

  lemma AnythingReadBack()
    ensures IsSymbol(ANYTHING) && ReadItems(ANYTHING + "*") == Some(([Item(Symbol(ANYTHING), Star)], ""))
  {
    assert ANYTHING[1..] == "\\s\\S]" && "\\s\\S]"[2..] == "\\S]" && "\\S]"[2..] == "]" && "]"[1..] == "";
    assert "]"[..1] == "]";
    assert ReadClass("]") == Some(("]", ""));
    assert "\\S]"[..2] + "]" == "\\S]" && "\\s\\S]"[..2] + "\\S]" == "\\s\\S]";
    assert ReadClass("\\S]") == Some(("\\S]", ""));
    assert ReadClass("\\s\\S]") == Some(("\\s\\S]", ""));
    var r := Quantified(Atom(ANYTHING), Star);
    assert SeqForm(r) && RxText(r) == ANYTHING + "*" && ItemsRead(r) == [Item(Symbol(ANYTHING), Star)];
    assert ReadItems("") == Some(([], ""));
    SeqReadBack(r, "");
    assert RxText(r) + "" == RxText(r) && ItemsRead(r) + [] == ItemsRead(r);
  }

  /** The group that `search` looks at, and anything behind it. */
  function Around(group: seq<Branch>): (branches: seq<Branch>) {
    [Branch([Item(Sub(group), Once), Item(Symbol(ANYTHING), Star)])]
  }

  /** What is read in the text returned for a pattern. */
  function WholeRead(branches: seq<Branch>): (r: seq<Branch>)
    requires AltsForm(ReversedAny(branches))
  {
    Around(AltsRead(ReversedAny(branches)))
  }

  lemma TextIsRead(branches: seq<Branch>)
    requires Rewritable(branches) && Proper(branches) && SymbolsOk(branches)
    ensures AltsForm(ReversedAny(branches))
    ensures IsPattern("(" + RxText(ReversedAny(branches)) + ")[\\s\\S]*", WholeRead(branches))
  {
    var r := ReversedAny(branches);
    ReversedForm(branches);
    hide *;
    var tail := ANYTHING + "*";
    assert (")" + tail)[0] == ')';
    OrStarts(r);
    AltsReadBack(r, ")" + tail);
    AnythingReadBack();
    AnythingAlone(tail);
    WholeText(RxText(r), tail);
    CaptureReadBack(RxText(r), tail, AltsRead(r));
    GroupThenItem(RxText(r), tail, Sub(AltsRead(r)), Item(Symbol(ANYTHING), Star));
    WholeIs(branches, r, "(" + RxText(r) + ")[\\s\\S]*");
  }

  lemma OrStarts(r: Rx)
    requires r.Or? && AltsForm(r)
    ensures Starts(RxText(r))
  {
    SeqStarts(r.left);
  }

  lemma AnythingAlone(tail: string)
    requires tail == ANYTHING + "*"
    ensures tail != "" && NoMark(tail)
  {}

  lemma WholeText(inner: string, tail: string)
    requires tail == ANYTHING + "*"
    ensures "(" + inner + ")[\\s\\S]*" == "(" + (inner + (")" + tail))
  {}

  lemma WholeIs(branches: seq<Branch>, r: Rx, text: string)
    requires r == ReversedAny(branches) && AltsForm(r)
    requires ReadAny(text) == Some(([Branch([Item(Sub(AltsRead(r)), Once), Item(Symbol(ANYTHING), Star)])], ""))
    ensures IsPattern(text, WholeRead(branches))
  {
    hide ReadAny, AltsRead;
  }

  lemma GroupThenItem(inner: string, tail: string, x: Base, y: Item)
    requires tail != "" && NoMark(tail) && ReadItems(tail) == Some(([y], ""))
    requires ReadBase("(" + (inner + (")" + tail))) == Some((x, tail))
    ensures ReadAny("(" + (inner + (")" + tail))) == Some(([Branch([Item(x, Once), y])], ""))
  {
    var all := "(" + (inner + (")" + tail));
    assert all[0] == '(' && ReadQuant(tail) == (Once, tail);
    hide ReadBase, ReadQuant, ReadItems, ReadAny;
    SeqStep(all, x, Once, tail);
    assert [Item(x, Once)] + [y] == [Item(x, Once), y];
    LastAlternative(all, [Item(x, Once), y], "");
  }

  lemma CaptureReadBack(inner: string, tail: string, bs: seq<Branch>)
    requires Starts(inner) && ReadAny(inner + (")" + tail)) == Some((bs, ")" + tail))
    ensures ReadBase("(" + (inner + (")" + tail))) == Some((Sub(bs), tail))
  {
    var all := "(" + (inner + (")" + tail));
    assert all[1..] == inner + (")" + tail) && all[1] == inner[0];
    assert (")" + tail)[1..] == tail;
    hide ReadAny;
  }

  lemma AllText(m: Matcher, w: string)
    requires forall c :: m(ANYTHING, c)
    ensures MatchItem(m, Item(Symbol(ANYTHING), Star), w)
  {
    var ws := seq(|w|, i requires 0 <= i < |w| => [w[i]]);
    LettersConcat(w);
    assert forall i :: 0 <= i < |ws| ==> MatchBase(m, Symbol(ANYTHING), ws[i]);
  }

  lemma {:induction false} LettersConcat(w: string)
    ensures Concat(seq(|w|, i requires 0 <= i < |w| => [w[i]])) == w
  {
    if w != "" {
      LettersConcat(w[1..]);
      var ws := seq(|w|, i requires 0 <= i < |w| => [w[i]]);
      assert ws[1..] == seq(|w[1..]|, i requires 0 <= i < |w[1..]| => [w[1..][i]]);
      assert w == [w[0]] + w[1..];
    }
  }

  lemma OneItem(m: Matcher, b: Base, w: string)
    ensures MatchItem(m, Item(b, Once), w) <==> MatchBase(m, b, w)
  {
    hide MatchBase;
    if MatchItem(m, Item(b, Once), w) {
      var ws: seq<string> :| CountOk(Once, |ws|) && Concat(ws) == w && forall i :: 0 <= i < |ws| ==> MatchBase(m, b, ws[i]);
      assert Concat(ws) == ws[0] + Concat(ws[1..]) && ws[1..] == [];
      assert w == ws[0];
    }
    if MatchBase(m, b, w) {
      var ws := [w];
      assert Concat(ws) == w + Concat(ws[1..]) && Concat(ws) == w;
    }
  }

  lemma GroupAndAnything(m: Matcher, group: seq<Branch>, w: string)
    requires forall c :: m(ANYTHING, c)
    ensures
      var items := [Item(Sub(group), Once), Item(Symbol(ANYTHING), Star)];
      MatchSeq(m, items, w) <==> exists k :: 0 <= k <= |w| && MatchAny(m, group, w[..k])
  {
    var x, y := Item(Sub(group), Once), Item(Symbol(ANYTHING), Star);
    MatchBoth(m, [x], [y], w);
    assert [x] + [y] == [x, y];
    forall k | 0 <= k <= |w|
      ensures MatchSeq(m, [x], w[..k]) <==> MatchAny(m, group, w[..k])
      ensures MatchSeq(m, [y], w[k..])
    {
      MatchOne(m, x, w[..k]);
      MatchOne(m, y, w[k..]);
      OneItem(m, Sub(group), w[..k]);
      AllText(m, w[k..]);
    }
    hide MatchSeq, MatchItem, MatchAny;
  }

  /** On reversed input the text returned matches where some beginning of the input is accepted by
      the rewriting. */
  lemma WholeMeans(m: Matcher, branches: seq<Branch>, input: string)
    requires Rewritable(branches) && Proper(branches) && SymbolsOk(branches) && forall c :: m(ANYTHING, c)
    ensures AltsForm(ReversedAny(branches))
    ensures MatchAny(m, WholeRead(branches), input) <==>
      exists k :: 0 <= k <= |input| && In(m, ReversedAny(branches), input[..k])
  {
    ReversedForm(branches);
    var r := ReversedAny(branches);
    var group := AltsRead(r);
    GroupAndAnything(m, group, input);
    hide In, AltsRead, ReversedAny, AltsForm, Rewritable, Proper, SymbolsOk, MatchSeq, MatchItem;
    forall k | 0 <= k <= |input| ensures MatchAny(m, group, input[..k]) <==> In(m, r, input[..k]) {
      AltsSame(m, r, input[..k]);
    }
    var whole := WholeRead(branches);
    assert |whole| == 1 && whole[0].items == [Item(Sub(group), Once), Item(Symbol(ANYTHING), Star)];
    assert MatchAny(m, whole, input) <==> MatchSeq(m, whole[0].items, input);
  }
}
