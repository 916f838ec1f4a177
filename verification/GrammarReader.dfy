/** What the grammar parser reads where a grammar expression has been written as text:
    alternatives, sequences, literals, classes, names, groups and repetitions. The text of an
    expression is read back as that expression, up to the way alternatives are bracketed. */
module GrammarReader {
  import opened Common
  import opened Decimal
  import opened Gbnf
  import GrammarText

  // ----- reading -----

  /** `parse_space`: blanks and comments, and line ends where they are allowed. */
  function Space(src: string, newlines: bool): (r: string)
    ensures |r| <= |src|
    decreases |src|
  {
    if src == "" then src
    else if src[0] == ' ' || src[0] == '\t' || (newlines && (src[0] == '\r' || src[0] == '\n')) then Space(src[1..], newlines)
    else if src[0] == '#' then Space(LineEnd(src[1..]), newlines)
    else src
  }

  function LineEnd(src: string): (r: string)
    ensures |r| <= |src|
  {
    if src == "" || src[0] == '\r' || src[0] == '\n' then src else LineEnd(src[1..])
  }

  predicate WordChar(c: char) {
    'a' <= c <= 'z' || 'A' <= c <= 'Z' || c == '-' || IsDigit(c)
  }

  function NameLength(src: string): (n: nat)
    ensures n <= |src| && (src != "" && WordChar(src[0]) ==> n > 0)
  {
    if src == "" || !WordChar(src[0]) then 0 else 1 + NameLength(src[1..])
  }

  function ReadName(src: string): (r: (string, string))
    ensures r.0 + r.1 == src
  {
    (src[..NameLength(src)], src[NameLength(src)..])
  }

  /** The symbol that a class stands for. */
  function ClassOf(negated: bool, ranges: seq<(nat, nat)>): (e: Expr) {
    if ranges == [] then Lit("")
    else if negated then NoneOf(GrammarText.CharsOf(ranges))
    else if |ranges| == 1 && GrammarText.IsChar(ranges[0].0) && GrammarText.IsChar(ranges[0].1) then
      Class(ranges[0].0 as char, ranges[0].1 as char)
    else AnyOf(GrammarText.CharsOf(ranges))
  }

  function LitOf(codes: seq<nat>): (e: Expr) {
    if forall v :: v in codes ==> GrammarText.IsChar(v) then Lit(GrammarText.Chars(codes)) else AnyOf("")
  }

  predicate StartsSymbol(src: string) {
    src != "" && (src[0] == '"' || src[0] == '[' || src[0] == '(' || src[0] == '.' || WordChar(src[0]))
  }

  lemma {:induction false} RangesShorter(src: string)
    requires GrammarText.ReadRanges(src).Some?
    ensures |GrammarText.ReadRanges(src).value.1| < |src|
    decreases |src|
  {
    if src[0] != ']' {
      var lo := GrammarText.ReadChar(src);
      var more := lo.value.1;
      if more != "" && more[0] == '-' && !(|more| > 1 && more[1] == ']') {
        var hi := GrammarText.ReadChar(more[1..]);
        RangesShorter(hi.value.1);
      } else {
        RangesShorter(more);
      }
    }
  }

  lemma {:induction false} QuotedShorter(src: string)
    requires GrammarText.ReadQuoted(src).Some?
    ensures |GrammarText.ReadQuoted(src).value.1| < |src|
    decreases |src|
  {
    if src[0] != '"' {
      QuotedShorter(GrammarText.ReadChar(src).value.1);
    }
  }

  /** One symbol, without the space behind it. */
  function ReadSymbol(src: string): (r: Option<(Expr, string)>)
    requires StartsSymbol(src)
    ensures r.Some? ==> |r.value.1| < |src|
    decreases |src|, 0
  {
    if src[0] == '"' then
      var text := GrammarText.ReadQuoted(src[1..]);
      if text.None? then None
      else
        QuotedShorter(src[1..]);
        Some((LitOf(text.value.0), text.value.1))
    else if src[0] == '[' then
      var negated := |src| > 1 && src[1] == '^';
      var inside := src[if negated then 2 else 1..];
      var ranges := GrammarText.ReadRanges(inside);
      if ranges.None? then None
      else
        RangesShorter(inside);
        Some((ClassOf(negated, ranges.value.0), ranges.value.1))
    else if src[0] == '(' then
      var sub := ReadAlternates(Space(src[1..], true), true);
      if sub.None? || sub.value.1 == "" || sub.value.1[0] != ')' then None
      else Some((Group(AltOf(sub.value.0)), sub.value.1[1..]))
    else if src[0] == '.' then Some((NoneOf(""), src[1..]))
    else
      var name := ReadName(src);
      assert |name.0| > 0;
      Some((Ref(name.0), name.1))
  }

  predicate StartsRepetition(src: string) {
    src != "" && src[0] in "*+?{"
  }

  /** The bounds of a repetition, and what follows the space behind it. */
  function ReadRepetition(src: string, nested: bool): (r: Option<(nat, Limit, string)>)
    requires StartsRepetition(src)
    ensures r.Some? ==> |r.value.2| < |src|
  {
    var behind := Space(src[1..], nested);
    if src[0] == '*' then Some((0, NoLimit, behind))
    else if src[0] == '+' then Some((1, NoLimit, behind))
    else if src[0] == '?' then Some((0, AtMost(1), behind))
    else ReadBounds(behind, nested)
  }

  function ReadBounds(src: string, nested: bool): (r: Option<(nat, Limit, string)>)
    ensures r.Some? ==> |r.value.2| < |src|
  {
    var low := ReadDigits(src);
    if low.0 == "" then None
    else
      var min := Value(low.0);
      var pos := Space(low.1, nested);
      if pos == "" then None
      else if pos[0] == '}' then Some((min, AtMost(min), Space(pos[1..], nested)))
      else if pos[0] == ',' then
        var high := ReadDigits(Space(pos[1..], nested));
        var close := if high.0 == "" then high.1 else Space(high.1, nested);
        if close == "" || close[0] != '}' then None
        else Some((min, if high.0 == "" then NoLimit else AtMost(Value(high.0)), Space(close[1..], nested)))
      else None
  }

  /** Symbols that leave nothing to repeat. */
  predicate LeavesNothing(e: Expr) {
    e == Lit("") || (e.Repeat? && e.max == AtMost(0) && e.min == 0)
  }

  /** An upper bound below the lower one has no effect. */
  function RepeatOf(e: Expr, min: nat, max: Limit): (r: Expr) {
    Repeat(e, min, if max.AtMost? && max.n < min then AtMost(min) else max)
  }

  /** `parse_sequence`: the symbols from here on, behind those already read. */
  function ReadSequence(src: string, nested: bool, done: seq<Expr>): (r: Option<(seq<Expr>, string)>)
    ensures r.Some? ==> |r.value.1| <= |src|
    decreases |src|, 1
  {
    if StartsSymbol(src) then
      var sym := ReadSymbol(src);
      if sym.None? then None
      else ReadSequence(Space(sym.value.1, nested), nested, done + [sym.value.0])
    else if StartsRepetition(src) then
      var bounds := ReadRepetition(src, nested);
      if bounds.None? || done == [] || LeavesNothing(done[|done| - 1]) then None
      else
        var last := RepeatOf(done[|done| - 1], bounds.value.0, bounds.value.1);
        ReadSequence(bounds.value.2, nested, done[..|done| - 1] + [last])
    else Some((done, src))
  }

  /** `parse_alternates`: one sequence for each alternative. */
  function ReadAlternates(src: string, nested: bool): (r: Option<(seq<Expr>, string)>)
    ensures r.Some? ==> |r.value.1| <= |src| && r.value.0 != []
    decreases |src|, 2
  {
    var first := ReadSequence(src, nested, []);
    if first.None? then None
    else
      var (items, rest) := first.value;
      if rest == "" || rest[0] != '|' then Some(([SeqOf(items)], rest))
      else
        var others := ReadAlternates(Space(rest[1..], true), nested);
        if others.None? then None else Some(([SeqOf(items)] + others.value.0, others.value.1))
  }

  function SeqOf(items: seq<Expr>): (e: Expr) {
    if items == [] then Lit("")
    else if |items| == 1 then items[0]
    else Seq(items[0], SeqOf(items[1..]))
  }

  function AltOf(alts: seq<Expr>): (e: Expr)
    requires alts != []
  {
    if |alts| == 1 then alts[0] else Alt(alts[0], AltOf(alts[1..]))
  }

  // ----- which expressions are read back -----

  /** Characters that a class or a literal holds as they are. */
  predicate PlainText(text: string) {
    forall i :: 0 <= i < |text| ==> text[i] != '"' && text[i] != '\\' && text[i] != '\0'
  }

  predicate PlainClass(chars: string) {
    forall i :: 0 <= i < |chars| ==> GrammarText.Kept(chars[i]) && chars[i] != '-'
  }

  /** Literals and classes that need no escapes, names of rules, bounds in order. */
  predicate Readable(e: Expr) {
    match e
    case Lit(text) => PlainText(text)
    case Class(lo, hi) => GrammarText.Kept(lo) && GrammarText.Kept(hi) && lo != '^'
    case NoneOf(chars) => chars != "" && PlainClass(chars)
    case AnyOf(chars) => |chars| > 1 && PlainClass(chars) && chars[0] != '^'
    case Ref(name) => name != "" && forall i :: 0 <= i < |name| ==> WordChar(name[i])
    case Group(body) => Readable(body)
    case Seq(first, second) => Readable(first) && Readable(second)
    case Alt(left, right) => Readable(left) && Readable(right)
    case Repeat(body, min, max) => Readable(body) && !LeavesNothing(body) && (max.AtMost? ==> min <= max.n)
  }

  /** What is read for a symbol. */
  function SymbolRead(e: Expr): (r: Expr)
    requires WellNested(e)
    decreases e, 0
  {
    match e
    case Group(body) => Group(AltOf(Alternatives(body)))
    case Repeat(body, min, max) => Repeat(SymbolRead(body), min, max)
    case _ => e
  }

  function SeqItems(e: Expr): (items: seq<Expr>)
    requires WellNested(e)
    ensures items != []
    decreases e, 1
  {
    if e.Seq? then SeqItems(e.first) + SeqItems(e.second) else [SymbolRead(e)]
  }

  /** The alternatives of an expression, however they are bracketed. */
  function Alternatives(e: Expr): (alts: seq<Expr>)
    requires WellNested(e)
    ensures alts != []
    decreases e, 2
  {
    if e.Alt? then Alternatives(e.left) + Alternatives(e.right) else [SeqOf(SeqItems(e))]
  }

  // ----- symbols -----

  lemma {:induction false} NameIs(src: string, n: nat)
    requires n <= |src| && (n < |src| ==> !WordChar(src[n])) && forall i :: 0 <= i < n ==> WordChar(src[i])
    ensures NameLength(src) == n
  {
    hide WordChar;
    if n > 0 {
      NameIs(src[1..], n - 1);
    }
  }

  lemma NameBack(name: string, rest: string)
    requires (forall i :: 0 <= i < |name| ==> WordChar(name[i])) && (rest == "" || !WordChar(rest[0]))
    ensures ReadName(name + rest) == (name, rest)
  {
    hide WordChar;
    var all := name + rest;
    assert forall i :: 0 <= i < |name| ==> all[i] == name[i];
    assert rest != "" ==> all[|name|] == rest[0];
    NameIs(all, |name|);
    assert all[..|name|] == name && all[|name|..] == rest;
  }

  lemma DigitsBack(w: string, rest: string)
    requires AllDigits(w) && (rest == "" || !IsDigit(rest[0]))
    ensures ReadDigits(w + rest) == (w, rest)
  {
    var all := w + rest;
    assert forall i :: 0 <= i < |w| ==> all[i] == w[i];
    assert rest != "" ==> all[|w|] == rest[0];
    LeadingIs(all, |w|);
    assert all[..|w|] == w && all[|w|..] == rest;
  }

  lemma {:induction false} TextBack(text: string, rest: string)
    requires PlainText(text)
    ensures GrammarText.ReadQuoted(text + ("\"" + rest)) == Some((GrammarText.Codes(text), rest))
    decreases |text|
  {
    var all := text + ("\"" + rest);
    if text == "" {
      assert all == "\"" + rest && all[1..] == rest;
      assert GrammarText.Codes(text) == [];
    } else {
      TextBack(text[1..], rest);
      assert all[1..] == text[1..] + ("\"" + rest);
      assert GrammarText.ReadChar(all) == Some((text[0] as int, all[1..]));
      assert GrammarText.Codes(text) == [text[0] as int] + GrammarText.Codes(text[1..]);
    }
  }

  /** One range for each character. */
  function Single(chars: string): (ranges: seq<(nat, nat)>) {
    seq(|chars|, i requires 0 <= i < |chars| => (chars[i] as int, chars[i] as int))
  }

  lemma {:induction false} SinglesBack(chars: string, rest: string)
    requires PlainClass(chars)
    ensures GrammarText.ReadRanges(chars + ("]" + rest)) == Some((Single(chars), rest))
    decreases |chars|
  {
    hide GrammarText.ReadRanges, GrammarText.Kept;
    if chars == "" {
      GrammarText.AtBracket(rest);
      assert "" + ("]" + rest) == "]" + rest && Single(chars) == [];
    } else {
      var more := chars[1..] + ("]" + rest);
      SinglesBack(chars[1..], rest);
      assert chars + ("]" + rest) == [chars[0]] + more;
      assert more[0] == if |chars| > 1 then chars[1] else ']';
      GrammarText.RangeStep(chars[0], more);
      assert Single(chars) == [(chars[0] as int, chars[0] as int)] + Single(chars[1..]);
    }
  }

  lemma {:induction false} CharsOfSingles(chars: string)
    ensures GrammarText.CharsOf(Single(chars)) == chars
  {
    if chars != "" {
      CharsOfSingles(chars[1..]);
      var c: nat := chars[0] as int;
      assert Single(chars)[1..] == Single(chars[1..]);
      assert GrammarText.Between(c, c) == [chars[0]] + GrammarText.Between(c + 1, c) && GrammarText.Between(c + 1, c) == "";
      assert chars == [chars[0]] + chars[1..];
    } else {
      assert Single(chars) == [];
    }
  }

  lemma LitBack(text: string, rest: string)
    requires PlainText(text)
    ensures ReadSymbol(Show(Lit(text)) + rest) == Some((Lit(text), rest))
  {
    var all := Show(Lit(text)) + rest;
    assert all == "\"" + (text + ("\"" + rest));
    assert all[1..] == text + ("\"" + rest);
    TextBack(text, rest);
    GrammarText.CodesAreChars(text);
    hide GrammarText.ReadQuoted, GrammarText.Chars, ReadAlternates;
  }

  lemma ClassBack(lo: char, hi: char, rest: string)
    requires GrammarText.Kept(lo) && GrammarText.Kept(hi) && lo != '^'
    ensures ReadSymbol(Show(Class(lo, hi)) + rest) == Some((Class(lo, hi), rest))
  {
    var all := Show(Class(lo, hi)) + rest;
    var end := "]" + rest;
    GrammarText.AtBracket(rest);
    if lo == hi {
      assert all == "[" + ([lo] + end);
      assert all[1..] == [lo] + end;
      GrammarText.RangeStep(lo, end);
    } else {
      assert all == "[" + ([lo] + ("-" + ([hi] + end)));
      assert all[1..] == [lo] + ("-" + ([hi] + end));
      GrammarText.DashStep(lo, hi, end);
    }
    assert [(lo as int, hi as int)] + [] == [(lo as int, hi as int)];
    hide GrammarText.ReadRanges, ReadAlternates;
  }

  lemma SetBack(negated: bool, chars: string, rest: string)
    requires PlainClass(chars) && (if negated then chars != "" else |chars| > 1 && chars[0] != '^')
    ensures
      var e := if negated then NoneOf(chars) else AnyOf(chars);
      ReadSymbol(Show(e) + rest) == Some((e, rest))
  {
    var all := Show(if negated then NoneOf(chars) else AnyOf(chars)) + rest;
    var inside := chars + ("]" + rest);
    SinglesBack(chars, rest);
    CharsOfSingles(chars);
    if negated {
      assert all == "[" + ("^" + inside);
      assert all[2..] == inside;
    } else {
      assert all == "[" + inside;
      assert all[1..] == inside;
    }
    hide GrammarText.ReadRanges, GrammarText.CharsOf, ReadAlternates;
  }

  lemma RefBack(name: string, rest: string)
    requires Readable(Ref(name)) && (rest == "" || !WordChar(rest[0]))
    ensures ReadSymbol(Show(Ref(name)) + rest) == Some((Ref(name), rest))
  {
    NameBack(name, rest);
    assert (name + rest)[0] == name[0];
    hide ReadAlternates;
  }

  /** What comes first in the text of an expression. */
  lemma {:induction false} Solid(e: Expr, rest: string)
    requires WellNested(e) && Readable(e)
    ensures StartsSymbol(Show(e) + rest) && Show(e)[0] !in " \t\r\n#|)"
  {
    match e {
      case Seq(a, b) =>
        Solid(a, "");
        assert Show(a) + "" == Show(a);
      case Alt(a, b) =>
        Solid(a, "");
        assert Show(a) + "" == Show(a);
      case Repeat(body, _, _) =>
        Solid(body, "");
        assert Show(body) + "" == Show(body);
      case _ =>
    }
  }

  // ----- repetitions -----

  function Bounds(min: nat, max: Limit): (s: string) {
    "{" + (Numeral(min) + ((if max == AtMost(min) then "" else "," + if max.AtMost? then Numeral(max.n) else "") + "}"))
  }

  /** What stands behind the lower bound. */
  function Tail(min: nat, max: Limit, rest: string): (s: string) {
    var close := "}" + rest;
    if max == AtMost(min) then close else "," + ((if max.AtMost? then Numeral(max.n) else "") + close)
  }

  lemma BoundsBack(min: nat, max: Limit, rest: string, nested: bool)
    ensures StartsRepetition(Bounds(min, max) + rest)
    ensures ReadRepetition(Bounds(min, max) + rest, nested) == Some((min, max, Space(rest, nested)))
  {
    var tail := Tail(min, max, rest);
    var src := Numeral(min) + tail;
    BoundsShown(min, max, rest);
    assert IsDigit(Numeral(min)[0]) && tail[0] !in " \t\r\n#" && !IsDigit(tail[0]);
    NoSpace(src, nested);
    ValueOfNumeral(min);
    DigitsBack(Numeral(min), tail);
    NoSpace(tail, nested);
    hide Numeral, Value, ReadDigits, Space, Bounds;
    BracedRead(src, nested);
    if max == AtMost(min) {
      ExactBack(src, min, rest, nested);
    } else {
      HighBack(max, rest, nested);
      RangeBack(src, min, max, rest, nested);
    }
  }

  lemma BoundsShown(min: nat, max: Limit, rest: string)
    ensures Bounds(min, max) + rest == "{" + (Numeral(min) + Tail(min, max, rest))
  {
    hide Numeral;
  }

  lemma BracedRead(src: string, nested: bool)
    requires Space(src, nested) == src
    ensures StartsRepetition("{" + src) && ReadRepetition("{" + src, nested) == ReadBounds(src, nested)
  {
    assert ("{" + src)[1..] == src;
    hide ReadBounds, Space;
  }

  lemma ExactBack(src: string, min: nat, rest: string, nested: bool)
    requires
      var close := "}" + rest;
      && ReadDigits(src).0 != "" && Value(ReadDigits(src).0) == min && ReadDigits(src).1 == close && Space(close, nested) == close
    ensures ReadBounds(src, nested) == Some((min, AtMost(min), Space(rest, nested)))
  {
    assert ("}" + rest)[1..] == rest;
    hide Value, ReadDigits, Space;
  }

  /** The upper bound and the closing brace. */
  lemma HighBack(max: Limit, rest: string, nested: bool)
    ensures
      var high := if max.AtMost? then Numeral(max.n) else "";
      var close := "}" + rest;
      && Space(high + close, nested) == high + close && ReadDigits(high + close) == (high, close)
      && Space(close, nested) == close && (max.AtMost? ==> high != "" && Value(high) == max.n)
  {
    hide Numeral, Value, ReadDigits, Space;
    var high, close := if max.AtMost? then Numeral(max.n) else "", "}" + rest;
    if max.AtMost? {
      ValueOfNumeral(max.n);
      assert IsDigit((high + close)[0]);
    } else {
      assert high + close == close;
    }
    NoSpace(high + close, nested);
    NoSpace(close, nested);
    DigitsBack(high, close);
  }

  lemma RangeBack(src: string, min: nat, max: Limit, rest: string, nested: bool)
    requires
      var high := if max.AtMost? then Numeral(max.n) else "";
      var close := "}" + rest;
      var tail := "," + (high + close);
      && ReadDigits(src).0 != "" && Value(ReadDigits(src).0) == min && ReadDigits(src).1 == tail && Space(tail, nested) == tail
      && Space(high + close, nested) == high + close && ReadDigits(high + close) == (high, close)
      && Space(close, nested) == close && (max.AtMost? ==> high != "" && Value(high) == max.n)
    ensures ReadBounds(src, nested) == Some((min, max, Space(rest, nested)))
  {
    var high, close := if max.AtMost? then Numeral(max.n) else "", "}" + rest;
    var tail := "," + (high + close);
    assert tail[1..] == high + close && close[1..] == rest;
    hide Numeral, Value, ReadDigits, Space;
  }

  lemma NoSpace(src: string, newlines: bool)
    requires src != "" && src[0] !in " \t\r\n#"
    ensures Space(src, newlines) == src
  {}

  /** Nothing that could belong to the symbol before it. */
  predicate Ends(rest: string) {
    rest == "" || rest[0] == ' ' || rest[0] == ')'
  }

  // ----- sequences and alternatives -----

  lemma {:induction false} BaseBack(e: Expr, rest: string)
    requires WellNested(e) && Readable(e) && !e.Seq? && !e.Alt? && !e.Repeat?
    requires rest == "" || !WordChar(rest[0])
    ensures StartsSymbol(Show(e) + rest) && ReadSymbol(Show(e) + rest) == Some((SymbolRead(e), rest))
    decreases e, 0
  {
    Solid(e, rest);
    match e {
      case Lit(text) => LitBack(text, rest);
      case Class(lo, hi) => ClassBack(lo, hi, rest);
      case NoneOf(chars) => SetBack(true, chars, rest);
      case AnyOf(chars) => SetBack(false, chars, rest);
      case Ref(name) => RefBack(name, rest);
      case Group(body) =>
        Solid(body, "");
        AlternatesBack(body, ")" + rest, true);
        GroupBack(body, rest);
    }
  }

  lemma GroupBack(body: Expr, rest: string)
    requires WellNested(body) && Show(body) != "" && Show(body)[0] !in " \t\r\n#"
    requires ReadAlternates(Show(body) + (")" + rest), true) == Some((Alternatives(body), ")" + rest))
    ensures ReadSymbol(Show(Group(body)) + rest) == Some((SymbolRead(Group(body)), rest))
  {
    var all, inside := Show(Group(body)) + rest, Show(body) + (")" + rest);
    assert all == "(" + inside;
    assert all[1..] == inside && (")" + rest)[1..] == rest;
    NoSpace(inside, true);
    hide Show, ReadAlternates, Alternatives, Space;
  }

  lemma {:induction false} SymbolBack(e: Expr, rest: string, nested: bool, done: seq<Expr>)
    requires WellNested(e) && Readable(e) && !e.Seq? && !e.Alt? && Ends(rest)
    ensures ReadSequence(Show(e) + rest, nested, done) == ReadSequence(Space(rest, nested), nested, done + [SymbolRead(e)])
    decreases e, 1
  {
    if e.Repeat? {
      var bounds := Bounds(e.min, e.max) + rest;
      BaseBack(e.body, bounds);
      BoundsBack(e.min, e.max, rest, nested);
      BodyLeaves(e.body);
      RepeatShown(e, rest);
      hide *;
      OneRepetition(e.body, bounds, e.min, e.max, Space(rest, nested), nested, done);
      RepeatRead(e);
    } else {
      BaseBack(e, rest);
      hide *;
      OneSymbol(e, rest, nested, done);
    }
  }

  lemma RepeatShown(e: Expr, rest: string)
    requires e.Repeat?
    ensures Show(e) + rest == Show(e.body) + (Bounds(e.min, e.max) + rest)
  {
    hide Numeral;
  }

  lemma RepeatRead(e: Expr)
    requires e.Repeat? && WellNested(e) && Readable(e)
    ensures WellNested(e.body) && SymbolRead(e) == RepeatOf(SymbolRead(e.body), e.min, e.max)
  {}

  lemma BodyLeaves(e: Expr)
    requires WellNested(e) && !LeavesNothing(e)
    ensures !LeavesNothing(SymbolRead(e))
  {}

  lemma OneSymbol(e: Expr, rest: string, nested: bool, done: seq<Expr>)
    requires WellNested(e) && StartsSymbol(Show(e) + rest) && ReadSymbol(Show(e) + rest) == Some((SymbolRead(e), rest))
    ensures ReadSequence(Show(e) + rest, nested, done) == ReadSequence(Space(rest, nested), nested, done + [SymbolRead(e)])
  {
    hide Show, ReadSymbol, SymbolRead, Space, StartsSymbol;
  }

  lemma OneRepetition(body: Expr, bounds: string, min: nat, max: Limit, behind: string, nested: bool, done: seq<Expr>)
    requires WellNested(body) && StartsSymbol(Show(body) + bounds)
    requires ReadSymbol(Show(body) + bounds) == Some((SymbolRead(body), bounds))
    requires StartsRepetition(bounds) && ReadRepetition(bounds, nested) == Some((min, max, behind))
    requires !LeavesNothing(SymbolRead(body))
    ensures ReadSequence(Show(body) + bounds, nested, done)
            == ReadSequence(behind, nested, done + [RepeatOf(SymbolRead(body), min, max)])
  {
    OneSymbol(body, bounds, nested, done);
    NoSpace(bounds, nested);
    var x := SymbolRead(body);
    assert (done + [x])[..|done|] == done;
    assert !StartsSymbol(bounds);
    hide Show, ReadSymbol, SymbolRead, Space, ReadRepetition, LeavesNothing, RepeatOf, StartsSymbol;
  }

  lemma {:induction false} SequenceBack(e: Expr, rest: string, nested: bool, done: seq<Expr>)
    requires WellNested(e) && Readable(e) && !e.Alt? && Ends(rest)
    ensures ReadSequence(Show(e) + rest, nested, done) == ReadSequence(Space(rest, nested), nested, done + SeqItems(e))
    decreases e, 2
  {
    if e.Seq? {
      var others := Show(e.second) + rest;
      assert Ends(" " + others);
      Solid(e.second, rest);
      BlankBefore(others, nested);
      SeqShown(e, rest);
      SeqParts(e);
      SymbolBack(e.first, " " + others, nested, done);
      SequenceBack(e.second, rest, nested, done + [SymbolRead(e.first)]);
      hide *;
      Appended(done, [SymbolRead(e.first)], SeqItems(e.second));
    } else {
      SymbolBack(e, rest, nested, done);
    }
  }

  lemma Appended(a: seq<Expr>, b: seq<Expr>, c: seq<Expr>)
    ensures (a + b) + c == a + (b + c)
  {}

  lemma BlankBefore(others: string, nested: bool)
    requires StartsSymbol(others)
    ensures Space(" " + others, nested) == others
  {
    assert (" " + others)[1..] == others;
    NoSpace(others, nested);
  }

  lemma SeqShown(e: Expr, rest: string)
    requires e.Seq?
    ensures Show(e) + rest == Show(e.first) + (" " + (Show(e.second) + rest))
  {}

  lemma SeqParts(e: Expr)
    requires e.Seq? && WellNested(e)
    ensures SeqItems(e) == [SymbolRead(e.first)] + SeqItems(e.second)
  {}

  function Behind(alts: seq<Expr>, r: Option<(seq<Expr>, string)>): Option<(seq<Expr>, string)> {
    if r.None? then None else Some((alts + r.value.0, r.value.1))
  }

  /** In front of further alternatives. */
  lemma {:induction false} AlternatesBefore(e: Expr, more: string, nested: bool)
    requires WellNested(e) && Readable(e) && Space(more, true) == more
    ensures ReadAlternates(Show(e) + (" | " + more), nested) == Behind(Alternatives(e), ReadAlternates(more, nested))
    decreases e, 3
  {
    if e.Alt? {
      var others := Show(e.right) + (" | " + more);
      Solid(e.right, " | " + more);
      NoSpace(others, true);
      AlternatesBefore(e.left, others, nested);
      AlternatesBefore(e.right, more, nested);
      AltShown(e, " | " + more);
      BothAlternatives(e);
      hide *;
      BehindBoth(Alternatives(e.left), Alternatives(e.right), ReadAlternates(more, nested));
    } else {
      SequenceBack(e, " | " + more, nested, []);
      hide Show, SeqItems, ReadSequence, ReadAlternates, Alternatives;
      NoneBefore(SeqItems(e));
      OneAlternative(Show(e) + (" | " + more), SeqItems(e), more, nested);
      OnlyOne(e);
    }
  }

  lemma OnlyOne(e: Expr)
    requires WellNested(e) && !e.Alt?
    ensures Alternatives(e) == [SeqOf(SeqItems(e))]
  {}

  lemma BehindBoth(a: seq<Expr>, b: seq<Expr>, r: Option<(seq<Expr>, string)>)
    ensures Behind(a, Behind(b, r)) == Behind(a + b, r)
  {
    if r.Some? { assert a + (b + r.value.0) == (a + b) + r.value.0; }
  }

  lemma OneAlternative(src: string, items: seq<Expr>, more: string, nested: bool)
    requires Space(more, true) == more
    requires ReadSequence(src, nested, []) == ReadSequence(Space(" | " + more, nested), nested, items)
    ensures ReadAlternates(src, nested) == Behind([SeqOf(items)], ReadAlternates(more, nested))
  {
    var bar := "| " + more;
    hide Space, SeqOf;
    BarSpaces(bar, more, nested);
    BarStops(bar, nested, items);
    hide ReadSequence;
  }

  lemma BarSpaces(bar: string, more: string, nested: bool)
    requires bar == "| " + more && Space(more, true) == more
    ensures Space(" | " + more, nested) == bar && Space(bar[1..], true) == more
  {
    assert (" | " + more)[1..] == bar && bar[1..] == " " + more && (" " + more)[1..] == more;
  }

  lemma BarStops(bar: string, nested: bool, items: seq<Expr>)
    requires bar != "" && bar[0] == '|'
    ensures ReadSequence(bar, nested, items) == Some((items, bar))
  {}

  lemma {:induction false} AlternatesBack(e: Expr, rest: string, nested: bool)
    requires WellNested(e) && Readable(e) && (rest == "" || rest[0] == ')')
    ensures ReadAlternates(Show(e) + rest, nested) == Some((Alternatives(e), rest))
    decreases e, 4
  {
    if e.Alt? {
      var others := Show(e.right) + rest;
      Solid(e.right, rest);
      NoSpace(others, true);
      AltShown(e, rest);
      AlternatesBefore(e.left, others, nested);
      AlternatesBack(e.right, rest, nested);
      BothAlternatives(e);
      hide *;
      FoundBehind(Alternatives(e.left), Alternatives(e.right), rest);
    } else {
      SequenceBack(e, rest, nested, []);
      OnlyOne(e);
      hide Show, SeqItems, Alternatives, WellNested, Readable;
      NoneBefore(SeqItems(e));
      LastAlternative(Show(e) + rest, SeqItems(e), rest, nested);
    }
  }

  lemma NoneBefore(items: seq<Expr>)
    ensures [] + items == items
  {}

  lemma FoundBehind(a: seq<Expr>, b: seq<Expr>, rest: string)
    ensures Behind(a, Some((b, rest))) == Some((a + b, rest))
  {}

  lemma AltShown(e: Expr, rest: string)
    requires e.Alt?
    ensures Show(e) + rest == Show(e.left) + (" | " + (Show(e.right) + rest))
  {}

  lemma BothAlternatives(e: Expr)
    requires e.Alt? && WellNested(e)
    ensures Alternatives(e) == Alternatives(e.left) + Alternatives(e.right)
  {}

  lemma LastAlternative(src: string, items: seq<Expr>, rest: string, nested: bool)
    requires rest == "" || rest[0] == ')'
    requires ReadSequence(src, nested, []) == ReadSequence(Space(rest, nested), nested, items)
    ensures ReadAlternates(src, nested) == Some(([SeqOf(items)], rest))
  {
    assert Space(rest, nested) == rest;
    assert ReadSequence(rest, nested, items) == Some((items, rest));
    hide ReadSequence, Space, SeqOf;
  }

  // ----- what is read means the same -----

  lemma {:induction false} AltOfBoth(env: Env, a: seq<Expr>, b: seq<Expr>, w: string)
    requires a != [] && b != []
    ensures Accepts(env, AltOf(a + b), w) <==> Accepts(env, AltOf(a), w) || Accepts(env, AltOf(b), w)
    decreases |a|
  {
    var all := a + b;
    assert all[0] == a[0];
    if |a| == 1 {
      assert all[1..] == b;
    } else {
      assert all[1..] == a[1..] + b;
      AltOfBoth(env, a[1..], b, w);
    }
  }

  /** The same words. */
  ghost predicate Same(env: Env, a: Expr, b: Expr) {
    forall w :: Accepts(env, a, w) <==> Accepts(env, b, w)
  }

  lemma {:induction false} SymbolSame(env: Env, e: Expr)
    requires WellNested(e)
    ensures Same(env, SymbolRead(e), e)
    decreases e, 0
  {
    if e.Group? {
      AlternativesSame(env, e.body);
      GroupIs(e);
      hide SymbolRead, Alternatives, AltOf;
      GroupedSame(env, AltOf(Alternatives(e.body)), e.body);
    } else if e.Repeat? {
      SymbolSame(env, e.body);
      hide SymbolRead;
      RepeatSame(env, SymbolRead(e.body), e.body, e.min, e.max);
      RepeatIs(e);
    }
  }

  lemma GroupIs(e: Expr)
    requires WellNested(e) && e.Group?
    ensures SymbolRead(e) == Group(AltOf(Alternatives(e.body)))
  {}

  lemma GroupedSame(env: Env, a: Expr, b: Expr)
    requires Same(env, a, b)
    ensures Same(env, Group(a), Group(b))
  {}

  lemma RepeatIs(e: Expr)
    requires WellNested(e) && e.Repeat?
    ensures SymbolRead(e) == Repeat(SymbolRead(e.body), e.min, e.max)
  {}

  lemma RepeatSame(env: Env, a: Expr, b: Expr, min: nat, max: Limit)
    requires Same(env, a, b)
    ensures Same(env, Repeat(a, min, max), Repeat(b, min, max))
  {
    hide Accepts;
    forall w ensures Accepts(env, Repeat(a, min, max), w) <==> Accepts(env, Repeat(b, min, max), w) {
      if Accepts(env, Repeat(a, min, max), w) { RepeatOther(env, a, b, min, max, w); }
      if Accepts(env, Repeat(b, min, max), w) { RepeatOther(env, b, a, min, max, w); }
    }
  }

  lemma RepeatOther(env: Env, a: Expr, b: Expr, min: nat, max: Limit, w: string)
    requires Same(env, a, b) && Accepts(env, Repeat(a, min, max), w)
    ensures Accepts(env, Repeat(b, min, max), w)
  {
    var ws: seq<string> :| Within(|ws|, min, max) && Concat(ws) == w && forall i :: 0 <= i < |ws| ==> Accepts(env, a, ws[i]);
    assert forall i :: 0 <= i < |ws| ==> Accepts(env, b, ws[i]);
  }

  lemma {:induction false} ItemsSame(env: Env, e: Expr)
    requires WellNested(e) && !e.Alt?
    ensures Same(env, SeqOf(SeqItems(e)), e)
    decreases e, 1
  {
    if e.Seq? {
      SymbolSame(env, e.first);
      ItemsSame(env, e.second);
      var x, ys := SymbolRead(e.first), SeqItems(e.second);
      assert SeqItems(e) == [x] + ys && ([x] + ys)[1..] == ys;
      assert SeqOf(SeqItems(e)) == Seq(x, SeqOf(ys));
      hide SeqOf, SeqItems, SymbolRead, WellNested;
      SeqSame(env, x, e.first, SeqOf(ys), e.second);
    } else {
      SymbolSame(env, e);
    }
  }

  lemma SeqSame(env: Env, a: Expr, a': Expr, b: Expr, b': Expr)
    requires Same(env, a, a') && Same(env, b, b')
    ensures Same(env, Seq(a, b), Seq(a', b'))
  {}

  lemma {:induction false} AlternativesSame(env: Env, e: Expr)
    requires WellNested(e)
    ensures Same(env, AltOf(Alternatives(e)), e)
    decreases e, 2
  {
    if e.Alt? {
      AlternativesSame(env, e.left);
      AlternativesSame(env, e.right);
      var a, b := Alternatives(e.left), Alternatives(e.right);
      forall w ensures Accepts(env, AltOf(a + b), w) <==> Accepts(env, e, w) {
        AltOfBoth(env, a, b, w);
      }
    } else {
      ItemsSame(env, e);
      OnlyOne(e);
    }
  }

  // ----- the theorem -----

  /** What the whole of a text is read as. */
  function Read(src: string): (r: Option<Expr>) {
    var r := ReadAlternates(src, false);
    if r.Some? && r.value.1 == "" then Some(AltOf(r.value.0)) else None
  }

  /** The text of every expression whose parts need no further brackets and no escapes is read
      back, and what is read accepts the same words. */
  lemma ShowIsRead(e: Expr)
    requires WellNested(e) && Readable(e)
    ensures Read(Show(e)).Some? && forall env: Env :: Same(env, Read(Show(e)).value, e)
  {
    AlternatesBack(e, "", false);
    assert Show(e) + "" == Show(e);
    forall env: Env ensures Same(env, AltOf(Alternatives(e)), e) {
      AlternativesSame(env, e);
    }
    hide ReadAlternates, Show, Alternatives, Same;
  }
}
