/** What the text written for integer bounds is read as by the grammar parser, and when that is
    the numbers inside the bounds. */
module IntRangeRead {
  import opened Common
  import opened Decimal
  import opened Gbnf
  import opened IntRange
  import IntRangeText
  import opened GrammarReader
  import GrammarText

  lemma DigitsPlain(w: string)
    requires AllDigits(w)
    ensures Readable(Lit(w))
  {}

  lemma HeadReads(lo: char, hi: char, min: nat, max: nat)
    requires '0' <= lo && '0' <= hi <= '9' && lo <= '9' && min <= max
    ensures Readable(Class(lo, hi)) && Readable(MoreDigits(min, max)) && Readable(Seq(Class(lo, hi), MoreDigits(min, max)))
  {}

  lemma EitherReads(a: Expr, b: Expr)
    ensures Readable(Alt(a, b)) <==> Readable(a) && Readable(b)
  {}

  lemma InTurnReads(a: Expr, b: Expr)
    ensures Readable(Seq(a, b)) <==> Readable(a) && Readable(b)
  {}

  lemma GroupReads(a: Expr)
    ensures Readable(Group(a)) <==> Readable(a)
  {}

  lemma {:induction false} UniformReads(from: string, to: string)
    requires |from| == |to| && from != "" && AllDigits(from) && AllDigits(to) && LexLe(from, to)
    ensures Readable(Uniform(from, to))
    decreases |from|, 1
  {
    var i := CommonPrefix(from, to);
    DigitsPlain(from[..i]);
    DigitsPlain(from);
    if i < |from| {
      LexSkip(from, to, i);
      BranchReads(from[i..], to[i..]);
      assert from[0..] == from && to[0..] == to;
    }
    hide PlainText;
  }

  lemma {:induction false} BranchReads(from: string, to: string)
    requires |from| == |to| && from != "" && AllDigits(from) && AllDigits(to) && from[0] < to[0]
    ensures Readable(Branch(from, to))
    decreases |from|, 0
  {
    var n := |from| - 1;
    if n > 0 {
      LowEndReads(from);
      HighEndReads(to);
      HeadReads(from[0], Prev(to[0]), n, n);
      HeadReads(Next(from[0]), if ToReached(from, to) then to[0] else Prev(to[0]), n, n);
      hide MoreDigits, LowEnd, HighEnd, Readable, Uniform;
      if from[1..] != Repeated('0', n) && from[0] < Prev(to[0]) {
        EitherReads(LowEnd(from), Middle(from, to));
      }
      EitherReads(BranchLow(from, to), HighEnd(to));
      GroupReads(BranchLow(from, to));
      GroupReads(Alt(BranchLow(from, to), HighEnd(to)));
    } else {
      HeadReads(from[0], to[0], 0, 0);
    }
  }

  lemma {:induction false} LowEndReads(from: string)
    requires |from| > 1 && AllDigits(from)
    ensures Readable(LowEnd(from))
    decreases |from| - 1, 2
  {
    NinesGreatest(from[1..]);
    UniformReads(from[1..], Repeated('9', |from| - 1));
    HeadReads(from[0], from[0], 0, 0);
    hide Uniform;
  }

  lemma {:induction false} HighEndReads(to: string)
    requires |to| > 1 && AllDigits(to)
    ensures Readable(HighEnd(to))
    decreases |to| - 1, 2
  {
    ZerosLeast(to[1..]);
    UniformReads(Repeated('0', |to| - 1), to[1..]);
    HeadReads(to[0], to[0], 0, 0);
    hide Uniform;
  }

  lemma {:induction false} ByLengthReads(from: string, to: string)
    requires Canonical(from) && Canonical(to) && ShortLexLe(from, to)
    ensures Readable(ByLength(from, to))
    decreases |to| - |from|
  {
    if |from| < |to| {
      NinesGreatest(from);
      OneZerosLeast(to);
      UniformReads(from, Repeated('9', |from|));
      ByLengthReads("1" + Repeated('0', |from|), to);
    } else {
      UniformReads(from, to);
    }
    hide Readable;
  }

  lemma NonnegativeReads(min: nat, max: nat)
    requires min <= max
    ensures Readable(Nonnegative(min, max))
  {
    NumeralOrder(min, max);
    ByLengthReads(Numeral(min), Numeral(max));
    hide ByLength;
  }

  /** The upper numbers of digits stay at least the lower ones while the minimum has fewer digits
      than are allowed. */
  lemma {:induction false} LowerReads(s: string, decimals: nat, top: bool)
    requires Canonical(s) && |s| < decimals
    ensures Readable(Lower(s, decimals, top))
    decreases |s|
  {
    var less := if decimals - 1 > 1 then decimals - 1 else 1;
    if s == "0" {
      HeadReads('1', '9', 0, less);
      HeadReads('0', '0', 1, decimals);
    } else if |s| == 1 {
      assert s == [s[0]];
      LowerDigitReads(s[0], less, top);
    } else {
      LowerReads(Trim(s[1..]), less, false);
      LowerDigitsReads(s[0], |s|, less, top, Lower(Trim(s[1..]), less, false));
    }
  }

  lemma LowerDigitReads(c: char, less: nat, top: bool)
    requires '1' <= c <= '9' && less > 0
    ensures Readable(LowerDigit(c, less, top))
  {
    var start := if top then '1' else '0';
    HeadReads(c, '9', 0, less);
    if c > start { HeadReads(start, Prev(c), 1, less); }
    hide MoreDigits, PlainClass, PlainText;
  }

  lemma LowerDigitsReads(c: char, len: nat, less: nat, top: bool, tail: Expr)
    requires '1' <= c <= '9' && 1 < len <= less && Readable(tail)
    ensures Readable(LowerDigits(c, len, less, top, tail))
  {
    var start := if top then '1' else '0';
    HeadReads(c, c, 0, 0);
    if c > '1' { HeadReads(start, Prev(c), len, less); }
    if c < '9' { HeadReads(Next(c), '9', len - 1, less); }
    hide MoreDigits, Readable;
    var same := Seq(Class(c, c), Group(tail));
    GroupReads(tail);
    InTurnReads(Class(c, c), Group(tail));
    var head := Seq(Class(start, Prev(c)), MoreDigits(len, less));
    var low := if c > '1' then Alt(head, same) else same;
    if c > '1' { EitherReads(head, same); }
    if c < '9' { EitherReads(low, Seq(Class(Next(c), '9'), MoreDigits(len - 1, less))); }
  }

  lemma MinusReads(e: Expr)
    requires Readable(e)
    ensures Readable(Seq(Lit("-"), e)) && Readable(Seq(Lit("-"), Group(e)))
  {}

  lemma {:induction false} BoundedReads(min: int, max: int, top: bool)
    requires INT_MIN <= min <= INT_MAX && INT_MIN <= max <= INT_MAX
    requires min != INT_MIN && max != INT_MAX ==> min <= max
    requires Bounded(min, max, DIGITS, top).Some?
    ensures Readable(Bounded(min, max, DIGITS, top).value)
    decreases if min != INT_MIN && min < 0 then 3 else if max != INT_MAX && min == INT_MIN then 2 else 1
  {
    hide Lower, Nonnegative, MoreDigits, Readable;
    if min != INT_MIN && max != INT_MAX {
      if max >= 0 { NonnegativeReads(if min < 0 then 0 else min, max); }
      if min < 0 {
        BoundedReads(if max < 0 then -max else 0, -min, true);
        var inner := Bounded(if max < 0 then -max else 0, -min, DIGITS, true).value;
        MinusReads(inner);
        if max >= 0 { EitherReads(Seq(Lit("-"), Group(inner)), Nonnegative(0, max)); }
      }
    } else if min != INT_MIN {
      if min < 0 {
        BoundedReads(INT_MIN, -min, false);
        var inner := Bounded(INT_MIN, -min, DIGITS, false).value;
        MinusReads(inner);
        HeadReads('1', '9', 0, DIGITS - 1);
        HeadReads('0', '0', 0, 0);
        var positive := Seq(Class('1', '9'), MoreDigits(0, DIGITS - 1));
        EitherReads(Seq(Lit("-"), Group(inner)), Class('0', '0'));
        EitherReads(Alt(Seq(Lit("-"), Group(inner)), Class('0', '0')), positive);
      } else {
        IntNumeralShort(min);
        LowerReads(Numeral(min), DIGITS, top);
      }
    } else if max >= 0 {
      NonnegativeReads(0, max);
      HeadReads('1', '9', 0, DIGITS - 1);
      var head := Seq(Class('1', '9'), MoreDigits(0, DIGITS - 1));
      MinusReads(head);
      EitherReads(Seq(Lit("-"), head), Nonnegative(0, max));
    } else {
      IntNumeralShort(-max);
      LowerReads(Numeral(-max), DIGITS, false);
      MinusReads(Lower(Numeral(-max), DIGITS, false));
    }
  }

  /** The text is read as a grammar for the decimals of the numbers inside the bounds. */
  ghost predicate ReadsAsBounds(env: Env, text: Option<string>, min: int, max: int) {
    && text.Some? && Read(text.value).Some?
    && forall w :: Accepts(env, Read(text.value).value, w) <==> InBounds(min, max, w) || MinusZero(min, max, w)
  }

  /** The text that the converter puts between parentheses for bounds in order: it is read as a
      grammar, and this accepts the decimals of exactly the numbers inside the bounds if and
      only if the bounds are of the kinds for which the construction is exact. */
  method RangeText(min: int, max: int) returns (text: Option<string>)
    requires INT_MIN <= min <= INT_MAX && INT_MIN <= max <= INT_MAX
    requires min != INT_MIN && max != INT_MAX ==> min <= max
    ensures text.Some? <==> Bounded(min, max, DIGITS, true).Some?
    ensures text.Some? ==> Read(text.value).Some?
    ensures forall env: Env :: ReadsAsBounds(env, text, min, max) <==> ExactBounds(min, max)
  {
    text := IntRangeText.EmitBounded(min, max, DIGITS, true);
    hide Bounded, Read, InBounds, MinusZero, ExactBounds, Show;
    if text.Some? { TextReads(min, max); }
    forall env: Env ensures ReadsAsBounds(env, text, min, max) <==> ExactBounds(min, max) {
      BoundedExactIff(env, min, max);
      if text.Some? {
        assert Same(env, Read(text.value).value, Bounded(min, max, DIGITS, true).value);
      }
      hide Accepts;
    }
  }

  lemma TextReads(min: int, max: int)
    requires INT_MIN <= min <= INT_MAX && INT_MIN <= max <= INT_MAX
    requires min != INT_MIN && max != INT_MAX ==> min <= max
    requires Bounded(min, max, DIGITS, true).Some?
    ensures Read(Show(Bounded(min, max, DIGITS, true).value)).Some?
    ensures forall env: Env :: Same(env, Read(Show(Bounded(min, max, DIGITS, true).value)).value, Bounded(min, max, DIGITS, true).value)
  {
    hide Bounded, Read, Show, Same, WellNested, Readable;
    IntRangeText.BoundedNests(min, max, DIGITS, true);
    BoundedReads(min, max, true);
    ShowIsRead(Bounded(min, max, DIGITS, true).value);
  }
}
