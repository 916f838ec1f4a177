/** The text `_build_min_max_int` writes, produced step by step as the source does and
    proved to be the rendering of the trees of `IntRange`. */
module IntRangeText {
  import opened Common
  import opened Gbnf
  import opened Decimal
  import opened IntRange

  lemma NestParts(a: Expr, b: Expr)
    requires WellNested(a) && WellNested(b)
    ensures WellNested(Group(b)) && WellNested(Alt(a, b))
    ensures !a.Alt? && !a.Seq? && !b.Alt? ==> WellNested(Seq(a, b))
  {}

  lemma HeadNests(lo: char, hi: char, min: nat, max: nat)
    ensures WellNested(Seq(Class(lo, hi), MoreDigits(min, max)))
  {
    assert WellNested(MoreDigits(min, max));
  }

  /** The trees built above parse back as themselves: their text needs no further brackets. */
  lemma {:induction false} UniformNests(from: string, to: string)
    requires |from| == |to| && from != "" && AllDigits(from) && AllDigits(to) && LexLe(from, to)
    ensures WellNested(Uniform(from, to)) && !Uniform(from, to).Alt?
    decreases |from|, 1
  {
    var i := CommonPrefix(from, to);
    if i < |from| {
      LexSkip(from, to, i);
      BranchNests(from[i..], to[i..]);
      assert from[0..] == from && to[0..] == to;
    }
  }

  lemma {:induction false} BranchNests(from: string, to: string)
    requires |from| == |to| && from != "" && AllDigits(from) && AllDigits(to) && from[0] < to[0]
    ensures WellNested(Branch(from, to))
    decreases |from|, 0
  {
    var n := |from| - 1;
    if n > 0 {
      NinesGreatest(from[1..]);
      ZerosLeast(to[1..]);
      UniformNests(from[1..], Repeated('9', n));
      UniformNests(Repeated('0', n), to[1..]);
      EndsNest(from, to);
      HeadNests(from[0], Prev(to[0]), n, n);
      HeadNests(Next(from[0]), if ToReached(from, to) then to[0] else Prev(to[0]), n, n);
      hide WellNested, MoreDigits, LowEnd, HighEnd, Uniform;
      if from[1..] != Repeated('0', n) && from[0] < Prev(to[0]) {
        NestParts(LowEnd(from), Middle(from, to));
      }
      var low := BranchLow(from, to);
      NestParts(low, HighEnd(to));
      NestParts(low, low);
      NestParts(low, Alt(low, HighEnd(to)));
    }
  }

  lemma EndsNest(from: string, to: string)
    requires |from| == |to| && |from| > 1 && AllDigits(from) && AllDigits(to)
    requires LexLe(from[1..], Repeated('9', |from| - 1)) && LexLe(Repeated('0', |to| - 1), to[1..])
    requires WellNested(Uniform(from[1..], Repeated('9', |from| - 1)))
    requires WellNested(Uniform(Repeated('0', |to| - 1), to[1..])) && !Uniform(Repeated('0', |to| - 1), to[1..]).Alt?
    ensures WellNested(LowEnd(from)) && WellNested(HighEnd(to))
  {
    var start, high := Uniform(from[1..], Repeated('9', |from| - 1)), Uniform(Repeated('0', |to| - 1), to[1..]);
    NestParts(Class(from[0], from[0]), start);
    NestParts(Class(from[0], from[0]), Group(start));
    NestParts(Class(to[0], to[0]), high);
    hide Uniform;
  }

  lemma {:induction false} ByLengthNests(from: string, to: string)
    requires Canonical(from) && Canonical(to) && ShortLexLe(from, to)
    ensures WellNested(ByLength(from, to))
    decreases |to| - |from|
  {
    if |from| < |to| {
      NinesGreatest(from);
      OneZerosLeast(to);
      UniformNests(from, Repeated('9', |from|));
      ByLengthNests("1" + Repeated('0', |from|), to);
    } else {
      UniformNests(from, to);
    }
  }

  lemma {:induction false} LowerNests(s: string, decimals: nat, top: bool)
    requires Canonical(s)
    ensures WellNested(Lower(s, decimals, top))
    decreases |s|
  {
    var less := if decimals - 1 > 1 then decimals - 1 else 1;
    if s == "0" {
      HeadNests('1', '9', 0, less);
      NestParts(Class('0', '0'), Seq(Class('1', '9'), MoreDigits(0, less)));
    } else if |s| == 1 {
      assert s == [s[0]];
      LowerDigitNests(s[0], less, top);
    } else {
      LowerNests(Trim(s[1..]), less, false);
      LowerDigitsNests(s[0], |s|, less, top, Lower(Trim(s[1..]), less, false));
    }
  }

  lemma LowerDigitNests(c: char, less: nat, top: bool)
    requires '1' <= c <= '9'
    ensures WellNested(LowerDigit(c, less, top))
  {
    var start := if top then '1' else '0';
    HeadNests(c, '9', 0, less);
    HeadNests(start, Prev(c), 1, less);
    hide WellNested, MoreDigits;
    NestParts(Seq(Class(start, Prev(c)), MoreDigits(1, less)), Seq(Class(c, '9'), MoreDigits(0, less)));
  }

  lemma LowerDigitsNests(c: char, len: nat, less: nat, top: bool, tail: Expr)
    requires '1' <= c <= '9' && len > 1 && WellNested(tail)
    ensures WellNested(LowerDigits(c, len, less, top, tail))
  {
    var start := if top then '1' else '0';
    assert WellNested(Class(c, c));
    HeadNests(start, Prev(c), len, less);
    HeadNests(Next(c), '9', len - 1, less);
    hide WellNested, MoreDigits;
    NestParts(Class(c, c), tail);
    NestParts(Class(c, c), Group(tail));
    var same := Seq(Class(c, c), Group(tail));
    NestParts(Seq(Class(start, Prev(c)), MoreDigits(len, less)), same);
    var low := if c > '1' then Alt(Seq(Class(start, Prev(c)), MoreDigits(len, less)), same) else same;
    NestParts(low, Seq(Class(Next(c), '9'), MoreDigits(len - 1, less)));
  }

  lemma {:induction false} BoundedNests(min: int, max: int, decimals: nat, top: bool)
    requires INT_MIN <= min <= INT_MAX && INT_MIN <= max <= INT_MAX
    requires min != INT_MIN && max != INT_MAX ==> min <= max
    requires Bounded(min, max, decimals, top).Some?
    ensures WellNested(Bounded(min, max, decimals, top).value)
    decreases if min != INT_MIN && min < 0 then 3 else if max != INT_MAX && min == INT_MIN then 2 else 1
  {
    if min != INT_MIN && max != INT_MAX {
      if max >= 0 {
        NumeralOrder(if min < 0 then 0 else min, max);
        ByLengthNests(Numeral(if min < 0 then 0 else min), Numeral(max));
      }
      if min < 0 {
        BoundedNests(if max < 0 then -max else 0, -min, decimals, true);
        var inner := Bounded(if max < 0 then -max else 0, -min, decimals, true).value;
        assert WellNested(Group(inner));
        assert WellNested(Seq(Lit("-"), Group(inner)));
      }
    } else if min != INT_MIN {
      if min < 0 {
        BoundedNests(INT_MIN, -min, decimals, false);
        HeadNests('1', '9', 0, if decimals > 0 then decimals - 1 else 0);
        var inner := Bounded(INT_MIN, -min, decimals, false).value;
        assert WellNested(Group(inner));
        assert WellNested(Seq(Lit("-"), Group(inner)));
      } else {
        LowerNests(Numeral(min), decimals, top);
      }
    } else if max >= 0 {
      NumeralOrder(0, max);
      ByLengthNests(Numeral(0), Numeral(max));
      var less := if decimals - 1 > 1 then decimals - 1 else 1;
      HeadNests('1', '9', 0, less);
      assert WellNested(Seq(Lit("-"), Seq(Class('1', '9'), MoreDigits(0, less))));
    } else {
      LowerNests(Numeral(-max), decimals, false);
    }
  }

  method EmitDigitRange(from: char, to: char) returns (out: string)
    ensures out == Show(Class(from, to))
  {
    out := "[";
    if from == to {
      out := out + [from];
    } else {
      out := out + [from] + "-" + [to];
    }
    out := out + "]";
  }

  method EmitMoreDigits(lo: nat, hi: nat) returns (out: string)
    ensures out == Show(MoreDigits(lo, hi))
  {
    out := "[0-9]";
    if lo == hi && lo == 1 {
      return;
    }
    out := out + "{" + Numeral(lo);
    if hi != lo {
      out := out + "," + Numeral(hi);
    }
    out := out + "}";
  }

  lemma ShowParts(a: Expr, b: Expr)
    ensures Show(Seq(a, b)) == Show(a) + " " + Show(b)
    ensures Show(Alt(a, b)) == Show(a) + " | " + Show(b)
    ensures Show(Group(a)) == "(" + Show(a) + ")"
  {}

  /** `uniform_range`: scan the common prefix, then write the branch. */
  method EmitUniformRange(from: string, to: string) returns (out: string)
    requires |from| == |to| && from != "" && AllDigits(from) && AllDigits(to) && LexLe(from, to)
    ensures out == Show(Uniform(from, to))
    decreases |from|, 1
  {
    var i := 0;
    while i < |from| && i < |to| && from[i] == to[i]
      invariant i <= |from| && from[..i] == to[..i]
    {
      i := i + 1;
    }
    PrefixUnique(from, to, i);
    LexSkip(from, to, i);
    out := "";
    if i > 0 {
      out := "\"" + from[..i] + "\"";
    }
    if i < |from| {
      if i > 0 {
        out := out + " ";
      }
      var rest := EmitBranch(from[i..], to[i..]);
      out := out + rest;
      assert from[0..] == from && to[0..] == to;
    } else {
      assert from == from[..i];
    }
  }

  lemma {:induction false} PrefixUnique(a: string, b: string, i: nat)
    requires |a| == |b| && i <= |a| && a[..i] == b[..i] && (i < |a| ==> a[i] != b[i])
    ensures CommonPrefix(a, b) == i
  {
    if i > 0 {
      assert a[0] == a[..i][0] && b[0] == b[..i][0];
      assert a[1..][..i - 1] == a[..i][1..] && b[1..][..i - 1] == b[..i][1..];
      PrefixUnique(a[1..], b[1..], i - 1);
    }
  }

  /** `uniform_range` past the common prefix. */
  method EmitBranch(from: string, to: string) returns (out: string)
    requires |from| == |to| && from != "" && AllDigits(from) && AllDigits(to) && from[0] < to[0]
    ensures out == Show(Branch(from, to))
    decreases |from|, 0
  {
    var n := |from| - 1;
    if n == 0 {
      return "[" + [from[0]] + "-" + [to[0]] + "]";
    }
    hide Show, Branch, Uniform, LowEnd, HighEnd;
    var zeros, nines := Repeated('0', n), Repeated('9', n);
    NinesGreatest(from[1..]);
    ZerosLeast(to[1..]);
    var toReached := false;
    var part;
    if from[1..] == zeros {
      out := EmitHead(from[0], Prev(to[0]), n, n);
    } else {
      part := EmitUniformRange(from[1..], nines);
      out := "[" + [from[0]] + "] " + ("(" + part + ")");
      ShowLowEnd(from);
      if from[0] < Prev(to[0]) {
        toReached := to[1..] == nines;
        part := EmitHead(Next(from[0]), if toReached then to[0] else Prev(to[0]), n, n);
        assert part == Show(Middle(from, to));
        out := out + " | " + part;
      }
    }
    if !toReached {
      part := EmitUniformRange(zeros, to[1..]);
      ShowHighEnd(to);
      out := out + " | " + ("[" + [to[0]] + "] " + part);
    }
    out := "(" + out + ")";
    BranchText(from, to);
  }

  lemma BranchText(from: string, to: string)
    requires |from| == |to| && |from| > 1 && AllDigits(from) && AllDigits(to) && from[0] < to[0]
    ensures
      var n := |from| - 1;
      var low :=
        if from[1..] == Repeated('0', n) then Show(Seq(Class(from[0], Prev(to[0])), MoreDigits(n, n)))
        else if from[0] < Prev(to[0]) then Show(LowEnd(from)) + " | " + Show(Middle(from, to))
        else Show(LowEnd(from));
      Show(Branch(from, to)) == "(" + (if ToReached(from, to) then low else low + " | " + Show(HighEnd(to))) + ")"
  {
    hide Show, Uniform, LowEnd, HighEnd, MoreDigits;
    var low := BranchLow(from, to);
    ShowParts(low, HighEnd(to));
    ShowParts(Alt(low, HighEnd(to)), low);
    ShowParts(LowEnd(from), Middle(from, to));
  }

  lemma ShowLowEnd(from: string)
    requires |from| > 1 && AllDigits(from)
    ensures LexLe(from[1..], Repeated('9', |from| - 1))
    ensures Show(LowEnd(from)) == "[" + [from[0]] + "] " + ("(" + Show(Uniform(from[1..], Repeated('9', |from| - 1))) + ")")
  {
    NinesGreatest(from[1..]);
    var rest := Uniform(from[1..], Repeated('9', |from| - 1));
    ShowParts(rest, rest);
    ShowParts(Class(from[0], from[0]), Group(rest));
  }

  lemma ShowHighEnd(to: string)
    requires |to| > 1 && AllDigits(to)
    ensures LexLe(Repeated('0', |to| - 1), to[1..])
    ensures Show(HighEnd(to)) == "[" + [to[0]] + "] " + Show(Uniform(Repeated('0', |to| - 1), to[1..]))
  {
    ZerosLeast(to[1..]);
    ShowParts(Class(to[0], to[0]), Uniform(Repeated('0', |to| - 1), to[1..]));
  }

  /** A class of first digits, a blank, and the free digits behind it. */
  method EmitHead(from: char, to: char, lo: nat, hi: nat) returns (out: string)
    ensures out == Show(Seq(Class(from, to), MoreDigits(lo, hi)))
  {
    out := EmitDigitRange(from, to);
    var digits := EmitMoreDigits(lo, hi);
    out := out + " " + digits;
  }

  /** The loop over digit counts of the two-sided case. */
  method EmitNonnegative(min: nat, max: nat) returns (out: string)
    requires min <= max
    ensures out == Show(Nonnegative(min, max))
  {
    NumeralOrder(min, max);
    out := "";
    var minS, maxS := Numeral(min), Numeral(max);
    var part;
    for digits := |minS| to |maxS|
      invariant |minS| == digits && Canonical(minS) && ShortLexLe(minS, maxS)
      invariant Show(Nonnegative(min, max)) == out + Show(ByLength(minS, maxS))
    {
      ghost var before, rest := out, ByLength(minS, maxS);
      part := EmitLengthStep(minS, maxS);
      out := out + part;
      minS := "1" + Repeated('0', digits);
      assert Show(rest) == part + Show(ByLength(minS, maxS));
      assert before + (part + Show(ByLength(minS, maxS))) == out + Show(ByLength(minS, maxS));
    }
    part := EmitUniformRange(minS, maxS);
    out := out + part;
  }

  /** One round of that loop: every numeral of the current length from `minS` up. */
  method EmitLengthStep(minS: string, maxS: string) returns (out: string)
    requires Canonical(minS) && Canonical(maxS) && |minS| < |maxS|
    ensures ShortLexLe("1" + Repeated('0', |minS|), maxS)
    ensures Show(ByLength(minS, maxS)) == out + Show(ByLength("1" + Repeated('0', |minS|), maxS))
  {
    NinesGreatest(minS);
    OneZerosLeast(maxS);
    out := EmitUniformRange(minS, Repeated('9', |minS|));
    ShowParts(Uniform(minS, Repeated('9', |minS|)), ByLength("1" + Repeated('0', |minS|), maxS));
    out := out + " | ";
  }

  method EmitLower(s: string, decimals: nat, top: bool) returns (out: string)
    requires Canonical(s)
    ensures out == Show(Lower(s, decimals, top))
    decreases |s|
  {
    var less := if decimals - 1 > 1 then decimals - 1 else 1;
    if s == "0" {
      if top {
        var digits := EmitHead('1', '9', 0, less);
        out := "[0] | " + digits;
        ShowParts(Class('0', '0'), Seq(Class('1', '9'), MoreDigits(0, less)));
      } else {
        out := EmitMoreDigits(1, decimals);
      }
    } else if |s| == 1 {
      assert s == [s[0]];
      out := EmitLowerDigit(s[0], less, top);
    } else {
      var rest := EmitLower(Trim(s[1..]), less, false);
      out := EmitLowerDigits(s[0], |s|, less, top, rest, Lower(Trim(s[1..]), less, false));
    }
  }

  method EmitLowerDigit(c: char, less: nat, top: bool) returns (out: string)
    requires '1' <= c <= '9'
    ensures out == Show(LowerDigit(c, less, top))
  {
    var start := if top then '1' else '0';
    ghost var high := Seq(Class(c, '9'), MoreDigits(0, less));
    out := "";
    var part;
    if c > start {
      part := EmitHead(start, Prev(c), 1, less);
      out := part + " | ";
      ShowParts(Seq(Class(start, Prev(c)), MoreDigits(1, less)), high);
    }
    part := EmitHead(c, '9', 0, less);
    out := out + part;
  }

  method EmitLowerDigits(c: char, len: nat, less: nat, top: bool, rest: string, ghost tail: Expr)
    returns (out: string)
    requires '1' <= c <= '9' && len > 1 && rest == Show(tail)
    ensures out == Show(LowerDigits(c, len, less, top, tail))
  {
    var start := if top then '1' else '0';
    ghost var same := Seq(Class(c, c), Group(tail));
    ghost var low := same;
    ShowParts(tail, tail);
    ShowParts(Class(c, c), Group(tail));
    out := "";
    var part;
    if c > '1' {
      part := EmitHead(start, Prev(c), len, less);
      out := part + " | ";
      low := Alt(Seq(Class(start, Prev(c)), MoreDigits(len, less)), same);
      ShowParts(low.left, same);
    }
    part := EmitDigitRange(c, c);
    out := out + (part + " " + ("(" + rest + ")"));
    assert out == Show(low);
    if c < '9' {
      part := EmitHead(Next(c), '9', len - 1, less);
      out := out + " | " + part;
      ShowParts(low, Seq(Class(Next(c), '9'), MoreDigits(len - 1, less)));
    }
  }

  lemma NegativeZeroPositive(inner: Expr, positive: Expr)
    ensures Show(Alt(Alt(Seq(Lit("-"), Group(inner)), Class('0', '0')), positive))
            == Show(Seq(Lit("-"), Group(inner))) + " | " + "[0]" + " | " + Show(positive)
  {
    assert Show(Class('0', '0')) == "[0]";
    hide Show;
    ShowParts(Seq(Lit("-"), Group(inner)), Class('0', '0'));
    ShowParts(Alt(Seq(Lit("-"), Group(inner)), Class('0', '0')), positive);
  }

  lemma MinusOr(digits: Expr, other: Expr)
    ensures Show(Alt(Seq(Lit("-"), digits), other)) == "\"-\"" + " " + Show(digits) + " | " + Show(other)
  {
    assert Show(Lit("-")) == "\"-\"";
    hide Show;
    ShowParts(Lit("-"), digits);
    ShowParts(Seq(Lit("-"), digits), other);
  }

  /** `_build_min_max_int` itself; `None` stands for the exception. */
  method EmitBounded(min: int, max: int, decimals: nat, top: bool) returns (r: Option<string>)
    requires INT_MIN <= min <= INT_MAX && INT_MIN <= max <= INT_MAX
    requires min != INT_MIN && max != INT_MAX ==> min <= max
    ensures r.Some? <==> Bounded(min, max, decimals, top).Some?
    ensures r.Some? ==> r.value == Show(Bounded(min, max, decimals, top).value)
    decreases if min != INT_MIN && min < 0 then 3 else if max != INT_MAX && min == INT_MIN then 2 else 1
  {
    hide Show, IntRange.Nonnegative, IntRange.Lower, IntRange.MoreDigits, Numeral, Negative;
    if min != INT_MIN && max != INT_MAX {
      if min < 0 && max < 0 {
        r := EmitBounded(-max, -min, decimals, true);
        if r.Some? { r := Some(Negative(r.value, Bounded(-max, -min, decimals, true).value)); }
      } else if min < 0 {
        r := EmitBounded(0, -min, decimals, true);
        if r.Some? {
          ghost var inner := Bounded(0, -min, decimals, true).value;
          var nonneg := EmitNonnegative(0, max);
          ShowParts(Seq(Lit("-"), Group(inner)), Nonnegative(0, max));
          r := Some(Negative(r.value, inner) + " | " + nonneg);
        }
      } else {
        var out := EmitNonnegative(min, max);
        r := Some(out);
      }
    } else if min != INT_MIN {
      if min < 0 {
        r := EmitBounded(INT_MIN, -min, decimals, false);
        if r.Some? {
          var digits := EmitHead('1', '9', 0, if decimals > 0 then decimals - 1 else 0);
          ghost var inner := Bounded(INT_MIN, -min, decimals, false).value;
          NegativeZeroPositive(inner, Seq(Class('1', '9'), MoreDigits(0, if decimals > 0 then decimals - 1 else 0)));
          r := Some(Negative(r.value, inner) + " | " + "[0]" + " | " + digits);
        }
      } else {
        var out := EmitLower(Numeral(min), decimals, top);
        r := Some(out);
      }
    } else if max != INT_MAX {
      if max >= 0 {
        var nonneg := EmitNonnegative(0, max);
        if top {
          var less := if decimals - 1 > 1 then decimals - 1 else 1;
          var digits := EmitHead('1', '9', 0, less);
          MinusOr(Seq(Class('1', '9'), MoreDigits(0, less)), Nonnegative(0, max));
          r := Some("\"-\"" + " " + digits + " | " + nonneg);
        } else {
          r := Some(nonneg);
        }
      } else if max == INT_MIN {
        r := None;
      } else {
        var out := EmitLower(Numeral(-max), decimals, false);
        r := Some(Negative(out, Lower(Numeral(-max), decimals, false)));
      }
    } else {
      r := None;
    }
  }

  function Negative(text: string, ghost inner: Expr): (out: string)
    requires text == Show(inner)
    ensures out == Show(Seq(Lit("-"), Group(inner)))
  {
    ShowParts(inner, inner);
    ShowParts(Lit("-"), Group(inner));
    "\"-\" (" + text + ")"
  }
}
