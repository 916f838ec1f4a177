/** The integer-range part of the schema converter: `_build_min_max_int` writes a grammar
    for the decimal numerals of an interval.  The tree it writes is `Bounded` below, the
    methods at the end write the text, and the theorems say which texts are accepted. */
module IntRange {
  import opened Common
  import opened Gbnf
  import opened Decimal

  const INT_MIN: int := -0x8000_0000
  const INT_MAX: int := 0x7fff_ffff

  function Next(c: char): (r: char) requires IsDigit(c) { (c as int + 1) as char }
  function Prev(c: char): (r: char) requires IsDigit(c) { (c as int - 1) as char }

  function MoreDigits(lo: nat, hi: nat): (e: Expr) {
    if lo == hi == 1 then Class('0', '9') else Repeat(Class('0', '9'), lo, AtMost(hi))
  }

  function CommonPrefix(a: string, b: string): (i: nat)
    requires |a| == |b|
    ensures i <= |a| && a[..i] == b[..i] && (i < |a| ==> a[i] != b[i])
  {
    if a == "" || a[0] != b[0] then 0
    else
      var i := CommonPrefix(a[1..], b[1..]);
      assert a[..i + 1] == [a[0]] + a[1..][..i] && b[..i + 1] == [b[0]] + b[1..][..i];
      i + 1
  }

  // ----- equal-length digit strings -----

  /** `uniform_range`: digit strings of one length between `from` and `to`. */
  function Uniform(from: string, to: string): (e: Expr)
    requires |from| == |to| && from != "" && AllDigits(from) && AllDigits(to) && LexLe(from, to)
    decreases |from|, 3
  {
    var i := CommonPrefix(from, to);
    if i == |from| then Lit(from)
    else
      LexSkip(from, to, i);
      if i > 0 then Seq(Lit(from[..i]), Branch(from[i..], to[i..])) else Branch(from, to)
  }

  /** The part of `uniform_range` after the common prefix. */
  function Branch(from: string, to: string): (e: Expr)
    requires |from| == |to| && from != "" && AllDigits(from) && AllDigits(to) && from[0] < to[0]
    ensures e.Class? || e.Group?
    decreases |from|, 2
  {
    if |from| == 1 then Class(from[0], to[0])
    else Group(if ToReached(from, to) then BranchLow(from, to) else Alt(BranchLow(from, to), HighEnd(to)))
  }

  /** Everything below the first digit of `to`, and that digit too if nothing is cut off. */
  function BranchLow(from: string, to: string): (e: Expr)
    requires |from| == |to| && |from| > 1 && AllDigits(from) && AllDigits(to) && from[0] < to[0]
    decreases |from|, 1
  {
    var n := |from| - 1;
    if from[1..] == Repeated('0', n) then Seq(Class(from[0], Prev(to[0])), MoreDigits(n, n))
    else if from[0] < Prev(to[0]) then Alt(LowEnd(from), Middle(from, to))
    else LowEnd(from)
  }

  function Middle(from: string, to: string): (e: Expr)
    requires |from| == |to| && |from| > 1 && AllDigits(from) && AllDigits(to) && from[0] < to[0]
  {
    Seq(Class(Next(from[0]), if ToReached(from, to) then to[0] else Prev(to[0])), MoreDigits(|from| - 1, |from| - 1))
  }

  predicate ToReached(from: string, to: string)
    requires |from| == |to| && |from| > 1 && AllDigits(from) && AllDigits(to)
  {
    from[1..] != Repeated('0', |from| - 1) && from[0] < Prev(to[0]) && to[1..] == Repeated('9', |to| - 1)
  }

  /** The first digit of `from`, then anything from the rest of `from` up. */
  function LowEnd(from: string): (e: Expr)
    requires |from| > 1 && AllDigits(from)
    decreases |from|, 0
  {
    NinesGreatest(from[1..]);
    Seq(Class(from[0], from[0]), Group(Uniform(from[1..], Repeated('9', |from| - 1))))
  }

  /** The first digit of `to`, then anything up to the rest of `to`. */
  function HighEnd(to: string): (e: Expr)
    requires |to| > 1 && AllDigits(to)
    decreases |to|, 0
  {
    ZerosLeast(to[1..]);
    Seq(Class(to[0], to[0]), Uniform(Repeated('0', |to| - 1), to[1..]))
  }

  lemma {:induction false} ZerosLeast(w: string)
    requires AllDigits(w)
    ensures LexLe(Repeated('0', |w|), w)
  {
    if w != "" {
      ZerosLeast(w[1..]);
      assert Repeated('0', |w|)[1..] == Repeated('0', |w| - 1);
    }
  }

  lemma {:induction false} NinesGreatest(w: string)
    requires AllDigits(w)
    ensures LexLe(w, Repeated('9', |w|))
  {
    if w != "" {
      NinesGreatest(w[1..]);
      assert Repeated('9', |w|)[1..] == Repeated('9', |w| - 1);
    }
  }

  lemma {:induction false} LexSkip(a: string, b: string, i: nat)
    requires |a| == |b| && i <= |a| && a[..i] == b[..i]
    ensures LexLe(a, b) <==> LexLe(a[i..], b[i..])
    ensures i < |a| && a[i] != b[i] && LexLe(a, b) ==> a[i] < b[i]
  {
    if i > 0 {
      assert a[0] == a[..i][0] == b[..i][0] == b[0];
      assert a[1..][..i - 1] == a[..i][1..] && b[1..][..i - 1] == b[..i][1..];
      assert a[i..] == a[1..][i - 1..] && b[i..] == b[1..][i - 1..];
      LexSkip(a[1..], b[1..], i - 1);
    } else {
      assert a[0..] == a && b[0..] == b;
    }
  }

  predicate Between(from: string, w: string, to: string)
    requires |from| == |to|
  {
    |w| == |from| && AllDigits(w) && LexLe(from, w) && LexLe(w, to)
  }

  lemma MoreDigitsExact(env: Env, lo: nat, hi: nat, w: string)
    ensures Accepts(env, MoreDigits(lo, hi), w) <==> lo <= |w| <= hi && AllDigits(w)
  {
    RepeatedClass(env, '0', '9', lo, AtMost(hi), w);
    assert AllDigits(w) <==> forall i :: 0 <= i < |w| ==> '0' <= w[i] <= '9';
  }

  lemma DigitsCons(w: string)
    requires w != ""
    ensures AllDigits(w) <==> IsDigit(w[0]) && AllDigits(w[1..])
  {
    assert w == [w[0]] + w[1..];
  }

  /** A class of first digits followed by a fixed number of free digits. */
  lemma HeadThenDigits(env: Env, lo: char, hi: char, min: nat, max: nat, w: string)
    requires '0' <= lo && hi <= '9'
    ensures Accepts(env, Seq(Class(lo, hi), MoreDigits(min, max)), w)
            <==> min < |w| <= max + 1 && AllDigits(w) && lo <= w[0] <= hi
  {
    hide Accepts, MoreDigits;
    SeqOfClass(env, lo, hi, MoreDigits(min, max), w);
    if w != "" {
      MoreDigitsExact(env, min, max, w[1..]);
      DigitsCons(w);
    }
  }

  lemma {:induction false} UniformExact(env: Env, from: string, to: string, w: string)
    requires |from| == |to| && from != "" && AllDigits(from) && AllDigits(to) && LexLe(from, to)
    ensures Accepts(env, Uniform(from, to), w) <==> Between(from, w, to)
    decreases |from|, 3
  {
    var i := CommonPrefix(from, to);
    if i == |from| {
      assert from == from[..i] && to == to[..i];
      LexReflexive(from);
      if Between(from, w, to) { LexAntisymmetric(from, w); }
    } else {
      LexSkip(from, to, i);
      if i > 0 {
        var p := from[..i];
        SeqOfLit(env, p, Branch(from[i..], to[i..]), w);
        if p <= w {
          BranchExact(env, from[i..], to[i..], w[i..]);
          if |w| == |from| {
            LexSkip(from, w, i);
            LexSkip(w, to, i);
          }
          assert w == p + w[i..];
        } else if Between(from, w, to) {
          BetweenPrefix(from, w, to, i);
        }
      } else {
        BranchExact(env, from, to, w);
      }
    }
  }

  lemma {:induction false} BetweenPrefix(from: string, w: string, to: string, i: nat)
    requires |from| == |to| == |w| && i <= |from| && from[..i] == to[..i]
    requires LexLe(from, w) && LexLe(w, to)
    ensures from[..i] <= w
  {
    if i > 0 {
      assert from[0] == from[..i][0] == to[..i][0] == to[0];
      assert from[1..][..i - 1] == from[..i][1..] && to[1..][..i - 1] == to[..i][1..];
      BetweenPrefix(from[1..], w[1..], to[1..], i - 1);
      assert from[..i] == [from[0]] + from[1..][..i - 1];
    }
  }

  lemma {:induction false} BranchExact(env: Env, from: string, to: string, w: string)
    requires |from| == |to| && from != "" && AllDigits(from) && AllDigits(to) && from[0] < to[0]
    ensures Accepts(env, Branch(from, to), w) <==> Between(from, w, to)
    decreases |from|, 2
  {
    var n := |from| - 1;
    if n > 0 {
      var zeros, nines := Repeated('0', n), Repeated('9', n);
      LowEndExact(env, from, w);
      HighEndExact(env, to, w);
      BranchCases(env, from, to, w);
      if |w| == n + 1 && AllDigits(w) {
        ZerosLeast(w[1..]);
        NinesGreatest(w[1..]);
      }
    } else if |w| == 1 {
      assert LexLe(from[1..], w[1..]) && LexLe(w[1..], to[1..]);
      assert AllDigits(w) <==> IsDigit(w[0]);
      assert Branch(from, to) == Class(from[0], to[0]);
    }
  }

  /** Words of one length whose first digit is that of `from`. */
  lemma LowEndExact(env: Env, from: string, w: string)
    requires |from| > 1 && AllDigits(from)
    ensures LexLe(from[1..], Repeated('9', |from| - 1))
    ensures Accepts(env, LowEnd(from), w)
            <==> |w| == |from| && AllDigits(w) && w[0] == from[0] && LexLe(from[1..], w[1..])
    decreases |from|, 0
  {
    DigitsCons(from);
    NinesGreatest(from[1..]);
    var nines := Repeated('9', |from| - 1);
    var rest := Uniform(from[1..], nines);
    assert LowEnd(from) == Seq(Class(from[0], from[0]), Group(rest));
    SeqOfClass(env, from[0], from[0], Group(rest), w);
    if w != "" {
      GroupSame(env, rest, w[1..]);
      UniformExact(env, from[1..], nines, w[1..]);
      DigitsCons(w);
      if |w| == |from| && AllDigits(w) { NinesGreatest(w[1..]); }
    }
    hide Accepts, Uniform, LowEnd, LexLe, AllDigits, Repeated;
  }

  lemma HighEndExact(env: Env, to: string, w: string)
    requires |to| > 1 && AllDigits(to)
    ensures Accepts(env, HighEnd(to), w)
            <==> |w| == |to| && AllDigits(w) && w[0] == to[0] && LexLe(w[1..], to[1..])
    decreases |to|, 0
  {
    DigitsCons(to);
    ZerosLeast(to[1..]);
    var zeros := Repeated('0', |to| - 1);
    var rest := Uniform(zeros, to[1..]);
    assert HighEnd(to) == Seq(Class(to[0], to[0]), rest);
    SeqOfClass(env, to[0], to[0], rest, w);
    if w != "" {
      UniformExact(env, zeros, to[1..], w[1..]);
      DigitsCons(w);
      if |w| == |to| && AllDigits(w) { ZerosLeast(w[1..]); }
    }
    hide Accepts, Uniform, HighEnd, LexLe, AllDigits, Repeated;
  }

  /** The alternatives of a branch, one by one. */
  lemma BranchCases(env: Env, from: string, to: string, w: string)
    requires |from| == |to| && |from| > 1 && AllDigits(from) && AllDigits(to) && from[0] < to[0]
    ensures Accepts(env, Branch(from, to), w) <==>
      var n, free := |from| - 1, |w| == |from| && AllDigits(w);
      || (if ToReached(from, to) then free && w[0] == to[0] else Accepts(env, HighEnd(to), w))
      || (from[1..] != Repeated('0', n) && Accepts(env, LowEnd(from), w))
      || (from[1..] == Repeated('0', n) && free && from[0] <= w[0] < to[0])
      || (free && from[0] < w[0] < to[0])
  {
    var n := |from| - 1;
    var low := BranchLow(from, to);
    HeadThenDigits(env, from[0], Prev(to[0]), n, n, w);
    HeadThenDigits(env, Next(from[0]), if ToReached(from, to) then to[0] else Prev(to[0]), n, n, w);
    AltCases(env, LowEnd(from), Middle(from, to), w);
    AltCases(env, low, HighEnd(to), w);
    GroupSame(env, low, w);
    GroupSame(env, Alt(low, HighEnd(to)), w);
    hide Accepts, LowEnd, HighEnd, MoreDigits;
  }

  // ----- intervals with both ends -----

  /** The loop over numeral lengths: `from` up to 9...9, then 10...0 up, and so on. */
  function ByLength(from: string, to: string): (e: Expr)
    requires Canonical(from) && Canonical(to) && ShortLexLe(from, to)
    decreases |to| - |from|
  {
    if |from| < |to| then
      NinesGreatest(from);
      ZerosLeast(to[1..]);
      OneZerosLeast(to);
      Alt(Uniform(from, Repeated('9', |from|)), ByLength("1" + Repeated('0', |from|), to))
    else
      Uniform(from, to)
  }

  lemma OneZerosLeast(to: string)
    requires Canonical(to) && |to| > 1
    ensures LexLe("1" + Repeated('0', |to| - 1), to)
  {
    ZerosLeast(to[1..]);
    assert ("1" + Repeated('0', |to| - 1))[1..] == Repeated('0', |to| - 1);
  }

  lemma {:induction false} ByLengthExact(env: Env, from: string, to: string, w: string)
    requires Canonical(from) && Canonical(to) && ShortLexLe(from, to)
    ensures Accepts(env, ByLength(from, to), w)
            <==> Canonical(w) && ShortLexLe(from, w) && ShortLexLe(w, to)
    decreases |to| - |from|
  {
    if |from| < |to| {
      NinesGreatest(from);
      OneZerosLeast(to);
      UniformExact(env, from, Repeated('9', |from|), w);
      ByLengthExact(env, "1" + Repeated('0', |from|), to, w);
      if Canonical(w) && |w| == |from| { NinesGreatest(w); }
      if Canonical(w) && |w| == |from| + 1 { OneZerosLeast(w); }
    } else {
      UniformExact(env, from, to, w);
    }
  }

  function Nonnegative(min: nat, max: nat): (e: Expr)
    requires min <= max
  {
    NumeralOrder(min, max);
    ByLength(Numeral(min), Numeral(max))
  }

  lemma NonnegativeExact(env: Env, min: nat, max: nat, w: string)
    requires min <= max
    ensures Accepts(env, Nonnegative(min, max), w)
            <==> Canonical(w) && min <= Value(w) <= max
  {
    NumeralOrder(min, max);
    ByLengthExact(env, Numeral(min), Numeral(max), w);
    if Canonical(w) {
      NumeralOfValue(w);
      NumeralOrder(min, Value(w));
      NumeralOrder(Value(w), max);
    }
  }

  // ----- the whole builder -----

  /** `to_string(stoi(w))`: the numeral without leading zeros. */
  function Trim(w: string): (t: string)
    requires AllDigits(w) && w != ""
    ensures Canonical(t) && |t| <= |w|
    ensures w[0] == '0' && |w| > 1 ==> |t| < |w|
    ensures Canonical(w) ==> t == w
  {
    NumeralNoLonger(w);
    if Canonical(w) then NumeralOfValue(w); w else Numeral(Value(w))
  }

  /** A lower bound alone (`has_min` and not `has_max`) with the non-negative numeral `s`. */
  function Lower(s: string, decimals: nat, top: bool): (e: Expr)
    requires Canonical(s)
    decreases |s|
  {
    var less := if decimals - 1 > 1 then decimals - 1 else 1;
    if s == "0" then
      if top then Alt(Class('0', '0'), Seq(Class('1', '9'), MoreDigits(0, less)))
      else MoreDigits(1, decimals)
    else if |s| == 1 then
      LowerDigit(s[0], less, top)
    else
      LowerDigits(s[0], |s|, less, top, Lower(Trim(s[1..]), less, false))
  }

  function LowerDigit(c: char, less: nat, top: bool): (e: Expr)
    requires '1' <= c <= '9'
  {
    var start := if top then '1' else '0';
    var high := Seq(Class(c, '9'), MoreDigits(0, less));
    if c > start then Alt(Seq(Class(start, Prev(c)), MoreDigits(1, less)), high) else high
  }

  function LowerDigits(c: char, len: nat, less: nat, top: bool, tail: Expr): (e: Expr)
    requires '1' <= c <= '9' && len > 1
  {
    var same := Seq(Class(c, c), Group(tail));
    var low := if c > '1' then Alt(Seq(Class(if top then '1' else '0', Prev(c)), MoreDigits(len, less)), same) else same;
    if c < '9' then Alt(low, Seq(Class(Next(c), '9'), MoreDigits(len - 1, less))) else low
  }

  /** `_build_min_max_int`.  The extreme ints mean "no bound"; with neither bound, and for a
      lower bound of -INT_MAX alone (whose negation is the "no bound" value), it throws. */
  function Bounded(min: int, max: int, decimals: nat, top: bool): (r: Option<Expr>)
    requires INT_MIN <= min <= INT_MAX && INT_MIN <= max <= INT_MAX
    requires min != INT_MIN && max != INT_MAX ==> min <= max
    decreases if min != INT_MIN && min < 0 then 3 else if max != INT_MAX && min == INT_MIN then 2 else 1
  {
    if min != INT_MIN && max != INT_MAX then
      if min < 0 && max < 0 then
        var pos := Bounded(-max, -min, decimals, true);
        if pos.None? then None else Some(Seq(Lit("-"), Group(pos.value)))
      else if min < 0 then
        var neg := Bounded(0, -min, decimals, true);
        if neg.None? then None else Some(Alt(Seq(Lit("-"), Group(neg.value)), Nonnegative(0, max)))
      else
        Some(Nonnegative(min, max))
    else if min != INT_MIN then
      if min < 0 then
        var neg := Bounded(INT_MIN, -min, decimals, false);
        if neg.None? then None else
        Some(Alt(Alt(Seq(Lit("-"), Group(neg.value)), Class('0', '0')),
                 Seq(Class('1', '9'), MoreDigits(0, if decimals > 0 then decimals - 1 else 0))))
      else
        Some(Lower(Numeral(min), decimals, top))
    else if max != INT_MAX then
      var less := if decimals - 1 > 1 then decimals - 1 else 1;
      if max >= 0 then
        var nonneg := Nonnegative(0, max);
        Some(if top then Alt(Seq(Lit("-"), Seq(Class('1', '9'), MoreDigits(0, less))), nonneg) else nonneg)
      else if max == INT_MIN then
        None   // -INT_MIN overflows
      else
        Some(Seq(Lit("-"), Group(Lower(Numeral(-max), decimals, false))))
    else
      None
  }

  // ----- what the two-sided grammar accepts -----

  ghost predicate IsNumeral(min: nat, max: nat, w: string) {
    exists v: nat :: min <= v <= max && w == Numeral(v)
  }

  ghost predicate InInterval(min: int, max: int, w: string) {
    exists v: int :: min <= v <= max && w == ToString(v)
  }

  lemma NumeralsBetween(min: nat, max: nat, w: string)
    requires min <= max
    ensures Canonical(w) && min <= Value(w) <= max <==> IsNumeral(min, max, w)
  {
    if Canonical(w) { NumeralOfValue(w); }
    forall v: nat | w == Numeral(v) ensures Value(w) == v { ValueOfNumeral(v); }
  }

  /** The numerals of an interval, with a minus sign in front. */
  lemma NegatedExact(env: Env, min: nat, max: nat, w: string)
    requires min <= max
    ensures Accepts(env, Seq(Lit("-"), Group(Nonnegative(min, max))), w)
            <==> "-" <= w && IsNumeral(min, max, w[1..])
  {
    var body := Group(Nonnegative(min, max));
    SeqOfLit(env, "-", body, w);
    if "-" <= w {
      NonnegativeExact(env, min, max, w[1..]);
      NumeralsBetween(min, max, w[1..]);
    }
  }

  /** The texts of an interval are its numerals and, behind a minus sign, the numerals of
      the negated part. */
  lemma IntervalTexts(min: int, max: int, w: string)
    requires min <= max
    ensures InInterval(min, max, w) || (w == "-0" && min < 0 <= max) <==>
      || (max >= 0 && IsNumeral(if min < 0 then 0 else min, max, w))
      || (min < 0 && "-" <= w && IsNumeral(if max < 0 then -max else 0, -min, w[1..]))
  {
    if InInterval(min, max, w) {
      var v :| min <= v <= max && w == ToString(v);
      var u: nat := if v < 0 then -v else v;
      assert w == if v < 0 then "-" + Numeral(u) else Numeral(u);
      assert v < 0 ==> w[1..] == Numeral(u);
    }
    if w == "-0" {
      assert w[1..] == Numeral(0);
    }
    if max >= 0 && IsNumeral(if min < 0 then 0 else min, max, w) {
      var u: nat :| (if min < 0 then 0 else min) <= u <= max && w == Numeral(u);
      var v: int := u;
      assert w == ToString(v);
    }
    if min < 0 && "-" <= w && IsNumeral(if max < 0 then -max else 0, -min, w[1..]) {
      var u: nat :| (if max < 0 then -max else 0) <= u <= -min && w[1..] == Numeral(u);
      var v: int := 0 - u;
      assert w == "-" + Numeral(u);
      assert v < 0 ==> w == ToString(v);
    }
  }

  function TwoSided(min: int, max: int): (e: Expr)
    requires -INT_MAX < min <= max < INT_MAX
  {
    if max < 0 then Seq(Lit("-"), Group(Nonnegative(-max, -min)))
    else if min < 0 then Alt(Seq(Lit("-"), Group(Nonnegative(0, -min))), Nonnegative(0, max))
    else Nonnegative(min, max)
  }

  lemma TwoSidedBody(min: int, max: int, decimals: nat, top: bool)
    requires -INT_MAX < min <= max < INT_MAX
    ensures Bounded(min, max, decimals, top) == Some(TwoSided(min, max))
  {
    hide Nonnegative, Lower;
    if max < 0 {
      assert Bounded(-max, -min, decimals, true) == Some(Nonnegative(-max, -min));
    } else if min < 0 {
      assert Bounded(0, -min, decimals, true) == Some(Nonnegative(0, -min));
    }
  }

  lemma TwoSidedCases(env: Env, min: int, max: int, w: string)
    requires -INT_MAX < min <= max < INT_MAX
    ensures Accepts(env, TwoSided(min, max), w) <==>
      || (min < 0 && Accepts(env, Seq(Lit("-"), Group(Nonnegative(if max < 0 then -max else 0, -min))), w))
      || (max >= 0 && Accepts(env, Nonnegative(if min < 0 then 0 else min, max), w))
  {
    hide Accepts, Nonnegative;
    if min < 0 <= max {
      AltCases(env, Seq(Lit("-"), Group(Nonnegative(0, -min))), Nonnegative(0, max), w);
    }
  }

  /** The language of the two-sided grammar: the decimal texts of the interval, and the
      text "-0" as soon as the interval holds both signs. */
  lemma TwoSidedExact(env: Env, min: int, max: int, decimals: nat, top: bool, w: string)
    requires -INT_MAX < min <= max < INT_MAX
    ensures Bounded(min, max, decimals, top).Some?
    ensures Accepts(env, Bounded(min, max, decimals, top).value, w)
            <==> InInterval(min, max, w) || (w == "-0" && min < 0 <= max)
  {
    IntervalTexts(min, max, w);
    TwoSidedBody(min, max, decimals, top);
    TwoSidedCases(env, min, max, w);
    hide *;
    if min < 0 {
      NegatedExact(env, if max < 0 then -max else 0, -min, w);
    }
    if max >= 0 {
      var low := if min < 0 then 0 else min;
      NonnegativeExact(env, low, max, w);
      NumeralsBetween(low, max, w);
    }
  }

  // ----- what a lower bound alone accepts -----

  /** The alternatives written for a lower bound of two digits or more. */
  lemma LowerDigitsCases(env: Env, c: char, len: nat, less: nat, top: bool, tail: Expr, w: string)
    requires '1' <= c <= '9' && len > 1
    ensures Accepts(env, LowerDigits(c, len, less, top, tail), w) <==>
      var free := AllDigits(w) && |w| <= less + 1;
      && w != ""
      && (|| (c > '1' && free && (if top then '1' else '0') <= w[0] < c && len < |w|)
          || (w[0] == c && Accepts(env, tail, w[1..]))
          || (free && w[0] > c && len <= |w|))
  {
    var start := if top then '1' else '0';
    var same := Seq(Class(c, c), Group(tail));
    SeqOfClass(env, c, c, Group(tail), w);
    var below := Seq(Class(start, Prev(c)), MoreDigits(len, less));
    HeadThenDigits(env, start, Prev(c), len, less, w);
    var above := Seq(Class(Next(c), '9'), MoreDigits(len - 1, less));
    HeadThenDigits(env, Next(c), '9', len - 1, less, w);
    var low := if c > '1' then Alt(below, same) else same;
    assert Accepts(env, low, w) <==> (c > '1' && Accepts(env, below, w)) || Accepts(env, same, w);
    assert Accepts(env, Alt(low, above), w) <==> Accepts(env, low, w) || Accepts(env, above, w);
    if AllDigits(w) && w != "" {
      assert IsDigit(w[0]);
    }
  }

  lemma LowerCases(env: Env, s: string, decimals: nat, top: bool, w: string)
    requires Canonical(s) && |s| > 1 && decimals > 2
    ensures Accepts(env, Lower(s, decimals, top), w) <==>
      var free := AllDigits(w) && |w| <= decimals;
      && w != ""
      && (|| (s[0] > '1' && free && (if top then '1' else '0') <= w[0] < s[0] && |s| < |w|)
          || (w[0] == s[0] && Accepts(env, Lower(Trim(s[1..]), decimals - 1, false), w[1..]))
          || (free && w[0] > s[0] && |s| <= |w|))
  {
    LowerDigitsCases(env, s[0], |s|, decimals - 1, top, Lower(Trim(s[1..]), decimals - 1, false), w);
  }

  lemma LowerDigitCases(env: Env, c: char, less: nat, top: bool, w: string)
    requires '1' <= c <= '9' && less > 0
    ensures Accepts(env, LowerDigit(c, less, top), w) <==>
      && 0 < |w| <= less + 1 && AllDigits(w) && (top ==> w[0] != '0') && (w[0] >= c || |w| > 1)
  {
    var start := if top then '1' else '0';
    HeadThenDigits(env, c, '9', 0, less, w);
    HeadThenDigits(env, start, Prev(c), 1, less, w);
    if AllDigits(w) && w != "" {
      assert IsDigit(w[0]);
    }
  }

  lemma LowerZero(env: Env, decimals: nat, top: bool, w: string)
    requires decimals > 1
    ensures Accepts(env, Lower("0", decimals, top), w) <==>
      && 0 < |w| <= decimals && AllDigits(w) && (top ==> Canonical(w))
  {
    if top {
      var more := Seq(Class('1', '9'), MoreDigits(0, decimals - 1));
      assert Lower("0", decimals, top) == Alt(Class('0', '0'), more);
      HeadThenDigits(env, '1', '9', 0, decimals - 1, w);
      assert Accepts(env, Class('0', '0'), w) <==> w == "0";
      if AllDigits(w) && w != "" {
        assert IsDigit(w[0]);
      }
    } else {
      MoreDigitsExact(env, 1, decimals, w);
    }
  }

  lemma LowerOneDigit(env: Env, s: string, decimals: nat, top: bool, w: string)
    requires Canonical(s) && |s| == 1 && decimals > 1
    ensures Accepts(env, Lower(s, decimals, top), w) <==>
      && 0 < |w| <= decimals && AllDigits(w) && (top ==> Canonical(w)) && (w[0] >= s[0] || |w| > 1)
  {
    assert s == [s[0]];
    if s == "0" {
      hide Accepts, Lower;
      LowerZero(env, decimals, top, w);
      if AllDigits(w) && w != "" {
        assert IsDigit(w[0]);
      }
    } else {
      hide Accepts;
      LowerDigitCases(env, s[0], decimals - 1, top, w);
    }
  }

  /** Digit strings, leading zeros allowed, that are longer than `t` or not below it. */
  predicate NotBelow(t: string, x: string, decimals: nat) {
    AllDigits(x) && |t| <= |x| <= decimals && (|x| > |t| || LexLe(t, x))
  }

  predicate HighUpTo(t: string, n: int) {
    forall j :: 0 <= j < n && j < |t| ==> t[j] >= '2'
  }

  lemma {:induction false} TailExact(env: Env, t: string, decimals: nat, x: string)
    requires Canonical(t) && |t| < decimals && HighUpTo(t, |t| - 1)
    ensures Accepts(env, Lower(t, decimals, false), x) <==> NotBelow(t, x, decimals)
    decreases |t|
  {
    hide Accepts, Lower;
    if |t| == 1 {
      LowerOneDigit(env, t, decimals, false, x);
      if |x| == 1 { assert LexLe(t[1..], x[1..]); }
    } else {
      LowerCases(env, t, decimals, false, x);
      assert Canonical(t[1..]);
      if x != "" {
        TailExact(env, t[1..], decimals - 1, x[1..]);
        assert x == [x[0]] + x[1..];
      }
    }
  }

  /** What the bound should mean: numerals of at most `decimals` digits, not below `s`. */
  predicate AtLeast(s: string, decimals: nat, w: string)
    requires AllDigits(s)
  {
    Canonical(w) && |w| <= decimals && Value(s) <= Value(w)
  }

  lemma AtLeastByDigits(s: string, decimals: nat, w: string)
    requires Canonical(s)
    ensures AtLeast(s, decimals, w) <==> Canonical(w) && NotBelow(s, w, decimals)
  {
    if Canonical(w) {
      NumeralOfValue(s);
      NumeralOfValue(w);
      NumeralOrder(Value(s), Value(w));
    }
  }

  /** No digit strictly between the first and the last is a 0 or a 1. */
  predicate InteriorHigh(s: string) {
    forall j :: 0 < j < |s| - 1 ==> s[j] >= '2'
  }

  lemma LowerExact(env: Env, s: string, decimals: nat, w: string)
    requires Canonical(s) && |s| < decimals && InteriorHigh(s)
    ensures Accepts(env, Lower(s, decimals, true), w) <==> AtLeast(s, decimals, w)
  {
    hide Accepts, Lower;
    AtLeastByDigits(s, decimals, w);
    if |s| == 1 {
      LowerOneDigit(env, s, decimals, true, w);
      if |w| == 1 { assert LexLe(s[1..], w[1..]); }
    } else {
      LowerCases(env, s, decimals, true, w);
      if w != "" {
        TailExact(env, s[1..], decimals - 1, w[1..]);
        assert w == [w[0]] + w[1..];
      }
    }
  }

  /** Peeling the leading digits of the bound, while they are at least 2 after the first. */
  lemma {:induction false} LowerPeel(env: Env, s: string, decimals: nat, top: bool, j: nat, x: string)
    requires Canonical(s) && 0 < j < |s| < decimals && HighUpTo(s[1..], j - 1)
    ensures Accepts(env, Lower(s, decimals, top), s[..j] + x)
            <==> Accepts(env, Lower(Trim(s[j..]), decimals - j, false), x)
    decreases j
  {
    hide Accepts, Lower;
    var w := s[..j] + x;
    LowerCases(env, s, decimals, top, w);
    assert w[1..] == s[1..][..j - 1] + x;
    if j == 1 {
      assert s[1..][..0] + x == x;
    } else {
      assert Canonical(s[1..]);
      LowerPeel(env, s[1..], decimals - 1, false, j - 1, x);
      assert s[1..][j - 1..] == s[j..];
    }
  }

  /** A lower bound always accepts some word no longer than its own numeral. */
  lemma {:induction false} ShortWord(env: Env, s: string, decimals: nat) returns (x: string)
    requires Canonical(s) && |s| < decimals
    ensures |x| <= |s| && Accepts(env, Lower(s, decimals, false), x)
    decreases |s|
  {
    if |s| == 1 {
      x := s;
      LowerOneDigit(env, s, decimals, false, s);
    } else {
      var y := ShortWord(env, Trim(s[1..]), decimals - 1);
      x := [s[0]] + y;
      LowerCases(env, s, decimals, false, x);
      assert x[1..] == y;
    }
  }

  lemma FirstLow(s: string) returns (j: nat)
    requires !InteriorHigh(s)
    ensures 0 < j < |s| - 1 && s[j] < '2' && HighUpTo(s[1..], j - 1)
  {
    j := 1;
    while s[j] >= '2'
      invariant 0 < j < |s| - 1 && HighUpTo(s[1..], j - 1)
      invariant exists k :: j <= k < |s| - 1 && s[k] < '2'
      decreases |s| - j
    {
      j := j + 1;
    }
  }

  /** With a 0 or a 1 between the first and the last digit the grammar is wrong somewhere. */
  lemma LowerInexact(env: Env, s: string, decimals: nat, top: bool) returns (w: string)
    requires Canonical(s) && |s| + 1 < decimals && !InteriorHigh(s)
    ensures Accepts(env, Lower(s, decimals, top), w) <==> !AtLeast(s, decimals, w)
  {
    hide Accepts, Lower;
    var j := FirstLow(s);
    if s[j] == '1' {
      var x := Repeated('0', |s| - j + 1);
      w := s[..j] + x;
      LowerPeel(env, s, decimals, top, j, x);
      assert Canonical(s[j..]);
      LowerCases(env, s[j..], decimals - j, false, x);
      AtLeastByDigits(s, decimals, w);
      assert AllDigits(w);
    } else {
      var x := ShortWord(env, Trim(s[j..]), decimals - j);
      w := s[..j] + x;
      LowerPeel(env, s, decimals, top, j, x);
      AtLeastByDigits(s, decimals, w);
    }
  }

  /** A lower bound alone is exact if and only if no digit of the bound strictly between the
      first and the last is a 0 or a 1. */
  lemma LowerExactIff(env: Env, m: nat)
    requires m <= INT_MAX
    ensures Bounded(m, INT_MAX, 16, true).Some?
    ensures (forall w :: Accepts(env, Bounded(m, INT_MAX, 16, true).value, w) <==> AtLeast(Numeral(m), 16, w))
            <==> InteriorHigh(Numeral(m))
  {
    var s := Numeral(m);
    IntNumeralShort(m);
    if InteriorHigh(s) {
      forall w ensures Accepts(env, Lower(s, 16, true), w) <==> AtLeast(s, 16, w) {
        LowerExact(env, s, 16, w);
      }
    } else {
      var w := LowerInexact(env, s, 16, true);
    }
  }

  lemma IntNumeralShort(m: nat)
    requires m <= INT_MAX
    ensures |Numeral(m)| <= 10
  {
    NumeralOrder(m, INT_MAX);
    assert |Numeral(INT_MAX)| == 10 by {
      assert |Numeral(21)| == 2;
      assert |Numeral(21474)| == 5;
      assert |Numeral(21474836)| == 8;
    }
  }

  /** A minimum of 100 lets the two-digit 10 through, and one of 110 rejects 1000. */
  lemma LowerCounterexamples(env: Env)
    ensures Accepts(env, Lower("100", 16, true), "10") && !AtLeast("100", 16, "10")
    ensures !Accepts(env, Lower("110", 16, true), "1000") && AtLeast("110", 16, "1000")
  {
    hide Accepts, Lower;
    AtLeastByDigits("100", 16, "10");
    AtLeastByDigits("110", 16, "1000");
    LowerCases(env, "100", 16, true, "10");
    assert Trim("00") == "0";
    assert "100"[1..] == "00" && "10"[1..] == "0";
    LowerOneDigit(env, "0", 15, false, "0");
    assert "110"[1..] == "10" && "1000"[1..] == "000";
    LowerCases(env, "110", 16, true, "1000");
    LowerCases(env, "10", 15, false, "000");
  }

  // ----- a negative upper bound alone -----

  predicate AtMostNegative(s: string, decimals: nat, w: string)
    requires AllDigits(s)
  {
    "-" <= w && AtLeast(s, decimals, w[1..])
  }

  /** A negative upper bound alone is exact if and only if its numeral has two digits or
      more, begins with 1, and has no 0 or 1 strictly inside. */
  lemma NegativeUpperExactIff(env: Env, max: int)
    requires INT_MIN < max < 0
    ensures Bounded(INT_MIN, max, 16, true).Some?
    ensures (forall w :: Accepts(env, Bounded(INT_MIN, max, 16, true).value, w)
                         <==> AtMostNegative(Numeral(-max), 16, w))
            <==> var s := Numeral(-max); |s| > 1 && s[0] == '1' && InteriorHigh(s)
  {
    var s := Numeral(-max);
    var body := Lower(s, 16, false);
    var e := Seq(Lit("-"), Group(body));
    IntNumeralShort(-max);
    forall w ensures Accepts(env, e, w) <==> "-" <= w && Accepts(env, body, w[1..]) {
      SeqOfLit(env, "-", Group(body), w);
    }
    if |s| > 1 && s[0] == '1' && InteriorHigh(s) {
      forall w ensures Accepts(env, e, w) <==> AtMostNegative(s, 16, w) {
        if "-" <= w { LowerExact(env, s, 16, w[1..]); }
      }
    } else {
      var x := NegativeWitness(env, s);
      assert ("-" + x)[1..] == x;
      assert !(Accepts(env, e, "-" + x) <==> AtMostNegative(s, 16, "-" + x));
    }
  }

  lemma NegativeWitness(env: Env, s: string) returns (x: string)
    requires Canonical(s) && s != "0" && |s| <= 10
    requires !(|s| > 1 && s[0] == '1' && InteriorHigh(s))
    ensures Accepts(env, Lower(s, 16, false), x) <==> !AtLeast(s, 16, x)
  {
    if |s| > 1 && s[0] == '1' {
      x := LowerInexact(env, s, 16, false);
    } else {
      x := Repeated('0', |s| + 1);
      if |s| == 1 {
        assert s == [s[0]];
        LowerOneDigit(env, s, 16, false, x);
      } else {
        LowerCases(env, s, 16, false, x);
      }
    }
  }

  // ----- every pair of bounds -----

  /** How many digits a numeral has at most when one side is open. */
  const DIGITS := 16

  /** `n` is inside the bounds; the extreme ints mean "no bound". */
  predicate Inside(min: int, max: int, n: int) {
    (min != INT_MIN ==> min <= n) && (max != INT_MAX ==> n <= max)
  }

  function DigitCount(w: string): (n: nat) {
    if "-" <= w then |w| - 1 else |w|
  }

  /** The decimal texts of the numbers inside the bounds, with at most 16 digits. */
  ghost predicate InBounds(min: int, max: int, w: string) {
    exists n: int :: Inside(min, max, n) && w == ToString(n) && DigitCount(w) <= DIGITS
  }

  /** "-0" is let through where a negative minimum leaves room for both signs. */
  predicate MinusZero(min: int, max: int, w: string) {
    w == "-0" && INT_MIN < min < 0 <= max
  }

  /** Both bounds, below the extremes; a minimum alone that is negative or has no 0 or 1
      strictly inside; a maximum alone that is not negative or starts with 1, has two digits
      or more and no 0 or 1 strictly inside. */
  predicate ExactBounds(min: int, max: int)
    requires INT_MIN <= min <= INT_MAX && INT_MIN <= max <= INT_MAX
  {
    if min != INT_MIN && max != INT_MAX then min != -INT_MAX
    else if min != INT_MIN then (if min < 0 then min != -INT_MAX else InteriorHigh(Numeral(min)))
    else if max != INT_MAX then
      max >= 0 || (max != INT_MIN && var s := Numeral(-max); |s| > 1 && s[0] == '1' && InteriorHigh(s))
    else false
  }

  lemma ToStringIs(n: int, w: string)
    ensures w == ToString(n) <==>
      if n < 0 then "-" <= w && Canonical(w[1..]) && Value(w[1..]) == -n else Canonical(w) && Value(w) == n
  {
    if n < 0 {
      ValueOfNumeral(-n);
      if "-" <= w && Canonical(w[1..]) && Value(w[1..]) == -n {
        NumeralOfValue(w[1..]);
        assert w == "-" + w[1..];
      }
    } else {
      ValueOfNumeral(n);
      if Canonical(w) && Value(w) == n { NumeralOfValue(w); }
    }
  }

  lemma InBoundsIs(min: int, max: int, w: string)
    ensures InBounds(min, max, w) <==>
      if "-" <= w then |w| <= DIGITS + 1 && Canonical(w[1..]) && Value(w[1..]) > 0 && Inside(min, max, 0 - Value(w[1..]))
      else |w| <= DIGITS && Canonical(w) && Inside(min, max, Value(w))
  {
    if InBounds(min, max, w) {
      var n :| Inside(min, max, n) && w == ToString(n) && DigitCount(w) <= DIGITS;
      ToStringIs(n, w);
    }
    if "-" <= w {
      if |w| <= DIGITS + 1 && Canonical(w[1..]) && Value(w[1..]) > 0 && Inside(min, max, 0 - Value(w[1..])) {
        ToStringIs(0 - Value(w[1..]), w);
      }
    } else if |w| <= DIGITS && Canonical(w) && Inside(min, max, Value(w)) {
      ToStringIs(Value(w), w);
    }
  }

  /** A number that is not zero has a first digit that is not zero. */
  lemma PositiveFirst(w: string)
    requires AllDigits(w) && w != ""
    ensures Canonical(w) && Value(w) > 0 <==> w[0] != '0'
  {
    if Canonical(w) {
      NumeralOfValue(w);
      if w[0] == '0' { assert w == "0" && Value(w[..0]) == 0; }
    }
  }

  lemma AnyPositive(env: Env, w: string)
    ensures Accepts(env, Seq(Class('1', '9'), MoreDigits(0, DIGITS - 1)), w)
            <==> |w| <= DIGITS && Canonical(w) && Value(w) > 0
  {
    hide Accepts, MoreDigits;
    HeadThenDigits(env, '1', '9', 0, DIGITS - 1, w);
    if AllDigits(w) && w != "" {
      assert IsDigit(w[0]);
      PositiveFirst(w);
    }
  }

  /** A numeral inside int bounds is short. */
  lemma ValueShort(w: string)
    requires Canonical(w) && Value(w) <= INT_MAX
    ensures |w| <= 10
  {
    NumeralOfValue(w);
    IntNumeralShort(Value(w));
  }

  lemma NonnegativeInBounds(env: Env, min: nat, max: nat, w: string)
    requires min <= max <= INT_MAX
    ensures Accepts(env, Nonnegative(min, max), w) <==> !("-" <= w) && |w| <= DIGITS && Canonical(w) && min <= Value(w) <= max
  {
    NonnegativeExact(env, min, max, w);
    if Canonical(w) {
      assert IsDigit(w[0]);
      if Value(w) <= max { ValueShort(w); }
    }
  }

  lemma NegatedInBounds(env: Env, min: nat, max: nat, w: string)
    requires min <= max <= INT_MAX
    ensures Accepts(env, Seq(Lit("-"), Group(Nonnegative(min, max))), w)
            <==> "-" <= w && |w| <= DIGITS + 1 && Canonical(w[1..]) && min <= Value(w[1..]) <= max
  {
    hide Accepts;
    var body := Nonnegative(min, max);
    SeqOfLit(env, "-", Group(body), w);
    if "-" <= w {
      GroupSame(env, body, w[1..]);
      NonnegativeInBounds(env, min, max, w[1..]);
      if Canonical(w[1..]) { assert IsDigit(w[1..][0]); }
    }
  }

  lemma ZeroValue(w: string)
    requires Canonical(w)
    ensures Value(w) == 0 <==> w == "0"
  {
    NumeralOfValue(w);
    assert w == "0" ==> Value(w[..0]) == 0;
  }

  lemma MinusZeroIs(w: string)
    ensures "-" <= w && Canonical(w[1..]) && Value(w[1..]) == 0 <==> w == "-0"
  {
    if "-" <= w && Canonical(w[1..]) { ZeroValue(w[1..]); }
    assert "-0"[1..] == "0";
    ZeroValue("0");
    if "-" <= w && w[1..] == "0" { assert w == "-" + w[1..]; }
  }

  lemma BothExact(env: Env, min: int, max: int, w: string)
    requires -INT_MAX < min <= max < INT_MAX
    ensures Bounded(min, max, DIGITS, true).Some?
    ensures Accepts(env, Bounded(min, max, DIGITS, true).value, w) <==> InBounds(min, max, w) || MinusZero(min, max, w)
  {
    TwoSidedBody(min, max, DIGITS, true);
    TwoSidedCases(env, min, max, w);
    InBoundsIs(min, max, w);
    MinusZeroIs(w);
    hide Accepts, Nonnegative, InBounds, Bounded, TwoSided, Value, Canonical, AllDigits;
    if min < 0 {
      NegatedInBounds(env, if max < 0 then -max else 0, -min, w);
    }
    if max >= 0 {
      NonnegativeInBounds(env, if min < 0 then 0 else min, max, w);
    }
  }

  /** A negative minimum alone: all numerals, and the negated ones down to it. */
  lemma NegativeLowerExact(env: Env, min: int, w: string)
    requires -INT_MAX < min < 0
    ensures Bounded(min, INT_MAX, DIGITS, true).Some?
    ensures Accepts(env, Bounded(min, INT_MAX, DIGITS, true).value, w)
            <==> InBounds(min, INT_MAX, w) || MinusZero(min, INT_MAX, w)
  {
    InBoundsIs(min, INT_MAX, w);
    MinusZeroIs(w);
    hide Accepts, Nonnegative, InBounds, MoreDigits;
    var neg := Seq(Lit("-"), Group(Nonnegative(0, -min)));
    var positive := Seq(Class('1', '9'), MoreDigits(0, DIGITS - 1));
    assert Bounded(INT_MIN, -min, DIGITS, false) == Some(Nonnegative(0, -min));
    assert Bounded(min, INT_MAX, DIGITS, true) == Some(Alt(Alt(neg, Class('0', '0')), positive));
    AltCases(env, Alt(neg, Class('0', '0')), positive, w);
    AltCases(env, neg, Class('0', '0'), w);
    NegatedInBounds(env, 0, -min, w);
    AnyPositive(env, w);
    ZeroClass(env, w);
    if Canonical(w) {
      assert IsDigit(w[0]);
      ZeroValue(w);
    }
  }

  lemma ZeroClass(env: Env, w: string)
    ensures Accepts(env, Class('0', '0'), w) <==> w == "0"
    ensures Canonical("0") && Value("0") == 0
  {
    ZeroValue("0");
  }

  /** A maximum alone that is not negative: the numerals up to it, and all negated ones. */
  lemma NonnegativeUpperExact(env: Env, max: int, w: string)
    requires 0 <= max < INT_MAX
    ensures Bounded(INT_MIN, max, DIGITS, true).Some?
    ensures Accepts(env, Bounded(INT_MIN, max, DIGITS, true).value, w)
            <==> InBounds(INT_MIN, max, w) || MinusZero(INT_MIN, max, w)
  {
    InBoundsIs(INT_MIN, max, w);
    hide Accepts, Nonnegative, InBounds, MoreDigits;
    var positive := Seq(Class('1', '9'), MoreDigits(0, DIGITS - 1));
    assert Bounded(INT_MIN, max, DIGITS, true) == Some(Alt(Seq(Lit("-"), positive), Nonnegative(0, max)));
    AltCases(env, Seq(Lit("-"), positive), Nonnegative(0, max), w);
    NonnegativeInBounds(env, 0, max, w);
    SeqOfLit(env, "-", positive, w);
    if "-" <= w {
      AnyPositive(env, w[1..]);
    }
  }

  lemma AtLeastInBounds(m: nat, w: string)
    requires m <= INT_MAX
    ensures AtLeast(Numeral(m), DIGITS, w) <==> InBounds(m, INT_MAX, w)
  {
    InBoundsIs(m, INT_MAX, w);
    ValueOfNumeral(m);
    if Canonical(w) { assert IsDigit(w[0]); }
  }

  lemma AtMostInBounds(max: int, w: string)
    requires INT_MIN < max < 0
    ensures AtMostNegative(Numeral(-max), DIGITS, w) <==> InBounds(INT_MIN, max, w)
  {
    InBoundsIs(INT_MIN, max, w);
    ValueOfNumeral(-max);
    if Canonical(w) { assert IsDigit(w[0]); }
  }

  /** Whatever the bound, sixteen nines are let through. */
  lemma {:induction false} NinesAccepted(env: Env, s: string, decimals: nat, top: bool)
    requires Canonical(s) && |s| < decimals
    ensures Accepts(env, Lower(s, decimals, top), Repeated('9', decimals))
    decreases |s|
  {
    hide Accepts, Lower;
    var w := Repeated('9', decimals);
    if |s| == 1 {
      LowerOneDigit(env, s, decimals, top, w);
    } else {
      LowerCases(env, s, decimals, top, w);
      NinesAccepted(env, Trim(s[1..]), decimals - 1, false);
      assert w[1..] == Repeated('9', decimals - 1);
    }
  }

  lemma NinesLarge()
    ensures Value(Repeated('9', DIGITS)) > INT_MAX && Canonical(Repeated('9', DIGITS))
  {
    var w := Repeated('9', DIGITS);
    if Value(w) <= INT_MAX {
      ValueShort(w);
    }
  }

  /** A minimum of -INT_MAX turns into no maximum for the negated part, and the grammar lets
      sixteen nines behind a minus sign through. */
  lemma ExtremeMinimum(env: Env, max: int) returns (w: string)
    requires -INT_MAX <= max < INT_MAX
    ensures Bounded(-INT_MAX, max, DIGITS, true).Some?
    ensures Accepts(env, Bounded(-INT_MAX, max, DIGITS, true).value, w)
    ensures !InBounds(-INT_MAX, max, w) && !MinusZero(-INT_MAX, max, w)
  {
    var nines := Repeated('9', DIGITS);
    w := "-" + nines;
    assert w[1..] == nines && |w| > 2;
    NinesLarge();
    InBoundsIs(-INT_MAX, max, w);
    var least: nat := if max < 0 then -max else 0;
    IntNumeralShort(least);
    var body := Lower(Numeral(least), DIGITS, true);
    NinesAccepted(env, Numeral(least), DIGITS, true);
    hide Accepts, Lower, Nonnegative, InBounds;
    GroupSame(env, body, nines);
    SeqOfLit(env, "-", Group(body), w);
    assert Bounded(least, INT_MAX, DIGITS, true) == Some(body);
    if max >= 0 {
      AltCases(env, Seq(Lit("-"), Group(body)), Nonnegative(0, max), w);
    }
  }

  /** For every pair of bounds: the grammar accepts the decimal texts of the numbers inside
      them if and only if the bounds are of the kinds above. */
  lemma BoundedExactIff(env: Env, min: int, max: int)
    requires INT_MIN <= min <= INT_MAX && INT_MIN <= max <= INT_MAX
    requires min != INT_MIN && max != INT_MAX ==> min <= max
    ensures
      (var r := Bounded(min, max, DIGITS, true);
       r.Some? && forall w :: Accepts(env, r.value, w) <==> InBounds(min, max, w) || MinusZero(min, max, w))
      <==> ExactBounds(min, max)
  {
    hide Accepts, InBounds, Nonnegative, Lower;
    if min != INT_MIN && max != INT_MAX {
      if min == -INT_MAX {
        var w := ExtremeMinimum(env, max);
      } else {
        TwoSidedBody(min, max, DIGITS, true);
        forall w ensures Accepts(env, Bounded(min, max, DIGITS, true).value, w) <==> InBounds(min, max, w) || MinusZero(min, max, w) {
          BothExact(env, min, max, w);
        }
      }
    } else if min != INT_MIN {
      LowerAloneIff(env, min);
    } else if max != INT_MAX {
      UpperAloneIff(env, max);
    }
  }

  lemma LowerAloneIff(env: Env, min: int)
    requires INT_MIN < min <= INT_MAX
    ensures
      (var r := Bounded(min, INT_MAX, DIGITS, true);
       r.Some? && forall w :: Accepts(env, r.value, w) <==> InBounds(min, INT_MAX, w) || MinusZero(min, INT_MAX, w))
      <==> ExactBounds(min, INT_MAX)
  {
    hide Accepts, InBounds, Lower;
    if min == -INT_MAX {
      assert Bounded(INT_MIN, INT_MAX, DIGITS, false).None?;
    } else if min < 0 {
      assert Bounded(INT_MIN, -min, DIGITS, false).Some?;
      forall w ensures Accepts(env, Bounded(min, INT_MAX, DIGITS, true).value, w) <==> InBounds(min, INT_MAX, w) || MinusZero(min, INT_MAX, w) {
        NegativeLowerExact(env, min, w);
      }
    } else {
      forall w ensures AtLeast(Numeral(min), DIGITS, w) <==> InBounds(min, INT_MAX, w) {
        AtLeastInBounds(min, w);
      }
      LowerExactIff(env, min);
    }
  }

  lemma UpperAloneIff(env: Env, max: int)
    requires INT_MIN <= max < INT_MAX
    ensures
      (var r := Bounded(INT_MIN, max, DIGITS, true);
       r.Some? && forall w :: Accepts(env, r.value, w) <==> InBounds(INT_MIN, max, w) || MinusZero(INT_MIN, max, w))
      <==> ExactBounds(INT_MIN, max)
  {
    hide Accepts, InBounds, Lower, Nonnegative;
    if max >= 0 {
      forall w ensures Accepts(env, Bounded(INT_MIN, max, DIGITS, true).value, w) <==> InBounds(INT_MIN, max, w) || MinusZero(INT_MIN, max, w) {
        NonnegativeUpperExact(env, max, w);
      }
    } else if max > INT_MIN {
      forall w ensures AtMostNegative(Numeral(-max), DIGITS, w) <==> InBounds(INT_MIN, max, w) {
        AtMostInBounds(max, w);
      }
      NegativeUpperExactIff(env, max);
    }
  }
}
