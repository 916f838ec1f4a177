/** Decimal numerals: what `std::to_string` prints, and the order numerals inherit from
    the numbers they stand for. */
module Decimal {

  predicate IsDigit(c: char) { '0' <= c <= '9' }

  predicate AllDigits(w: string) {
    forall i :: 0 <= i < |w| ==> IsDigit(w[i])
  }

  /** Digits without a superfluous leading zero. */
  predicate Canonical(w: string) {
    AllDigits(w) && |w| > 0 && (|w| > 1 ==> w[0] != '0')
  }

  function Digit(d: nat): (c: char)
    requires d < 10
    ensures IsDigit(c) && c as int - '0' as int == d
  {
    (d + '0' as int) as char
  }

  function Numeral(n: nat): (w: string)
    ensures Canonical(w)
    ensures n > 0 ==> w[0] != '0'
  {
    if n < 10 then [Digit(n)] else Numeral(n / 10) + [Digit(n % 10)]
  }

  function ToString(n: int): (w: string) {
    if n < 0 then "-" + Numeral(-n) else Numeral(n)
  }

  /** The number a digit string stands for. */
  function Value(w: string): (n: nat)
    requires AllDigits(w)
  {
    if w == "" then 0 else 10 * Value(w[..|w| - 1]) + (w[|w| - 1] as int - '0' as int)
  }

  /** How many digits a text starts with. */
  function LeadingDigits(src: string): (n: nat)
    ensures n <= |src| && (n < |src| ==> !IsDigit(src[n])) && forall i :: 0 <= i < n ==> IsDigit(src[i])
  {
    if src == "" || !IsDigit(src[0]) then 0 else 1 + LeadingDigits(src[1..])
  }

  lemma {:induction false} LeadingIs(src: string, n: nat)
    requires n <= |src| && (n < |src| ==> !IsDigit(src[n])) && forall i :: 0 <= i < n ==> IsDigit(src[i])
    ensures LeadingDigits(src) == n
  {
    if n > 0 {
      LeadingIs(src[1..], n - 1);
    }
  }

  /** These digits, and what follows. */
  function ReadDigits(src: string): (r: (string, string))
    ensures r.0 + r.1 == src && AllDigits(r.0)
  {
    (src[..LeadingDigits(src)], src[LeadingDigits(src)..])
  }

  function Repeated(c: char, n: nat): (w: string)
    ensures |w| == n && forall i :: 0 <= i < n ==> w[i] == c
  {
    seq(n, _ => c)
  }

  /** Digit strings of one length, in dictionary order. */
  predicate LexLe(a: string, b: string)
    requires |a| == |b|
  {
    a == "" || a[0] < b[0] || (a[0] == b[0] && LexLe(a[1..], b[1..]))
  }

  /** Shorter first, then dictionary order. */
  predicate ShortLexLe(a: string, b: string) {
    |a| < |b| || (|a| == |b| && LexLe(a, b))
  }

  lemma NumeralStep(n: nat, d: nat)
    requires n > 0 && d < 10
    ensures Numeral(10 * n + d) == Numeral(n) + [Digit(d)]
  {
    assert (10 * n + d) / 10 == n && (10 * n + d) % 10 == d;
  }

  lemma {:induction false} NumeralOfValue(w: string)
    requires Canonical(w)
    ensures Numeral(Value(w)) == w
    ensures w != "0" ==> Value(w) > 0
  {
    var last := |w| - 1;
    var front, d := w[..last], w[last] as int - '0' as int;
    assert w == front + [Digit(d)];
    if last > 0 {
      NumeralOfValue(front);
      NumeralStep(Value(front), d);
      assert front[0] == w[0];
    } else {
      assert front == "" && Value(front) == 0;
    }
  }

  lemma {:induction false} ValueOfNumeral(n: nat)
    ensures Value(Numeral(n)) == n
  {
    var w := Numeral(n);
    if n >= 10 {
      assert w[..|w| - 1] == Numeral(n / 10);
      ValueOfNumeral(n / 10);
    } else {
      assert w[..0] == "";
    }
  }

  lemma {:induction false} LexReflexive(a: string)
    ensures LexLe(a, a)
  {
    if a != "" { LexReflexive(a[1..]); }
  }

  lemma {:induction false} LexLastDigit(a: string, x: char, b: string, y: char)
    requires |a| == |b|
    ensures LexLe(a + [x], b + [y]) <==> if a == b then x <= y else LexLe(a, b)
  {
    if a != "" {
      assert (a + [x])[1..] == a[1..] + [x];
      assert (b + [y])[1..] == b[1..] + [y];
      LexLastDigit(a[1..], x, b[1..], y);
      if a[0] == b[0] {
        assert a == [a[0]] + a[1..] && b == [b[0]] + b[1..];
      }
    } else {
      assert a + [x] == [x] && b + [y] == [y];
    }
  }

  lemma {:induction false} LexAntisymmetric(a: string, b: string)
    requires |a| == |b| && LexLe(a, b) && LexLe(b, a)
    ensures a == b
  {
    if a != "" {
      LexAntisymmetric(a[1..], b[1..]);
      assert a == [a[0]] + a[1..] && b == [b[0]] + b[1..];
    }
  }

  /** Numbers and their numerals are ordered alike. */
  lemma {:induction false} NumeralOrder(m: nat, n: nat)
    ensures m <= n <==> ShortLexLe(Numeral(m), Numeral(n))
    decreases m + n
  {
    if m < 10 && n < 10 {
      var a, b := Numeral(m), Numeral(n);
      assert LexLe(a, b) <==> a[0] < b[0] || (a[0] == b[0] && LexLe(a[1..], b[1..]));
    } else if m >= 10 && n >= 10 {
      NumeralOrder(m / 10, n / 10);
      NumeralInjective(m / 10, n / 10);
      if |Numeral(m)| == |Numeral(n)| {
        LexLastDigit(Numeral(m / 10), Digit(m % 10), Numeral(n / 10), Digit(n % 10));
      }
    }
  }

  lemma NumeralInjective(m: nat, n: nat)
    ensures Numeral(m) == Numeral(n) <==> m == n
  {
    ValueOfNumeral(m);
    ValueOfNumeral(n);
  }

  /** Reading digits back and printing the number can only drop leading zeros. */
  lemma {:induction false} NumeralNoLonger(w: string)
    requires AllDigits(w) && w != ""
    ensures |Numeral(Value(w))| <= |w|
    ensures w[0] == '0' && |w| > 1 ==> |Numeral(Value(w))| < |w|
  {
    var last := |w| - 1;
    var front, d := w[..last], w[last] as int - '0' as int;
    if last == 0 {
      assert front == "" && Value(front) == 0;
    } else {
      NumeralNoLonger(front);
      if Value(front) > 0 {
        NumeralStep(Value(front), d);
        assert last == 1 ==> front[..0] == "";
      }
    }
  }
}
