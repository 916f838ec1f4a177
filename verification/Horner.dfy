/** Hashes by repeated multiplication, as polynomials in the multiplier. */
module Horner {
  import opened Common

  function Power(b: nat, k: nat): (p: nat) {
    if k == 0 then 1 else b * Power(b, k - 1)
  }

  /** The first token counts most: ts[0] * b^(|ts|-1) + ... + ts[|ts|-1]. */
  function Weighted(ts: seq<Token>, b: nat): (v: int) {
    if ts == [] then 0 else ts[0] * Power(b, |ts| - 1) + Weighted(ts[1..], b)
  }

  lemma Spread(t: int, p: nat, rest: int, b: nat, last: int)
    ensures t * (b * p) + (rest * b + last) == (t * p + rest) * b + last
  {
    assert t * (b * p) == (t * p) * b;
  }

  lemma {:induction false} WeightedSnoc(ts: seq<Token>, t: Token, b: nat)
    ensures Weighted(ts + [t], b) == Weighted(ts, b) * b + t
  {
    if ts == [] {
      assert ([] + [t])[1..] == [];
      assert Power(b, 0) == 1;
    } else {
      assert (ts + [t])[1..] == ts[1..] + [t];
      WeightedSnoc(ts[1..], t, b);
      Spread(ts[0], Power(b, |ts| - 1), Weighted(ts[1..], b), b, t);
    }
  }

  /** A remainder may be taken at every step. */
  lemma RemainderStep(x: int, b: nat, t: int, word: nat)
    requires word > 0
    ensures ((x % word) * b + t) % word == (x * b + t) % word
  {
    var q := x / word;
    assert x * b + t == (x % word) * b + t + (q * b) * word by {
      assert x == q * word + x % word;
      assert (q * word) * b == (q * b) * word;
      assert (q * word + x % word) * b == (q * word) * b + (x % word) * b;
    }
    SameRemainder((x % word) * b + t, q * b, word);
  }

  lemma {:induction false} SameRemainder(x: int, k: int, word: nat)
    requires word > 0
    ensures (x + k * word) % word == x % word
  {
    assert x + k * word == (x / word + k) * word + x % word by {
      assert x == (x / word) * word + x % word;
      assert (x / word + k) * word == (x / word) * word + k * word;
    }
    UniqueRemainder(x + k * word, x / word + k, x % word, word);
  }

  lemma UniqueRemainder(x: int, q: int, r: int, word: nat)
    requires word > 0 && 0 <= r < word && x == q * word + r
    ensures x % word == r
  {
    var d := x / word - q;
    assert x == (x / word) * word + x % word;
    assert (x / word) * word - q * word == d * word;
    assert d * word == r - x % word;
    Multiple(d, word);
  }

  lemma Multiple(d: int, word: nat)
    ensures d >= 1 ==> d * word >= word
    ensures d <= -1 ==> d * word <= -1 * word
  {}
}
