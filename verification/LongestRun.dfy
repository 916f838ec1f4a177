/** `common_lcs`: the longest contiguous run two token lists share, by dynamic programming over
    two rows. */
module LongestRun {
  import opened Common

  /** Some run of length n stands in both lists. */
  ghost predicate Shared(a: seq<Token>, b: seq<Token>, n: nat) {
    exists i: nat, j: nat :: SharedBefore(a, b, i, j, n)
  }

  /** The n tokens before position i of `a` are those before position j of `b`. */
  predicate SharedBefore(a: seq<Token>, b: seq<Token>, i: nat, j: nat, n: nat) {
    n <= i <= |a| && n <= j <= |b| && a[i - n..i] == b[j - n..j]
  }

  /** How far back the two lists agree before positions i and j. */
  function Back(a: seq<Token>, b: seq<Token>, i: nat, j: nat): (n: nat)
    requires i <= |a| && j <= |b|
  {
    if i == 0 || j == 0 || a[i - 1] != b[j - 1] then 0 else 1 + Back(a, b, i - 1, j - 1)
  }

  lemma {:induction false} BackIff(a: seq<Token>, b: seq<Token>, i: nat, j: nat, n: nat)
    requires i <= |a| && j <= |b|
    ensures SharedBefore(a, b, i, j, n) <==> n <= Back(a, b, i, j)
  {
    if n > 0 && i > 0 && j > 0 {
      BackIff(a, b, i - 1, j - 1, n - 1);
      if n <= i && n <= j {
        assert a[i - n..i] == a[i - n..i - 1] + [a[i - 1]];
        assert b[j - n..j] == b[j - n..j - 1] + [b[j - 1]];
        assert a[i - n..i][n - 1] == a[i - 1] && b[j - n..j][n - 1] == b[j - 1];
        assert a[i - n..i][..n - 1] == a[i - n..i - 1] && b[j - n..j][..n - 1] == b[j - n..j - 1];
      }
    }
  }

  /** `m` is the greatest of the values `Back` takes on the first rows, and on the first cells
      of the row after them. */
  ghost predicate GreatestUpTo(a: seq<Token>, b: seq<Token>, i: nat, j: nat, m: nat)
    requires i <= |a| && j <= |b|
  {
    && (exists i0: nat, j0: nat :: i0 <= |a| && j0 <= |b| && Back(a, b, i0, j0) == m)
    && (forall i0: nat, j0: nat :: i0 < i && j0 <= |b| ==> Back(a, b, i0, j0) <= m)
    && (forall j0: nat :: j0 <= j ==> Back(a, b, i, j0) <= m)
  }

  lemma GreatestIsLongest(a: seq<Token>, b: seq<Token>, m: nat)
    requires GreatestUpTo(a, b, |a|, |b|, m)
    ensures Shared(a, b, m) && forall n: nat :: Shared(a, b, n) ==> n <= m
  {
    var i: nat, j: nat :| i <= |a| && j <= |b| && Back(a, b, i, j) == m;
    BackIff(a, b, i, j, m);
    forall n: nat | Shared(a, b, n)
      ensures n <= m
    {
      var i: nat, j: nat :| SharedBefore(a, b, i, j, n);
      BackIff(a, b, i, j, n);
    }
  }

  /** The result is a length that is shared, and no longer one is. */
  method CommonLcs(a: seq<Token>, b: seq<Token>) returns (maxLength: nat)
    ensures Shared(a, b, maxLength)
    ensures forall n: nat :: Shared(a, b, n) ==> n <= maxLength
  {
    maxLength := 0;
    assert Back(a, b, 0, 0) == 0;
    if |a| == 0 || |b| == 0 {
      GreatestIsLongest(a, b, 0);
      return;
    }
    var prev := seq(|b| + 1, _ => 0);
    var curr := seq(|b| + 1, _ => 0);
    for i := 1 to |a| + 1
      invariant |prev| == |curr| == |b| + 1 && curr[0] == 0
      invariant forall j :: 0 <= j <= |b| ==> prev[j] == Back(a, b, i - 1, j)
      invariant GreatestUpTo(a, b, i - 1, |b|, maxLength)
    {
      for j := 1 to |b| + 1
        invariant |curr| == |b| + 1 && curr[0] == 0
        invariant forall k :: 0 <= k < j ==> curr[k] == Back(a, b, i, k)
        invariant GreatestUpTo(a, b, i, j - 1, maxLength)
      {
        if a[i - 1] == b[j - 1] {
          if i == 1 || j == 1 {
            curr := curr[j := 1];
          } else {
            curr := curr[j := prev[j - 1] + 1];
          }
          if curr[j] > maxLength {
            maxLength := curr[j];
          }
        } else {
          curr := curr[j := 0];
        }
        assert curr[j] == Back(a, b, i, j);
      }
      prev := curr;
    }
    GreatestIsLongest(a, b, maxLength);
  }
}
