/**
 The quantile estimator pandas uses by default, linear interpolation between
 closest ranks (definition 7 of Hyndman and Fan). For a sorted column `s` of
 `n` values and a probability `p`, the position is `h = (n - 1) * p`; with
 `j` its integer part and `g` its fractional part, the quantile is
 `s[j] + g * (s[j + 1] - s[j])`, or `s[j]` when `j` is the last rank.
 The quantile of an empty column is NaN in pandas and `None` here.
 */
module Quantiles {
  import opened Arith
  import opened Columns
  import opened Sorting

  /** The fractional rank `(n - 1) * p` lies between the first and the last rank. */
  lemma PositionInRange(n: nat, p: real)
    requires n > 0 && 0.0 <= p <= 1.0
    ensures 0.0 <= Mul((n - 1) as real, p) <= (n - 1) as real
  {
    MulNonNegative((n - 1) as real, p);
    MulNonNegative((n - 1) as real, 1.0 - p);
    assert Mul((n - 1) as real, 1.0 - p) == (n - 1) as real - Mul((n - 1) as real, p);
  }

  /** A fraction `g` of a non-negative gap `d` is between zero and the whole gap. */
  lemma FractionOfGap(g: real, d: real)
    requires 0.0 <= g <= 1.0 && d >= 0.0
    ensures 0.0 <= Mul(g, d) <= d
  {
    MulNonNegative(g, d);
    MulNonNegative(1.0 - g, d);
    assert Mul(1.0 - g, d) == d - Mul(g, d);
  }

  /** The integer rank below position `p` in a column of `n` values. */
  function Rank(n: nat, p: real): (j: nat)
    requires n > 0 && 0.0 <= p <= 1.0
    ensures j < n
    ensures j as real <= Mul((n - 1) as real, p) < j as real + 1.0
  {
    PositionInRange(n, p);
    Mul((n - 1) as real, p).Floor
  }

  /** Linear-interpolation quantile of the sorted column `s` at probability `p`. */
  function Quantile(s: seq<real>, p: real): (r: Option<real>)
    requires 0.0 <= p <= 1.0
    ensures r.None? <==> |s| == 0
  {
    if |s| == 0 then None
    else
      var j := Rank(|s|, p);
      var g := Mul((|s| - 1) as real, p) - j as real;
      if j + 1 < |s| then Some(s[j] + Mul(g, s[j + 1] - s[j])) else Some(s[j])
  }

  /** In a sorted column the quantile lies between the two ranks it interpolates. */
  lemma QuantileBetweenRanks(s: seq<real>, p: real)
    requires Sorted(s) && |s| > 0 && 0.0 <= p <= 1.0
    ensures s[Rank(|s|, p)] <= Quantile(s, p).value
    ensures Rank(|s|, p) + 1 < |s| ==> Quantile(s, p).value <= s[Rank(|s|, p) + 1]
  {
    var j := Rank(|s|, p);
    if j + 1 < |s| {
      FractionOfGap(Mul((|s| - 1) as real, p) - j as real, s[j + 1] - s[j]);
    }
  }

  /** In a sorted column every quantile lies between the smallest and largest value. */
  lemma QuantileWithinRange(s: seq<real>, p: real)
    requires Sorted(s) && |s| > 0 && 0.0 <= p <= 1.0
    ensures s[0] <= Quantile(s, p).value <= s[|s| - 1]
  {
    var j := Rank(|s|, p);
    QuantileBetweenRanks(s, p);
    if 0 < j {
      assert s[0] <= s[j];
    }
    if j + 2 < |s| {
      assert s[j + 1] <= s[|s| - 1];
    }
  }

  /** A larger probability never gives a smaller quantile. */
  lemma QuantileMonotonic(s: seq<real>, p1: real, p2: real)
    requires Sorted(s) && |s| > 0
    requires 0.0 <= p1 <= p2 <= 1.0
    ensures Quantile(s, p1).value <= Quantile(s, p2).value
  {
    var n := |s|;
    var h1, h2 := Mul((n - 1) as real, p1), Mul((n - 1) as real, p2);
    MulNonNegative((n - 1) as real, p2 - p1);
    assert Mul((n - 1) as real, p2 - p1) == h2 - h1;
    var j1, j2 := Rank(n, p1), Rank(n, p2);
    QuantileBetweenRanks(s, p1);
    QuantileBetweenRanks(s, p2);
    if j1 == j2 {
      if j1 + 1 < n {
        var d := s[j1 + 1] - s[j1];
        var g1, g2 := h1 - j1 as real, h2 - j2 as real;
        MulNonNegative(g2 - g1, d);
        assert Mul(g2 - g1, d) == Mul(g2, d) - Mul(g1, d);
      }
    } else {
      assert j1 < j2;
      if j1 + 1 < j2 {
        assert s[j1 + 1] <= s[j2];
      }
    }
  }

  /** At a probability that lands exactly on rank `k`, the quantile is the `k`-th smallest value. */
  lemma QuantileAtRank(s: seq<real>, p: real, k: nat)
    requires |s| > 0 && 0.0 <= p <= 1.0 && k < |s|
    requires Mul((|s| - 1) as real, p) == k as real
    ensures Quantile(s, p) == Some(s[k])
  {
    assert Rank(|s|, p) == k;
    if k + 1 < |s| {
      assert Mul(0.0, s[k + 1] - s[k]) == 0.0;
    }
  }

  /** Adding a constant to every value adds it to every quantile. */
  lemma QuantileShift(s: seq<real>, p: real, c: real)
    requires |s| > 0 && 0.0 <= p <= 1.0
    ensures Quantile(Shift(s, c), p) == Some(Quantile(s, p).value + c)
  {
    var j := Rank(|s|, p);
    if j + 1 < |s| {
      assert Shift(s, c)[j + 1] - Shift(s, c)[j] == s[j + 1] - s[j];
    }
  }
}
