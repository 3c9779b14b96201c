/**
 The Z-score classifier. A row is flagged when the distance of its value from
 the column mean, measured in sample standard deviations, is strictly greater
 than the threshold. There is no square root over the reals here, so the test
 is stated on the variance: for a non-negative threshold `t`,
 `|d| / std > t` holds exactly when `d^2 > t^2 * var`, and for a negative
 threshold it holds for every row once `std > 0`.

 When the standard deviation is zero, or undefined because the column has
 fewer than two rows, every ratio is NaN and `NaN > t` is false: no row is
 flagged.
 */
module ZScore {
  import opened Arith
  import opened Columns
  import opened Moments

  /** The threshold used when the caller supplies none. */
  const DefaultThreshold: real := 1.5

  /**
   The standardized distance of deviation `d` exceeds `t`, given the variance.
   A zero variance flags nothing, a negative threshold flags every deviation,
   and a value at the mean is never flagged under a non-negative threshold.
   */
  predicate Exceeds(d: real, variance: real, t: real): (r: bool)
    ensures variance <= 0.0 ==> !r
    ensures variance > 0.0 && t < 0.0 ==> r
    ensures t >= 0.0 && d == 0.0 ==> !r
  {
    if variance > 0.0 then
      MulNonNegative(Square(t), variance);
      t < 0.0 || Square(d) > Mul(Square(t), variance)
    else false
  }

  /** One flag per row: is that row a Z-score outlier for threshold `t`? */
  function ZScoreFlags(xs: seq<real>, t: real): (r: seq<bool>)
    ensures |r| == |xs|
    ensures |xs| < 2 ==> forall i :: 0 <= i < |r| ==> !r[i]
  {
    if |xs| < 2 then seq(|xs|, i => false)
    else
      var m := Mean(xs);
      var v := Variance(xs);
      seq(|xs|, i requires 0 <= i < |xs| => Exceeds(xs[i] - m, v, t))
  }

  /** The Z-score classifier with the default threshold of 1.5. */
  function DetectZScore(xs: seq<real>): (r: seq<bool>)
    ensures |r| == |xs|
  {
    ZScoreFlags(xs, DefaultThreshold)
  }

  /**
   The variance-based test agrees with the ratio test `|d| / s > t` for every
   positive standard deviation `s`, whatever the sign of `t`.
   */
  lemma ExceedsIffRatio(d: real, s: real, t: real)
    requires s > 0.0
    ensures Exceeds(d, Square(s), t) <==> Abs(d) / s > t
  {
    var a := Abs(d);
    QuotientExceeds(a, s, t);
    if t >= 0.0 {
      MulNonNegative(t, s);
      SquareMonotonic(a, Mul(t, s));
      SquareOfAbs(d);
      SquareOfProduct(t, s);
    } else {
      MulNonNegative(a, s);
      assert Mul(t, s) < 0.0 by {
        MulPositive(-t, s);
        assert Mul(-t, s) == -Mul(t, s);
      }
    }
  }

  /**
   With `s` the sample standard deviation of a column of at least two rows,
   a row is flagged exactly when `|x - mean| / s` exceeds the threshold.
   */
  lemma ZScoreFlagsStandardized(xs: seq<real>, t: real, s: real)
    requires |xs| >= 2
    requires s > 0.0 && Square(s) == Variance(xs)
    ensures forall i :: 0 <= i < |xs| ==>
      (ZScoreFlags(xs, t)[i] <==> Abs(xs[i] - Mean(xs)) / s > t)
  {
    forall i | 0 <= i < |xs|
      ensures ZScoreFlags(xs, t)[i] <==> Abs(xs[i] - Mean(xs)) / s > t
    {
      ExceedsIffRatio(xs[i] - Mean(xs), s, t);
    }
  }

  /** A zero standard deviation flags nothing, for any threshold. */
  lemma ZScoreFlagsZeroVariance(xs: seq<real>, t: real)
    requires |xs| < 2 || Variance(xs) == 0.0
    ensures forall i :: 0 <= i < |xs| ==> !ZScoreFlags(xs, t)[i]
  {
  }

  /** A constant column gets no Z-score flag. */
  lemma ZScoreFlagsConstant(xs: seq<real>, t: real)
    requires Constant(xs)
    ensures forall i :: 0 <= i < |xs| ==> !ZScoreFlags(xs, t)[i]
  {
    if |xs| >= 2 {
      VarianceZeroIffConstant(xs);
    }
  }

  /** Adding the same constant to every row leaves the flags unchanged. */
  lemma ZScoreFlagsShift(xs: seq<real>, c: real, t: real)
    ensures ZScoreFlags(Shift(xs, c), t) == ZScoreFlags(xs, t)
  {
    if |xs| >= 2 {
      MeanShift(xs, c);
      VarianceShift(xs, c);
      var ys := Shift(xs, c);
      assert forall i :: 0 <= i < |xs| ==> ys[i] - Mean(ys) == xs[i] - Mean(xs);
    }
  }

  /**
   On the column 1, 2, 3, 4, 100 the mean is 22 and the sample variance
   7610 / 4; with the default threshold only 100 is flagged.
   */
  lemma ZScoreExample()
    ensures Mean([1.0, 2.0, 3.0, 4.0, 100.0]) == 22.0
    ensures Variance([1.0, 2.0, 3.0, 4.0, 100.0]) == 1902.5
    ensures DetectZScore([1.0, 2.0, 3.0, 4.0, 100.0]) == [false, false, false, false, true]
  {
    var xs := [1.0, 2.0, 3.0, 4.0, 100.0];
    assert Sum(xs) == 110.0 by {
      assert xs[1..] == [2.0, 3.0, 4.0, 100.0];
      assert xs[2..] == [3.0, 4.0, 100.0];
      assert xs[3..] == [4.0, 100.0];
      assert xs[4..] == [100.0];
    }
    assert SumSqDev(xs, 22.0) == 7610.0 by {
      assert xs[1..] == [2.0, 3.0, 4.0, 100.0];
      assert xs[2..] == [3.0, 4.0, 100.0];
      assert xs[3..] == [4.0, 100.0];
      assert xs[4..] == [100.0];
    }
  }
}
