/**
 The two moments the Z-score test uses: the column mean, and the sample
 variance with Bessel's correction (pandas' `std` divides by N - 1). pandas
 reports the variance of a column with fewer than two rows as NaN; here it
 is simply not defined, and callers check the row count first.
 */
module Moments {
  import opened Arith
  import opened Columns

  /** The column mean, pandas' `mean`: the total shared equally among the rows. */
  function Mean(xs: seq<real>): (r: real)
    requires |xs| > 0
    ensures r * (|xs| as real) == Sum(xs)
  {
    Sum(xs) / |xs| as real
  }

  /** Sum of squared deviations of the values from `m`. */
  function SumSqDev(xs: seq<real>, m: real): (r: real)
    ensures r >= 0.0
  {
    if |xs| == 0 then 0.0 else Square(xs[0] - m) + SumSqDev(xs[1..], m)
  }

  /** Sample variance, the square of pandas' default `std`. */
  function Variance(xs: seq<real>): (r: real)
    requires |xs| >= 2
    ensures r >= 0.0
  {
    SumSqDev(xs, Mean(xs)) / (|xs| - 1) as real
  }

  /** Adding a constant to every row moves the mean by that constant. */
  lemma MeanShift(xs: seq<real>, c: real)
    requires |xs| > 0
    ensures Mean(Shift(xs, c)) == Mean(xs) + c
  {
    SumShift(xs, c);
    var n := |xs| as real;
    assert (Sum(xs) + n * c) / n == Sum(xs) / n + c;
  }

  lemma {:induction false} SumSqDevShift(xs: seq<real>, m: real, c: real)
    ensures SumSqDev(Shift(xs, c), m + c) == SumSqDev(xs, m)
  {
    if |xs| > 0 {
      assert Shift(xs, c)[1..] == Shift(xs[1..], c);
      SumSqDevShift(xs[1..], m, c);
    }
  }

  /** The sample variance does not see a translation of the column. */
  lemma VarianceShift(xs: seq<real>, c: real)
    requires |xs| >= 2
    ensures Variance(Shift(xs, c)) == Variance(xs)
  {
    MeanShift(xs, c);
    SumSqDevShift(xs, Mean(xs), c);
  }

  /** The squared deviations sum to zero exactly when every value is `m`. */
  lemma {:induction false} SumSqDevZero(xs: seq<real>, m: real)
    ensures SumSqDev(xs, m) == 0.0 <==> forall i :: 0 <= i < |xs| ==> xs[i] == m
  {
    if |xs| > 0 {
      SumSqDevZero(xs[1..], m);
      if SumSqDev(xs, m) == 0.0 {
        assert xs[0] == m && SumSqDev(xs[1..], m) == 0.0;
        forall i | 0 <= i < |xs|
          ensures xs[i] == m
        {
          if i > 0 {
            assert xs[i] == xs[1..][i - 1];
          }
        }
      }
    }
  }

  /** On two or more rows the sample variance is zero iff the column is constant. */
  lemma VarianceZeroIffConstant(xs: seq<real>)
    requires |xs| >= 2
    ensures Variance(xs) == 0.0 <==> Constant(xs)
  {
    var m := Mean(xs);
    var n1 := (|xs| - 1) as real;
    assert Variance(xs) == 0.0 <==> SumSqDev(xs, m) == 0.0;
    SumSqDevZero(xs, m);
    if Constant(xs) {
      SumConstant(xs, xs[0]);
      assert m == xs[0];
    }
  }
}
