/**
 The IQR classifier (Tukey's fences). Q1 and Q3 are the 25th and 75th
 percentiles of the column under linear interpolation, IQR = Q3 - Q1, and a
 row is flagged when its value is strictly below `Q1 - 1.5 * IQR` or
 strictly above `Q3 + 1.5 * IQR`. The multiplier is fixed at 1.5.
 */
module Iqr {
  import opened Columns
  import opened Sorting
  import opened Quantiles

  /** Tukey's multiplier for the interquartile range. */
  const Tukey: real := 1.5

  /** The closed interval of values that are not IQR outliers. */
  datatype Fences = Fences(lower: real, upper: real)
  {
    predicate Outside(v: real)
    {
      v < lower || v > upper
    }
  }

  /** Q1, the 25th percentile; undefined (NaN) only for the empty column. */
  function LowerQuartile(xs: seq<real>): (r: Option<real>)
    ensures r.None? <==> |xs| == 0
  {
    Quantile(Sort(xs), 0.25)
  }

  /** Q3, the 75th percentile; undefined (NaN) only for the empty column. */
  function UpperQuartile(xs: seq<real>): (r: Option<real>)
    ensures r.None? <==> |xs| == 0
  {
    Quantile(Sort(xs), 0.75)
  }

  /** The fences of a non-empty column. */
  function TukeyFences(xs: seq<real>): (r: Fences)
    requires |xs| > 0
    ensures var q1, q3 := LowerQuartile(xs).value, UpperQuartile(xs).value;
      r.lower == q1 - 1.5 * (q3 - q1) && r.upper == q3 + 1.5 * (q3 - q1)
  {
    var q1 := LowerQuartile(xs).value;
    var q3 := UpperQuartile(xs).value;
    var iqr := q3 - q1;
    Fences(q1 - Tukey * iqr, q3 + Tukey * iqr)
  }

  /** One flag per row: is that row outside Tukey's fences? */
  function IqrFlags(xs: seq<real>): (r: seq<bool>)
    ensures |r| == |xs|
  {
    if |xs| == 0 then []
    else
      var f := TukeyFences(xs);
      seq(|xs|, i requires 0 <= i < |xs| => f.Outside(xs[i]))
  }

  /** The quartiles lie within the range of the column, in order, so the IQR is non-negative. */
  lemma QuartileBounds(xs: seq<real>)
    requires |xs| > 0
    ensures Min(xs) <= LowerQuartile(xs).value
    ensures LowerQuartile(xs).value <= UpperQuartile(xs).value
    ensures UpperQuartile(xs).value <= Max(xs)
  {
    var s := Sort(xs);
    SortExtremes(xs);
    QuantileWithinRange(s, 0.25);
    QuantileWithinRange(s, 0.75);
    QuantileMonotonic(s, 0.25, 0.75);
  }

  /** The fences enclose the box from Q1 to Q3. */
  lemma FencesEncloseBox(xs: seq<real>)
    requires |xs| > 0
    ensures TukeyFences(xs).lower <= LowerQuartile(xs).value
    ensures UpperQuartile(xs).value <= TukeyFences(xs).upper
  {
    QuartileBounds(xs);
  }

  /**
   A row is flagged exactly when its value is strictly outside the fences;
   values between the quartiles, and values on a fence, are never flagged.
   */
  lemma IqrFlagsExactlyOutside(xs: seq<real>, i: nat)
    requires i < |xs|
    ensures IqrFlags(xs)[i] <==>
      xs[i] < TukeyFences(xs).lower || xs[i] > TukeyFences(xs).upper
    ensures LowerQuartile(xs).value <= xs[i] <= UpperQuartile(xs).value ==> !IqrFlags(xs)[i]
  {
    FencesEncloseBox(xs);
  }

  /**
   The rows left unflagged form an interval of values: a value lying between
   two unflagged values is unflagged too.
   */
  lemma UnflaggedConvex(xs: seq<real>, i: nat, j: nat, k: nat)
    requires i < |xs| && j < |xs| && k < |xs|
    requires !IqrFlags(xs)[i] && !IqrFlags(xs)[j]
    requires xs[i] <= xs[k] <= xs[j]
    ensures !IqrFlags(xs)[k]
  {
  }

  /** Adding a constant to every value moves both quartiles by that constant. */
  lemma QuartilesShift(xs: seq<real>, c: real)
    requires |xs| > 0
    ensures LowerQuartile(Shift(xs, c)).value == LowerQuartile(xs).value + c
    ensures UpperQuartile(Shift(xs, c)).value == UpperQuartile(xs).value + c
  {
    SortShift(xs, c);
    QuantileShift(Sort(xs), 0.25, c);
    QuantileShift(Sort(xs), 0.75, c);
  }

  /** Adding the same constant to every row leaves the IQR flags unchanged. */
  lemma IqrFlagsShift(xs: seq<real>, c: real)
    ensures IqrFlags(Shift(xs, c)) == IqrFlags(xs)
  {
    if |xs| > 0 {
      QuartilesShift(xs, c);
      var f, g := TukeyFences(xs), TukeyFences(Shift(xs, c));
      assert g.lower == f.lower + c && g.upper == f.upper + c;
    }
  }

  /** A constant column gets no IQR flag. */
  lemma IqrFlagsConstant(xs: seq<real>)
    requires Constant(xs)
    ensures forall i :: 0 <= i < |xs| ==> !IqrFlags(xs)[i]
  {
    if |xs| > 0 {
      var s := Sort(xs);
      SortConstant(xs);
      QuantileWithinRange(s, 0.25);
      QuantileWithinRange(s, 0.75);
      assert s[|s| - 1] == s[0];
    }
  }

  /** On the column 1, 2, 3, 4, 100 the quartiles are 2 and 4, the fences -1 and 7, and only 100 is flagged. */
  lemma IqrExample()
    ensures LowerQuartile([1.0, 2.0, 3.0, 4.0, 100.0]) == Some(2.0)
    ensures UpperQuartile([1.0, 2.0, 3.0, 4.0, 100.0]) == Some(4.0)
    ensures TukeyFences([1.0, 2.0, 3.0, 4.0, 100.0]) == Fences(-1.0, 7.0)
    ensures IqrFlags([1.0, 2.0, 3.0, 4.0, 100.0]) == [false, false, false, false, true]
  {
    var xs := [1.0, 2.0, 3.0, 4.0, 100.0];
    SortOfSorted(xs);
    QuantileAtRank(xs, 0.25, 1);
    QuantileAtRank(xs, 0.75, 3);
  }
}
