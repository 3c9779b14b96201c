/**
 A numeric column is the sequence of values one column of the uploaded table
 holds, one per row, as exact reals. This module holds the vocabulary every
 statistic shares: the optional result of a statistic that can be undefined,
 sums, translation of a whole column, and the extremes of a column.
 */
module Columns {

  /** The result of a statistic that pandas reports as NaN when undefined. */
  datatype Option<+T> = None | Some(value: T)

  /** Sum of the values of a column. */
  function Sum(xs: seq<real>): (r: real)
  {
    if |xs| == 0 then 0.0 else xs[0] + Sum(xs[1..])
  }

  /** The column with `c` added to every value. */
  function Shift(xs: seq<real>, c: real): (r: seq<real>)
    ensures |r| == |xs|
    ensures forall i :: 0 <= i < |xs| ==> r[i] == xs[i] + c
  {
    seq(|xs|, i requires 0 <= i < |xs| => xs[i] + c)
  }

  /** Every row of the column holds the same value. */
  predicate Constant(xs: seq<real>)
  {
    forall i, j :: 0 <= i < |xs| && 0 <= j < |xs| ==> xs[i] == xs[j]
  }

  /** Smallest value of a non-empty column. */
  function Min(xs: seq<real>): (r: real)
    requires |xs| > 0
    ensures r in xs
    ensures forall i :: 0 <= i < |xs| ==> r <= xs[i]
  {
    if |xs| == 1 then xs[0]
    else
      var m := Min(xs[1..]);
      if xs[0] <= m then xs[0] else m
  }

  /** Largest value of a non-empty column. */
  function Max(xs: seq<real>): (r: real)
    requires |xs| > 0
    ensures r in xs
    ensures forall i :: 0 <= i < |xs| ==> xs[i] <= r
  {
    if |xs| == 1 then xs[0]
    else
      var m := Max(xs[1..]);
      if xs[0] >= m then xs[0] else m
  }

  /** A value of the column that no value undercuts is its minimum. */
  lemma MinUnique(xs: seq<real>, v: real)
    requires v in xs
    requires forall i :: 0 <= i < |xs| ==> v <= xs[i]
    ensures Min(xs) == v
  {
    var m := Min(xs);
    var k :| 0 <= k < |xs| && xs[k] == m;
    assert v <= m;
  }

  /** A value of the column that no value exceeds is its maximum. */
  lemma MaxUnique(xs: seq<real>, v: real)
    requires v in xs
    requires forall i :: 0 <= i < |xs| ==> xs[i] <= v
    ensures Max(xs) == v
  {
    var m := Max(xs);
    var k :| 0 <= k < |xs| && xs[k] == m;
    assert m <= v;
  }

  /** Adding `c` to each of the `n` values adds `n * c` to the sum. */
  lemma {:induction false} SumShift(xs: seq<real>, c: real)
    ensures Sum(Shift(xs, c)) == Sum(xs) + |xs| as real * c
  {
    if |xs| > 0 {
      assert Shift(xs, c)[1..] == Shift(xs[1..], c);
      SumShift(xs[1..], c);
    }
  }

  /** A column whose values all equal `c` sums to `n * c`. */
  lemma {:induction false} SumConstant(xs: seq<real>, c: real)
    requires forall i :: 0 <= i < |xs| ==> xs[i] == c
    ensures Sum(xs) == |xs| as real * c
  {
    if |xs| > 0 {
      SumConstant(xs[1..], c);
    }
  }
}
