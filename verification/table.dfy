/**
 The table side of the tool. Each row of the uploaded table is kept as an
 opaque value of type `T`; the numeric feature the user selected is read from
 it by `feature`. Annotating a table attaches the two outlier flags to every
 row, as the two flag columns the tool adds, and cleaning keeps the rows
 whose IQR flag is false, in their original order and with both flags still
 attached.
 */
module Table {
  import opened ZScore
  import opened Iqr
  import opened Summary

  /** A table row together with its two outlier flags. */
  datatype FlaggedRow<T> = FlaggedRow(row: T, zOutlier: bool, iqrOutlier: bool)

  /** The selected numeric column of the table. */
  function FeatureColumn<T>(rows: seq<T>, feature: T -> real): (col: seq<real>)
    ensures |col| == |rows|
    ensures forall i :: 0 <= i < |rows| ==> col[i] == feature(rows[i])
  {
    seq(|rows|, i requires 0 <= i < |rows| => feature(rows[i]))
  }

  /**
   Attaches both flags to every row: row `i` keeps its data and carries the
   Z-score flag (default threshold) and the IQR flag computed for the value
   of row `i` in the selected column.
   */
  function Annotate<T>(rows: seq<T>, feature: T -> real): (r: seq<FlaggedRow<T>>)
    ensures |r| == |rows|
    ensures forall i :: 0 <= i < |rows| ==> r[i].row == rows[i]
    ensures forall i :: 0 <= i < |rows| ==>
      r[i].zOutlier == DetectZScore(FeatureColumn(rows, feature))[i] &&
      r[i].iqrOutlier == IqrFlags(FeatureColumn(rows, feature))[i]
  {
    var col := FeatureColumn(rows, feature);
    var z, q := DetectZScore(col), IqrFlags(col);
    seq(|rows|, i requires 0 <= i < |rows| => FlaggedRow(rows[i], z[i], q[i]))
  }

  /**
   The flag columns of the annotated table are the two classifiers applied to
   the selected column: what the summary and the cleaning read are the
   classifiers' own flags.
   */
  lemma AnnotateColumns<T>(rows: seq<T>, feature: T -> real)
    ensures ZColumn(Annotate(rows, feature)) == DetectZScore(FeatureColumn(rows, feature))
    ensures IqrColumn(Annotate(rows, feature)) == IqrFlags(FeatureColumn(rows, feature))
  {
  }

  /** The Z-score flag column of an annotated table. */
  function ZColumn<T>(rows: seq<FlaggedRow<T>>): (z: seq<bool>)
    ensures |z| == |rows|
    ensures forall i :: 0 <= i < |rows| ==> z[i] == rows[i].zOutlier
  {
    seq(|rows|, i requires 0 <= i < |rows| => rows[i].zOutlier)
  }

  /** The IQR flag column of an annotated table. */
  function IqrColumn<T>(rows: seq<FlaggedRow<T>>): (q: seq<bool>)
    ensures |q| == |rows|
    ensures forall i :: 0 <= i < |rows| ==> q[i] == rows[i].iqrOutlier
  {
    seq(|rows|, i requires 0 <= i < |rows| => rows[i].iqrOutlier)
  }

  /** Number of rows whose IQR flag is set. */
  function IqrFlaggedCount<T>(rows: seq<FlaggedRow<T>>): (c: nat)
    ensures c <= |rows|
  {
    if |rows| == 0 then 0
    else (if rows[0].iqrOutlier then 1 else 0) + IqrFlaggedCount(rows[1..])
  }

  /** `a` is `b` with zero or more rows deleted, the rest in their order. */
  predicate IsSubsequence<T(==)>(a: seq<T>, b: seq<T>)
    decreases |b|
  {
    if |a| == 0 then true
    else if |b| == 0 then false
    else (a[0] == b[0] && IsSubsequence(a[1..], b[1..])) || IsSubsequence(a, b[1..])
  }

  /**
   The cleaned table: the rows whose IQR flag is false, in their original
   order. Its size is the row count minus the number of IQR-flagged rows.
   */
  function RemoveIqrOutliers<T(==)>(rows: seq<FlaggedRow<T>>): (r: seq<FlaggedRow<T>>)
    ensures IsSubsequence(r, rows)
    ensures forall k :: 0 <= k < |r| ==> !r[k].iqrOutlier
    ensures |r| == |rows| - IqrFlaggedCount(rows)
  {
    if |rows| == 0 then []
    else if rows[0].iqrOutlier then RemoveIqrOutliers(rows[1..])
    else [rows[0]] + RemoveIqrOutliers(rows[1..])
  }

  /** Every unflagged row survives cleaning as often as it occurs; no flagged row does. */
  lemma {:induction false} RemoveIqrOutliersKeepsUnflagged<T>(rows: seq<FlaggedRow<T>>)
    ensures forall x ::
      multiset(RemoveIqrOutliers(rows))[x] == if x.iqrOutlier then 0 else multiset(rows)[x]
  {
    if |rows| > 0 {
      RemoveIqrOutliersKeepsUnflagged(rows[1..]);
      assert rows == [rows[0]] + rows[1..];
    }
  }

  /** A subsequence of unflagged rows is no longer than the count of unflagged rows. */
  lemma {:induction false} UnflaggedSubsequenceBound<T>(s: seq<FlaggedRow<T>>, rows: seq<FlaggedRow<T>>)
    requires IsSubsequence(s, rows)
    requires forall k :: 0 <= k < |s| ==> !s[k].iqrOutlier
    ensures |s| <= |rows| - IqrFlaggedCount(rows)
    decreases |rows|
  {
    if |s| > 0 {
      if s[0] == rows[0] && IsSubsequence(s[1..], rows[1..]) {
        UnflaggedSubsequenceBound(s[1..], rows[1..]);
      } else {
        UnflaggedSubsequenceBound(s, rows[1..]);
      }
    }
  }

  /**
   The cleaned table is the only way to delete rows that leaves no flagged row
   and deletes no more rows than are flagged.
   */
  lemma {:induction false} RemoveIqrOutliersUnique<T>(s: seq<FlaggedRow<T>>, rows: seq<FlaggedRow<T>>)
    requires IsSubsequence(s, rows)
    requires forall k :: 0 <= k < |s| ==> !s[k].iqrOutlier
    requires |s| == |rows| - IqrFlaggedCount(rows)
    ensures s == RemoveIqrOutliers(rows)
    decreases |rows|
  {
    if |rows| > 0 {
      if rows[0].iqrOutlier {
        if |s| > 0 && s[0] == rows[0] {
          assert false;
        }
        RemoveIqrOutliersUnique(s, rows[1..]);
      } else if |s| > 0 && s[0] == rows[0] && IsSubsequence(s[1..], rows[1..]) {
        assert forall k :: 0 <= k < |s| - 1 ==> !s[1..][k].iqrOutlier;
        RemoveIqrOutliersUnique(s[1..], rows[1..]);
      } else {
        UnflaggedSubsequenceBound(s, rows[1..]);
        assert false;
      }
    }
  }

  lemma {:induction false} IqrFlaggedCountSplit<T>(rows: seq<FlaggedRow<T>>)
    ensures IqrFlaggedCount(rows) ==
      CountPair(ZColumn(rows), IqrColumn(rows), (false, true)) +
      CountPair(ZColumn(rows), IqrColumn(rows), (true, true))
  {
    if |rows| > 0 {
      var n := |rows| - 1;
      assert ZColumn(rows)[..n] == ZColumn(rows[..n]);
      assert IqrColumn(rows)[..n] == IqrColumn(rows[..n]);
      IqrFlaggedCountSplit(rows[..n]);
      IqrFlaggedCountAppend(rows[..n], rows[n]);
      assert rows[..n] + [rows[n]] == rows;
    }
  }

  lemma {:induction false} IqrFlaggedCountAppend<T>(rows: seq<FlaggedRow<T>>, x: FlaggedRow<T>)
    ensures IqrFlaggedCount(rows + [x]) == IqrFlaggedCount(rows) + (if x.iqrOutlier then 1 else 0)
  {
    if |rows| > 0 {
      assert (rows + [x])[1..] == rows[1..] + [x];
      IqrFlaggedCountAppend(rows[1..], x);
    }
  }

  /**
   The cleaned table has as many rows as the summary counts with the IQR flag
   false: the (false, false) and (true, false) combinations.
   */
  lemma CleanedSizeMatchesSummary<T>(rows: seq<FlaggedRow<T>>)
    ensures |RemoveIqrOutliers(rows)| ==
      CountPair(ZColumn(rows), IqrColumn(rows), (false, false)) +
      CountPair(ZColumn(rows), IqrColumn(rows), (true, false))
  {
    IqrFlaggedCountSplit(rows);
    CountsPartitionRows(ZColumn(rows), IqrColumn(rows));
  }

  /**
   Cleaning the annotated table keeps as many rows as the summary of the two
   classifiers counts with the IQR flag false.
   */
  lemma CleanedAnnotatedSize<T>(rows: seq<T>, feature: T -> real)
    ensures var col := FeatureColumn(rows, feature);
      |RemoveIqrOutliers(Annotate(rows, feature))| ==
        CountPair(DetectZScore(col), IqrFlags(col), (false, false)) +
        CountPair(DetectZScore(col), IqrFlags(col), (true, false))
  {
    AnnotateColumns(rows, feature);
    CleanedSizeMatchesSummary(Annotate(rows, feature));
  }

  /** On the one-column table 1, 2, 3, 4, 100 both classifiers flag only the row holding 100. */
  lemma AnnotateExample(xs: seq<real>)
    requires xs == [1.0, 2.0, 3.0, 4.0, 100.0]
    ensures Annotate(xs, (v: real) => v) ==
      [FlaggedRow(1.0, false, false), FlaggedRow(2.0, false, false), FlaggedRow(3.0, false, false),
       FlaggedRow(4.0, false, false), FlaggedRow(100.0, true, true)]
  {
    var flags := [false, false, false, false, true];
    assert FeatureColumn(xs, (v: real) => v) == xs;
    ExampleColumnFlags(xs, flags);
  }

  /** On 1, 2, 3, 4, 100 both classifiers flag the last row only. */
  lemma ExampleColumnFlags(xs: seq<real>, flags: seq<bool>)
    requires xs == [1.0, 2.0, 3.0, 4.0, 100.0]
    requires flags == [false, false, false, false, true]
    ensures DetectZScore(xs) == flags && IqrFlags(xs) == flags
  {
    ZScoreExample();
    IqrExample();
  }

  /**
   For that table the summary has four rows with neither flag and one with
   both, and cleaning keeps the first four rows.
   */
  lemma PipelineExample(xs: seq<real>)
    requires xs == [1.0, 2.0, 3.0, 4.0, 100.0]
    ensures var t := Annotate(xs, (v: real) => v);
      && CountPair(ZColumn(t), IqrColumn(t), (false, false)) == 4
      && CountPair(ZColumn(t), IqrColumn(t), (true, true)) == 1
      && RemoveIqrOutliers(t) == [FlaggedRow(1.0, false, false), FlaggedRow(2.0, false, false),
                                  FlaggedRow(3.0, false, false), FlaggedRow(4.0, false, false)]
  {
    AnnotateExample(xs);
    CleanExample();
    SummaryExample();
  }

  /** Cleaning the annotated example drops its last, flagged, row. */
  lemma CleanExample()
    ensures var t := [FlaggedRow(1.0, false, false), FlaggedRow(2.0, false, false), FlaggedRow(3.0, false, false),
                      FlaggedRow(4.0, false, false), FlaggedRow(100.0, true, true)];
      && ZColumn(t) == [false, false, false, false, true]
      && IqrColumn(t) == [false, false, false, false, true]
      && RemoveIqrOutliers(t) == t[..4]
  {
    var t := [FlaggedRow(1.0, false, false), FlaggedRow(2.0, false, false), FlaggedRow(3.0, false, false),
              FlaggedRow(4.0, false, false), FlaggedRow(100.0, true, true)];
    assert t[1..][1..][1..][1..] == [FlaggedRow(100.0, true, true)];
    assert RemoveIqrOutliers(t[1..][1..][1..][1..]) == [];
  }
}
