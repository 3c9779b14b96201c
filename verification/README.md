# Outlier detection core, modelled in Dafny

This project models the statistical core of the outlier detection and
treatment tool (`statitics/outlier.py`). The user picks one numeric column of an
uploaded table. The tool then:

- flags each row with two independent classifiers:
  - a Z-score test: distance from the column mean, in sample standard
    deviations, is strictly greater than a threshold (1.5 by default);
  - Tukey's IQR fences: strictly below `Q1 - 1.5·IQR` or strictly above
    `Q3 + 1.5·IQR`, with quartiles from pandas' linear-interpolation
    quantile;
- summarises how many rows show each (Z-score flag, IQR flag) combination;
- optionally produces a cleaned table without the IQR-flagged rows.

Values are exact `real`s, not IEEE floats. Columns are `seq<real>`, flag
series are `seq<bool>`, and a table is a `seq` of opaque rows of any type `T`,
read through a `feature: T -> real` projection.

Modules, one per concept:

- `Arith`: absolute value, products and squares. The few nonlinear facts
  (sign of a product, monotonicity of squaring, comparing a quotient) are
  proved here once.
- `Columns`: the `Option` result of a statistic that pandas reports as NaN,
  sums, translation of a column by a constant, minimum and maximum.
- `Moments`: mean and sample variance (divisor N − 1, as pandas' `std`).
- `ZScore`: the Z-score classifier.
- `Sorting`: the sorted order of a column (insertion sort as the reference).
- `Quantiles`: the Hyndman–Fan definition 7 quantile that pandas uses by default.
- `Iqr`: quartiles, Tukey fences and the IQR classifier.
- `Summary`: the `value_counts` of the two flag columns.
- `Table`: attaching the flags to the rows, and the cleaning filter.

Dafny has no square root, so the Z-score test is stated on the variance. For
a deviation `d`, variance `var` and threshold `t`, a row is flagged iff
`var > 0 && (t < 0 || d² > t²·var)`. `ZScore.ExceedsIffRatio` proves this is
the ratio test `|d| / s > t` for every positive `s` with `s² = var`. When the
standard deviation is zero, or undefined because the column has fewer than
two rows, the source divides by zero or by NaN. The ratio is then NaN,
`NaN > t` is false, and no row is flagged. The model encodes that behaviour.

## Model

| member | source | states |
|---|---|---|
| Moments.Mean | statitics/outlier.py:9 | `data.mean()` of a non-empty column: the mean times the row count is the column total |
| Moments.Variance | statitics/outlier.py:9 | the square of `data.std()`, with divisor N − 1, defined from two rows on; it is never negative |
| Moments.MeanShift | statitics/outlier.py:9 | adding `c` to every value adds `c` to the column mean |
| Moments.VarianceShift | statitics/outlier.py:9 | the sample variance (square of `data.std()`) is unchanged by adding a constant to every value |
| Moments.VarianceZeroIffConstant | statitics/outlier.py:9 | on two or more rows the sample variance is zero exactly when every row holds the same value |
| ZScore.Exceeds | statitics/outlier.py:9-10 | the per-row test: a zero variance flags nothing, a negative threshold flags every deviation when the variance is positive, and a value at the mean is never flagged under a non-negative threshold |
| ZScore.ZScoreFlags | statitics/outlier.py:8-10 | one flag per row, aligned with the column; with fewer than two rows the standard deviation is NaN and no row is flagged |
| ZScore.DetectZScore | statitics/outlier.py:8-10 | the classifier with the default threshold 1.5 returns one flag per row |
| ZScore.ExceedsIffRatio | statitics/outlier.py:9-10 | the square-root-free test agrees with `abs(d) / std > threshold` for every positive standard deviation, for thresholds of either sign |
| ZScore.ZScoreFlagsStandardized | statitics/outlier.py:8-10 | with `s` the sample standard deviation, row `i` is flagged iff `abs(x[i] - mean) / s` is strictly greater than the threshold |
| ZScore.ZScoreFlagsZeroVariance | statitics/outlier.py:9-10 | a zero or undefined standard deviation flags no row, whatever the threshold |
| ZScore.ZScoreFlagsConstant | statitics/outlier.py:9-10 | a constant column gets no Z-score flag |
| ZScore.ZScoreFlagsShift | statitics/outlier.py:9 | adding the same constant to every value leaves the Z-score flags unchanged |
| ZScore.ZScoreExample | statitics/outlier.py:8-10 | on 1, 2, 3, 4, 100 the mean is 22, the variance 1902.5, and at threshold 1.5 only 100 is flagged |
| Sorting.Sort | statitics/outlier.py:14-15 | the values the quantile reads are in ascending order and as many as the rows |
| Sorting.SortPermutation | statitics/outlier.py:14-15 | the sorted values are a permutation of the column: every value keeps its multiplicity |
| Sorting.SortedPermutationUnique | statitics/outlier.py:14-15 | two ascending sequences with the same values and multiplicities are equal |
| Sorting.SortUnique | statitics/outlier.py:14-15 | every ascending permutation of the column equals `Sort`'s result, so the quantile does not depend on the sorting algorithm |
| Sorting.SortOfSorted | statitics/outlier.py:14-15 | a column already in ascending order is its own sorted order |
| Sorting.SortExtremes | statitics/outlier.py:14-16 | the first and last sorted values are the minimum and maximum of the column |
| Sorting.SortShift | statitics/outlier.py:14-17 | sorting commutes with adding a constant to every value |
| Quantiles.Quantile | statitics/outlier.py:14-15 | the quantile is undefined (NaN) exactly for the empty column |
| Quantiles.QuantileBetweenRanks | statitics/outlier.py:14-15 | in a sorted column the interpolated quantile lies between the two ranks `floor(h)` and `floor(h) + 1` it interpolates |
| Quantiles.QuantileWithinRange | statitics/outlier.py:14-16 | every quantile lies between the smallest and the largest value |
| Quantiles.QuantileMonotonic | statitics/outlier.py:14-16 | a larger probability never gives a smaller quantile |
| Quantiles.QuantileAtRank | statitics/outlier.py:14-15 | when `(n - 1) * p` is the whole number `k`, the quantile is the `k`-th smallest value, with no interpolation |
| Quantiles.QuantileShift | statitics/outlier.py:14-17 | adding a constant to every value adds it to every quantile |
| Iqr.LowerQuartile | statitics/outlier.py:14 | `quantile(0.25)` of the column; undefined (NaN) exactly when the column is empty |
| Iqr.UpperQuartile | statitics/outlier.py:15 | `quantile(0.75)` of the column; undefined (NaN) exactly when the column is empty |
| Iqr.TukeyFences | statitics/outlier.py:16-17 | the fences are `Q1 - 1.5 * (Q3 - Q1)` and `Q3 + 1.5 * (Q3 - Q1)` |
| Iqr.IqrFlags | statitics/outlier.py:13-17 | one flag per row, aligned with the column |
| Iqr.QuartileBounds | statitics/outlier.py:14-16 | `min <= Q1 <= Q3 <= max`, so the IQR is non-negative |
| Iqr.FencesEncloseBox | statitics/outlier.py:16-17 | the lower fence is at or below Q1 and the upper fence at or above Q3 |
| Iqr.IqrFlagsExactlyOutside | statitics/outlier.py:17 | a row is flagged iff its value is strictly outside the fences; values between the quartiles, and values on a fence, are never flagged |
| Iqr.UnflaggedConvex | statitics/outlier.py:17 | a value between two unflagged values is unflagged: the kept values form an interval |
| Iqr.QuartilesShift | statitics/outlier.py:14-16 | adding a constant to every value moves Q1 and Q3 by that constant |
| Iqr.IqrFlagsShift | statitics/outlier.py:13-17 | adding the same constant to every value leaves the IQR flags unchanged |
| Iqr.IqrFlagsConstant | statitics/outlier.py:13-17 | a constant column gets no IQR flag |
| Iqr.IqrExample | statitics/outlier.py:13-17 | on 1, 2, 3, 4, 100: Q1 = 2, Q3 = 4, fences [-1, 7], only 100 flagged |
| Summary.CountPair | statitics/outlier.py:38 | the number of rows showing one flag combination, never more than the row count |
| Summary.ValueCounts | statitics/outlier.py:38 | the tally holds exactly the flag combinations that occur, each with its number of rows, and its counts add up to the number of rows |
| Summary.CountPairIsCardinality | statitics/outlier.py:38 | the count of a combination equals the size of the set of rows showing it |
| Summary.CountPairPositive | statitics/outlier.py:38 | a combination has a positive count iff some row shows it |
| Summary.CountsPartitionRows | statitics/outlier.py:38 | the four combination counts add up to the number of rows |
| Summary.SummaryExample | statitics/outlier.py:38 | four rows with neither flag and one with both give counts 4 and 1 |
| Table.FeatureColumn | statitics/outlier.py:34-35 | `df[feature]`: one value per row, the selected feature of that row |
| Table.Annotate | statitics/outlier.py:34-35 | every row keeps its data and carries the Z-score flag (default threshold) and the IQR flag of its own value, row by row |
| Table.AnnotateColumns | statitics/outlier.py:34-35 | the two flag columns of the annotated table are exactly the Z-score classifier (threshold 1.5) and the IQR classifier applied to the selected column |
| Table.RemoveIqrOutliers | statitics/outlier.py:53 | the cleaned table is a subsequence of the input in original order, holds no IQR-flagged row, and has `n - #flagged` rows |
| Table.RemoveIqrOutliersKeepsUnflagged | statitics/outlier.py:53 | every unflagged row is kept as often as it occurs and no flagged row is kept |
| Table.UnflaggedSubsequenceBound | statitics/outlier.py:53 | no order-preserving selection of unflagged rows is longer than the number of unflagged rows |
| Table.RemoveIqrOutliersUnique | statitics/outlier.py:53 | the cleaned table is the only order-preserving selection with no flagged row that drops only flagged rows |
| Table.CleanedSizeMatchesSummary | statitics/outlier.py:53 | the cleaned table has as many rows as the summary counts for (false, false) and (true, false) |
| Table.CleanedAnnotatedSize | statitics/outlier.py:53 | cleaning the table the tool annotates keeps as many rows as its summary counts for (false, false) and (true, false) |
| Table.AnnotateExample | statitics/outlier.py:34-35 | on the table 1, 2, 3, 4, 100 both flags are set only on the row holding 100 |
| Table.PipelineExample | statitics/outlier.py:53 | on that table the summary counts 4 rows with no flag and 1 with both, and cleaning keeps the first four rows |
| Table.CleanExample | statitics/outlier.py:53 | cleaning the annotated example drops its last, flagged, row |

## Left out

- Streamlit UI (title, uploader, preview, select box, checkbox, download button): host I/O. The checkbox decides whether cleaning runs. `RemoveIqrOutliers` models what runs when it is ticked.
- CSV parsing (`read_csv`) and CSV export (`to_csv`): foreign library calls. Rows are an opaque type `T`. A cleaned row keeps its data and both flags, the columns the export writes.
- Numeric-column detection (`select_dtypes`) and the "no numeric columns" message: these depend on pandas' dtype inference. The model takes the selected column as a `feature` projection.
- Boxplot and histogram: rendering only.
- IEEE-754 rounding, infinities, and pandas' skipping of missing values: columns are total and exact. The one NaN case the core meets, a zero or undefined standard deviation, is encoded explicitly as "no row flagged". An empty column's quartiles are `None` (NaN) and it has no flags.
- The order of the `value_counts` result (descending by count): presentation only. The model returns a map from combination to count.
- In-place mutation of the table by adding the two flag columns: `Annotate` returns new rows that carry the flags.
- Moments.Mean: requires a non-empty column. pandas returns NaN for an empty column. The mean is only consulted when the column has at least two rows.
- Quantiles.Quantile: requires `0 <= p <= 1`. pandas raises an error outside that range, and the tool only asks for 0.25 and 0.75.
- Sorting.Sort: insertion sort stands in for pandas' sorting algorithm. By `Sorting.SortUnique`, every algorithm gives the same sorted order.
- The IQR multiplier is the constant 1.5 (`Iqr.Tukey`), as fixed in the code. It is not a parameter.
- Rows whose Z-score is undefined (zero or undefined standard deviation) are still counted in the summary. A NaN comparison yields `False`, so they fall under the `False` flag, and the four counts add up to the row count.
