# Model evaluation metrics for binary classifiers

This project models the evaluation toolkit of a small data-science
repository and proves properties about it. The toolkit has three parts.

- **CAP curves** (`cap.py`). It builds the cumulative accuracy profile of a
  classifier, the perfect model and a random model. It also converts between
  CAP and ROC coordinates.
- **Confusion-matrix rates** (`confusion.py`). It builds the confusion matrix
  of two label vectors, unpacks its four cells as true negatives, false
  positives, false negatives and true positives, and computes precision,
  recall, specificity and the four true/false positive/negative rates.
- **Gini coefficient** (`gini-coefficient/gini.py`). It computes Kendall's
  Tau-a from pairwise differences, Somers' D as a ratio of two taus, and the
  Gini coefficient as Somers' D of the predictions against the target.

The model is written in Dafny. `cap.py` maps to two modules (the operations
and the lemmas about them), each other source file to one, and two modules
are shared.

- `Results`: the `Result` type. Python's exceptions and numpy's NaN become
  `Failure` values. Each failure carries an error naming the cause.
- `Sequences`: sums, occurrence counts, `ravel`, and the facts about them
  that the metric proofs share.
- `Cap` and `CapProperties`: the curves, the CAP/ROC transforms, and the
  lemmas about them.
- `Confusion`: the crosstab, the four-cell unpacking and the rates.
- `Gini`: pairwise differences, concordance, Tau-a, Somers' D and the Gini
  coefficient.

Numbers are unbounded integers and exact reals. The departures from numpy's
int64 and float64 arithmetic are listed below and under "## Left out".

- CAP and ROC points are integer pairs, because the un-normalised curves
  are integer arrays.
- In `Gini`, for finite floating-point inputs the sign of an IEEE
  difference is always the sign of the exact difference. So the concordance
  count, the numerator of Tau-a, is exactly what the floating-point code
  computes. Only the final division is exact here where the source rounds.
  Non-finite values and some integer types are different cases, noted under
  "## Left out".

Two docstrings in `confusion.py` disagree with the code they describe. The
model follows the code.

- The docstring of `get_true_positive_rate` (line 49) calls it the false
  positive rate.
- The docstring of `get_true_negative_rate` (line 87) says TN/(TN+TP). The
  code computes TN/(TN+FP), and that is what is modelled.

Some behaviour of the code is easy to misread.

- For the outputs `[0.9, 0.1, 0.8, 0.4, 0.2]` and labels `[1, 0, 1, 0, 0]`, the
  code ranks the labels as `1, 1, 0, 0, 0`. The classifier curve is therefore
  `[0, 1, 2, 2, 2, 2]` (`CapProperties.ClassifierCurveExample`).
- With fewer than two elements, Kendall's Tau-a divides by zero pairs and
  numpy yields NaN. The model returns `Failure(DivisionByZero)`
  (`Gini.KendallsTau`).
- The unpacking of the confusion matrix succeeds whenever the matrix has
  exactly four cells. That includes a 1×4 or 4×1 table built from
  non-binary labels, not only the 2×2 table of binary labels
  (`Confusion.BinaryOutcomeCounts`).
- Whenever the unpacking succeeds, every rate's denominator is positive.
  Each row and column of the crosstab is a value that occurs, so it holds at
  least one sample. The rates therefore never divide by zero after a
  successful unpacking. This is proved, not assumed (`Confusion.FourCells`).

## Model

| member | source | states |
|---|---|---|
| Cap.Sort | cap.py:86-91 | Sorting by (output descending, target descending) yields a ranking in that order that is a permutation of the samples. |
| Cap.RankedUnique | cap.py:89-91 | Two rankings of the same samples in that order are identical. Because the sort key uses both columns, the tie-breaking of the sort cannot change the curve. |
| Cap.RunningTotal | cap.py:94-95 | The cumulative sum with a leading 0 has one more entry than its input, and entry k is the sum of the first k values. |
| Cap.ClassifierOutput | cap.py:77-83 | "predict" selects the hard predictions. "predict_proba" selects column 1 of the probability matrix, and fails when a row lacks that column. Any other ordering method raises the invalid-method error. Each error is tied to its cause: a "predict_proba" failure is always the missing column. |
| Cap.ClassifierCumulativePositives | cap.py:64-97 | With "predict" it succeeds exactly when there is one prediction per target. With "predict_proba" it succeeds exactly when every probability row has a column 1 and there is one row per target. On success the result is the classifier curve of the selected outputs: it starts at 0, has one entry per sample plus one, and ends at the number of positives. Each failure names its cause. An unknown method is an invalid-method error. A "predict" failure is always a length mismatch. A "predict_proba" failure is a missing column when some row lacks column 1, and a length mismatch otherwise. |
| Cap.ClassifierCurve | cap.py:86-95 | The curve over the ranked targets starts at 0, has n+1 points, and ends at the total of the targets, whatever the ranking. |
| Cap.PerfectCumulativePositives | cap.py:100-115 | The perfect curve (targets sorted in descending order, then accumulated) starts at 0, has n+1 points and ends at the total of the targets. |
| Cap.SortDescending | cap.py:108-109 | The labels sorted in descending order are a permutation of the labels, of the same length. |
| Cap.RandomCurve | cap.py:26-34 | The random line of a label vector has one point per sample plus one. |
| Cap.RandomLine | cap.py:34 | `linspace(0, P, n+1)` has n+1 points, starts at 0 and, for n > 0, ends at P. |
| Cap.TransformCapToRoc | cap.py:118-129 | The ROC curve has one point per CAP point. Its content is stated by `Cap.TransformCapToRocIsMatrixProduct` and the round trips. |
| Cap.TransformRocToCap | cap.py:132-143 | The CAP curve has one point per ROC point. Its content is stated by `Cap.TransformRocToCapIsMatrixProduct` and the round trips. |
| Cap.TransformCapToRocIsMatrixProduct | cap.py:118-129 | Each ROC row is the CAP row times the transpose of [[1,-1],[0,1]]: (classified positive, true positives) maps to (false positives, true positives). |
| Cap.TransformRocToCapIsMatrixProduct | cap.py:132-143 | Each CAP row is the ROC row times the transpose of [[1,1],[0,1]]. |
| CapProperties.ClassifierCurveOfRanking | cap.py:86-95 | The classifier curve is the running total of the targets in ranking order. |
| CapProperties.ClassifierCurvePermutationInvariant | cap.py:86-95 | Presenting the same (output, target) samples in another order gives the same classifier curve. |
| CapProperties.ClassifierCurveOfBinary | cap.py:86-95 | For binary targets, point k counts the positives among the k highest-ranked samples. Each step rises by 0 or 1, and point k is at most min(k, P). |
| CapProperties.PerfectCurveOfBinary | cap.py:100-115 | For binary targets with P positives, the perfect curve at k is min(k, P), and each step rises by 0 or 1. |
| CapProperties.PerfectDominatesClassifier | cap.py:100-115 | No ranking finds more positives in its top k than the perfect model: the classifier curve lies on or below the perfect curve. |
| CapProperties.PerfectDominatesRandom | cap.py:34 | The random line lies on or below the perfect curve at every point. |
| CapProperties.RandomLineEvenlySpaced | cap.py:34 | Consecutive points of the random line are exactly P/n apart. |
| CapProperties.CapRocMatricesAreInverse | cap.py:118-143 | The two transform matrices are inverse to each other, applied to any point in either order. |
| CapProperties.CapToRocToCap | cap.py:118-143 | Converting a curve from CAP to ROC and back returns it unchanged. |
| CapProperties.RocToCapToRoc | cap.py:118-143 | Converting a curve from ROC to CAP and back returns it unchanged. |
| CapProperties.RocEndsOfClassifierCurve | cap.py:118-129 | For binary targets, the ROC image of the classifier curve starts at (0, 0) and ends at (negatives, positives). |
| CapProperties.RocOfStaircase | cap.py:118-129 | Any CAP curve that rises by 0 or 1 per sample becomes, in ROC coordinates, a staircase that moves one unit right or one unit up at each sample. |
| CapProperties.RocStepsOfClassifierCurve | cap.py:118-129 | Step k of the ROC image moves one unit up when the k-th ranked sample is a positive, and one unit right when it is a negative. |
| CapProperties.ClassifierCurveExample | cap.py:86-95 | Outputs [0.9, 0.1, 0.8, 0.4, 0.2] with targets [1, 0, 1, 0, 0] give the curve [0, 1, 2, 2, 2, 2]. |
| CapProperties.ClassifierCurveProbabilityExample | cap.py:77-95 | With "predict_proba", the positive-class column of the probabilities drives the same curve. |
| CapProperties.PerfectAndRandomExample | cap.py:100-115 | For targets [1, 0, 1, 0, 0], the perfect curve is [0, 1, 2, 2, 2, 2] and the random line ends at 2. |
| Confusion.UniqueValues | confusion.py:143 | The crosstab's row (column) labels are the values occurring in the vector, sorted strictly ascending, each once. |
| Confusion.ConfusionMatrixOf | confusion.py:133-150 | Vectors of different lengths fail. Otherwise the table has a row per true value and a column per predicted value, both sorted ascending. Cell (r, c) counts the positions where the true label is r and the predicted label is c. |
| Confusion.ConfusionRowTotals | confusion.py:143-148 | Row r of the matrix sums to the number of times r occurs among the true labels. |
| Confusion.ConfusionColumnTotals | confusion.py:143-148 | Column c of the matrix sums to the number of times c occurs among the predictions. |
| Confusion.ConfusionGrandTotal | confusion.py:143-148 | The raveled cells of the matrix sum to the number of samples. |
| Confusion.FourCells | confusion.py:122-128 | When the matrix has four cells, they are non-negative, sum to the number of samples, and make every rate's denominator positive. |
| Confusion.BinaryOutcomeCounts | confusion.py:112-130 | Unpacking fails with a length mismatch when the lengths differ. Otherwise it succeeds exactly when the matrix has four cells, and fails with an unpack mismatch when it does not. The four counts then sum to the number of samples. |
| Confusion.BinaryOutcomeCountsOfBinary | confusion.py:112-130 | For binary labels, unpacking succeeds exactly when both classes occur in both vectors, and yields the cells (0,0), (0,1), (1,0), (1,1) as TN, FP, FN, TP. |
| Confusion.Precision | confusion.py:32-45 | Precision fails exactly when unpacking fails, with the same error, and otherwise lies in [0, 1]. |
| Confusion.TruePositiveRate | confusion.py:48-61 | The true positive rate fails exactly when unpacking fails, with the same error, and otherwise lies in [0, 1]. |
| Confusion.FalsePositiveRate | confusion.py:64-77 | The false positive rate fails exactly when unpacking fails, with the same error, and otherwise lies in [0, 1]. |
| Confusion.TrueNegativeRate | confusion.py:80-93 | The true negative rate fails exactly when unpacking fails, with the same error, and otherwise lies in [0, 1]. |
| Confusion.FalseNegativeRate | confusion.py:96-109 | The false negative rate fails exactly when unpacking fails, with the same error, and otherwise lies in [0, 1]. |
| Confusion.RateComplements | confusion.py:6-109 | Recall (`get_true_positive_rate`) and the false negative rate (`get_false_negative_rate`) succeed together and sum to 1. Specificity (`get_true_negative_rate`) and the false positive rate (`get_false_positive_rate`) do the same. `Confusion.Recall` and `Confusion.Specificity` are plain aliases of the true positive and true negative rates, as in the source. |
| Confusion.BinaryMargins | confusion.py:122-128 | For binary labels, TN+FP is the number of negatives, FN+TP the number of positives, and FP+TP the number of predicted positives, all positive. |
| Confusion.PrecisionOfBinary | confusion.py:32-45 | For binary labels, precision is the share of true positives among all positive predictions. |
| Confusion.RecallOfBinary | confusion.py:6-16 | For binary labels, recall is the share of actual positives predicted positive, and the false negative rate is the share predicted negative. |
| Confusion.SpecificityOfBinary | confusion.py:19-29 | For binary labels, specificity is the share of actual negatives predicted negative, and the false positive rate is the share predicted positive. |
| Confusion.ConfusionExample | confusion.py:112-130 | Predictions [1, 1, 0, 0] against truth [1, 0, 0, 1] give one of each outcome, and precision, recall and specificity of 0.5. |
| Gini.PairwiseDifferences | gini-coefficient/gini.py:60-78 | There are exactly n(n-1)/2 pairwise differences. |
| Gini.PairwiseDifferenceAt | gini-coefficient/gini.py:70-76 | The difference stored at the position of pair i < j is s[j] - s[i]. |
| Gini.PairAt | gini-coefficient/gini.py:70-76 | Every position of the differences belongs to some pair i < j. |
| Gini.PairIndexInjective | gini-coefficient/gini.py:70-76 | No two pairs share a position, so each pair is listed exactly once. |
| Gini.PairIndexLex | gini-coefficient/gini.py:73-74 | Pairs are listed in lexicographic order: by i first, then by j. |
| Gini.Concordance | gini-coefficient/gini.py:54 | The sum of sign products lies between minus and plus the number of differences. |
| Gini.PairsAsReal | gini-coefficient/gini.py:48-49 | The source's n(n-1)/2 equals the number of listed pairs. |
| Gini.KendallsTau | gini-coefficient/gini.py:35-57 | Sequences of different lengths raise an error. Fewer than two elements divide by zero pairs. Otherwise Tau-a lies in [-1, 1]. |
| Gini.KendallsTauSymmetric | gini-coefficient/gini.py:54-55 | Tau-a does not depend on the order of its two arguments. |
| Gini.SelfTau | gini-coefficient/gini.py:54-55 | Tau-a of a sequence with itself is the share of its pairs whose values differ. |
| Gini.SelfTauExtremes | gini-coefficient/gini.py:54-55 | Tau-a of a sequence with itself is at most 1. It equals 1 exactly when no value repeats, and 0 exactly when all values are equal. |
| Gini.SelfTauOfBinary | gini-coefficient/gini.py:29-30 | For a binary target, the denominator of Somers' D is negatives × positives over the number of pairs. |
| Gini.TauBoundedBySelfTau | gini-coefficient/gini.py:29-30 | Tau-a of two sequences is bounded in size by Tau-a of the second with itself. So it is 0 when the second is constant (0/0, hence NaN rather than an infinity), and otherwise their ratio lies in [-1, 1]. |
| Gini.SomersD | gini-coefficient/gini.py:19-32 | Somers' D is defined exactly when the lengths agree and the second sequence is not constant (otherwise it divides by zero), and it then lies in [-1, 1]. |
| Gini.SomersDSelf | gini-coefficient/gini.py:19-32 | Somers' D of a non-constant sequence with itself is 1. |
| Gini.KendallsTauOfNegated | gini-coefficient/gini.py:35-57 | Negating the first sequence (reversing its ranking) negates Tau-a. |
| Gini.SomersDOfNegated | gini-coefficient/gini.py:19-32 | Negating the predictions (reversing their ranking) negates Somers' D. |
| Gini.GiniCoefficient | gini-coefficient/gini.py:4-16 | The Gini coefficient is defined exactly when the lengths agree and the target is not constant, and it lies in [-1, 1]. |
| Gini.GiniExample | gini-coefficient/gini.py:4-57 | Scores [1, 2, 3] against target [0, 0, 1] give Tau-a 2/3 and a Gini coefficient of 1. |

## Left out

- Plotting (`cap.py:45-61`) is left out because it only draws the curves.
- The normalisation of the curves to the unit square (`cap.py:37-42`) is left out. It only rescales both axes for display, and the model keeps the un-normalised integer curves.
- The fitted classifier is foreign code, so its `predict` and `predict_proba` outputs are parameters of `Cap.ClassifierCumulativePositives`.
- Floating-point rounding of the final divisions is left out: the rates, Tau-a, Somers' D and the random line are exact reals. numpy's int64 sums cannot overflow at any realistic size and are unbounded here.
- `Gini.PairwiseDifferences`: for int64 inputs, the subtraction at `gini-coefficient/gini.py:72` wraps around once the values differ by more than 2^63 - 1, which can flip a sign. The model subtracts exactly, so for signed integers it matches the source only while the values stay inside that range.
- Unsigned and bool label or score arrays are not modelled. For an unsigned dtype the subtraction at `gini-coefficient/gini.py:72` wraps even for small values: with `y_true` of dtype `uint8` equal to `[1, 0, 0]`, 0 - 1 becomes 255 with sign +1, so `gini_coefficient([3., 2., 1.], y_true)` returns -1 where `Gini.GiniCoefficient([3.0, 2.0, 1.0], [1.0, 0.0, 0.0])` is 1. For a bool array the same subtraction raises `TypeError`.
- Non-finite scores and labels (NaN and infinities) are not modelled, because the model's values are exact reals. With such an input, `gini-coefficient/gini.py:72` yields NaN (inf - inf, or NaN - x), `np.sign` keeps it, and Tau-a, Somers' D and the Gini coefficient become NaN. In `cap.py:89-91`, `sort_values` ranks a NaN classifier output last, whatever its label.
- numpy's NaN or infinity after a division by zero, with its runtime warning, is modelled as `Failure(DivisionByZero)`. Python's `ValueError` for a length mismatch is modelled as `Failure(LengthMismatch)`.
- The stability of pandas' sort is left out. `Cap.RankedUnique` shows that any order by both columns gives the same ranked targets.
- `crosstab`'s internals are left out. The model builds the same table from its definition: sorted unique values and counts of co-occurrence.
- Confusion matrices are modelled over integer labels. Labels of other types (strings, floats) order and compare the same way and are not modelled separately.
- The repository computes Tau-a only by the quadratic pairwise-difference method. No faster method exists in it to model.
- The database exercise under `sqlalchemy/` is unrelated to the metrics and is not part of this model.
- `Cap.ClassifierCurve`: the position-by-position content of the curve is stated separately, by `CapProperties.ClassifierCurveOfRanking` and `CapProperties.ClassifierCurveOfBinary`, not in the function's own contract.
