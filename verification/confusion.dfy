/** The confusion matrix of a classifier (`get_confusion_matrix`, built with
    scipy's `crosstab`), its four binary outcome counts
    (`get_binary_outcome_counts`) and the rates derived from them.

    Rows of the matrix are the distinct true classes, columns the distinct
    predicted classes, both in increasing order; cell (r, c) counts the
    samples whose true class is r and whose prediction is c. The counts are
    unpacked from the raveled matrix, which succeeds only when it has exactly
    four cells. */
module Confusion {
  import opened Results
  import opened Sequences

  /** Each element is smaller than the next. */
  predicate StrictlyIncreasing(s: seq<int>)
  {
    forall i, j :: 0 <= i < j < |s| ==> s[i] < s[j]
  }

  lemma StrictlyIncreasingIsDistinct(s: seq<int>)
    requires StrictlyIncreasing(s)
    ensures Distinct(s)
  {
  }

  /** A strictly increasing sequence of values between lo and hi has at most
      hi - lo + 1 elements. */
  lemma {:induction false} StrictlyIncreasingBounded(s: seq<int>, lo: int, hi: int)
    requires StrictlyIncreasing(s) && lo <= hi + 1
    requires forall k :: 0 <= k < |s| ==> lo <= s[k] <= hi
    ensures |s| <= hi - lo + 1
    decreases |s|
  {
    if |s| > 0 {
      StrictlyIncreasingBounded(s[1..], s[0] + 1, hi);
    }
  }

  /** Adds `x` to a strictly increasing sequence unless it is already there. */
  function InsertUnique(x: int, s: seq<int>): (r: seq<int>)
    requires StrictlyIncreasing(s)
    ensures StrictlyIncreasing(r)
    ensures forall y :: y in r <==> y == x || y in s
  {
    if |s| == 0 then [x]
    else if x < s[0] then
      assert forall k :: 0 <= k < |s| ==> x < s[k];
      PrependIncreasing(x, s);
      [x] + s
    else if x == s[0] then s
    else
      assert s == [s[0]] + s[1..];
      var rest := InsertUnique(x, s[1..]);
      assert forall k :: 0 <= k < |rest| ==> rest[k] in rest;
      PrependIncreasing(s[0], rest);
      [s[0]] + rest
  }

  /** A value below every element extends a strictly increasing sequence. */
  lemma PrependIncreasing(x: int, s: seq<int>)
    requires StrictlyIncreasing(s)
    requires forall k :: 0 <= k < |s| ==> x < s[k]
    ensures StrictlyIncreasing([x] + s)
  {
    forall i, j | 0 <= i < j < |s| + 1
      ensures ([x] + s)[i] < ([x] + s)[j]
    {
      assert ([x] + s)[j] == s[j - 1];
      if i > 0 {
        assert ([x] + s)[i] == s[i - 1];
      }
    }
  }

  /** The distinct values of `s` in increasing order (the labels `crosstab`
      gives its rows and columns). */
  function UniqueValues(s: seq<int>): (r: seq<int>)
    ensures StrictlyIncreasing(r)
    ensures forall y :: y in r <==> y in s
  {
    if |s| == 0 then []
    else
      assert s == s[..|s| - 1] + [s[|s| - 1]];
      InsertUnique(s[|s| - 1], UniqueValues(s[..|s| - 1]))
  }

  /** A strictly increasing sequence is determined by its set of values, so
      `UniqueValues` is the only sorted, duplicate-free listing of them. */
  lemma {:induction false} StrictlyIncreasingUnique(a: seq<int>, b: seq<int>)
    requires StrictlyIncreasing(a) && StrictlyIncreasing(b)
    requires forall y :: y in a <==> y in b
    ensures a == b
    decreases |a|
  {
    if |a| > 0 {
      assert a[0] in a;
    }
    if |b| > 0 {
      assert b[0] in b;
    }
    if |a| > 0 && |b| > 0 {
      assert a[0] == b[0];
      forall y
        ensures y in a[1..] <==> y in b[1..]
      {
        if y in a[1..] {
          assert y in b;
          assert y != b[0];
        }
        if y in b[1..] {
          assert y in a;
          assert y != a[0];
        }
      }
      StrictlyIncreasingUnique(a[1..], b[1..]);
      assert a == [a[0]] + a[1..];
      assert b == [b[0]] + b[1..];
    }
  }

  /** The `values` at the positions where `keys` holds `key`, in sample
      order: with keys the true classes and values the predictions, the
      predictions made for the samples of one true class. */
  function Matching(keys: seq<int>, values: seq<int>, key: int): (m: seq<int>)
    requires |keys| == |values|
    ensures |m| == Count(keys, key)
    ensures forall x :: x in m ==> x in values
  {
    if |keys| == 0 then []
    else
      var n := |keys| - 1;
      assert values == values[..n] + [values[n]];
      Matching(keys[..n], values[..n], key) + (if keys[n] == key then [values[n]] else [])
  }

  /** Number of samples whose true class is `r` and whose prediction is `c`. */
  function Cell(yTrue: seq<int>, yPred: seq<int>, r: int, c: int): (count: nat)
    requires |yTrue| == |yPred|
  {
    Count(Matching(yTrue, yPred, r), c)
  }

  /** A cell can be counted from either side: among the samples of true
      class r, those predicted c; or among the samples predicted c, those of
      true class r. */
  lemma {:induction false} CellSymmetric(yTrue: seq<int>, yPred: seq<int>, r: int, c: int)
    requires |yTrue| == |yPred|
    ensures Cell(yTrue, yPred, r, c) == Count(Matching(yPred, yTrue, c), r)
    decreases |yTrue|
  {
    if |yTrue| > 0 {
      var n := |yTrue| - 1;
      var byTrue: seq<int> := if yTrue[n] == r then [yPred[n]] else [];
      var byPred: seq<int> := if yPred[n] == c then [yTrue[n]] else [];
      assert Matching(yTrue, yPred, r) == Matching(yTrue[..n], yPred[..n], r) + byTrue;
      assert Matching(yPred, yTrue, c) == Matching(yPred[..n], yTrue[..n], c) + byPred;
      CellSymmetric(yTrue[..n], yPred[..n], r, c);
      CountConcat(Matching(yTrue[..n], yPred[..n], r), byTrue, c);
      CountConcat(Matching(yPred[..n], yTrue[..n], c), byPred, r);
      assert [yPred[n]][..0] == [] && [yTrue[n]][..0] == [];
      assert Count(byTrue, c) == Count(byPred, r);
    }
  }

  /** A labelled table of counts: one row per true class, one column per
      predicted class. */
  datatype ConfusionMatrix = ConfusionMatrix(trueValues: seq<int>, predictedValues: seq<int>, counts: seq<seq<int>>)
  {
    /** One row per true class, each with one cell per predicted class. */
    predicate Rectangular()
    {
      |counts| == |trueValues| && forall i :: 0 <= i < |counts| ==> |counts[i]| == |predictedValues|
    }

    /** The cells of column `j`, top to bottom. */
    function Column(j: nat): (col: seq<int>)
      requires Rectangular() && j < |predictedValues|
      ensures |col| == |trueValues|
    {
      seq(|counts|, i requires 0 <= i < |counts| => counts[i][j])
    }
  }

  /** `get_confusion_matrix(y_pred, y_true)`. */
  function ConfusionMatrixOf(yPred: seq<int>, yTrue: seq<int>): (r: Result<ConfusionMatrix>)
    ensures r.Success? <==> |yPred| == |yTrue|
    ensures r.Failure? ==> r.error == LengthMismatch
    ensures r.Success? ==>
              && r.value.Rectangular()
              && StrictlyIncreasing(r.value.trueValues)
              && StrictlyIncreasing(r.value.predictedValues)
              && (forall v :: v in r.value.trueValues <==> v in yTrue)
              && (forall v :: v in r.value.predictedValues <==> v in yPred)
    ensures r.Success? ==>
              forall i, j :: 0 <= i < |r.value.trueValues| && 0 <= j < |r.value.predictedValues| ==>
                r.value.counts[i][j] == Cell(yTrue, yPred, r.value.trueValues[i], r.value.predictedValues[j])
  {
    if |yPred| != |yTrue| then Failure(LengthMismatch)
    else
      var rows := UniqueValues(yTrue);
      var cols := UniqueValues(yPred);
      Success(ConfusionMatrix(rows, cols,
        seq(|rows|, i requires 0 <= i < |rows| =>
          seq(|cols|, j requires 0 <= j < |cols| => Cell(yTrue, yPred, rows[i], cols[j])))))
  }

  /** Row totals: row r of the matrix adds up to the number of samples whose
      true class is r. */
  lemma ConfusionRowTotals(yPred: seq<int>, yTrue: seq<int>)
    requires |yPred| == |yTrue|
    ensures var m := ConfusionMatrixOf(yPred, yTrue).value;
            forall i :: 0 <= i < |m.trueValues| ==> Sum(m.counts[i]) == Count(yTrue, m.trueValues[i])
  {
    var m := ConfusionMatrixOf(yPred, yTrue).value;
    StrictlyIncreasingIsDistinct(m.predictedValues);
    forall i | 0 <= i < |m.trueValues|
      ensures Sum(m.counts[i]) == Count(yTrue, m.trueValues[i])
    {
      var selected := Matching(yTrue, yPred, m.trueValues[i]);
      assert m.counts[i] == CountsOf(selected, m.predictedValues);
      forall k | 0 <= k < |selected|
        ensures selected[k] in m.predictedValues
      {
        assert selected[k] in yPred;
      }
      SumCountsOfCover(selected, m.predictedValues);
    }
  }

  /** Column totals: column c of the matrix adds up to the number of samples
      predicted c. */
  lemma ConfusionColumnTotals(yPred: seq<int>, yTrue: seq<int>)
    requires |yPred| == |yTrue|
    ensures var m := ConfusionMatrixOf(yPred, yTrue).value;
            forall j :: 0 <= j < |m.predictedValues| ==> Sum(m.Column(j)) == Count(yPred, m.predictedValues[j])
  {
    var m := ConfusionMatrixOf(yPred, yTrue).value;
    StrictlyIncreasingIsDistinct(m.trueValues);
    forall j | 0 <= j < |m.predictedValues|
      ensures Sum(m.Column(j)) == Count(yPred, m.predictedValues[j])
    {
      var selected := Matching(yPred, yTrue, m.predictedValues[j]);
      forall i | 0 <= i < |m.trueValues|
        ensures m.Column(j)[i] == CountsOf(selected, m.trueValues)[i]
      {
        CellSymmetric(yTrue, yPred, m.trueValues[i], m.predictedValues[j]);
      }
      assert m.Column(j) == CountsOf(selected, m.trueValues);
      forall k | 0 <= k < |selected|
        ensures selected[k] in m.trueValues
      {
        assert selected[k] in yTrue;
      }
      SumCountsOfCover(selected, m.trueValues);
    }
  }

  /** Every sample is counted in exactly one cell. */
  lemma ConfusionGrandTotal(yPred: seq<int>, yTrue: seq<int>)
    requires |yPred| == |yTrue|
    ensures Sum(Ravel(ConfusionMatrixOf(yPred, yTrue).value.counts)) == |yTrue|
  {
    var m := ConfusionMatrixOf(yPred, yTrue).value;
    ConfusionRowTotals(yPred, yTrue);
    SumRavel(m.counts);
    forall i | 0 <= i < |m.trueValues|
      ensures RowTotals(m.counts)[i] == CountsOf(yTrue, m.trueValues)[i]
    {
    }
    assert RowTotals(m.counts) == CountsOf(yTrue, m.trueValues);
    StrictlyIncreasingIsDistinct(m.trueValues);
    SumCountsOfCover(yTrue, m.trueValues);
  }

  /** A product of two naturals equal to four has one of three shapes. */
  lemma FactorsOfFour(a: nat, b: nat)
    requires a * b == 4
    ensures (a == 1 && b == 4) || (a == 2 && b == 2) || (a == 4 && b == 1)
  {
  }

  /** Every row and every column of the matrix holds at least one sample. */
  lemma MarginsPositive(yPred: seq<int>, yTrue: seq<int>)
    requires |yPred| == |yTrue|
    ensures var m := ConfusionMatrixOf(yPred, yTrue).value;
            && (forall i :: 0 <= i < |m.trueValues| ==> Sum(m.counts[i]) > 0)
            && (forall j :: 0 <= j < |m.predictedValues| ==> Sum(m.Column(j)) > 0)
  {
    var m := ConfusionMatrixOf(yPred, yTrue).value;
    ConfusionRowTotals(yPred, yTrue);
    ConfusionColumnTotals(yPred, yTrue);
    forall i | 0 <= i < |m.trueValues|
      ensures Count(yTrue, m.trueValues[i]) > 0
    {
      assert m.trueValues[i] in m.trueValues;
      CountZeroIffAbsent(yTrue, m.trueValues[i]);
    }
    forall j | 0 <= j < |m.predictedValues|
      ensures Count(yPred, m.predictedValues[j]) > 0
    {
      assert m.predictedValues[j] in m.predictedValues;
      CountZeroIffAbsent(yPred, m.predictedValues[j]);
    }
  }

  /** The raveled cells of a table with four cells, by shape. */
  lemma RavelOfFourCells(m: ConfusionMatrix)
    requires m.Rectangular() && |m.trueValues| * |m.predictedValues| == 4
    ensures |m.trueValues| == 1 ==> Ravel(m.counts) == m.counts[0]
    ensures |m.trueValues| == 2 ==> Ravel(m.counts) == m.counts[0] + m.counts[1]
    ensures |m.trueValues| == 4 ==> Ravel(m.counts) == [m.counts[0][0], m.counts[1][0], m.counts[2][0], m.counts[3][0]]
  {
    var rows := |m.trueValues|;
    FactorsOfFour(rows, |m.predictedValues|);
    var c := m.counts;
    assert Ravel(c[rows..]) == [];
    assert Ravel(c[rows - 1..]) == c[rows - 1] by {
      assert c[rows - 1..][1..] == c[rows..];
    }
    if rows >= 2 {
      assert c[rows - 2..][1..] == c[rows - 1..];
    }
    if rows == 4 {
      assert c[1..][1..] == c[2..];
      assert Ravel(c[2..]) == c[2] + c[3];
      assert c[0..][1..] == c[1..];
      assert Ravel(c) == c[0] + c[1] + c[2] + c[3];
    }
  }

  /** Facts about the four raveled cells whenever there are four: they count
      every sample once, and the first row, the second row and the second
      column each hold a sample. A 1x4 or 4x1 table (one true class and four
      predicted ones, or the reverse) ravels to four cells too, and then
      every cell holds a sample. */
  lemma FourCells(yPred: seq<int>, yTrue: seq<int>)
    requires |yPred| == |yTrue|
    requires |Ravel(ConfusionMatrixOf(yPred, yTrue).value.counts)| == 4
    ensures var cells := Ravel(ConfusionMatrixOf(yPred, yTrue).value.counts);
            && cells[0] >= 0 && cells[1] >= 0 && cells[2] >= 0 && cells[3] >= 0
            && cells[0] + cells[1] + cells[2] + cells[3] == |yTrue|
            && cells[0] + cells[1] > 0 && cells[2] + cells[3] > 0 && cells[1] + cells[3] > 0
  {
    var m := ConfusionMatrixOf(yPred, yTrue).value;
    var rows, cols := |m.trueValues|, |m.predictedValues|;
    var cells := Ravel(m.counts);
    RavelLength(m.counts, cols);
    FactorsOfFour(rows, cols);
    RavelOfFourCells(m);
    ConfusionGrandTotal(yPred, yTrue);
    SumOfShort(cells);
    MarginsPositive(yPred, yTrue);
    if rows == 2 {
      SumOfShort(m.counts[0]);
      SumOfShort(m.counts[1]);
      SumOfShort(m.Column(1));
    } else if rows == 1 {
      SumOfShort(m.Column(0));
      SumOfShort(m.Column(1));
      SumOfShort(m.Column(2));
      SumOfShort(m.Column(3));
    } else {
      SumOfShort(m.counts[0]);
      SumOfShort(m.counts[1]);
      SumOfShort(m.counts[2]);
      SumOfShort(m.counts[3]);
    }
  }

  /** The four outcome counts of a binary classifier. */
  datatype OutcomeCounts = OutcomeCounts(trueNegatives: nat, falsePositives: nat, falseNegatives: nat, truePositives: nat)

  /** `get_binary_outcome_counts`: the raveled confusion matrix unpacked into
      (true negatives, false positives, false negatives, true positives). */
  function BinaryOutcomeCounts(yPred: seq<int>, yTrue: seq<int>): (r: Result<OutcomeCounts>)
    ensures |yPred| != |yTrue| ==> r == Failure(LengthMismatch)
    ensures |yPred| == |yTrue| ==> (r.Success? <==> |UniqueValues(yTrue)| * |UniqueValues(yPred)| == 4)
    ensures |yPred| == |yTrue| && r.Failure? ==> r.error == UnpackMismatch
    ensures r.Failure? ==> r.error in {LengthMismatch, UnpackMismatch}
    ensures r.Success? ==>
              r.value.trueNegatives + r.value.falsePositives + r.value.falseNegatives + r.value.truePositives == |yTrue|
    ensures r.Success? ==>
              && r.value.trueNegatives + r.value.falsePositives > 0
              && r.value.falseNegatives + r.value.truePositives > 0
              && r.value.truePositives + r.value.falsePositives > 0
  {
    var m :- ConfusionMatrixOf(yPred, yTrue);
    var cells := Ravel(m.counts);
    RavelLength(m.counts, |m.predictedValues|);
    assert m.trueValues == UniqueValues(yTrue) && m.predictedValues == UniqueValues(yPred);
    if |cells| != 4 then Failure(UnpackMismatch)
    else
      FourCells(yPred, yTrue);
      Success(OutcomeCounts(cells[0], cells[1], cells[2], cells[3]))
  }

  /** `part / (part + other)`, for counts with a positive total. */
  function Ratio(part: nat, other: nat): (q: real)
    requires part + other > 0
    ensures 0.0 <= q <= 1.0
  {
    var total := (part + other) as real;
    assert part as real <= total;
    part as real / total
  }

  /** The two ratios of a pair of counts are complementary. */
  lemma RatiosComplement(a: nat, b: nat)
    requires a + b > 0
    ensures Ratio(a, b) + Ratio(b, a) == 1.0
  {
  }

  /** `get_precision`: true positives over all predicted positives. */
  function Precision(yPred: seq<int>, yTrue: seq<int>): (r: Result<real>)
    ensures r.Success? <==> BinaryOutcomeCounts(yPred, yTrue).Success?
    ensures r.Failure? ==> r.error == BinaryOutcomeCounts(yPred, yTrue).error
    ensures r.Success? ==> 0.0 <= r.value <= 1.0
  {
    var c :- BinaryOutcomeCounts(yPred, yTrue);
    Success(Ratio(c.truePositives, c.falsePositives))
  }

  /** `get_true_positive_rate`: true positives over all actual positives. */
  function TruePositiveRate(yPred: seq<int>, yTrue: seq<int>): (r: Result<real>)
    ensures r.Success? <==> BinaryOutcomeCounts(yPred, yTrue).Success?
    ensures r.Failure? ==> r.error == BinaryOutcomeCounts(yPred, yTrue).error
    ensures r.Success? ==> 0.0 <= r.value <= 1.0
  {
    var c :- BinaryOutcomeCounts(yPred, yTrue);
    Success(Ratio(c.truePositives, c.falseNegatives))
  }

  /** `get_false_positive_rate`: false positives over all actual negatives. */
  function FalsePositiveRate(yPred: seq<int>, yTrue: seq<int>): (r: Result<real>)
    ensures r.Success? <==> BinaryOutcomeCounts(yPred, yTrue).Success?
    ensures r.Failure? ==> r.error == BinaryOutcomeCounts(yPred, yTrue).error
    ensures r.Success? ==> 0.0 <= r.value <= 1.0
  {
    var c :- BinaryOutcomeCounts(yPred, yTrue);
    Success(Ratio(c.falsePositives, c.trueNegatives))
  }

  /** `get_true_negative_rate`: true negatives over all actual negatives. */
  function TrueNegativeRate(yPred: seq<int>, yTrue: seq<int>): (r: Result<real>)
    ensures r.Success? <==> BinaryOutcomeCounts(yPred, yTrue).Success?
    ensures r.Failure? ==> r.error == BinaryOutcomeCounts(yPred, yTrue).error
    ensures r.Success? ==> 0.0 <= r.value <= 1.0
  {
    var c :- BinaryOutcomeCounts(yPred, yTrue);
    Success(Ratio(c.trueNegatives, c.falsePositives))
  }

  /** `get_false_negative_rate`: false negatives over all actual positives. */
  function FalseNegativeRate(yPred: seq<int>, yTrue: seq<int>): (r: Result<real>)
    ensures r.Success? <==> BinaryOutcomeCounts(yPred, yTrue).Success?
    ensures r.Failure? ==> r.error == BinaryOutcomeCounts(yPred, yTrue).error
    ensures r.Success? ==> 0.0 <= r.value <= 1.0
  {
    var c :- BinaryOutcomeCounts(yPred, yTrue);
    Success(Ratio(c.falseNegatives, c.truePositives))
  }

  /** `get_recall`: another name for the true positive rate. */
  function Recall(yPred: seq<int>, yTrue: seq<int>): (r: Result<real>)
  {
    TruePositiveRate(yPred, yTrue)
  }

  /** `get_specificity`: another name for the true negative rate. */
  function Specificity(yPred: seq<int>, yTrue: seq<int>): (r: Result<real>)
  {
    TrueNegativeRate(yPred, yTrue)
  }

  /** Missed positives and found positives share a denominator, as do false
      alarms and correct rejections: each pair of rates adds up to one. */
  lemma RateComplements(yPred: seq<int>, yTrue: seq<int>)
    ensures FalseNegativeRate(yPred, yTrue).Success? <==> Recall(yPred, yTrue).Success?
    ensures FalseNegativeRate(yPred, yTrue).Success? ==>
              FalseNegativeRate(yPred, yTrue).value + Recall(yPred, yTrue).value == 1.0
    ensures FalsePositiveRate(yPred, yTrue).Success? <==> Specificity(yPred, yTrue).Success?
    ensures FalsePositiveRate(yPred, yTrue).Success? ==>
              FalsePositiveRate(yPred, yTrue).value + Specificity(yPred, yTrue).value == 1.0
  {
    var counts := BinaryOutcomeCounts(yPred, yTrue);
    if counts.Success? {
      var c := counts.value;
      RatiosComplement(c.falseNegatives, c.truePositives);
      RatiosComplement(c.falsePositives, c.trueNegatives);
    }
  }

  /** Both binary classes occur. */
  predicate BothClasses(s: seq<int>)
  {
    0 in s && 1 in s
  }

  /** The distinct values of a binary vector: at most two, and exactly
      [0, 1] when both classes occur. */
  lemma UniqueValuesOfBinary(s: seq<int>)
    requires IsBinary(s)
    ensures |UniqueValues(s)| <= 2
    ensures |UniqueValues(s)| == 2 <==> BothClasses(s)
    ensures BothClasses(s) ==> UniqueValues(s) == [0, 1]
  {
    var u := UniqueValues(s);
    forall k | 0 <= k < |u|
      ensures u[k] == 0 || u[k] == 1
    {
      assert u[k] in u;
    }
    StrictlyIncreasingBounded(u, 0, 1);
    if BothClasses(s) {
      assert forall y :: y in u <==> y in [0, 1];
      StrictlyIncreasingUnique(u, [0, 1]);
    }
    if |u| == 2 {
      assert u[0] == 0 && u[1] == 1;
      assert u[0] in u && u[1] in u;
    }
  }

  /** For binary vectors the unpack succeeds exactly when both classes occur
      among the true values and among the predictions, and the four counts
      are then the cells (0, 0), (0, 1), (1, 0) and (1, 1). */
  lemma BinaryOutcomeCountsOfBinary(yPred: seq<int>, yTrue: seq<int>)
    requires |yPred| == |yTrue|
    requires IsBinary(yPred) && IsBinary(yTrue)
    ensures BinaryOutcomeCounts(yPred, yTrue).Success? <==> BothClasses(yTrue) && BothClasses(yPred)
    ensures BinaryOutcomeCounts(yPred, yTrue).Success? ==>
              BinaryOutcomeCounts(yPred, yTrue).value
              == OutcomeCounts(Cell(yTrue, yPred, 0, 0), Cell(yTrue, yPred, 0, 1),
                               Cell(yTrue, yPred, 1, 0), Cell(yTrue, yPred, 1, 1))
  {
    UniqueValuesOfBinary(yTrue);
    UniqueValuesOfBinary(yPred);
    var rows, cols := |UniqueValues(yTrue)|, |UniqueValues(yPred)|;
    if rows * cols == 4 {
      FactorsOfFour(rows, cols);
      var m := ConfusionMatrixOf(yPred, yTrue).value;
      RavelOfFourCells(m);
    }
  }

  /** For binary vectors in which both classes occur, the margins of the
      2x2 table: the negatives, the positives and the predicted positives. */
  lemma BinaryMargins(yPred: seq<int>, yTrue: seq<int>)
    requires |yPred| == |yTrue|
    requires IsBinary(yPred) && IsBinary(yTrue)
    requires BothClasses(yTrue) && BothClasses(yPred)
    ensures Cell(yTrue, yPred, 0, 0) + Cell(yTrue, yPred, 0, 1) == Count(yTrue, 0) > 0
    ensures Cell(yTrue, yPred, 1, 0) + Cell(yTrue, yPred, 1, 1) == Count(yTrue, 1) > 0
    ensures Cell(yTrue, yPred, 0, 1) + Cell(yTrue, yPred, 1, 1) == Count(yPred, 1) > 0
  {
    UniqueValuesOfBinary(yTrue);
    UniqueValuesOfBinary(yPred);
    var m := ConfusionMatrixOf(yPred, yTrue).value;
    ConfusionRowTotals(yPred, yTrue);
    ConfusionColumnTotals(yPred, yTrue);
    SumOfShort(m.counts[0]);
    SumOfShort(m.counts[1]);
    SumOfShort(m.Column(1));
    CountZeroIffAbsent(yPred, 1);
    CountZeroIffAbsent(yTrue, 0);
    CountZeroIffAbsent(yTrue, 1);
  }

  /** For binary vectors in which both classes occur, precision is the
      share of the predicted positives that are positive. */
  lemma PrecisionOfBinary(yPred: seq<int>, yTrue: seq<int>)
    requires |yPred| == |yTrue|
    requires IsBinary(yPred) && IsBinary(yTrue)
    requires BothClasses(yTrue) && BothClasses(yPred)
    ensures Count(yPred, 1) > 0
    ensures Precision(yPred, yTrue) == Success(Cell(yTrue, yPred, 1, 1) as real / Count(yPred, 1) as real)
  {
    BinaryOutcomeCountsOfBinary(yPred, yTrue);
    BinaryMargins(yPred, yTrue);
    var c := BinaryOutcomeCounts(yPred, yTrue).value;
    assert c.truePositives + c.falsePositives == Count(yPred, 1);
    assert Precision(yPred, yTrue) == Success(Ratio(c.truePositives, c.falsePositives));
  }

  /** ... recall (the true positive rate) is the share of the positives
      predicted positive, and the false negative rate the share predicted
      negative ... */
  lemma RecallOfBinary(yPred: seq<int>, yTrue: seq<int>)
    requires |yPred| == |yTrue|
    requires IsBinary(yPred) && IsBinary(yTrue)
    requires BothClasses(yTrue) && BothClasses(yPred)
    ensures Count(yTrue, 1) > 0
    ensures Recall(yPred, yTrue) == Success(Cell(yTrue, yPred, 1, 1) as real / Count(yTrue, 1) as real)
    ensures FalseNegativeRate(yPred, yTrue) == Success(Cell(yTrue, yPred, 1, 0) as real / Count(yTrue, 1) as real)
  {
    BinaryOutcomeCountsOfBinary(yPred, yTrue);
    BinaryMargins(yPred, yTrue);
    var c := BinaryOutcomeCounts(yPred, yTrue).value;
    assert c.falseNegatives + c.truePositives == Count(yTrue, 1);
    assert Recall(yPred, yTrue) == Success(Ratio(c.truePositives, c.falseNegatives));
    assert FalseNegativeRate(yPred, yTrue) == Success(Ratio(c.falseNegatives, c.truePositives));
  }

  /** ... and specificity (the true negative rate) is the share of the
      negatives predicted negative, and the false positive rate the share
      predicted positive. */
  lemma SpecificityOfBinary(yPred: seq<int>, yTrue: seq<int>)
    requires |yPred| == |yTrue|
    requires IsBinary(yPred) && IsBinary(yTrue)
    requires BothClasses(yTrue) && BothClasses(yPred)
    ensures Count(yTrue, 0) > 0
    ensures Specificity(yPred, yTrue) == Success(Cell(yTrue, yPred, 0, 0) as real / Count(yTrue, 0) as real)
    ensures FalsePositiveRate(yPred, yTrue) == Success(Cell(yTrue, yPred, 0, 1) as real / Count(yTrue, 0) as real)
  {
    BinaryOutcomeCountsOfBinary(yPred, yTrue);
    BinaryMargins(yPred, yTrue);
    var c := BinaryOutcomeCounts(yPred, yTrue).value;
    assert c.trueNegatives + c.falsePositives == Count(yTrue, 0);
    assert Specificity(yPred, yTrue) == Success(Ratio(c.trueNegatives, c.falsePositives));
    assert FalsePositiveRate(yPred, yTrue) == Success(Ratio(c.falsePositives, c.trueNegatives));
  }

  /** The cells of the worked example below: one sample of each outcome. */
  lemma ExampleCells(yPred: seq<int>, yTrue: seq<int>)
    requires yPred == [1, 1, 0, 0] && yTrue == [1, 0, 0, 1]
    ensures Cell(yTrue, yPred, 0, 0) == 1 && Cell(yTrue, yPred, 0, 1) == 1
    ensures Cell(yTrue, yPred, 1, 0) == 1 && Cell(yTrue, yPred, 1, 1) == 1
  {
    assert yTrue[..3] == [1, 0, 0] && yPred[..3] == [1, 1, 0];
    assert [1, 0, 0][..2] == [1, 0] && [1, 1, 0][..2] == [1, 1];
    assert [1, 0][..1] == [1] && [1, 1][..1] == [1];
    assert Matching([1], [1], 0) == [];
    assert Matching([1, 0], [1, 1], 0) == [1];
    assert Matching([1, 0, 0], [1, 1, 0], 0) == [1, 0];
    assert Matching(yTrue, yPred, 0) == [1, 0];
    assert Matching([1], [1], 1) == [1];
    assert Matching([1, 0], [1, 1], 1) == [1];
    assert Matching([1, 0, 0], [1, 1, 0], 1) == [1];
    assert Matching(yTrue, yPred, 1) == [1, 0];
  }

  /** A worked example: one sample of each outcome, so every rate is one half. */
  lemma ConfusionExample(yPred: seq<int>, yTrue: seq<int>)
    requires yPred == [1, 1, 0, 0] && yTrue == [1, 0, 0, 1]
    ensures BinaryOutcomeCounts(yPred, yTrue) == Success(OutcomeCounts(1, 1, 1, 1))
    ensures Precision(yPred, yTrue) == Success(0.5)
    ensures Recall(yPred, yTrue) == Success(0.5)
    ensures Specificity(yPred, yTrue) == Success(0.5)
  {
    assert yPred[2] == 0 && yPred[0] == 1 && yTrue[2] == 0 && yTrue[0] == 1;
    assert IsBinary(yPred) && IsBinary(yTrue);
    ExampleCells(yPred, yTrue);
    BinaryOutcomeCountsOfBinary(yPred, yTrue);
    BinaryMargins(yPred, yTrue);
    PrecisionOfBinary(yPred, yTrue);
    RecallOfBinary(yPred, yTrue);
    SpecificityOfBinary(yPred, yTrue);
  }
}
