/** Cumulative Accuracy Profile (CAP) curves of a binary classifier, and the
    linear maps between CAP and ROC coordinates.

    A CAP curve has one point per number k of samples classified positive
    (k = 0 .. n); its value is the number of true positives among the k samples
    the ranking prefers. The classifier curve ranks samples by the classifier's
    output, the perfect curve puts every positive first, and the random curve is
    the straight line from (0, 0) to (n, total positives).

    The trained classifier is not part of this model: the outputs its
    `predict` and `predict_proba` methods would return are parameters. */
module Cap {
  import opened Results
  import opened Sequences

  /** One sample: the classifier's output for it and its true label. */
  datatype Sample = Sample(output: real, target: int)

  /** `p` may be ranked before `q`: a higher output comes first, and among
      equal outputs the higher label comes first (descending sort on the key
      pair (output, label)). */
  predicate RanksBefore(p: Sample, q: Sample)
  {
    p.output > q.output || (p.output == q.output && p.target >= q.target)
  }

  /** The samples are in ranking order. */
  predicate Ranked(s: seq<Sample>)
  {
    forall i, j :: 0 <= i < j < |s| ==> RanksBefore(s[i], s[j])
  }

  /** The labels are in descending order. */
  predicate Descending(s: seq<int>)
  {
    forall i, j :: 0 <= i < j < |s| ==> s[i] >= s[j]
  }

  /** Pairs each output with the label at the same position. */
  function Samples(outputs: seq<real>, labels: seq<int>): (s: seq<Sample>)
    requires |outputs| == |labels|
  {
    seq(|labels|, i requires 0 <= i < |labels| => Sample(outputs[i], labels[i]))
  }

  /** The label column of a sequence of samples. */
  function Labels(s: seq<Sample>): (l: seq<int>)
  {
    seq(|s|, i requires 0 <= i < |s| => s[i].target)
  }

  lemma LabelsOfSamples(outputs: seq<real>, labels: seq<int>)
    requires |outputs| == |labels|
    ensures Labels(Samples(outputs, labels)) == labels
  {
  }

  lemma LabelsConcat(a: seq<Sample>, b: seq<Sample>)
    ensures Labels(a + b) == Labels(a) + Labels(b)
  {
  }

  // ---------------------------------------------------------------------------
  // Ranking (the descending two-key sort of cap.py)
  // ---------------------------------------------------------------------------

  /** Inserts a sample into a ranked sequence at its ranking position. */
  function Insert(x: Sample, s: seq<Sample>): (r: seq<Sample>)
    requires Ranked(s)
    ensures |r| == |s| + 1
    ensures Ranked(r)
    ensures multiset(r) == multiset(s) + multiset{x}
  {
    if |s| == 0 then [x]
    else if RanksBefore(x, s[0]) then [x] + s
    else
      var rest := Insert(x, s[1..]);
      assert s == [s[0]] + s[1..];
      HeadRanksBeforeInserted(x, s, rest);
      [s[0]] + rest
  }

  /** When `x` does not go first, the head of `s` still ranks before every
      element of the insertion into the tail. */
  lemma HeadRanksBeforeInserted(x: Sample, s: seq<Sample>, rest: seq<Sample>)
    requires |s| > 0 && Ranked(s) && !RanksBefore(x, s[0])
    requires Ranked(rest) && multiset(rest) == multiset(s[1..]) + multiset{x}
    ensures Ranked([s[0]] + rest)
  {
    forall k | 0 <= k < |rest|
      ensures RanksBefore(s[0], rest[k])
    {
      assert rest[k] in multiset(rest);
      if rest[k] != x {
        assert rest[k] in multiset(s[1..]);
        var m :| 0 <= m < |s[1..]| && s[1..][m] == rest[k];
        assert s[m + 1] == rest[k];
      }
    }
  }

  /** Sorts samples by output descending, then by label descending. */
  function Sort(s: seq<Sample>): (r: seq<Sample>)
    ensures |r| == |s|
    ensures Ranked(r)
    ensures multiset(r) == multiset(s)
  {
    if |s| == 0 then []
    else
      assert s == [s[0]] + s[1..];
      Insert(s[0], Sort(s[1..]))
  }

  /** Permuting samples permutes their labels. */
  lemma {:induction false} LabelsPermutation(a: seq<Sample>, b: seq<Sample>)
    requires multiset(a) == multiset(b)
    ensures multiset(Labels(a)) == multiset(Labels(b))
    decreases |a|
  {
    if |a| == 0 {
      assert |b| == |multiset(b)| == 0;
    } else {
      var x := a[|a| - 1];
      assert a == a[..|a| - 1] + [x];
      assert x in multiset(b);
      var i :| 0 <= i < |b| && b[i] == x;
      var rest := b[..i] + b[i + 1..];
      assert b == b[..i] + [x] + b[i + 1..];
      assert multiset(rest) == multiset(b) - multiset{x};
      assert multiset(a[..|a| - 1]) == multiset(a) - multiset{x};
      LabelsPermutation(a[..|a| - 1], rest);
      LabelsConcat(a[..|a| - 1], [x]);
      LabelsConcat(b[..i], [x]);
      LabelsConcat(b[..i] + [x], b[i + 1..]);
      LabelsConcat(b[..i], b[i + 1..]);
    }
  }

  /** Two rankings of the same samples are identical: the ranking order is
      total on samples, and samples that tie on both keys are equal values.
      So the order the sort leaves ties in is irrelevant. */
  lemma {:induction false} RankedUnique(a: seq<Sample>, b: seq<Sample>)
    requires Ranked(a) && Ranked(b)
    requires multiset(a) == multiset(b)
    ensures a == b
    decreases |a|
  {
    if |a| == 0 {
      assert |b| == |multiset(b)| == 0;
    } else {
      assert |b| == |multiset(b)| == |a|;
      assert a[0] in multiset(b);
      assert b[0] in multiset(a);
      HeadRanksFirst(b, a[0]);
      HeadRanksFirst(a, b[0]);
      assert a[0] == b[0];
      assert a == [a[0]] + a[1..];
      assert b == [b[0]] + b[1..];
      assert multiset(a[1..]) == multiset(a) - multiset{a[0]};
      assert multiset(b[1..]) == multiset(b) - multiset{b[0]};
      RankedUnique(a[1..], b[1..]);
    }
  }

  /** The head of a ranking ranks before every sample in it. */
  lemma HeadRanksFirst(s: seq<Sample>, x: Sample)
    requires Ranked(s) && x in multiset(s)
    ensures RanksBefore(s[0], x)
  {
    var i :| 0 <= i < |s| && s[i] == x;
    if i > 0 {
      assert RanksBefore(s[0], s[i]);
    }
  }

  /** Inserts an integer into a descending sequence. */
  function InsertDescending(x: int, s: seq<int>): (r: seq<int>)
    requires Descending(s)
    ensures |r| == |s| + 1
    ensures Descending(r)
    ensures multiset(r) == multiset(s) + multiset{x}
  {
    if |s| == 0 then [x]
    else if x >= s[0] then [x] + s
    else
      var rest := InsertDescending(x, s[1..]);
      assert s == [s[0]] + s[1..];
      assert forall k :: 0 <= k < |rest| ==> rest[k] in multiset(rest);
      assert forall y :: y in multiset(s[1..]) ==> y <= s[0];
      PrependDescending(s[0], rest);
      [s[0]] + rest
  }

  /** A value at least every element extends a descending sequence. */
  lemma PrependDescending(x: int, s: seq<int>)
    requires Descending(s)
    requires forall k :: 0 <= k < |s| ==> s[k] <= x
    ensures Descending([x] + s)
  {
    forall i, j | 0 <= i < j < |s| + 1
      ensures ([x] + s)[i] >= ([x] + s)[j]
    {
      assert ([x] + s)[j] == s[j - 1];
      if i > 0 {
        assert ([x] + s)[i] == s[i - 1];
      }
    }
  }

  /** Sorts integers in descending order (`np.sort(y)[::-1]`). */
  function SortDescending(s: seq<int>): (r: seq<int>)
    ensures |r| == |s|
    ensures Descending(r)
    ensures multiset(r) == multiset(s)
  {
    if |s| == 0 then []
    else
      assert s == [s[0]] + s[1..];
      InsertDescending(s[0], SortDescending(s[1..]))
  }

  // ---------------------------------------------------------------------------
  // Cumulative curves
  // ---------------------------------------------------------------------------

  /** A running total with a leading 0: the value at k is the sum of the first
      k elements (`np.concatenate(([0], xs.cumsum()))`). */
  function RunningTotal(xs: seq<int>): (r: seq<int>)
    ensures |r| == |xs| + 1
    ensures forall k :: 0 <= k <= |xs| ==> r[k] == Sum(xs[..k])
  {
    if |xs| == 0 then [0]
    else
      var previous := RunningTotal(xs[..|xs| - 1]);
      assert forall k :: 0 <= k < |xs| ==> xs[..|xs| - 1][..k] == xs[..k];
      assert xs[..|xs|] == xs;
      previous + [previous[|xs| - 1] + xs[|xs| - 1]]
  }

  /** The classifier output used for ranking: the hard predictions for
      "predict", the second (positive-class) column of the probability matrix
      for "predict_proba", and an error for any other orderingMethod. */
  function ClassifierOutput(orderingMethod: string, predictions: seq<real>, probabilities: seq<seq<real>>)
    : (r: Result<seq<real>>)
    ensures orderingMethod != "predict" && orderingMethod != "predict_proba" ==> r == Failure(InvalidMethod)
    ensures orderingMethod == "predict" ==> r == Success(predictions)
    ensures orderingMethod == "predict_proba" ==>
              (r.Success? <==> forall i :: 0 <= i < |probabilities| ==> |probabilities[i]| >= 2)
    ensures orderingMethod == "predict_proba" && r.Success? ==>
              |r.value| == |probabilities| &&
              forall i :: 0 <= i < |probabilities| ==> r.value[i] == probabilities[i][1]
    ensures orderingMethod == "predict_proba" && r.Failure? ==> r.error == MissingColumn
    ensures r.Failure? ==> r.error in {InvalidMethod, MissingColumn}
  {
    if orderingMethod == "predict" then Success(predictions)
    else if orderingMethod == "predict_proba" then
      if exists i :: 0 <= i < |probabilities| && |probabilities[i]| < 2 then Failure(MissingColumn)
      else Success(seq(|probabilities|, i requires 0 <= i < |probabilities| => probabilities[i][1]))
    else Failure(InvalidMethod)
  }

  /** The classifier curve for aligned outputs and labels: the running total
      of the labels taken in ranking order. */
  function ClassifierCurve(outputs: seq<real>, labels: seq<int>): (r: seq<int>)
    requires |outputs| == |labels|
    ensures |r| == |labels| + 1
    ensures r[0] == 0
    ensures r[|labels|] == Sum(labels)
  {
    var ranked := Sort(Samples(outputs, labels));
    LabelsOfSamples(outputs, labels);
    LabelsPermutation(ranked, Samples(outputs, labels));
    SumPermutation(Labels(ranked), labels);
    assert Labels(ranked)[..|labels|] == Labels(ranked);
    RunningTotal(Labels(ranked))
  }

  /** `get_classifier_cumulative_positive_outputs`: selects the classifier
      output by orderingMethod, then builds the classifier curve. */
  function ClassifierCumulativePositives(
    orderingMethod: string, predictions: seq<real>, probabilities: seq<seq<real>>, labels: seq<int>)
    : (r: Result<seq<int>>)
    ensures orderingMethod != "predict" && orderingMethod != "predict_proba" ==> r == Failure(InvalidMethod)
    ensures orderingMethod == "predict" ==>
              (r.Success? <==> |predictions| == |labels|) &&
              (r.Success? ==> r.value == ClassifierCurve(predictions, labels))
    ensures orderingMethod == "predict_proba" ==>
              (r.Success? <==> (forall i :: 0 <= i < |probabilities| ==> |probabilities[i]| >= 2)
                               && |probabilities| == |labels|) &&
              (r.Success? ==> r.value == ClassifierCurve(ClassifierOutput(orderingMethod, predictions, probabilities).value, labels))
    ensures r.Success? ==> |r.value| == |labels| + 1 && r.value[0] == 0 && r.value[|labels|] == Sum(labels)
    ensures orderingMethod == "predict" && r.Failure? ==> r.error == LengthMismatch
    ensures orderingMethod == "predict_proba" && r.Failure? ==>
              r.error == (if exists i :: 0 <= i < |probabilities| && |probabilities[i]| < 2
                          then MissingColumn else LengthMismatch)
    ensures r.Failure? ==> r.error in {InvalidMethod, MissingColumn, LengthMismatch}
  {
    var outputs :- ClassifierOutput(orderingMethod, predictions, probabilities);
    if |outputs| != |labels| then Failure(LengthMismatch)
    else Success(ClassifierCurve(outputs, labels))
  }

  /** `get_perfect_cumulative_positive_outputs`: the running total of the
      labels sorted in descending order. */
  function PerfectCumulativePositives(labels: seq<int>): (r: seq<int>)
    ensures |r| == |labels| + 1
    ensures r[0] == 0
    ensures r[|labels|] == Sum(labels)
  {
    var sorted := SortDescending(labels);
    SumPermutation(sorted, labels);
    assert sorted[..|labels|] == sorted;
    RunningTotal(sorted)
  }

  /** `np.linspace(0, positives, n + 1)`: n + 1 evenly spaced values from 0 to
      `positives` (a single 0 when n is 0). */
  function RandomLine(n: nat, positives: int): (r: seq<real>)
    ensures |r| == n + 1
    ensures r[0] == 0.0
    ensures n > 0 ==> r[n] == positives as real
  {
    seq(n + 1, k requires 0 <= k <= n => if n == 0 then 0.0 else (k as real) * (positives as real) / (n as real))
  }

  /** The random-ranking curve of `plot_cap_curve`. */
  function RandomCurve(labels: seq<int>): (r: seq<real>)
    ensures |r| == |labels| + 1
  {
    RandomLine(|labels|, Sum(labels))
  }

  // ---------------------------------------------------------------------------
  // CAP <-> ROC
  // ---------------------------------------------------------------------------

  /** A curve point in un-normalised coordinates. */
  datatype Point = Point(x: int, y: int)

  /** A 2x2 integer matrix [[a, b], [c, d]]. */
  datatype Matrix2 = Matrix2(a: int, b: int, c: int, d: int)

  const CapToRocMatrix: Matrix2 := Matrix2(1, -1, 0, 1)
  const RocToCapMatrix: Matrix2 := Matrix2(1, 1, 0, 1)

  /** One row of `values @ m.T`: the point as a row vector times the
      transpose of m. */
  function ApplyTransposed(m: Matrix2, p: Point): (q: Point)
  {
    Point(p.x * m.a + p.y * m.b, p.x * m.c + p.y * m.d)
  }

  /** `transform_cap_to_roc`: a CAP point (classified positive, true
      positives) becomes the ROC point (false positives, true positives).
      Written out coordinate-wise; `TransformCapToRocIsMatrixProduct` shows
      each row is the product with the source's matrix. */
  function TransformCapToRoc(cap: seq<Point>): (roc: seq<Point>)
    ensures |roc| == |cap|
  {
    seq(|cap|, i requires 0 <= i < |cap| => Point(cap[i].x - cap[i].y, cap[i].y))
  }

  /** `transform_roc_to_cap`: an ROC point (false positives, true positives)
      becomes the CAP point (classified positive, true positives). */
  function TransformRocToCap(roc: seq<Point>): (cap: seq<Point>)
    ensures |cap| == |roc|
  {
    seq(|roc|, i requires 0 <= i < |roc| => Point(roc[i].x + roc[i].y, roc[i].y))
  }

  /** Every row of `TransformCapToRoc` is `point @ CapToRocMatrix.T`. */
  lemma TransformCapToRocIsMatrixProduct(cap: seq<Point>)
    ensures forall i :: 0 <= i < |cap| ==> TransformCapToRoc(cap)[i] == ApplyTransposed(CapToRocMatrix, cap[i])
  {
  }

  /** Every row of `TransformRocToCap` is `point @ RocToCapMatrix.T`. */
  lemma TransformRocToCapIsMatrixProduct(roc: seq<Point>)
    ensures forall i :: 0 <= i < |roc| ==> TransformRocToCap(roc)[i] == ApplyTransposed(RocToCapMatrix, roc[i])
  {
  }

  /** The un-normalised CAP curve as points (k, curve[k]). */
  function CurvePoints(curve: seq<int>): (points: seq<Point>)
    ensures |points| == |curve|
  {
    seq(|curve|, k requires 0 <= k < |curve| => Point(k, curve[k]))
  }
}
