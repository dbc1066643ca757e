/** Properties of the CAP curves: the curve is determined by the ranking
    alone, the shape of the curves for binary labels, the dominance of the
    perfect curve over the classifier and random curves, and the exact
    round trip between CAP and ROC coordinates. */
module CapProperties {
  import opened Results
  import opened Sequences
  import opened Cap

  function Min(a: int, b: int): (m: int)
  {
    if a <= b then a else b
  }

  /** The classifier curve is the running total of the labels in ANY ranking
      of the samples: sorting by output descending, then by label descending,
      fixes the curve completely. */
  lemma ClassifierCurveOfRanking(outputs: seq<real>, labels: seq<int>, ranking: seq<Sample>)
    requires |outputs| == |labels|
    requires Ranked(ranking)
    requires multiset(ranking) == multiset(Samples(outputs, labels))
    ensures ClassifierCurve(outputs, labels) == RunningTotal(Labels(ranking))
  {
    RankedUnique(Sort(Samples(outputs, labels)), ranking);
  }

  /** The classifier curve depends only on the multiset of (output, label)
      pairs: permuting the samples jointly leaves it unchanged. */
  lemma ClassifierCurvePermutationInvariant(
    outputs1: seq<real>, labels1: seq<int>, outputs2: seq<real>, labels2: seq<int>)
    requires |outputs1| == |labels1| && |outputs2| == |labels2|
    requires multiset(Samples(outputs1, labels1)) == multiset(Samples(outputs2, labels2))
    ensures ClassifierCurve(outputs1, labels1) == ClassifierCurve(outputs2, labels2)
  {
    ClassifierCurveOfRanking(outputs2, labels2, Sort(Samples(outputs1, labels1)));
  }

  /** The running total of binary labels counts the positives in each prefix,
      and so climbs by exactly 0 or 1 at each step. */
  lemma RunningTotalOfBinary(xs: seq<int>)
    requires IsBinary(xs)
    ensures forall k :: 0 <= k <= |xs| ==> RunningTotal(xs)[k] == Count(xs[..k], 1)
    ensures forall k :: 0 <= k < |xs| ==> RunningTotal(xs)[k] <= RunningTotal(xs)[k + 1] <= RunningTotal(xs)[k] + 1
  {
    var r := RunningTotal(xs);
    forall k | 0 <= k <= |xs|
      ensures r[k] == Count(xs[..k], 1)
    {
      BinaryPrefix(xs, k);
    }
    forall k | 0 <= k < |xs|
      ensures r[k] <= r[k + 1] <= r[k] + 1
    {
      RunningTotalStep(xs, k);
      assert xs[k] == 0 || xs[k] == 1;
    }
  }

  lemma BinaryPrefix(xs: seq<int>, k: nat)
    requires IsBinary(xs) && k <= |xs|
    ensures Sum(xs[..k]) == Count(xs[..k], 1)
  {
    assert IsBinary(xs[..k]);
    SumOfBinary(xs[..k]);
  }

  /** The labels in ranking order are the input labels, permuted. */
  lemma RankedLabelsArePermutation(outputs: seq<real>, labels: seq<int>)
    requires |outputs| == |labels|
    ensures multiset(Labels(Sort(Samples(outputs, labels)))) == multiset(labels)
  {
    LabelsOfSamples(outputs, labels);
    LabelsPermutation(Sort(Samples(outputs, labels)), Samples(outputs, labels));
  }

  /** For binary labels, point k of the classifier curve counts the positives
      among the k highest-ranked samples. So the curve is non-decreasing,
      climbs by at most one per sample, and never exceeds either the number
      of samples taken or the number of positives. */
  lemma ClassifierCurveOfBinary(outputs: seq<real>, labels: seq<int>)
    requires |outputs| == |labels|
    requires IsBinary(labels)
    ensures forall k :: 0 <= k <= |labels| ==>
              ClassifierCurve(outputs, labels)[k] == Count(Labels(Sort(Samples(outputs, labels)))[..k], 1)
    ensures forall k :: 0 <= k < |labels| ==>
              ClassifierCurve(outputs, labels)[k] <= ClassifierCurve(outputs, labels)[k + 1]
                                                 <= ClassifierCurve(outputs, labels)[k] + 1
    ensures forall k :: 0 <= k <= |labels| ==>
              0 <= ClassifierCurve(outputs, labels)[k] <= Min(k, Count(labels, 1))
  {
    var ranked := Labels(Sort(Samples(outputs, labels)));
    var curve := ClassifierCurve(outputs, labels);
    assert curve == RunningTotal(ranked);
    RankedLabelsArePermutation(outputs, labels);
    BinaryPermutation(labels, ranked);
    RunningTotalOfBinary(ranked);
    CountIsMultiplicity(ranked, 1);
    CountIsMultiplicity(labels, 1);
    forall k | 0 <= k <= |labels|
      ensures 0 <= curve[k] <= Min(k, Count(labels, 1))
    {
      PrefixCount(ranked, k, 1);
    }
    assert forall k :: 0 <= k <= |labels| ==> curve[k] == Count(ranked[..k], 1);
  }

  /** In a descending binary sequence the ones come first, so a prefix of
      length k holds min(k, P) ones, P being the number of ones. */
  lemma {:induction false} DescendingBinaryPrefixCount(s: seq<int>, k: nat)
    requires IsBinary(s) && Descending(s)
    requires k <= |s|
    ensures Count(s[..k], 1) == Min(k, Count(s, 1))
    decreases |s|
  {
    if |s| > 0 {
      var init := s[..|s| - 1];
      assert IsBinary(init) && Descending(init);
      if s[|s| - 1] == 1 {
        assert forall i :: 0 <= i < |s| ==> s[i] == 1 by {
          forall i | 0 <= i < |s| ensures s[i] == 1 {
            if i < |s| - 1 {
              assert s[i] >= s[|s| - 1];
            }
          }
        }
        CountFullIffConstant(s, 1);
        assert forall i :: 0 <= i < k ==> s[..k][i] == 1;
        CountFullIffConstant(s[..k], 1);
      } else if k < |s| {
        assert s[..k] == init[..k];
        DescendingBinaryPrefixCount(init, k);
      } else {
        assert s[..k] == s;
      }
    }
  }

  /** For binary labels with P positives the perfect curve at k is min(k, P):
      every positive is found before any negative. Like the classifier
      curve, it climbs by 0 or 1 per sample. */
  lemma PerfectCurveOfBinary(labels: seq<int>)
    requires IsBinary(labels)
    ensures forall k :: 0 <= k <= |labels| ==> PerfectCumulativePositives(labels)[k] == Min(k, Count(labels, 1))
    ensures forall k :: 0 <= k < |labels| ==>
              PerfectCumulativePositives(labels)[k] <= PerfectCumulativePositives(labels)[k + 1]
                                                   <= PerfectCumulativePositives(labels)[k] + 1
  {
    var sorted := SortDescending(labels);
    BinaryPermutation(labels, sorted);
    RunningTotalOfBinary(sorted);
    CountIsMultiplicity(sorted, 1);
    CountIsMultiplicity(labels, 1);
    forall k | 0 <= k <= |labels|
      ensures Count(sorted[..k], 1) == Min(k, Count(labels, 1))
    {
      DescendingBinaryPrefixCount(sorted, k);
    }
  }

  /** The perfect curve is never below the classifier curve. */
  lemma PerfectDominatesClassifier(outputs: seq<real>, labels: seq<int>)
    requires |outputs| == |labels|
    requires IsBinary(labels)
    ensures forall k :: 0 <= k <= |labels| ==>
              ClassifierCurve(outputs, labels)[k] <= PerfectCumulativePositives(labels)[k]
  {
    ClassifierCurveOfBinary(outputs, labels);
    PerfectCurveOfBinary(labels);
  }

  /** min(k, P) lies on or above the chord from (0, 0) to (n, P). */
  lemma MinAboveChord(k: nat, positives: nat, n: nat)
    requires 0 < n && k <= n && positives <= n
    ensures (k as real) * (positives as real) / (n as real) <= Min(k, positives) as real
  {
    var kr, pr, nr := k as real, positives as real, n as real;
    var m := Min(k, positives) as real;
    if k <= positives {
      ScaleMonotone(kr, pr, nr);
    } else {
      ScaleMonotone(pr, kr, nr);
      assert pr * kr == kr * pr;
    }
    assert kr * pr <= m * nr;
    QuotientBound(kr * pr, m, nr);
  }

  /** Multiplying by a non-negative factor keeps the order. */
  lemma ScaleMonotone(a: real, b: real, c: real)
    requires 0.0 <= a && b <= c
    ensures a * b <= a * c
  {
    assert a * c - a * b == a * (c - b);
  }

  /** x <= y * n bounds x / n by y, for positive n. */
  lemma QuotientBound(x: real, y: real, n: real)
    requires 0.0 < n && x <= y * n
    ensures x / n <= y
  {
    assert (x / n) * n == x;
    assert (y - x / n) * n == y * n - x;
  }

  /** The perfect curve is never below the random line. */
  lemma PerfectDominatesRandom(labels: seq<int>)
    requires IsBinary(labels)
    ensures forall k :: 0 <= k <= |labels| ==>
              RandomCurve(labels)[k] <= PerfectCumulativePositives(labels)[k] as real
  {
    PerfectCurveOfBinary(labels);
    SumOfBinary(labels);
    forall k | 0 <= k <= |labels|
      ensures RandomCurve(labels)[k] <= PerfectCumulativePositives(labels)[k] as real
    {
      Sequences.CountIsMultiplicity(labels, 1);
      RandomLineBelowMin(|labels|, Count(labels, 1), k);
    }
  }

  /** The random line is evenly spaced: every step climbs by P / n. */
  lemma RandomLineEvenlySpaced(n: nat, positives: int)
    requires n > 0
    ensures forall k :: 0 <= k < n ==> RandomLine(n, positives)[k + 1] - RandomLine(n, positives)[k] == positives as real / n as real
  {
    var r := RandomLine(n, positives);
    var p, nr := positives as real, n as real;
    forall k | 0 <= k < n
      ensures r[k + 1] - r[k] == p / nr
    {
      assert r[k + 1] == ((k + 1) as real) * p / nr;
      assert r[k] == (k as real) * p / nr;
      assert ((k + 1) as real) * p == (k as real) * p + p;
      QuotientOfSum((k as real) * p, p, nr);
    }
  }

  /** Dividing a sum splits into the sum of the quotients. */
  lemma QuotientOfSum(a: real, b: real, d: real)
    requires d != 0.0
    ensures (a + b) / d - a / d == b / d
  {
    assert (a + b) / d * d == a + b && a / d * d == a && b / d * d == b;
    assert ((a + b) / d - a / d - b / d) * d == 0.0;
  }

  /** The random line never rises above min(k, P). */
  lemma RandomLineBelowMin(n: nat, positives: nat, k: nat)
    requires positives <= n && k <= n
    ensures RandomLine(n, positives)[k] <= Min(k, positives) as real
  {
    if n > 0 {
      var r := RandomLine(n, positives);
      var point := (k as real) * (positives as real) / (n as real);
      assert r[k] == point;
      MinAboveChord(k, positives, n);
    }
  }

  /** The two linear maps are inverse matrices. */
  lemma CapRocMatricesAreInverse()
    ensures forall p :: ApplyTransposed(RocToCapMatrix, ApplyTransposed(CapToRocMatrix, p)) == p
    ensures forall p :: ApplyTransposed(CapToRocMatrix, ApplyTransposed(RocToCapMatrix, p)) == p
  {
  }

  /** CAP -> ROC -> CAP is the identity. */
  lemma CapToRocToCap(cap: seq<Point>)
    ensures TransformRocToCap(TransformCapToRoc(cap)) == cap
  {
  }

  /** ROC -> CAP -> ROC is the identity. */
  lemma RocToCapToRoc(roc: seq<Point>)
    ensures TransformCapToRoc(TransformRocToCap(roc)) == roc
  {
  }

  /** The ROC image of the CAP point (k, curve[k]) is (k - curve[k], curve[k]):
      of the k samples taken, those that are not true positives are false
      positives. */
  lemma RocPointOfCurve(curve: seq<int>, k: nat)
    requires k < |curve|
    ensures |TransformCapToRoc(CurvePoints(curve))| == |curve|
    ensures TransformCapToRoc(CurvePoints(curve))[k] == Point(k - curve[k], curve[k])
  {
    assert CurvePoints(curve)[k] == Point(k, curve[k]);
  }

  /** A CAP curve that climbs by 0 or 1 per sample maps to
      an ROC staircase: each sample moves it one unit right (a negative) or
      one unit up (a positive). */
  lemma RocOfStaircase(curve: seq<int>)
    requires forall k :: 0 <= k < |curve| - 1 ==> curve[k] <= curve[k + 1] <= curve[k] + 1
    ensures var roc := TransformCapToRoc(CurvePoints(curve));
            forall k :: 0 <= k < |curve| - 1 ==>
              roc[k + 1] == Point(roc[k].x + 1, roc[k].y) || roc[k + 1] == Point(roc[k].x, roc[k].y + 1)
  {
    var roc := TransformCapToRoc(CurvePoints(curve));
    forall k | 0 <= k < |curve| - 1
      ensures roc[k + 1] == Point(roc[k].x + 1, roc[k].y) || roc[k + 1] == Point(roc[k].x, roc[k].y + 1)
    {
      RocPointOfCurve(curve, k);
      RocPointOfCurve(curve, k + 1);
    }
  }

  /** Mapping the classifier's CAP curve to ROC space gives, for binary
      labels, a path from (0, 0) to (negatives, positives). */
  lemma RocEndsOfClassifierCurve(outputs: seq<real>, labels: seq<int>)
    requires |outputs| == |labels|
    requires IsBinary(labels)
    ensures |TransformCapToRoc(CurvePoints(ClassifierCurve(outputs, labels)))| == |labels| + 1
    ensures TransformCapToRoc(CurvePoints(ClassifierCurve(outputs, labels)))[0] == Point(0, 0)
    ensures TransformCapToRoc(CurvePoints(ClassifierCurve(outputs, labels)))[|labels|]
            == Point(Count(labels, 0), Count(labels, 1))
  {
    var curve := ClassifierCurve(outputs, labels);
    SumOfBinary(labels);
    BinaryCountsAddUp(labels);
    RocPointOfCurve(curve, 0);
    RocPointOfCurve(curve, |labels|);
  }

  /** ... and the k-th ranked sample moves that path one unit up when it is a
      positive and one unit right when it is a negative. */
  lemma RocStepsOfClassifierCurve(outputs: seq<real>, labels: seq<int>)
    requires |outputs| == |labels|
    requires IsBinary(labels)
    ensures var roc := TransformCapToRoc(CurvePoints(ClassifierCurve(outputs, labels)));
            var ranked := Labels(Sort(Samples(outputs, labels)));
            forall k :: 0 <= k < |labels| ==>
              roc[k + 1] == (if ranked[k] == 1 then Point(roc[k].x, roc[k].y + 1) else Point(roc[k].x + 1, roc[k].y))
  {
    var curve := ClassifierCurve(outputs, labels);
    var roc := TransformCapToRoc(CurvePoints(curve));
    var ranked := Labels(Sort(Samples(outputs, labels)));
    assert curve == RunningTotal(ranked);
    RankedLabelsArePermutation(outputs, labels);
    BinaryPermutation(labels, ranked);
    forall k | 0 <= k < |labels|
      ensures roc[k + 1] == (if ranked[k] == 1 then Point(roc[k].x, roc[k].y + 1) else Point(roc[k].x + 1, roc[k].y))
    {
      RunningTotalStep(ranked, k);
      RocPointOfCurve(curve, k);
      RocPointOfCurve(curve, k + 1);
    }
  }

  /** Each step of a running total adds the next element. */
  lemma RunningTotalStep(xs: seq<int>, k: nat)
    requires k < |xs|
    ensures RunningTotal(xs)[k + 1] == RunningTotal(xs)[k] + xs[k]
  {
    assert xs[..k + 1][..k] == xs[..k];
  }

  // ---------------------------------------------------------------------------
  // The worked example: outputs [0.9, 0.1, 0.8, 0.4, 0.2], labels [1, 0, 1, 0, 0]
  // ---------------------------------------------------------------------------

  /** The example's samples, ranked: both positives come first. */
  lemma ExampleRanking()
    ensures Ranked([Sample(0.9, 1), Sample(0.8, 1), Sample(0.4, 0), Sample(0.2, 0), Sample(0.1, 0)])
    ensures multiset([Sample(0.9, 1), Sample(0.8, 1), Sample(0.4, 0), Sample(0.2, 0), Sample(0.1, 0)])
         == multiset(Samples([0.9, 0.1, 0.8, 0.4, 0.2], [1, 0, 1, 0, 0]))
  {
    assert Samples([0.9, 0.1, 0.8, 0.4, 0.2], [1, 0, 1, 0, 0])
        == [Sample(0.9, 1), Sample(0.1, 0), Sample(0.8, 1), Sample(0.4, 0), Sample(0.2, 0)];
  }

  /** The running total of the example's ranked labels. */
  lemma ExampleRunningTotal()
    ensures RunningTotal([1, 1, 0, 0, 0]) == [0, 1, 2, 2, 2, 2]
  {
    assert [1][..0] == [];
    assert RunningTotal([1]) == [0, 1];
    assert [1, 1][..1] == [1];
    assert RunningTotal([1, 1]) == [0, 1, 2];
    assert [1, 1, 0][..2] == [1, 1];
    assert RunningTotal([1, 1, 0]) == [0, 1, 2, 2];
    assert [1, 1, 0, 0][..3] == [1, 1, 0];
    assert RunningTotal([1, 1, 0, 0]) == [0, 1, 2, 2, 2];
    assert [1, 1, 0, 0, 0][..4] == [1, 1, 0, 0];
  }

  /** The labels of the example's ranking. */
  lemma ExampleLabels(ranking: seq<Sample>)
    requires ranking == [Sample(0.9, 1), Sample(0.8, 1), Sample(0.4, 0), Sample(0.2, 0), Sample(0.1, 0)]
    ensures Labels(ranking) == [1, 1, 0, 0, 0]
  {
    var labels := Labels(ranking);
    assert |labels| == 5;
    assert labels[0] == 1 && labels[1] == 1 && labels[2] == 0 && labels[3] == 0 && labels[4] == 0;
  }

  /** The example's classifier curve from hard predictions. */
  lemma ClassifierCurveExample()
    ensures ClassifierCumulativePositives("predict", [0.9, 0.1, 0.8, 0.4, 0.2], [], [1, 0, 1, 0, 0])
            == Success([0, 1, 2, 2, 2, 2])
  {
    var ranking := [Sample(0.9, 1), Sample(0.8, 1), Sample(0.4, 0), Sample(0.2, 0), Sample(0.1, 0)];
    ExampleRanking();
    ExampleRunningTotal();
    ExampleLabels(ranking);
    ClassifierCurveOfRanking([0.9, 0.1, 0.8, 0.4, 0.2], [1, 0, 1, 0, 0], ranking);
  }

  /** The same curve from the positive-class column of a probability matrix. */
  lemma ClassifierCurveProbabilityExample()
    ensures ClassifierCumulativePositives(
              "predict_proba", [], [[0.1, 0.9], [0.9, 0.1], [0.2, 0.8], [0.6, 0.4], [0.8, 0.2]], [1, 0, 1, 0, 0])
            == Success([0, 1, 2, 2, 2, 2])
  {
    var probabilities := [[0.1, 0.9], [0.9, 0.1], [0.2, 0.8], [0.6, 0.4], [0.8, 0.2]];
    assert "predict_proba" != "predict" by { assert |"predict"| == 7; }
    assert forall i :: 0 <= i < |probabilities| ==> |probabilities[i]| >= 2;
    var r := ClassifierOutput("predict_proba", [], probabilities);
    assert r.value[0] == 0.9 && r.value[1] == 0.1 && r.value[2] == 0.8 && r.value[3] == 0.4 && r.value[4] == 0.2;
    assert |r.value| == 5;
    assert r.value == [0.9, 0.1, 0.8, 0.4, 0.2];
    ClassifierCurveExample();
  }

  /** A perfect curve of five binary labels, two of them positive. */
  lemma PerfectCurveTwoOfFive(labels: seq<int>)
    requires IsBinary(labels) && |labels| == 5 && Count(labels, 1) == 2
    ensures PerfectCumulativePositives(labels) == [0, 1, 2, 2, 2, 2]
  {
    PerfectCurveOfBinary(labels);
    var r := PerfectCumulativePositives(labels);
    assert r[0] == 0 && r[1] == 1 && r[2] == 2 && r[3] == 2 && r[4] == 2 && r[5] == 2;
  }

  /** The example's labels hold two positives. */
  lemma ExampleLabelCounts(labels: seq<int>)
    requires labels == [1, 0, 1, 0, 0]
    ensures IsBinary(labels) && Count(labels, 1) == 2 && Sum(labels) == 2
  {
    CountIsMultiplicity(labels, 1);
    assert multiset(labels) == multiset{0, 0, 0, 1, 1};
    SumOfBinary(labels);
  }

  /** The example's perfect curve and the endpoints of its random line. */
  lemma PerfectAndRandomExample(labels: seq<int>)
    requires labels == [1, 0, 1, 0, 0]
    ensures PerfectCumulativePositives(labels) == [0, 1, 2, 2, 2, 2]
    ensures RandomCurve(labels)[0] == 0.0 && RandomCurve(labels)[5] == 2.0
  {
    ExampleLabelCounts(labels);
    PerfectCurveTwoOfFive(labels);
  }
}
