/** The Gini coefficient of a classifier, computed as Somers' D between the
    predictions and the targets, which is in turn a ratio of two Kendall
    Tau-a values. Tau-a enumerates every pair of positions i < j, takes the
    sign of the difference of each sequence over that pair, and averages the
    product of the two signs: +1 for a concordant pair, -1 for a discordant
    one, 0 when either sequence ties.

    Numbers are exact reals. For finite IEEE doubles a difference is zero
    exactly when its operands are equal and otherwise has the sign of the
    exact difference, so the signs, and hence the numerator of Tau-a, are the
    ones the floating-point code computes. */
module Gini {
  import opened Results
  import opened Sequences

  /** numpy's `sign` on a finite number. */
  function Sign(x: real): (sign: int)
  {
    if x > 0.0 then 1 else if x < 0.0 then -1 else 0
  }

  /** Number of unordered pairs of distinct positions among n. */
  function NumPairs(n: nat): (pairs: nat)
  {
    if n == 0 then 0 else (n - 1) + NumPairs(n - 1)
  }

  /** The closed form the source uses for the number of pairs. */
  lemma {:induction false} NumPairsFormula(n: nat)
    ensures 2 * NumPairs(n) == n * (n - 1)
  {
    if n > 0 {
      NumPairsFormula(n - 1);
    }
  }

  /** Each element of `t` less `x`. */
  function Offsets(t: seq<real>, x: real): (d: seq<real>)
    ensures |d| == |t|
  {
    seq(|t|, k requires 0 <= k < |t| => t[k] - x)
  }

  /** `get_pairwise_differences`: s[j] - s[i] for every pair i < j, ordered
      by i and then by j. */
  function PairwiseDifferences(s: seq<real>): (d: seq<real>)
    ensures |d| == NumPairs(|s|)
  {
    if |s| == 0 then [] else Offsets(s[1..], s[0]) + PairwiseDifferences(s[1..])
  }

  /** Where the pair (i, j) lands in the pairwise differences of n elements:
      after the n - 1 pairs that start at 0, the pairs of the remaining
      n - 1 elements in the same order. */
  function PairIndex(n: nat, i: nat, j: nat): (k: nat)
    requires i < j < n
    ensures k < NumPairs(n)
  {
    if i == 0 then j - 1 else (n - 1) + PairIndex(n - 1, i - 1, j - 1)
  }

  /** The difference at the position of pair (i, j) is s[j] - s[i]. */
  lemma {:induction false} PairwiseDifferenceAt(s: seq<real>, i: nat, j: nat)
    requires i < j < |s|
    ensures PairwiseDifferences(s)[PairIndex(|s|, i, j)] == s[j] - s[i]
    decreases |s|
  {
    if i > 0 {
      PairwiseDifferenceAt(s[1..], i - 1, j - 1);
      assert s[1..][j - 1] == s[j] && s[1..][i - 1] == s[i];
    }
  }

  /** The pair at position k of the pairwise differences: every position
      holds some pair ... */
  function PairAt(n: nat, k: nat): (p: (nat, nat))
    requires k < NumPairs(n)
    ensures p.0 < p.1 < n && PairIndex(n, p.0, p.1) == k
  {
    if k < n - 1 then (0, k + 1)
    else
      var (i, j) := PairAt(n - 1, k - (n - 1));
      (i + 1, j + 1)
  }

  /** ... and no two pairs share a position, so the pairwise differences
      list each pair exactly once. */
  lemma {:induction false} PairIndexInjective(n: nat, i: nat, j: nat, i2: nat, j2: nat)
    requires i < j < n && i2 < j2 < n
    requires PairIndex(n, i, j) == PairIndex(n, i2, j2)
    ensures i == i2 && j == j2
    decreases n
  {
    if i > 0 && i2 > 0 {
      PairIndexInjective(n - 1, i - 1, j - 1, i2 - 1, j2 - 1);
    }
  }

  /** Pairs are listed in lexicographic order: by i, then by j, as the two
      nested loops of the comprehension produce them. */
  lemma {:induction false} PairIndexLex(n: nat, i: nat, j: nat, i2: nat, j2: nat)
    requires i < j < n && i2 < j2 < n
    requires i < i2 || (i == i2 && j < j2)
    ensures PairIndex(n, i, j) < PairIndex(n, i2, j2)
    decreases n
  {
    if i > 0 {
      PairIndexLex(n - 1, i - 1, j - 1, i2 - 1, j2 - 1);
    }
  }

  /** Sum of the products of the signs at each position: concordant pairs
      count +1, discordant pairs -1, ties 0. */
  function Concordance(da: seq<real>, db: seq<real>): (c: int)
    requires |da| == |db|
    ensures -|da| <= c <= |da|
  {
    if |da| == 0 then 0
    else
      var n := |da| - 1;
      Concordance(da[..n], db[..n]) + Sign(da[n]) * Sign(db[n])
  }

  lemma {:induction false} ConcordanceConcat(a1: seq<real>, a2: seq<real>, b1: seq<real>, b2: seq<real>)
    requires |a1| == |b1| && |a2| == |b2|
    ensures Concordance(a1 + a2, b1 + b2) == Concordance(a1, b1) + Concordance(a2, b2)
    decreases |a2|
  {
    if |a2| > 0 {
      var n := |a2| - 1;
      assert (a1 + a2)[..|a1| + n] == a1 + a2[..n];
      assert (b1 + b2)[..|b1| + n] == b1 + b2[..n];
      ConcordanceConcat(a1, a2[..n], b1, b2[..n]);
    } else {
      assert a1 + a2 == a1 && b1 + b2 == b1;
    }
  }

  lemma {:induction false} ConcordanceSymmetric(da: seq<real>, db: seq<real>)
    requires |da| == |db|
    ensures Concordance(da, db) == Concordance(db, da)
    decreases |da|
  {
    if |da| > 0 {
      ConcordanceSymmetric(da[..|da| - 1], db[..|db| - 1]);
    }
  }

  /** A sequence is concordant with itself at every non-zero position. */
  lemma {:induction false} SelfConcordance(d: seq<real>)
    ensures Concordance(d, d) == |d| - Count(d, 0.0)
    decreases |d|
  {
    if |d| > 0 {
      SelfConcordance(d[..|d| - 1]);
    }
  }

  /** The concordance of any sequence with `db` is bounded by the
      self-concordance of `db`: only positions where db is non-zero count. */
  lemma {:induction false} ConcordanceBoundedBySelf(da: seq<real>, db: seq<real>)
    requires |da| == |db|
    ensures -Concordance(db, db) <= Concordance(da, db) <= Concordance(db, db)
    decreases |da|
  {
    if |da| > 0 {
      ConcordanceBoundedBySelf(da[..|da| - 1], db[..|db| - 1]);
    }
  }

  /** Subtracting x maps exactly the copies of x to zero. */
  lemma {:induction false} OffsetZeros(t: seq<real>, x: real)
    ensures Count(Offsets(t, x), 0.0) == Count(t, x)
    decreases |t|
  {
    if |t| > 0 {
      var n := |t| - 1;
      assert Offsets(t, x)[..n] == Offsets(t[..n], x);
      OffsetZeros(t[..n], x);
    }
  }

  /** Number of pairs i < j with b[i] != b[j]. */
  function UnequalPairs(b: seq<real>): (unequal: nat)
  {
    if |b| == 0 then 0 else (|b| - 1 - Count(b[1..], b[0])) + UnequalPairs(b[1..])
  }

  /** All elements are equal (always so for fewer than two). */
  predicate Constant(b: seq<real>)
  {
    forall i, j :: 0 <= i < |b| && 0 <= j < |b| ==> b[i] == b[j]
  }

  /** Every element is a binary target, 0.0 or 1.0. */
  predicate IsBinaryTarget(b: seq<real>)
  {
    TwoValued(b, 0.0, 1.0)
  }

  /** Self-concordance of the pairwise differences counts the unequal
      pairs. */
  lemma {:induction false} SelfConcordanceCountsUnequalPairs(b: seq<real>)
    ensures Concordance(PairwiseDifferences(b), PairwiseDifferences(b)) == UnequalPairs(b)
    decreases |b|
  {
    if |b| > 0 {
      var head := Offsets(b[1..], b[0]);
      SelfConcordanceCountsUnequalPairs(b[1..]);
      ConcordanceConcat(head, PairwiseDifferences(b[1..]), head, PairwiseDifferences(b[1..]));
      SelfConcordance(head);
      OffsetZeros(b[1..], b[0]);
    }
  }

  /** At most every pair is unequal, and all are exactly when no value
      repeats. */
  lemma {:induction false} UnequalPairsAtMostAll(b: seq<real>)
    ensures UnequalPairs(b) <= NumPairs(|b|)
    ensures UnequalPairs(b) == NumPairs(|b|) <==> Distinct(b)
    decreases |b|
  {
    if |b| > 0 {
      UnequalPairsAtMostAll(b[1..]);
      CountZeroIffAbsent(b[1..], b[0]);
      if Distinct(b) {
        assert Distinct(b[1..]);
        assert b[0] !in b[1..];
      }
      if Distinct(b[1..]) && b[0] !in b[1..] {
        forall i, j | 0 <= i < j < |b|
          ensures b[i] != b[j]
        {
          if i > 0 {
            assert b[i] == b[1..][i - 1] && b[j] == b[1..][j - 1];
          } else {
            assert b[j] == b[1..][j - 1];
          }
        }
      }
    }
  }

  /** No pair is unequal exactly when all elements are equal. */
  lemma {:induction false} UnequalPairsZeroIffConstant(b: seq<real>)
    ensures UnequalPairs(b) == 0 <==> Constant(b)
    decreases |b|
  {
    if |b| > 0 {
      UnequalPairsZeroIffConstant(b[1..]);
      CountFullIffConstant(b[1..], b[0]);
      if Constant(b) {
        assert forall i :: 0 <= i < |b[1..]| ==> b[1..][i] == b[0];
        assert Constant(b[1..]);
      }
      if Count(b[1..], b[0]) == |b| - 1 && Constant(b[1..]) {
        forall i, j | 0 <= i < |b| && 0 <= j < |b|
          ensures b[i] == b[j]
        {
          if i > 0 {
            assert b[i] == b[1..][i - 1];
          }
          if j > 0 {
            assert b[j] == b[1..][j - 1];
          }
        }
      }
    }
  }

  /** For a binary target the unequal pairs are the (negative, positive)
      pairs: negatives times positives. */
  lemma {:induction false} UnequalPairsOfBinary(b: seq<real>)
    requires IsBinaryTarget(b)
    ensures UnequalPairs(b) == Count(b, 0.0) * Count(b, 1.0)
    decreases |b|
  {
    if |b| > 0 {
      var rest := b[1..];
      assert IsBinaryTarget(rest);
      UnequalPairsOfBinary(rest);
      CountFront(b, 0.0);
      CountFront(b, 1.0);
      TwoValuedCountsAddUp(rest, 0.0, 1.0);
      var zeros, ones := Count(rest, 0.0), Count(rest, 1.0);
      ProductStep(zeros, ones);
      if b[0] == 0.0 {
        assert Count(rest, b[0]) == zeros;
      } else {
        assert Count(rest, b[0]) == ones;
      }
    }
  }

  lemma ProductStep(z: nat, o: nat)
    ensures (z + 1) * o == z * o + o && z * (o + 1) == z * o + z
  {
  }

  /** `n_pairs` as the source computes it, n(n - 1)/2 as a real number: the
      number of pairs. */
  function PairsAsReal(n: nat): (pairs: real)
    ensures pairs == NumPairs(n) as real
  {
    NumPairsFormula(n);
    (n * (n - 1)) as real / 2.0
  }

  /** A ratio whose numerator is bounded by its positive denominator. */
  lemma BoundedRatio(num: int, den: int)
    requires 0 < den && -den <= num <= den
    ensures -1.0 <= num as real / den as real <= 1.0
  {
  }

  /** `kendalls_tau`: Kendall's Tau-a of two equally long sequences. With
      fewer than two elements there are no pairs and the division by zero
      yields NaN, modelled as a failure. */
  function KendallsTau(a: seq<real>, b: seq<real>): (r: Result<real>)
    ensures |a| != |b| ==> r == Failure(LengthMismatch)
    ensures |a| == |b| ==> (r.Success? <==> |a| >= 2)
    ensures |a| == |b| && r.Failure? ==> r.error == DivisionByZero
    ensures r.Success? ==> -1.0 <= r.value <= 1.0
  {
    if |a| != |b| then Failure(LengthMismatch)
    else
      var n := |a|;
      var pairs := PairsAsReal(n);
      if pairs == 0.0 then Failure(DivisionByZero)
      else
        var c := Concordance(PairwiseDifferences(a), PairwiseDifferences(b));
        BoundedRatio(c, NumPairs(n));
        Success(c as real / pairs)
  }

  /** Tau-a does not depend on the order of its arguments. */
  lemma KendallsTauSymmetric(a: seq<real>, b: seq<real>)
    ensures KendallsTau(a, b) == KendallsTau(b, a)
  {
    if |a| == |b| {
      ConcordanceSymmetric(PairwiseDifferences(a), PairwiseDifferences(b));
    }
  }

  /** Tau-a of a sequence with itself is the share of its pairs that are
      unequal. */
  lemma SelfTau(b: seq<real>)
    requires |b| >= 2
    ensures NumPairs(|b|) > 0
    ensures KendallsTau(b, b) == Success(UnequalPairs(b) as real / NumPairs(|b|) as real)
  {
    SelfConcordanceCountsUnequalPairs(b);
  }

  /** Tau-a of a sequence with itself is 1 exactly when no value repeats
      (and below 1 otherwise), and 0 exactly when all values are equal. */
  lemma SelfTauExtremes(b: seq<real>)
    requires |b| >= 2
    ensures KendallsTau(b, b).value <= 1.0
    ensures KendallsTau(b, b).value == 1.0 <==> Distinct(b)
    ensures KendallsTau(b, b).value == 0.0 <==> Constant(b)
  {
    SelfTau(b);
    UnequalPairsAtMostAll(b);
    UnequalPairsZeroIffConstant(b);
    ShareOfPairs(UnequalPairs(b), NumPairs(|b|));
  }

  /** A share u/n of n > 0 items is at most 1, is 1 exactly when u == n, and
      is 0 exactly when u == 0. */
  lemma ShareOfPairs(u: nat, n: nat)
    requires 0 < n && u <= n
    ensures u as real / n as real <= 1.0
    ensures u as real / n as real == 1.0 <==> u == n
    ensures u as real / n as real == 0.0 <==> u == 0
  {
    var q, nr := u as real / n as real, n as real;
    assert q * nr == u as real;
    assert (q - 1.0) * nr == u as real - nr;
  }

  /** For a binary target, Tau-a with itself is negatives times positives
      over the number of pairs. */
  lemma SelfTauOfBinary(b: seq<real>)
    requires |b| >= 2 && IsBinaryTarget(b)
    ensures NumPairs(|b|) > 0
    ensures KendallsTau(b, b) == Success((Count(b, 0.0) * Count(b, 1.0)) as real / NumPairs(|b|) as real)
  {
    SelfTau(b);
    UnequalPairsOfBinary(b);
  }

  /** A ratio of two ratios over the same positive denominator. */
  lemma RatioOfRatios(c: real, s: real, p: real)
    requires p > 0.0 && s != 0.0
    ensures (c / p) / (s / p) == c / s
  {
  }

  /** Tau-a of a pair of sequences is bounded by Tau-a of the second with
      itself, so their ratio lies between -1 and 1. */
  lemma TauBoundedBySelfTau(a: seq<real>, b: seq<real>)
    requires |a| == |b| >= 2
    ensures -KendallsTau(b, b).value <= KendallsTau(a, b).value <= KendallsTau(b, b).value
    ensures KendallsTau(b, b).value == 0.0 ==> KendallsTau(a, b).value == 0.0
    ensures KendallsTau(b, b).value != 0.0 ==>
              -1.0 <= KendallsTau(a, b).value / KendallsTau(b, b).value <= 1.0
  {
    var c := Concordance(PairwiseDifferences(a), PairwiseDifferences(b));
    var s := Concordance(PairwiseDifferences(b), PairwiseDifferences(b));
    var p := PairsAsReal(|a|);
    assert KendallsTau(a, b).value == c as real / p;
    assert KendallsTau(b, b).value == s as real / p;
    ConcordanceBoundedBySelf(PairwiseDifferences(a), PairwiseDifferences(b));
    DivideMonotone(c as real, s as real, p);
    DivideMonotone(-(s as real), c as real, p);
    NegatedRatio(s as real, p);
    if s != 0 {
      RatioOfRatios(c as real, s as real, p);
      BoundedRatio(c, s);
    }
  }

  /** Dividing by a positive number keeps the order. */
  lemma DivideMonotone(x: real, y: real, p: real)
    requires 0.0 < p && x <= y
    ensures x / p <= y / p
  {
    assert (y / p - x / p) * p == y - x;
  }

  /** `somers_d`: Tau-a of the two sequences over Tau-a of the second with
      itself. A constant second sequence makes the denominator zero (NaN in
      numpy), modelled as a failure. */
  function SomersD(a: seq<real>, b: seq<real>): (r: Result<real>)
    ensures r.Success? <==> |a| == |b| && !Constant(b)
    ensures r.Failure? ==> r.error == (if |a| != |b| then LengthMismatch else DivisionByZero)
    ensures r.Success? ==> -1.0 <= r.value <= 1.0
  {
    var tau :- KendallsTau(a, b);
    var selfTau := KendallsTau(b, b).value;
    SelfTauExtremes(b);
    if selfTau == 0.0 then Failure(DivisionByZero)
    else
      TauBoundedBySelfTau(a, b);
      Success(tau / selfTau)
  }

  /** Somers' D of a non-constant sequence with itself is 1. */
  lemma SomersDSelf(b: seq<real>)
    requires !Constant(b)
    ensures SomersD(b, b) == Success(1.0)
  {
    assert SomersD(b, b).Success?;
    assert |b| >= 2;
    SelfTauExtremes(b);
    var selfTau := KendallsTau(b, b).value;
    assert selfTau != 0.0;
    assert SomersD(b, b).value == selfTau / selfTau;
    RatioOfSelf(selfTau);
  }

  lemma RatioOfSelf(x: real)
    requires x != 0.0
    ensures x / x == 1.0
  {
  }

  /** Each element negated. */
  function Negate(s: seq<real>): (r: seq<real>)
    ensures |r| == |s|
  {
    seq(|s|, i requires 0 <= i < |s| => -s[i])
  }

  lemma {:induction false} PairwiseDifferencesOfNegated(s: seq<real>)
    ensures PairwiseDifferences(Negate(s)) == Negate(PairwiseDifferences(s))
    decreases |s|
  {
    if |s| > 0 {
      assert Negate(s)[1..] == Negate(s[1..]);
      PairwiseDifferencesOfNegated(s[1..]);
      assert Offsets(Negate(s)[1..], Negate(s)[0]) == Negate(Offsets(s[1..], s[0]));
    }
  }

  lemma {:induction false} ConcordanceOfNegated(da: seq<real>, db: seq<real>)
    requires |da| == |db|
    ensures Concordance(Negate(da), db) == -Concordance(da, db)
    decreases |da|
  {
    if |da| > 0 {
      var n := |da| - 1;
      assert Negate(da)[..n] == Negate(da[..n]);
      ConcordanceOfNegated(da[..n], db[..n]);
    }
  }

  /** Reversing the ranking of the first sequence flips the sign of Tau-a ... */
  lemma KendallsTauOfNegated(a: seq<real>, b: seq<real>)
    ensures KendallsTau(Negate(a), b).Success? <==> KendallsTau(a, b).Success?
    ensures KendallsTau(a, b).Success? ==> KendallsTau(Negate(a), b).value == -KendallsTau(a, b).value
  {
    if |a| == |b| && |a| >= 2 {
      var p := PairsAsReal(|a|);
      var c := Concordance(PairwiseDifferences(a), PairwiseDifferences(b));
      PairwiseDifferencesOfNegated(a);
      ConcordanceOfNegated(PairwiseDifferences(a), PairwiseDifferences(b));
      assert Concordance(PairwiseDifferences(Negate(a)), PairwiseDifferences(b)) == -c;
      assert KendallsTau(a, b) == Success(c as real / p);
      assert KendallsTau(Negate(a), b) == Success((-c) as real / p);
      NegatedRatio(c as real, p);
    }
  }

  /** ... and so of Somers' D. */
  lemma SomersDOfNegated(a: seq<real>, b: seq<real>)
    ensures SomersD(Negate(a), b).Success? <==> SomersD(a, b).Success?
    ensures SomersD(a, b).Success? ==> SomersD(Negate(a), b).value == -SomersD(a, b).value
  {
    if SomersD(a, b).Success? {
      KendallsTauOfNegated(a, b);
      var tau, selfTau := KendallsTau(a, b).value, KendallsTau(b, b).value;
      assert SomersD(Negate(a), b).value == (-tau) / selfTau;
      NegatedRatio(tau, selfTau);
    }
  }

  lemma NegatedRatio(x: real, y: real)
    requires y != 0.0
    ensures (-x) / y == -(x / y)
  {
  }

  /** `gini_coefficient`: Somers' D of the predictions against the target. */
  function GiniCoefficient(yPred: seq<real>, yTrue: seq<real>): (r: Result<real>)
    ensures r.Success? <==> |yPred| == |yTrue| && !Constant(yTrue)
    ensures r.Failure? ==> r.error == (if |yPred| != |yTrue| then LengthMismatch else DivisionByZero)
    ensures r.Success? ==> -1.0 <= r.value <= 1.0
  {
    SomersD(yPred, yTrue)
  }

  /** The pairwise differences of three elements, in the order (0, 1),
      (0, 2), (1, 2). */
  lemma PairwiseDifferencesOfThree(s: seq<real>)
    requires |s| == 3
    ensures PairwiseDifferences(s) == [s[1] - s[0], s[2] - s[0], s[2] - s[1]]
  {
    assert s[1..][1..] == s[2..] && s[2..][1..] == s[3..] && s[3..] == [];
    assert PairwiseDifferences(s[3..]) == [];
    assert PairwiseDifferences(s[2..]) == Offsets(s[3..], s[2]) + PairwiseDifferences(s[3..]);
    assert PairwiseDifferences(s[2..]) == [];
    assert Offsets(s[2..], s[1]) == [s[2] - s[1]];
    assert PairwiseDifferences(s[1..]) == Offsets(s[2..], s[1]) + PairwiseDifferences(s[2..]);
    assert Offsets(s[1..], s[0]) == [s[1] - s[0], s[2] - s[0]];
  }

  /** The concordance of three pairs. */
  lemma ConcordanceOfThree(da: seq<real>, db: seq<real>)
    requires |da| == |db| == 3
    ensures Concordance(da, db)
            == Sign(da[0]) * Sign(db[0]) + Sign(da[1]) * Sign(db[1]) + Sign(da[2]) * Sign(db[2])
  {
    var a2, b2 := da[..2], db[..2];
    assert a2[..1][..0] == [] && b2[..1][..0] == [];
    assert a2[1] == da[1] && b2[1] == db[1] && a2[..1][0] == da[0] && b2[..1][0] == db[0];
    assert Concordance(a2[..1], b2[..1]) == Sign(da[0]) * Sign(db[0]);
    assert Concordance(a2, b2) == Concordance(a2[..1], b2[..1]) + Sign(da[1]) * Sign(db[1]);
  }

  /** A worked example: scores that rank the one positive above both
      negatives give a Gini coefficient of 1, with Tau-a 2/3 over three
      pairs. */
  lemma GiniExample(yPred: seq<real>, yTrue: seq<real>)
    requires yPred == [1.0, 2.0, 3.0] && yTrue == [0.0, 0.0, 1.0]
    ensures KendallsTau(yPred, yTrue) == Success(2.0 / 3.0)
    ensures GiniCoefficient(yPred, yTrue) == Success(1.0)
  {
    PairwiseDifferencesOfThree(yPred);
    PairwiseDifferencesOfThree(yTrue);
    var da, db := PairwiseDifferences(yPred), PairwiseDifferences(yTrue);
    assert da == [1.0, 2.0, 1.0] && db == [0.0, 1.0, 1.0];
    ConcordanceOfThree(da, db);
    ConcordanceOfThree(db, db);
    assert Concordance(da, db) == 2 && Concordance(db, db) == 2;
    assert PairsAsReal(3) == 3.0;
    assert KendallsTau(yTrue, yTrue) == Success(2.0 / 3.0);
    RatioOfSelf(2.0 / 3.0);
  }
}
