/** Sums and occurrence counts over sequences, the two aggregations every
    metric in this project is built from, with the facts about them that the
    metric proofs share. Both are defined by recursion on the last element, so
    that a running total over a prefix grows by one element at a time. */
module Sequences {

  /** Sum of a sequence of integers (numpy's `sum`, exact here). */
  function Sum(s: seq<int>): (total: int)
  {
    if |s| == 0 then 0 else Sum(s[..|s| - 1]) + s[|s| - 1]
  }

  /** Number of positions of `s` that hold `x`. */
  function Count<T(==)>(s: seq<T>, x: T): (c: nat)
    ensures c <= |s|
  {
    if |s| == 0 then 0 else Count(s[..|s| - 1], x) + (if s[|s| - 1] == x then 1 else 0)
  }

  /** Every element is one of the two values `lo` and `hi`. */
  predicate TwoValued<T(==)>(s: seq<T>, lo: T, hi: T)
  {
    forall i :: 0 <= i < |s| ==> s[i] == lo || s[i] == hi
  }

  /** Every element is a binary label, 0 or 1. */
  predicate IsBinary(s: seq<int>)
  {
    TwoValued(s, 0, 1)
  }

  lemma {:induction false} SumConcat(a: seq<int>, b: seq<int>)
    ensures Sum(a + b) == Sum(a) + Sum(b)
    decreases |b|
  {
    if |b| > 0 {
      assert (a + b)[..|a + b| - 1] == a + b[..|b| - 1];
      SumConcat(a, b[..|b| - 1]);
    } else {
      assert a + b == a;
    }
  }

  lemma {:induction false} CountConcat<T>(a: seq<T>, b: seq<T>, x: T)
    ensures Count(a + b, x) == Count(a, x) + Count(b, x)
    decreases |b|
  {
    if |b| > 0 {
      assert (a + b)[..|a + b| - 1] == a + b[..|b| - 1];
      CountConcat(a, b[..|b| - 1], x);
    } else {
      assert a + b == a;
    }
  }

  /** A count is the multiplicity of the element in the sequence's multiset,
      so it does not depend on the order of the elements. */
  lemma {:induction false} CountIsMultiplicity<T>(s: seq<T>, x: T)
    ensures Count(s, x) == multiset(s)[x]
    decreases |s|
  {
    if |s| > 0 {
      assert s == s[..|s| - 1] + [s[|s| - 1]];
      CountIsMultiplicity(s[..|s| - 1], x);
    }
  }

  /** Counting the first element separately. */
  lemma CountFront<T>(s: seq<T>, x: T)
    requires |s| > 0
    ensures Count(s, x) == (if s[0] == x then 1 else 0) + Count(s[1..], x)
  {
    var head := [s[0]];
    assert head + s[1..] == s;
    CountConcat(head, s[1..], x);
    assert head[..0] == [];
    assert Count(head, x) == Count(head[..0], x) + (if s[0] == x then 1 else 0);
  }

  /** An element is absent exactly when its count is zero. */
  lemma {:induction false} CountZeroIffAbsent<T>(s: seq<T>, x: T)
    ensures Count(s, x) == 0 <==> x !in s
    decreases |s|
  {
    if |s| > 0 {
      CountZeroIffAbsent(s[..|s| - 1], x);
      assert s == s[..|s| - 1] + [s[|s| - 1]];
    }
  }

  /** The count reaches the length exactly when every element is `x`. */
  lemma {:induction false} CountFullIffConstant<T>(s: seq<T>, x: T)
    ensures Count(s, x) == |s| <==> forall i :: 0 <= i < |s| ==> s[i] == x
    decreases |s|
  {
    if |s| > 0 {
      CountFullIffConstant(s[..|s| - 1], x);
      assert forall i :: 0 <= i < |s| - 1 ==> s[..|s| - 1][i] == s[i];
    }
  }

  /** Sums are invariant under permutation. */
  lemma {:induction false} SumPermutation(a: seq<int>, b: seq<int>)
    requires multiset(a) == multiset(b)
    ensures Sum(a) == Sum(b)
    decreases |a|
  {
    if |a| > 0 {
      var x := a[|a| - 1];
      assert a == a[..|a| - 1] + [x];
      assert x in multiset(b);
      var i :| 0 <= i < |b| && b[i] == x;
      var rest := b[..i] + b[i + 1..];
      assert b == b[..i] + [x] + b[i + 1..];
      assert multiset(rest) == multiset(b) - multiset{x};
      assert multiset(a[..|a| - 1]) == multiset(a) - multiset{x};
      SumPermutation(a[..|a| - 1], rest);
      SumConcat(b[..i] + [x], b[i + 1..]);
      SumConcat(b[..i], [x]);
      SumConcat(b[..i], b[i + 1..]);
      assert Sum([x]) == Sum([x][..0]) + x;
    } else {
      assert multiset(b) == multiset{};
    }
  }

  /** For binary labels the sum is the number of positives. */
  lemma {:induction false} SumOfBinary(s: seq<int>)
    requires IsBinary(s)
    ensures Sum(s) == Count(s, 1)
    decreases |s|
  {
    if |s| > 0 {
      assert IsBinary(s[..|s| - 1]);
      SumOfBinary(s[..|s| - 1]);
    }
  }

  /** A two-valued sequence splits into the positions of its two values. */
  lemma {:induction false} TwoValuedCountsAddUp<T>(s: seq<T>, lo: T, hi: T)
    requires lo != hi && TwoValued(s, lo, hi)
    ensures Count(s, lo) + Count(s, hi) == |s|
    decreases |s|
  {
    if |s| > 0 {
      assert TwoValued(s[..|s| - 1], lo, hi);
      TwoValuedCountsAddUp(s[..|s| - 1], lo, hi);
    }
  }

  /** A binary sequence splits into its ones and its zeros. */
  lemma BinaryCountsAddUp(s: seq<int>)
    requires IsBinary(s)
    ensures Count(s, 0) + Count(s, 1) == |s|
  {
    TwoValuedCountsAddUp(s, 0, 1);
  }

  /** A permutation of a binary sequence is binary. */
  lemma BinaryPermutation(a: seq<int>, b: seq<int>)
    requires IsBinary(a)
    requires multiset(a) == multiset(b)
    ensures IsBinary(b)
  {
    forall i | 0 <= i < |b|
      ensures b[i] == 0 || b[i] == 1
    {
      assert b[i] in multiset(a);
    }
  }

  /** A prefix holds no more copies of `x` than the whole sequence. */
  lemma PrefixCount<T>(s: seq<T>, k: nat, x: T)
    requires k <= |s|
    ensures Count(s[..k], x) <= Count(s, x)
  {
    assert s == s[..k] + s[k..];
    CountConcat(s[..k], s[k..], x);
  }

  /** No value occurs twice. */
  predicate Distinct<T(==)>(s: seq<T>)
  {
    forall i, j :: 0 <= i < j < |s| ==> s[i] != s[j]
  }

  /** A value of a duplicate-free sequence occurs exactly once. */
  lemma {:induction false} CountOfDistinct<T>(s: seq<T>, x: T)
    requires Distinct(s) && x in s
    ensures Count(s, x) == 1
    decreases |s|
  {
    var n := |s| - 1;
    assert s == s[..n] + [s[n]];
    if s[n] == x {
      assert x !in s[..n];
      CountZeroIffAbsent(s[..n], x);
    } else {
      CountOfDistinct(s[..n], x);
    }
  }

  /** Position-wise sum of two equally long sequences. */
  function AddPointwise(a: seq<int>, b: seq<int>): (r: seq<int>)
    requires |a| == |b|
    ensures |r| == |a|
  {
    seq(|a|, i requires 0 <= i < |a| => a[i] + b[i])
  }

  lemma {:induction false} SumAddPointwise(a: seq<int>, b: seq<int>)
    requires |a| == |b|
    ensures Sum(AddPointwise(a, b)) == Sum(a) + Sum(b)
    decreases |a|
  {
    if |a| > 0 {
      var n := |a| - 1;
      assert AddPointwise(a, b)[..n] == AddPointwise(a[..n], b[..n]);
      SumAddPointwise(a[..n], b[..n]);
    }
  }

  /** A sum of zeros is zero. */
  lemma {:induction false} SumOfZeros(s: seq<int>)
    requires forall i :: 0 <= i < |s| ==> s[i] == 0
    ensures Sum(s) == 0
    decreases |s|
  {
    if |s| > 0 {
      SumOfZeros(s[..|s| - 1]);
    }
  }

  /** 1 at the positions of `vs` that hold `x`, 0 elsewhere. */
  function Indicator<T(==)>(vs: seq<T>, x: T): (r: seq<int>)
    ensures |r| == |vs|
  {
    seq(|vs|, j requires 0 <= j < |vs| => if vs[j] == x then 1 else 0)
  }

  lemma {:induction false} SumOfIndicator<T>(vs: seq<T>, x: T)
    ensures Sum(Indicator(vs, x)) == Count(vs, x)
    decreases |vs|
  {
    if |vs| > 0 {
      var n := |vs| - 1;
      assert Indicator(vs, x)[..n] == Indicator(vs[..n], x);
      SumOfIndicator(vs[..n], x);
    }
  }

  /** The count of each value of `vs` in `s`: one bin per value. */
  function CountsOf<T(==)>(s: seq<T>, vs: seq<T>): (r: seq<int>)
    ensures |r| == |vs|
  {
    seq(|vs|, j requires 0 <= j < |vs| => Count(s, vs[j]))
  }

  /** When the bins `vs` are distinct and every element of `s` falls in one
      of them, the bin counts add up to the length of `s`. */
  lemma {:induction false} SumCountsOfCover<T>(s: seq<T>, vs: seq<T>)
    requires Distinct(vs)
    requires forall i :: 0 <= i < |s| ==> s[i] in vs
    ensures Sum(CountsOf(s, vs)) == |s|
    decreases |s|
  {
    if |s| == 0 {
      SumOfZeros(CountsOf(s, vs));
    } else {
      var n := |s| - 1;
      assert CountsOf(s, vs) == AddPointwise(CountsOf(s[..n], vs), Indicator(vs, s[n]));
      SumAddPointwise(CountsOf(s[..n], vs), Indicator(vs, s[n]));
      SumOfIndicator(vs, s[n]);
      CountOfDistinct(vs, s[n]);
      SumCountsOfCover(s[..n], vs);
    }
  }

  /** numpy's `ravel` of a two-dimensional array: the rows concatenated. */
  function Ravel<T>(m: seq<seq<T>>): (r: seq<T>)
  {
    if |m| == 0 then [] else m[0] + Ravel(m[1..])
  }

  /** A matrix with `width` columns ravels to |m| * width cells. */
  lemma {:induction false} RavelLength<T>(m: seq<seq<T>>, width: nat)
    requires forall i :: 0 <= i < |m| ==> |m[i]| == width
    ensures |Ravel(m)| == |m| * width
    decreases |m|
  {
    if |m| > 0 {
      RavelLength(m[1..], width);
    }
  }

  /** The total of each row. */
  function RowTotals(m: seq<seq<int>>): (r: seq<int>)
    ensures |r| == |m|
  {
    seq(|m|, i requires 0 <= i < |m| => Sum(m[i]))
  }

  /** Summing the raveled cells is summing the row totals. */
  lemma {:induction false} SumRavel(m: seq<seq<int>>)
    ensures Sum(Ravel(m)) == Sum(RowTotals(m))
    decreases |m|
  {
    if |m| > 0 {
      SumRavel(m[1..]);
      SumConcat(m[0], Ravel(m[1..]));
      assert RowTotals(m) == [Sum(m[0])] + RowTotals(m[1..]);
      SumConcat([Sum(m[0])], RowTotals(m[1..]));
      assert [Sum(m[0])][..0] == [];
    }
  }

  /** Sums of short sequences, element by element. */
  lemma SumOfShort(s: seq<int>)
    requires 1 <= |s| <= 4
    ensures |s| == 1 ==> Sum(s) == s[0]
    ensures |s| == 2 ==> Sum(s) == s[0] + s[1]
    ensures |s| == 4 ==> Sum(s) == s[0] + s[1] + s[2] + s[3]
  {
    if |s| == 4 {
      assert s[..3][..2][..1][..0] == [];
    } else if |s| == 2 {
      assert s[..1][..0] == [];
    } else if |s| == 1 {
      assert s[..0] == [];
    }
  }
}
