/** The three ways a metric file's column is reduced to one number:
    pandas `sum`, `mean` and `max` over the column, all samples included. */
module Reductions {
  import opened Floats

  /** pandas `Series.sum()`: 0 for no samples, the sample itself for one. */
  function Sum(xs: seq<real>): (s: real)
    ensures |xs| == 0 ==> s == 0.0
    ensures |xs| == 1 ==> s == xs[0]
  {
    if |xs| == 0 then 0.0
    else
      var n := |xs| - 1;
      Sum(xs[..n]) + xs[n]
  }

  /** The largest sample of a non-empty column. */
  function Largest(xs: seq<real>): (m: real)
    requires |xs| > 0
    ensures m in xs
    ensures forall i :: 0 <= i < |xs| ==> xs[i] <= m
  {
    if |xs| == 1 then xs[0]
    else
      var p := Largest(xs[..|xs| - 1]);
      if xs[|xs| - 1] > p then xs[|xs| - 1] else p
  }

  /** The smallest sample of a non-empty column. */
  function Smallest(xs: seq<real>): (m: real)
    requires |xs| > 0
    ensures m in xs
    ensures forall i :: 0 <= i < |xs| ==> m <= xs[i]
  {
    if |xs| == 1 then xs[0]
    else
      var p := Smallest(xs[..|xs| - 1]);
      if xs[|xs| - 1] < p then xs[|xs| - 1] else p
  }

  /** Summing a concatenation sums the parts. */
  lemma {:induction false} SumAppend(a: seq<real>, b: seq<real>)
    ensures Sum(a + b) == Sum(a) + Sum(b)
    decreases |b|
  {
    if |b| == 0 {
      assert a + b == a;
    } else {
      var b' := b[..|b| - 1];
      assert (a + b)[..|a + b| - 1] == a + b';
      SumAppend(a, b');
    }
  }

  /** A sum of samples that all lie in [lo, hi] lies in [n*lo, n*hi]. */
  lemma {:induction false} SumBetween(xs: seq<real>, lo: real, hi: real)
    requires forall i :: 0 <= i < |xs| ==> lo <= xs[i] <= hi
    ensures |xs| as real * lo <= Sum(xs) <= |xs| as real * hi
  {
    if |xs| > 0 {
      var p := xs[..|xs| - 1];
      assert forall i :: 0 <= i < |p| ==> p[i] == xs[i];
      SumBetween(p, lo, hi);
    }
  }

  /** Dividing a value in [n*lo, n*hi] by a positive n lands in [lo, hi]. */
  lemma QuotientBetween(s: real, n: real, lo: real, hi: real)
    requires n > 0.0
    requires n * lo <= s <= n * hi
    ensures lo <= s / n <= hi
  {
    var q := s / n;
    assert q * n == s;
  }

  /** pandas `Series.mean()`: NaN for no samples, otherwise the value that
      times the number of samples gives their sum; it lies between the
      smallest and the largest sample. */
  function Mean(xs: seq<real>): (m: Scalar)
    ensures m.NaN? <==> |xs| == 0
    ensures m.Fin? ==> m.r * |xs| as real == Sum(xs)
    ensures m.Fin? ==> Smallest(xs) <= m.r <= Largest(xs)
  {
    if |xs| == 0 then NaN
    else
      var n := |xs| as real;
      SumBetween(xs, Smallest(xs), Largest(xs));
      QuotientBetween(Sum(xs), n, Smallest(xs), Largest(xs));
      assert (Sum(xs) / n) * n == Sum(xs);
      Fin(Sum(xs) / n)
  }

  /** pandas `Series.max()`: NaN for no samples, otherwise a sample that no
      other sample exceeds. */
  function Max(xs: seq<real>): (m: Scalar)
    ensures m.NaN? <==> |xs| == 0
    ensures m.Fin? ==> m.r in xs && forall i :: 0 <= i < |xs| ==> xs[i] <= m.r
  {
    if |xs| == 0 then NaN else Fin(Largest(xs))
  }

  /** The mean of a column whose samples all agree is that common value. */
  lemma MeanOfConstant(xs: seq<real>, c: real)
    requires |xs| > 0
    requires forall i :: 0 <= i < |xs| ==> xs[i] == c
    ensures Mean(xs) == Fin(c)
  {
    var lo := Smallest(xs);
    var hi := Largest(xs);
    assert lo == c && hi == c;
  }
}
