/**
 * The variance of a Monte Carlo mean.
 *
 * The pricer divides the population variance of its per-path estimator,
 * mean(x^2) - mean(x)^2, by n (n - 1).  The unbiased variance of the mean
 * divides the same quantity by n - 1, which is the sum of squared
 * deviations over n (n - 1).  The written estimate is therefore smaller by
 * the factor n.
 */
module Variance {
  import opened Float
  import opened Payoffs

  /** The variance divisor the pricer uses, n (n - 1), applied to the
      population variance of the per-path estimator. */
  function WrittenDivisor(n: nat): F64 { Mul(FromNat(n), Sub(FromNat(n), One)) }

  lemma WrittenDivisorOfOnePath()
    ensures WrittenDivisor(1) == Zero
  {
  }

  /** The divisor that makes the same quantity the unbiased variance of the
      mean: n - 1. */
  function CorrectedDivisor(n: nat): F64 { Sub(FromNat(n), One) }

  /** The sum of squares of a sample. */
  function SquareSum(xs: seq<real>): real
    decreases |xs|
  {
    if |xs| == 0 then 0.0 else SquareSum(xs[..|xs| - 1]) + xs[|xs| - 1] * xs[|xs| - 1]
  }

  /** The sum of squared deviations of a sample from `c`. */
  function DeviationSquareSum(xs: seq<real>, c: real): real
    decreases |xs|
  {
    if |xs| == 0 then 0.0
    else DeviationSquareSum(xs[..|xs| - 1], c) + (xs[|xs| - 1] - c) * (xs[|xs| - 1] - c)
  }

  /** Expanding the square: sum (x - c)^2 = sum x^2 - 2 c sum x + n c^2. */
  lemma {:induction false} DeviationExpansion(xs: seq<real>, c: real)
    ensures DeviationSquareSum(xs, c)
            == SquareSum(xs) - 2.0 * c * RealSum(xs) + (|xs| as real) * c * c
    decreases |xs|
  {
    if |xs| > 0 {
      var init := xs[..|xs| - 1];
      var x := xs[|xs| - 1];
      DeviationExpansion(init, c);
      assert (x - c) * (x - c) == x * x - 2.0 * c * x + c * c;
      assert (|xs| as real) * c * c == (|init| as real) * c * c + c * c;
    }
  }

  /** The algebra behind `DeviationsAboutMean`, with m = s / n. */
  lemma AboutMeanAlgebra(d: real, q: real, s: real, n: real, m: real, meanSq: real)
    requires n > 0.0 && m == s / n && meanSq == q / n
    requires d == q - 2.0 * m * s + n * m * m
    ensures d == n * (meanSq - m * m)
  {
    assert s == n * m;
    assert 2.0 * m * s == 2.0 * n * (m * m);
    assert n * (q / n) == q;
  }

  function SampleMean(xs: seq<real>): real
    requires |xs| >= 1
  {
    RealSum(xs) / (|xs| as real)
  }

  function SampleMeanSquare(xs: seq<real>): real
    requires |xs| >= 1
  {
    SquareSum(xs) / (|xs| as real)
  }

  /** About the mean, the squared deviations sum to n (mean(x^2) - mean^2). */
  lemma {:induction false} DeviationsAboutMean(xs: seq<real>)
    requires |xs| >= 1
    ensures DeviationSquareSum(xs, SampleMean(xs))
            == (|xs| as real) * (SampleMeanSquare(xs) - SampleMean(xs) * SampleMean(xs))
  {
    DeviationExpansion(xs, SampleMean(xs));
    AboutMeanAlgebra(DeviationSquareSum(xs, SampleMean(xs)), SquareSum(xs), RealSum(xs),
                     |xs| as real, SampleMean(xs), SampleMeanSquare(xs));
  }

  /** A fraction is unchanged when both its terms are scaled by n. */
  lemma ScaleFraction(a: real, n: real, k: real)
    requires n != 0.0 && k != 0.0
    ensures a / k == (n * a) / (n * k)
  {
    assert (n * a) / (n * k) * (n * k) == n * a;
    assert (a / k) * (n * k) == n * a;
  }

  /** n (n - 1), the number of ordered pairs of distinct paths. */
  function Pairs(n: nat): (r: real)
    ensures n >= 2 ==> r > 0.0
  {
    assert n >= 2 ==> n as real - 1.0 >= 1.0;
    (n as real) * (n as real - 1.0)
  }

  /** The numerator over each divisor, when n times it is the deviation sum. */
  lemma DivisorsOverDeviations(p: real, d: real, n: nat)
    requires n >= 2 && d == (n as real) * p
    ensures p / (n as real - 1.0) == d / Pairs(n)
    ensures p / Pairs(n) == d / Pairs(n) / (n as real)
  {
    var k := n as real;
    ScaleFraction(p, k, k - 1.0);
    ScaleFraction(p, k, Pairs(n));
    assert d / Pairs(n) / k == d / (k * Pairs(n));
  }

  /** The two divisors as values. */
  lemma Divisors(n: nat)
    ensures CorrectedDivisor(n) == Fin(n as real - 1.0)
    ensures WrittenDivisor(n) == Fin(Pairs(n))
  {
    SubFinite(FromNat(n), One);
  }

  /** The variance of a mean from the mean square and the mean of a sample,
      over a divisor. */
  function VarianceOfMean(meanSq: F64, mean: F64, divisor: F64): F64 {
    Div(Sub(meanSq, Mul(mean, mean)), divisor)
  }

  lemma VarianceOfMeanFinite(meanSq: F64, mean: F64, divisor: F64)
    requires meanSq.Fin? && mean.Fin? && divisor.Fin? && divisor.val != 0.0
    ensures VarianceOfMean(meanSq, mean, divisor)
            == Fin((meanSq.val - mean.val * mean.val) / divisor.val)
  {
    SubFinite(meanSq, Mul(mean, mean));
  }

  /** The variance of the mean over a finite, non-zero divisor. */
  lemma ValueOver(meanSq: real, mean: real, divisor: F64, d: real)
    requires divisor == Fin(d) && d != 0.0
    ensures VarianceOfMean(Fin(meanSq), Fin(mean), divisor) == Fin((meanSq - mean * mean) / d)
  {
    VarianceOfMeanFinite(Fin(meanSq), Fin(mean), divisor);
  }

  lemma CorrectedValue(meanSq: real, mean: real, n: nat)
    requires n >= 2
    ensures VarianceOfMean(Fin(meanSq), Fin(mean), CorrectedDivisor(n))
            == Fin((meanSq - mean * mean) / (n as real - 1.0))
  {
    Divisors(n);
    ValueOver(meanSq, mean, CorrectedDivisor(n), n as real - 1.0);
  }

  lemma WrittenValue(meanSq: real, mean: real, n: nat)
    requires n >= 2
    ensures VarianceOfMean(Fin(meanSq), Fin(mean), WrittenDivisor(n))
            == Fin((meanSq - mean * mean) / Pairs(n))
  {
    Divisors(n);
    ValueOver(meanSq, mean, WrittenDivisor(n), Pairs(n));
  }

  /** Both formulas in terms of a deviation sum d = n (meanSq - mean^2). */
  lemma FormulasOverDeviations(meanSq: real, mean: real, d: real, n: nat)
    requires n >= 2 && d == (n as real) * (meanSq - mean * mean)
    ensures VarianceOfMean(Fin(meanSq), Fin(mean), CorrectedDivisor(n)) == Fin(d / Pairs(n))
    ensures VarianceOfMean(Fin(meanSq), Fin(mean), WrittenDivisor(n))
            == Fin(d / Pairs(n) / (n as real))
  {
    CorrectedValue(meanSq, mean, n);
    WrittenValue(meanSq, mean, n);
    DivisorsOverDeviations(meanSq - mean * mean, d, n);
  }

  /** The textbook unbiased estimate of the variance of a sample's mean:
      the squared deviations from the mean over n (n - 1). */
  function UnbiasedVarianceOfMean(xs: seq<real>): real
    requires |xs| >= 2
  {
    DeviationSquareSum(xs, SampleMean(xs)) / Pairs(|xs|)
  }

  /** From a sample's mean square and mean, the corrected divisor yields the
      textbook unbiased variance of the mean, and the written divisor yields
      that value over n. */
  lemma {:induction false} VarianceOfMeanFormulas(xs: seq<real>)
    requires |xs| >= 2
    ensures VarianceOfMean(Fin(SampleMeanSquare(xs)), Fin(SampleMean(xs)), CorrectedDivisor(|xs|))
            == Fin(UnbiasedVarianceOfMean(xs))
    ensures VarianceOfMean(Fin(SampleMeanSquare(xs)), Fin(SampleMean(xs)), WrittenDivisor(|xs|))
            == Fin(UnbiasedVarianceOfMean(xs) / (|xs| as real))
  {
    DeviationsAboutMean(xs);
    FormulasOverDeviations(SampleMeanSquare(xs), SampleMean(xs),
                           DeviationSquareSum(xs, SampleMean(xs)), |xs|);
  }

  /** A spread equal to mean(x^2) - mean^2 of a sample, over either
      divisor. */
  lemma {:induction false} SpreadOverDivisors(xs: seq<real>, n: nat, spread: F64)
    requires |xs| == n && n >= 2
    requires spread == Sub(Fin(SampleMeanSquare(xs)), Mul(Fin(SampleMean(xs)), Fin(SampleMean(xs))))
    ensures Div(spread, CorrectedDivisor(n)) == Fin(UnbiasedVarianceOfMean(xs))
    ensures Div(spread, WrittenDivisor(n)) == Fin(UnbiasedVarianceOfMean(xs) / (n as real))
  {
    VarianceOfMeanFormulas(xs);
  }

  /** Scaling every value of a sample by d scales its sum by d. */
  lemma {:induction false} ScaledSum(ys: seq<real>, d: real, zs: seq<real>)
    requires |zs| == |ys|
    requires forall k :: 0 <= k < |ys| ==> zs[k] == d * ys[k]
    ensures RealSum(zs) == d * RealSum(ys)
    decreases |ys|
  {
    if |ys| > 0 {
      var k := |ys| - 1;
      ScaledSum(ys[..k], d, zs[..k]);
      assert RealSum(zs) == RealSum(zs[..k]) + zs[k];
      assert RealSum(ys) == RealSum(ys[..k]) + ys[k];
    }
  }

  /** ... and its sum of squares by d^2. */
  lemma {:induction false} ScaledSquareSum(ys: seq<real>, d: real, zs: seq<real>)
    requires |zs| == |ys|
    requires forall k :: 0 <= k < |ys| ==> zs[k] == d * ys[k]
    ensures SquareSum(zs) == d * d * SquareSum(ys)
    decreases |ys|
  {
    if |ys| > 0 {
      var k := |ys| - 1;
      assert forall j :: 0 <= j < k ==> zs[..k][j] == d * ys[..k][j];
      ScaledSquareSum(ys[..k], d, zs[..k]);
      ScaledSquareStep(SquareSum(zs[..k]), SquareSum(ys[..k]), ys[k], zs[k], d);
    }
  }

  /** One step of `ScaledSquareSum`. */
  lemma ScaledSquareStep(a: real, b: real, y: real, z: real, d: real)
    requires a == d * d * b && z == d * y
    ensures a + z * z == d * d * (b + y * y)
  {
    assert z * z == d * d * (y * y);
  }

  /** The mean and the mean square of a sample scaled by d. */
  lemma {:induction false} ScaledStatistics(ys: seq<real>, d: real, zs: seq<real>)
    requires |ys| >= 1 && |zs| == |ys|
    requires forall k :: 0 <= k < |ys| ==> zs[k] == d * ys[k]
    ensures SampleMean(zs) == d * SampleMean(ys)
    ensures SampleMeanSquare(zs) == d * d * SampleMeanSquare(ys)
  {
    ScaledSum(ys, d, zs);
    ScaledSquareSum(ys, d, zs);
    TimesFraction(d, RealSum(ys), |ys| as real);
    TimesFraction(d * d, SquareSum(ys), |ys| as real);
  }

  /** The numerator of the variance of a scaled sample. */
  lemma ScaledSpread(q: real, m: real, d: real)
    ensures (q - m * m) * (d * d) == d * d * q - (d * m) * (d * m)
  {
  }

  /** Any finite variance the written divisor produces, the corrected divisor
      multiplies by n. */
  lemma DivisorRescale(x: F64, n: nat)
    requires n >= 2 && Div(x, WrittenDivisor(n)).Fin?
    ensures Div(x, CorrectedDivisor(n)) == Mul(FromNat(n), Div(x, WrittenDivisor(n)))
  {
    var k := n as real;
    Divisors(n);
    assert x.Fin?;
    ScaleFraction(x.val, k, k - 1.0);
    TimesFraction(k, x.val, Pairs(n));
  }

  lemma TimesFraction(k: real, a: real, b: real)
    requires b != 0.0
    ensures (k * a) / b == k * (a / b)
  {
  }

  lemma DivisorsOfTwoPaths()
    ensures WrittenDivisor(2) == Two && CorrectedDivisor(2) == One
  {
    Divisors(2);
  }

  lemma TwoPathWritten()
    ensures VarianceOfMean(Fin(2.0), One, WrittenDivisor(2)) == Half
  {
    DivisorsOfTwoPaths();
    VarianceOfMeanFinite(Fin(2.0), One, Two);
  }

  lemma TwoPathCorrected()
    ensures VarianceOfMean(Fin(2.0), One, CorrectedDivisor(2)) == One
  {
    DivisorsOfTwoPaths();
    VarianceOfMeanFinite(Fin(2.0), One, One);
  }

  lemma TwoPathDeviations()
    ensures DeviationSquareSum([0.0, 2.0], 1.0) == 2.0
  {
    assert [0.0, 2.0][..1] == [0.0];
    assert [0.0][..0] == [];
  }

  /** Two paths paying 0 and 2 (discount 1): mean square 2 and mean 1, so
      the written variance of the mean is 1/2, while the textbook one, the
      squared deviations 1 + 1 over n (n - 1) = 2, is 1. */
  lemma TwoPathVarianceExample()
    ensures VarianceOfMean(Fin(2.0), One, WrittenDivisor(2)) == Half
    ensures VarianceOfMean(Fin(2.0), One, CorrectedDivisor(2)) == One
    ensures DeviationSquareSum([0.0, 2.0], 1.0) / 2.0 == 1.0
  {
    TwoPathWritten();
    TwoPathCorrected();
    TwoPathDeviations();
  }
}
