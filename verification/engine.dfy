/**
 * The Monte Carlo pricer for geometric Brownian motion.
 *
 * The pricer validates its configuration, simulates `paths` independent
 * paths (each from its own standard generator seeded with `seed + i`, with
 * an optional antithetic twin), reduces six per-path sums, and, with the
 * control variate on, runs two more passes over the same paths.  It then
 * clamps a marginally negative variance to zero and rejects non-finite
 * results.
 *
 * Randomness and the analytic Black-Scholes price are parameters: the k-th
 * standard normal draw of the generator seeded with `s` is `normal(s, k)`,
 * and `bsCall` is the closed-form call price for the configuration.
 */
module Engine {
  import opened Float
  import opened Errors
  import opened Payoffs
  import opened Variance

  datatype McConfig = McConfig(
    paths: nat,
    steps: nat,
    s0: F64,
    r: F64,
    sigma: F64,
    t: F64,
    useAntithetic: bool,
    useControlVariate: bool,
    seed: nat,
    payoff: Payoff,
    epsilon: Option<F64>)

  /** Everything outside the configuration the pricer depends on. */
  datatype Env = Env(m: MathLib, normal: (nat, nat) -> real, bsCall: F64)

  // ---------------------------------------------------------------------
  // Validation.

  const EpsilonShare: F64 := Fin(0.1)

  /** The epsilon bound `eps > s0 * 0.1` rejects, stated without IEEE
      comparisons for values that passed the positivity guards. */
  predicate EpsilonSmallEnough(eps: F64, s0: F64) {
    eps.NaN? || s0.NaN? || s0.PosInf? || (eps.Fin? && s0.Fin? && eps.val <= s0.val * 0.1)
  }

  predicate ValidConfig(c: McConfig) {
    && 1 <= c.paths <= MaxPaths
    && 1 <= c.steps <= MaxSteps
    && PositiveOrNaN(c.s0)
    && c.r.Fin?
    && PositiveOrNaN(c.sigma)
    && PositiveOrNaN(c.t)
    && (c.epsilon.Some? ==> PositiveOrNaN(c.epsilon.value) && EpsilonSmallEnough(c.epsilon.value, c.s0))
  }

  /** `McConfig::validate`: the guards in order, the first failure wins. */
  function Validate(c: McConfig): (result: Result<()>)
    ensures result.Ok? <==> ValidConfig(c)
    ensures !(1 <= c.paths <= MaxPaths) ==> result == ValidatePaths(c.paths)
    ensures 1 <= c.paths <= MaxPaths && !(1 <= c.steps <= MaxSteps) ==> result == ValidateSteps(c.steps)
    ensures 1 <= c.paths <= MaxPaths && 1 <= c.steps <= MaxSteps && result.Err? ==>
              result.error.InvalidParameters?
  {
    var _ :- ValidatePaths(c.paths);
    var _ :- ValidateSteps(c.steps);
    var _ :- ValidatePositive("s0", c.s0);
    var _ :- ValidateFinite("r", c.r);
    var _ :- ValidatePositive("sigma", c.sigma);
    var _ :- ValidatePositive("t", c.t);
    match c.epsilon
    case None => Ok(())
    case Some(eps) =>
      var _ :- ValidatePositive("epsilon", eps);
      if Gt(eps, Mul(c.s0, EpsilonShare)) then
        Err(InvalidParameters("epsilon", eps, "should be much smaller than spot price"))
      else
        Ok(())
  }

  // ---------------------------------------------------------------------
  // One path.

  const TwoPow64: nat := 0x1_0000_0000_0000_0000

  /** The seed of path i, `seed + i` on 64-bit words (wrapping, as in a
      release build). */
  function PathSeed(seed: nat, i: nat): (s: nat)
    ensures s < TwoPow64
    ensures seed + i < TwoPow64 ==> s == seed + i
  {
    (seed + i) % TwoPow64
  }

  /** `count` draws of one generator starting at draw `from`, each
      multiplied by `sign` (the antithetic twin uses -1). */
  function Normals(env: Env, seed: nat, from: nat, count: nat, sign: real): (zs: seq<F64>)
    ensures |zs| == count
    ensures forall j :: 0 <= j < count ==> zs[j] == Draw(env, seed, from + j, sign)
  {
    seq(count, (j: int) requires 0 <= j < count => Draw(env, seed, from + j, sign))
  }

  /** Draw k of the generator seeded with `seed`, times `sign`. */
  function Draw(env: Env, seed: nat, k: nat, sign: real): F64 {
    Fin(sign * env.normal(seed, k))
  }

  /** The drift of the log-price per unit time, `r - 0.5 * sigma * sigma`. */
  function LogDrift(c: McConfig): F64 {
    Sub(c.r, Mul(Mul(Half, c.sigma), c.sigma))
  }

  /** The exact GBM growth factor over `dt` for the draw z. */
  function Growth(c: McConfig, m: MathLib, dt: F64, sqrtDt: F64, z: F64): F64 {
    Exp(m, Add(Mul(LogDrift(c), dt), Mul(Mul(c.sigma, sqrtDt), z)))
  }

  /** The price path `[s0, s1, ..., s_steps]` driven by the draws `zs`. */
  function Trajectory(c: McConfig, m: MathLib, dt: F64, sqrtDt: F64, zs: seq<F64>): (path: seq<F64>)
    ensures |path| == |zs| + 1 && path[0] == c.s0
    ensures forall j :: 0 <= j < |zs| ==> path[j + 1] == Mul(path[j], Growth(c, m, dt, sqrtDt, zs[j]))
    decreases |zs|
  {
    if |zs| == 0 then [c.s0]
    else
      var prefix := Trajectory(c, m, dt, sqrtDt, zs[..|zs| - 1]);
      prefix + [Mul(prefix[|prefix| - 1], Growth(c, m, dt, sqrtDt, zs[|zs| - 1]))]
  }

  /** The control of a path: the European call itself, or for the Asian
      call a European call on the terminal price alone. */
  function Control(p: Payoff, path: seq<F64>): (x: F64)
    requires |path| > 0
    ensures NonNeg(x)
    ensures !(p.EuropeanCall? || p.AsianCall?) ==> x == Zero
  {
    match p
    case EuropeanCall(k) => Calculate(EuropeanCall(k), path)
    case AsianCall(k) => Calculate(EuropeanCall(k), [path[|path| - 1]])
    case _ => Zero
  }

  /** The analytic price that goes with the control (0 without one). */
  function Analytic(p: Payoff, env: Env): (a: F64)
    ensures !(p.EuropeanCall? || p.AsianCall?) ==> a == Zero
  {
    if p.EuropeanCall? || p.AsianCall? then env.bsCall else Zero
  }

  /** The per-path pair (payoff, control) every pass recomputes. */
  datatype Sample = Sample(payoff: F64, control: F64)

  function Average(a: F64, b: F64): F64 {
    Mul(Half, Add(a, b))
  }

  lemma AverageNonNeg(a: F64, b: F64)
    requires NonNeg(a) && NonNeg(b)
    ensures NonNeg(Average(a, b))
  {
    NonNegAdd(a, b);
    NonNegMul(Add(a, b), Half);
    assert Mul(Half, Add(a, b)) == Mul(Add(a, b), Half);
  }

  /** Path i: the first trajectory uses draws 0 .. steps-1 of the path's
      generator; the antithetic one the next `steps` draws, negated. */
  function PathSample(c: McConfig, env: Env, dt: F64, sqrtDt: F64, i: nat): (s: Sample)
    ensures NonNeg(s.payoff) && NonNeg(s.control)
    ensures !(c.payoff.EuropeanCall? || c.payoff.AsianCall?) ==> s.control == Zero
  {
    var seed := PathSeed(c.seed, i);
    var path := Trajectory(c, env.m, dt, sqrtDt, Normals(env, seed, 0, c.steps, 1.0));
    var y1 := Calculate(c.payoff, path);
    var x1 := Control(c.payoff, path);
    if !c.useAntithetic then Sample(y1, x1)
    else
      var twin := Trajectory(c, env.m, dt, sqrtDt, Normals(env, seed, c.steps, c.steps, -1.0));
      var y2 := Calculate(c.payoff, twin);
      var x2 := Control(c.payoff, twin);
      AverageNonNeg(y1, y2);
      AverageNonNeg(x1, x2);
      assert !(c.payoff.EuropeanCall? || c.payoff.AsianCall?) ==> Average(x1, x2) == Zero;
      Sample(Average(y1, y2), Average(x1, x2))
  }

  /** The values of a draw sequence with their signs flipped. */
  function Negated(zs: seq<F64>): seq<F64> {
    seq(|zs|, (j: int) requires 0 <= j < |zs| => Neg(zs[j]))
  }

  /** One stream of 2n draws splits into the first n and the next n, and
      the twin's n draws are that second block negated. */
  lemma TwinUsesSecondBlock(env: Env, seed: nat, n: nat)
    ensures Normals(env, seed, 0, 2 * n, 1.0) == Normals(env, seed, 0, n, 1.0) + Normals(env, seed, n, n, 1.0)
    ensures Normals(env, seed, n, n, -1.0) == Negated(Normals(env, seed, 0, 2 * n, 1.0)[n..])
  {
    var whole := Normals(env, seed, 0, 2 * n, 1.0);
    var first := Normals(env, seed, 0, n, 1.0);
    var second := Normals(env, seed, n, n, 1.0);
    forall k | 0 <= k < 2 * n
      ensures whole[k] == (first + second)[k]
    {
      if k >= n {
        assert (first + second)[k] == second[k - n];
      }
    }
    var twin := Normals(env, seed, n, n, -1.0);
    forall j | 0 <= j < n
      ensures twin[j] == Negated(whole[n..])[j]
    {
      assert whole[n..][j] == whole[n + j];
    }
  }

  /** Path i's sample read off its stream of 2 * steps draws: the first
      trajectory runs on the first `steps` draws.  Without antithetic
      sampling the sample is its payoff and control; with it, the twin runs
      on the next `steps` draws negated, and the sample is the average of
      the two payoffs and of the two controls. */
  lemma PathSampleFromStream(c: McConfig, env: Env, dt: F64, sqrtDt: F64, i: nat)
    ensures var stream := Normals(env, PathSeed(c.seed, i), 0, 2 * c.steps, 1.0);
            var first := Trajectory(c, env.m, dt, sqrtDt, stream[..c.steps]);
            var twin := Trajectory(c, env.m, dt, sqrtDt, Negated(stream[c.steps..]));
            var s := PathSample(c, env, dt, sqrtDt, i);
            if c.useAntithetic then
              && s.payoff == Average(Calculate(c.payoff, first), Calculate(c.payoff, twin))
              && s.control == Average(Control(c.payoff, first), Control(c.payoff, twin))
            else
              s == Sample(Calculate(c.payoff, first), Control(c.payoff, first))
  {
    var seed := PathSeed(c.seed, i);
    var stream := Normals(env, seed, 0, 2 * c.steps, 1.0);
    TwinUsesSecondBlock(env, seed, c.steps);
    assert stream[..c.steps] == Normals(env, seed, 0, c.steps, 1.0);
  }

  // ---------------------------------------------------------------------
  // Reductions.

  /** The six running sums of the first pass. */
  datatype Sums = Sums(payoff: F64, control: F64, payoffControl: F64,
                       controlSq: F64, analytic: F64, payoffSq: F64)

  const NoSums: Sums := Sums(Zero, Zero, Zero, Zero, Zero, Zero)

  /** The reduction's combining step: componentwise addition. */
  function Plus(a: Sums, b: Sums): Sums {
    Sums(Add(a.payoff, b.payoff), Add(a.control, b.control), Add(a.payoffControl, b.payoffControl),
         Add(a.controlSq, b.controlSq), Add(a.analytic, b.analytic), Add(a.payoffSq, b.payoffSq))
  }

  /** The tuple one path contributes. */
  function Contribution(s: Sample, analytic: F64): Sums {
    Sums(s.payoff, s.control, Mul(s.payoff, s.control), Mul(s.control, s.control),
         analytic, Mul(s.payoff, s.payoff))
  }

  /** The sum of f(lo) .. f(hi-1), folded from the left. */
  function SumOver(f: nat -> F64, lo: nat, hi: nat): F64
    requires lo <= hi
    decreases hi - lo
  {
    if lo == hi then Zero else Add(SumOver(f, lo, hi - 1), f(hi - 1))
  }

  function SumsOver(f: nat -> Sums, lo: nat, hi: nat): Sums
    requires lo <= hi
    decreases hi - lo
  {
    if lo == hi then NoSums else Plus(SumsOver(f, lo, hi - 1), f(hi - 1))
  }

  lemma PlusAssoc(a: Sums, b: Sums, c: Sums)
    ensures Plus(Plus(a, b), c) == Plus(a, Plus(b, c))
  {
    AddAssoc(a.payoff, b.payoff, c.payoff);
    AddAssoc(a.control, b.control, c.control);
    AddAssoc(a.payoffControl, b.payoffControl, c.payoffControl);
    AddAssoc(a.controlSq, b.controlSq, c.controlSq);
    AddAssoc(a.analytic, b.analytic, c.analytic);
    AddAssoc(a.payoffSq, b.payoffSq, c.payoffSq);
  }

  lemma PlusNoSums(a: Sums)
    ensures Plus(a, NoSums) == a && Plus(NoSums, a) == a
  {
    AddZero(a.payoff);
    AddZero(a.control);
    AddZero(a.payoffControl);
    AddZero(a.controlSq);
    AddZero(a.analytic);
    AddZero(a.payoffSq);
  }

  /** Splitting the index range anywhere and combining the halves gives the
      same sums, so the order in which a parallel reduction combines its
      pieces does not matter (finite values add exactly in this model). */
  lemma {:induction false} SumsSplit(f: nat -> Sums, lo: nat, mid: nat, hi: nat)
    requires lo <= mid <= hi
    ensures SumsOver(f, lo, hi) == Plus(SumsOver(f, lo, mid), SumsOver(f, mid, hi))
    decreases hi - mid
  {
    if mid == hi {
      PlusNoSums(SumsOver(f, lo, mid));
    } else {
      SumsSplit(f, lo, mid, hi - 1);
      RegroupLast(SumsOver(f, lo, hi), SumsOver(f, lo, hi - 1), SumsOver(f, mid, hi),
                  SumsOver(f, lo, mid), SumsOver(f, mid, hi - 1), f(hi - 1));
    }
  }

  /** One step of `SumsSplit`: moving the last term into the right half. */
  lemma RegroupLast(whole: Sums, init: Sums, right: Sums, a: Sums, b: Sums, x: Sums)
    requires whole == Plus(init, x) && init == Plus(a, b) && right == Plus(b, x)
    ensures whole == Plus(a, right)
  {
    PlusAssoc(a, b, x);
  }

  lemma {:induction false} SumSplit(f: nat -> F64, lo: nat, mid: nat, hi: nat)
    requires lo <= mid <= hi
    ensures SumOver(f, lo, hi) == Add(SumOver(f, lo, mid), SumOver(f, mid, hi))
    decreases hi - mid
  {
    if mid == hi {
      AddZero(SumOver(f, lo, mid));
    } else {
      SumSplit(f, lo, mid, hi - 1);
      AddAssoc(SumOver(f, lo, mid), SumOver(f, mid, hi - 1), f(hi - 1));
    }
  }

  /** The tuple reduction is six independent sums, one per component. */
  lemma {:induction false} SumsComponentwise(f: nat -> Sums, lo: nat, hi: nat)
    requires lo <= hi
    ensures SumsOver(f, lo, hi).payoff == SumOver((i: nat) => f(i).payoff, lo, hi)
    ensures SumsOver(f, lo, hi).control == SumOver((i: nat) => f(i).control, lo, hi)
    ensures SumsOver(f, lo, hi).payoffControl == SumOver((i: nat) => f(i).payoffControl, lo, hi)
    ensures SumsOver(f, lo, hi).controlSq == SumOver((i: nat) => f(i).controlSq, lo, hi)
    ensures SumsOver(f, lo, hi).analytic == SumOver((i: nat) => f(i).analytic, lo, hi)
    ensures SumsOver(f, lo, hi).payoffSq == SumOver((i: nat) => f(i).payoffSq, lo, hi)
    decreases hi - lo
  {
    if lo < hi {
      SumsComponentwise(f, lo, hi - 1);
    }
  }

  /** Sums of pointwise equal terms are equal. */
  lemma {:induction false} SumOverCongruent(f: nat -> F64, g: nat -> F64, lo: nat, hi: nat)
    requires lo <= hi
    requires forall i :: lo <= i < hi ==> f(i) == g(i)
    ensures SumOver(f, lo, hi) == SumOver(g, lo, hi)
    decreases hi - lo
  {
    if lo < hi {
      SumOverCongruent(f, g, lo, hi - 1);
    }
  }

  /** A sum of zeros is zero. */
  lemma {:induction false} SumOfZeros(f: nat -> F64, lo: nat, hi: nat)
    requires lo <= hi
    requires forall i :: lo <= i < hi ==> f(i) == Zero
    ensures SumOver(f, lo, hi) == Zero
    decreases hi - lo
  {
    if lo < hi {
      SumOfZeros(f, lo, hi - 1);
      assert f(hi - 1) == Zero;
      AddZero(Zero);
    }
  }

  // ---------------------------------------------------------------------
  // Post-processing.

  const CvThreshold: F64 := Fin(0.0000000001)
  const VarianceTolerance: F64 := Fin(-0.0000000001)

  /** b = cov / var when the control's variance exceeds 1e-10, else 0. */
  function CvCoefficient(cov: F64, varControl: F64): (b: F64)
    ensures !Gt(varControl, CvThreshold) ==> b == Zero
    ensures varControl.Fin? && varControl.val > 0.0000000001 ==> b == Div(cov, varControl)
    ensures cov.Fin? ==> b.Fin?
  {
    if Gt(varControl, CvThreshold) then Div(cov, varControl) else Zero
  }

  /** The controlled estimator of one path. */
  function Controlled(discount: F64, b: F64, s: Sample, meanAnalytic: F64): F64 {
    Mul(discount, Sub(s.payoff, Mul(b, Sub(s.control, meanAnalytic))))
  }

  /** The negative-variance clamp: (-1e-10, 0) becomes 0, anything at or
      below -1e-10 is an error; NaN passes unchanged. */
  function ClampVariance(methodName: string, v: F64): (r: Result<F64>)
    ensures r.Err? <==> v.NegInf? || (v.Fin? && v.val <= -0.0000000001)
    ensures r.Err? ==> r.error.NumericalInstability? && r.error.methodName == methodName
    ensures r.Ok? && v.Fin? ==> r.value == Fin(if v.val < 0.0 then 0.0 else v.val)
    ensures r.Ok? && !v.Fin? ==> r.value == v
  {
    if Lt(v, Zero) then
      if Gt(v, VarianceTolerance) then Ok(Zero)
      else Err(NumericalInstability(methodName, "Variance estimate became significantly negative"))
    else Ok(v)
  }

  /** The final checks: clamp, then a finite price, then a finite
      variance. */
  function Finalize(methodName: string, price: F64, variance: F64): (r: Result<(F64, F64)>)
    ensures r.Ok? <==> price.Fin? && variance.Fin? && variance.val > -0.0000000001
    ensures r.Ok? ==> r.value.0 == price && r.value.1.Fin? && r.value.1.val >= 0.0
    ensures r.Ok? ==> r.value.1.val == (if variance.val < 0.0 then 0.0 else variance.val)
    ensures r.Err? ==> r.error.NumericalInstability?
  {
    var v :- ClampVariance(methodName, variance);
    if !IsFinite(price) then
      Err(NumericalInstability("Monte Carlo", "Price estimate is not finite"))
    else if !IsFinite(v) then
      Err(NumericalInstability("Monte Carlo", "Variance estimate is not finite"))
    else
      Ok((price, v))
  }

  // ---------------------------------------------------------------------
  // The pricer.

  /** The quantities the three passes share. */
  function TimeStep(c: McConfig): F64 { Div(c.t, FromNat(c.steps)) }

  function Discount(c: McConfig, m: MathLib): F64 { Exp(m, Mul(Neg(c.r), c.t)) }

  function SampleOf(c: McConfig, env: Env): nat -> Sample {
    var dt := TimeStep(c);
    (i: nat) => PathSample(c, env, dt, Sqrt(env.m, dt), i)
  }

  function FirstPass(c: McConfig, env: Env): Sums {
    var sample := SampleOf(c, env);
    var analytic := Analytic(c.payoff, env);
    SumsOver((i: nat) => Contribution(sample(i), analytic), 0, c.paths)
  }

  function MeanOf(total: F64, n: nat): F64 { Div(total, FromNat(n)) }

  /** The control-variate coefficient computed from the first pass. */
  function Coefficient(c: McConfig, env: Env): F64 {
    CoefficientFrom(FirstPass(c, env), c.paths)
  }

  function CoefficientFrom(sums: Sums, n: nat): F64 {
    var meanPayoff := MeanOf(sums.payoff, n);
    var meanControl := MeanOf(sums.control, n);
    var cov := Sub(MeanOf(sums.payoffControl, n), Mul(meanPayoff, meanControl));
    var varControl := Sub(MeanOf(sums.controlSq, n), Mul(meanControl, meanControl));
    CvCoefficient(cov, varControl)
  }

  /** Where the control is centred.  As written, on the first-pass mean of
      the analytic price, which is a discounted price although the control
      is an undiscounted payoff; corrected, on that price grown back by the
      discount factor, the control's expectation under the simulation. */
  function ControlCentre(discount: F64, meanAnalytic: F64, corrected: bool): F64 {
    if corrected then Div(meanAnalytic, discount) else meanAnalytic
  }

  /** The controlled estimator of path i (second and third passes). */
  function ControlledTerm(c: McConfig, env: Env, corrected: bool): nat -> F64 {
    var b := Coefficient(c, env);
    var discount := Discount(c, env.m);
    var centre := ControlCentre(discount, MeanOf(FirstPass(c, env).analytic, c.paths), corrected);
    var sample := SampleOf(c, env);
    (i: nat) => Controlled(discount, b, sample(i), centre)
  }

  /** The price: the mean controlled term, or the discounted mean payoff. */
  function PointEstimate(c: McConfig, env: Env, corrected: bool): F64 {
    var n := c.paths;
    if c.useControlVariate then MeanOf(SumOver(ControlledTerm(c, env, corrected), 0, n), n)
    else Mul(Discount(c, env.m), MeanOf(FirstPass(c, env).payoff, n))
  }

  /** The population variance of the per-path estimator, mean(x^2) - mean^2,
      the numerator of both variance formulas. */
  function Spread(c: McConfig, env: Env, corrected: bool): F64 {
    var n := c.paths;
    if c.useControlVariate then
      var term := ControlledTerm(c, env, corrected);
      var mean := MeanOf(SumOver(term, 0, n), n);
      var meanSq := MeanOf(SumOver((i: nat) => Square(term(i)), 0, n), n);
      Sub(meanSq, Mul(mean, mean))
    else
      var sums := FirstPass(c, env);
      var meanPayoff := MeanOf(sums.payoff, n);
      var meanPayoffSq := MeanOf(sums.payoffSq, n);
      Mul(Sub(meanPayoffSq, Mul(meanPayoff, meanPayoff)), Square(Discount(c, env.m)))
  }

  /** The price and the variance before the final checks. */
  function Estimate(c: McConfig, env: Env, corrected: bool, divisor: F64): (F64, F64) {
    (PointEstimate(c, env, corrected), Div(Spread(c, env, corrected), divisor))
  }

  /** The estimate as the pricer computes it. */
  function RawEstimate(c: McConfig, env: Env): (F64, F64) {
    Estimate(c, env, false, WrittenDivisor(c.paths))
  }

  /** The estimate with the control centred on its own expectation and the
      unbiased variance of the mean. */
  function CorrectedEstimate(c: McConfig, env: Env): (F64, F64) {
    Estimate(c, env, true, CorrectedDivisor(c.paths))
  }

  function MethodName(c: McConfig): string {
    if c.useControlVariate then "Control Variate Monte Carlo" else "Monte Carlo"
  }

  /** `mc_price_option_gbm`. */
  function Price(c: McConfig, env: Env): (r: Result<(F64, F64)>)
    ensures Validate(c).Err? ==> r == Err(Validate(c).error)
    ensures r.Ok? ==> ValidConfig(c)
    ensures r.Ok? ==> r.value.0.Fin? && r.value.1.Fin? && r.value.1.val >= 0.0
    ensures r.Err? && ValidConfig(c) ==> r.error.NumericalInstability?
  {
    var _ :- Validate(c);
    var (price, variance) := RawEstimate(c, env);
    Finalize(MethodName(c), price, variance)
  }

  /** The pricer with the unbiased variance of the mean; same checks. */
  function PriceCorrected(c: McConfig, env: Env): (r: Result<(F64, F64)>)
    ensures Validate(c).Err? ==> r == Err(Validate(c).error)
    ensures r.Ok? ==> ValidConfig(c)
    ensures r.Ok? ==> r.value.0.Fin? && r.value.1.Fin? && r.value.1.val >= 0.0
    ensures r.Err? && ValidConfig(c) ==> r.error.NumericalInstability?
  {
    var _ :- Validate(c);
    var (price, variance) := CorrectedEstimate(c, env);
    Finalize(MethodName(c), price, variance)
  }

  /** With a single path the variance divides by n (n - 1) = 0, which is
      never finite. */
  lemma SinglePathVarianceNotFinite(c: McConfig, env: Env)
    requires c.paths == 1
    ensures !RawEstimate(c, env).1.Fin?
  {
    WrittenDivisorOfOnePath();
    DivByZeroNotFinite(Spread(c, env, false));
  }

  /** So the pricer always fails with a single path. */
  lemma SinglePathAlwaysFails(c: McConfig, env: Env)
    requires c.paths == 1
    ensures Price(c, env).Err?
  {
    SinglePathVarianceNotFinite(c, env);
  }

  /** Without a control the first pass sums zero controls, zero squared
      controls and zero analytic prices. */
  lemma FirstPassWithoutControl(c: McConfig, env: Env)
    requires !(c.payoff.EuropeanCall? || c.payoff.AsianCall?)
    ensures FirstPass(c, env).control == Zero
    ensures FirstPass(c, env).controlSq == Zero
    ensures FirstPass(c, env).analytic == Zero
  {
    var sample := SampleOf(c, env);
    var analytic := Analytic(c.payoff, env);
    var f := (j: nat) => Contribution(sample(j), analytic);
    assert FirstPass(c, env) == SumsOver(f, 0, c.paths);
    var dt := TimeStep(c);
    forall j: nat | 0 <= j < c.paths
      ensures f(j).control == Zero && f(j).controlSq == Zero && f(j).analytic == Zero
    {
      assert sample(j) == PathSample(c, env, dt, Sqrt(env.m, dt), j);
      assert sample(j).control == Zero;
    }
    ZeroControlSums(f, c.paths);
  }

  /** Contributions with no control and no analytic price sum to none. */
  lemma ZeroControlSums(f: nat -> Sums, n: nat)
    requires forall j :: 0 <= j < n ==> f(j).control == Zero && f(j).controlSq == Zero && f(j).analytic == Zero
    ensures SumsOver(f, 0, n).control == Zero
    ensures SumsOver(f, 0, n).controlSq == Zero
    ensures SumsOver(f, 0, n).analytic == Zero
  {
    SumsComponentwise(f, 0, n);
    SumOfZeros((j: nat) => f(j).control, 0, n);
    SumOfZeros((j: nat) => f(j).controlSq, 0, n);
    SumOfZeros((j: nat) => f(j).analytic, 0, n);
  }

  lemma MeanOfZero(n: nat)
    requires n >= 1
    ensures MeanOf(Zero, n) == Zero
  {
  }

  lemma CoefficientWithoutControl(sums: Sums, n: nat)
    requires sums.control == Zero && sums.controlSq == Zero && n >= 1
    ensures CoefficientFrom(sums, n) == Zero
  {
    MeanOfZero(n);
  }

  lemma ControlledWithoutControl(discount: F64, s: Sample)
    requires s.control == Zero && NonNeg(s.payoff)
    ensures Controlled(discount, Zero, s, Zero) == Mul(discount, s.payoff)
  {
    SubZero(Zero);
    ZeroTimesFinite(Zero);
    SubZero(s.payoff);
  }

  /** For payoffs without a control (puts and barriers) the coefficient is
      0 and each controlled term is the discounted payoff. */
  lemma ControlVariateInert(c: McConfig, env: Env, i: nat)
    requires !(c.payoff.EuropeanCall? || c.payoff.AsianCall?)
    requires c.paths >= 1
    ensures Coefficient(c, env) == Zero
    ensures ControlledTerm(c, env, false)(i) == Mul(Discount(c, env.m), SampleOf(c, env)(i).payoff)
  {
    FirstPassWithoutControl(c, env);
    CoefficientWithoutControl(FirstPass(c, env), c.paths);
    MeanOfZero(c.paths);
    var dt := TimeStep(c);
    var s := SampleOf(c, env)(i);
    assert s == PathSample(c, env, dt, Sqrt(env.m, dt), i);
    ControlledWithoutControl(Discount(c, env.m), s);
  }
  // ---------------------------------------------------------------------
  // The European call as its own control.

  /** For the European call the control is the payoff itself, on both
      trajectories. */
  lemma EuropeanCallSelfControl(c: McConfig, env: Env, i: nat)
    requires c.payoff.EuropeanCall?
    ensures SampleOf(c, env)(i).control == SampleOf(c, env)(i).payoff
  {
    var dt := TimeStep(c);
    assert SampleOf(c, env)(i) == PathSample(c, env, dt, Sqrt(env.m, dt), i);
  }

  /** So the first pass's control sums repeat its payoff sums. */
  lemma SelfControlSums(c: McConfig, env: Env)
    requires c.payoff.EuropeanCall?
    ensures FirstPass(c, env).control == FirstPass(c, env).payoff
    ensures FirstPass(c, env).controlSq == FirstPass(c, env).payoffControl
  {
    var sample := SampleOf(c, env);
    var analytic := Analytic(c.payoff, env);
    var f := (j: nat) => Contribution(sample(j), analytic);
    assert FirstPass(c, env) == SumsOver(f, 0, c.paths);
    forall j: nat | 0 <= j < c.paths
      ensures f(j).control == f(j).payoff && f(j).controlSq == f(j).payoffControl
    {
      EuropeanCallSelfControl(c, env, j);
    }
    RepeatedControlSums(f, c.paths);
  }

  /** Contributions whose control repeats the payoff sum to the same. */
  lemma RepeatedControlSums(f: nat -> Sums, n: nat)
    requires forall j :: 0 <= j < n ==> f(j).control == f(j).payoff && f(j).controlSq == f(j).payoffControl
    ensures SumsOver(f, 0, n).control == SumsOver(f, 0, n).payoff
    ensures SumsOver(f, 0, n).controlSq == SumsOver(f, 0, n).payoffControl
  {
    SumsComponentwise(f, 0, n);
    SumOverCongruent((j: nat) => f(j).control, (j: nat) => f(j).payoff, 0, n);
    SumOverCongruent((j: nat) => f(j).controlSq, (j: nat) => f(j).payoffControl, 0, n);
  }

  /** The sample variance of the control that the coefficient divides by. */
  function ControlVariance(sums: Sums, n: nat): F64 {
    var meanControl := MeanOf(sums.control, n);
    Sub(MeanOf(sums.controlSq, n), Mul(meanControl, meanControl))
  }

  /** The control variance is finite and above the 1e-10 threshold. */
  predicate ControlVaries(c: McConfig, env: Env) {
    var v := ControlVariance(FirstPass(c, env), c.paths);
    v.Fin? && v.val > 0.0000000001
  }

  /** A control equal to the payoff, whose variance clears the threshold,
      gets the coefficient 1 exactly. */
  lemma PerfectControlCoefficient(sums: Sums, n: nat)
    requires sums.control == sums.payoff && sums.controlSq == sums.payoffControl
    requires ControlVariance(sums, n).Fin? && ControlVariance(sums, n).val > 0.0000000001
    ensures CoefficientFrom(sums, n) == One
  {
    var v := ControlVariance(sums, n);
    var meanControl := MeanOf(sums.control, n);
    assert MeanOf(sums.payoff, n) == meanControl;
    assert MeanOf(sums.payoffControl, n) == MeanOf(sums.controlSq, n);
    assert CoefficientFrom(sums, n) == CvCoefficient(v, v);
    assert Div(v, v) == One by {
      assert v.val / v.val == 1.0;
    }
  }

  /** n copies of a finite value sum to n times it. */
  lemma {:induction false} SumOfConstant(f: nat -> F64, n: nat, a: F64)
    requires a.Fin?
    requires forall i :: 0 <= i < n ==> f(i) == a
    ensures SumOver(f, 0, n) == Fin((n as real) * a.val)
  {
    if n > 0 {
      SumOfConstant(f, n - 1, a);
      assert f(n - 1) == a;
      assert ((n - 1) as real) * a.val + a.val == (n as real) * a.val;
    }
  }

  /** The mean of a sum of n >= 1 copies of a finite value is that value. */
  lemma MeanOfCopies(total: F64, n: nat, a: F64)
    requires a.Fin? && n >= 1 && total == Fin((n as real) * a.val)
    ensures MeanOf(total, n) == a
  {
  }

  /** Every path contributes the same analytic price, so its mean is that
      price. */
  lemma AnalyticMean(c: McConfig, env: Env)
    requires c.payoff.EuropeanCall? && c.paths >= 1 && env.bsCall.Fin?
    ensures MeanOf(FirstPass(c, env).analytic, c.paths) == env.bsCall
  {
    var sample := SampleOf(c, env);
    var analytic := Analytic(c.payoff, env);
    var f := (j: nat) => Contribution(sample(j), analytic);
    assert FirstPass(c, env) == SumsOver(f, 0, c.paths);
    assert analytic == env.bsCall;
    forall j: nat | 0 <= j < c.paths
      ensures f(j).analytic == env.bsCall
    {
      assert f(j) == Contribution(sample(j), analytic);
    }
    ConstantAnalyticMean(f, c.paths, env.bsCall);
  }

  /** Summed contributions whose analytic parts all equal one finite value
      have that value as their analytic mean. */
  lemma ConstantAnalyticMean(f: nat -> Sums, n: nat, a: F64)
    requires n >= 1 && a.Fin?
    requires forall j :: 0 <= j < n ==> f(j).analytic == a
    ensures MeanOf(SumsOver(f, 0, n).analytic, n) == a
  {
    SumsComponentwise(f, 0, n);
    MeanOfConstantTerms((i: nat) => f(i).analytic, n, a);
  }

  /** With b = 1 and a control equal to the payoff, a controlled term is
      the discounted centre, whatever the payoff. */
  lemma SelfControlledTerm(discount: F64, s: Sample, centre: F64)
    requires s.control == s.payoff && s.payoff.Fin? && centre.Fin? && discount.Fin?
    ensures Controlled(discount, One, s, centre) == Fin(discount.val * centre.val)
  {
    SubFinite(s.control, centre);
    SubFinite(s.payoff, Mul(One, Sub(s.control, centre)));
  }

  lemma RegrowDiscounted(d: F64, a: F64)
    requires d.Fin? && a.Fin? && d.val != 0.0
    ensures Div(a, d).Fin? && d.val * Div(a, d).val == a.val
  {
  }

  /** A self-controlled term with b = 1, under either centring. */
  lemma SelfControlledCentres(d: F64, b: F64, s: Sample, meanAnalytic: F64, a: F64)
    requires b == One && s.control == s.payoff && s.payoff.Fin?
    requires meanAnalytic == a && a.Fin? && d.Fin? && d.val != 0.0
    ensures Controlled(d, b, s, ControlCentre(d, meanAnalytic, false)) == Fin(d.val * a.val)
    ensures Controlled(d, b, s, ControlCentre(d, meanAnalytic, true)) == a
  {
    SelfControlledTerm(d, s, meanAnalytic);
    RegrowDiscounted(d, meanAnalytic);
    SelfControlledTerm(d, s, Div(meanAnalytic, d));
  }

  lemma ControlledTermAt(c: McConfig, env: Env, corrected: bool, i: nat)
    ensures var d := Discount(c, env.m);
            ControlledTerm(c, env, corrected)(i)
            == Controlled(d, Coefficient(c, env), SampleOf(c, env)(i),
                          ControlCentre(d, MeanOf(FirstPass(c, env).analytic, c.paths), corrected))
  {
  }

  /** The European call priced with its own control, whose variance clears
      the threshold, with a finite analytic price and a finite non-zero
      discount factor. */
  predicate PerfectControl(c: McConfig, env: Env) {
    && c.payoff.EuropeanCall? && c.useControlVariate && c.paths >= 1
    && ControlVaries(c, env) && env.bsCall.Fin?
    && Discount(c, env.m).Fin? && Discount(c, env.m).val != 0.0
  }

  /** What the European call's control makes of the coefficient, the
      centre and the path's sample. */
  lemma SelfControlFacts(c: McConfig, env: Env, i: nat)
    requires PerfectControl(c, env)
    ensures Coefficient(c, env) == One
    ensures MeanOf(FirstPass(c, env).analytic, c.paths) == env.bsCall
    ensures SampleOf(c, env)(i).control == SampleOf(c, env)(i).payoff
  {
    SelfControlSums(c, env);
    PerfectControlCoefficient(FirstPass(c, env), c.paths);
    AnalyticMean(c, env);
    EuropeanCallSelfControl(c, env, i);
  }

  /** A controlled term with the perfect-control facts in hand, under either
      centring. */
  lemma PerfectTerm(term: F64, corrected: bool, d: F64, b: F64, s: Sample, meanAnalytic: F64, a: F64)
    requires term == Controlled(d, b, s, ControlCentre(d, meanAnalytic, corrected))
    requires b == One && s.control == s.payoff && s.payoff.Fin?
    requires meanAnalytic == a && a.Fin? && d.Fin? && d.val != 0.0
    ensures term == if corrected then a else Mul(d, a)
  {
    SelfControlledCentres(d, b, s, meanAnalytic, a);
  }

  /** As written, each controlled term of the European call is the
      analytic price discounted once more. */
  lemma EuropeanTermWritten(c: McConfig, env: Env, i: nat)
    requires PerfectControl(c, env) && SampleOf(c, env)(i).payoff.Fin?
    ensures ControlledTerm(c, env, false)(i) == Mul(Discount(c, env.m), env.bsCall)
  {
    SelfControlFacts(c, env, i);
    ControlledTermAt(c, env, false, i);
    PerfectTerm(ControlledTerm(c, env, false)(i), false, Discount(c, env.m), Coefficient(c, env),
                SampleOf(c, env)(i), MeanOf(FirstPass(c, env).analytic, c.paths), env.bsCall);
  }

  /** Centred on the control's own expectation, each term is the analytic
      price. */
  lemma EuropeanTermCorrected(c: McConfig, env: Env, i: nat)
    requires PerfectControl(c, env) && SampleOf(c, env)(i).payoff.Fin?
    ensures ControlledTerm(c, env, true)(i) == env.bsCall
  {
    SelfControlFacts(c, env, i);
    ControlledTermAt(c, env, true, i);
    PerfectTerm(ControlledTerm(c, env, true)(i), true, Discount(c, env.m), Coefficient(c, env),
                SampleOf(c, env)(i), MeanOf(FirstPass(c, env).analytic, c.paths), env.bsCall);
  }

  /** Every path's payoff is finite. */
  predicate FinitePayoffs(c: McConfig, env: Env) {
    forall j :: 0 <= j < c.paths ==> SampleOf(c, env)(j).payoff.Fin?
  }

  /** The mean of n >= 1 terms that all equal one finite value is that
      value. */
  lemma MeanOfConstantTerms(f: nat -> F64, n: nat, a: F64)
    requires n >= 1 && a.Fin?
    requires forall i :: 0 <= i < n ==> f(i) == a
    ensures MeanOf(SumOver(f, 0, n), n) == a
  {
    SumOfConstant(f, n, a);
    MeanOfCopies(SumOver(f, 0, n), n, a);
  }

  /** The European call priced with the control variate, as written: the
      price is the analytic price discounted a second time, e^{-rT} times
      the Black-Scholes price. */
  lemma EuropeanControlVariatePrice(c: McConfig, env: Env)
    requires PerfectControl(c, env) && FinitePayoffs(c, env)
    ensures PointEstimate(c, env, false) == Mul(Discount(c, env.m), env.bsCall)
  {
    var written := ControlledTerm(c, env, false);
    forall j | 0 <= j < c.paths
      ensures written(j) == Mul(Discount(c, env.m), env.bsCall)
    {
      EuropeanTermWritten(c, env, j);
    }
    MeanOfConstantTerms(written, c.paths, Mul(Discount(c, env.m), env.bsCall));
  }

  /** With the control centred on its own expectation, the price is the
      Black-Scholes price exactly. */
  lemma EuropeanControlVariatePriceCorrected(c: McConfig, env: Env)
    requires PerfectControl(c, env) && FinitePayoffs(c, env)
    ensures PointEstimate(c, env, true) == env.bsCall
  {
    var corrected := ControlledTerm(c, env, true);
    forall j | 0 <= j < c.paths
      ensures corrected(j) == env.bsCall
    {
      EuropeanTermCorrected(c, env, j);
    }
    MeanOfConstantTerms(corrected, c.paths, env.bsCall);
  }

  // ---------------------------------------------------------------------
  // The variance of the mean (see the Variance module).

  /** The pricer's variance is the unbiased one divided by the path count;
      the price is unaffected. */
  lemma VarianceUnderstatedByPathCount(c: McConfig, env: Env)
    requires c.paths >= 2 && RawEstimate(c, env).1.Fin?
    ensures Estimate(c, env, false, CorrectedDivisor(c.paths)).0 == RawEstimate(c, env).0
    ensures Estimate(c, env, false, CorrectedDivisor(c.paths)).1
            == Mul(FromNat(c.paths), RawEstimate(c, env).1)
  {
    var price := PointEstimate(c, env, false);
    var spread := Spread(c, env, false);
    assert RawEstimate(c, env) == (price, Div(spread, WrittenDivisor(c.paths)));
    assert Estimate(c, env, false, CorrectedDivisor(c.paths)) == (price, Div(spread, CorrectedDivisor(c.paths)));
    DivisorRescale(spread, c.paths);
  }

  // ---------------------------------------------------------------------
  // The variance against the per-path terms.

  /** The values of n finite terms, as a sample. */
  function Values(f: nat -> F64, n: nat): (xs: seq<real>)
    requires forall i :: 0 <= i < n ==> f(i).Fin?
    ensures |xs| == n
  {
    seq(n, (i: int) requires 0 <= i < n => f(i).val)
  }

  /** Finite terms sum exactly to the sum of their values. */
  lemma {:induction false} FiniteSum(f: nat -> F64, n: nat)
    requires forall i :: 0 <= i < n ==> f(i).Fin?
    ensures SumOver(f, 0, n) == Fin(RealSum(Values(f, n)))
  {
    if n > 0 {
      FiniteSum(f, n - 1);
      assert Values(f, n)[..n - 1] == Values(f, n - 1);
    }
  }

  /** The squares of finite terms sum to their sum of squares. */
  lemma {:induction false} FiniteSquareSum(f: nat -> F64, sq: nat -> F64, n: nat)
    requires forall i :: 0 <= i < n ==> f(i).Fin? && sq(i) == Square(f(i))
    ensures SumOver(sq, 0, n) == Fin(SquareSum(Values(f, n)))
  {
    if n > 0 {
      FiniteSquareSum(f, sq, n - 1);
      assert Values(f, n)[..n - 1] == Values(f, n - 1);
    }
  }

  /** The pricer's means of finite terms are the sample's mean and mean
      square. */
  lemma {:induction false} TermStatistics(f: nat -> F64, sq: nat -> F64, n: nat)
    requires n >= 1
    requires forall i :: 0 <= i < n ==> f(i).Fin? && sq(i) == Square(f(i))
    ensures MeanOf(SumOver(f, 0, n), n) == Fin(SampleMean(Values(f, n)))
    ensures MeanOf(SumOver(sq, 0, n), n) == Fin(SampleMeanSquare(Values(f, n)))
  {
    FiniteSum(f, n);
    FiniteSquareSum(f, sq, n);
  }

  /** mean(x^2) - mean^2 of finite terms over either divisor, against the
      unbiased variance of their mean. */
  lemma {:induction false} FiniteTermVariances(f: nat -> F64, sq: nat -> F64, n: nat, spread: F64)
    requires n >= 2
    requires forall i :: 0 <= i < n ==> f(i).Fin? && sq(i) == Square(f(i))
    requires spread == Sub(MeanOf(SumOver(sq, 0, n), n),
                           Mul(MeanOf(SumOver(f, 0, n), n), MeanOf(SumOver(f, 0, n), n)))
    ensures Div(spread, CorrectedDivisor(n)) == Fin(UnbiasedVarianceOfMean(Values(f, n)))
    ensures Div(spread, WrittenDivisor(n)) == Fin(UnbiasedVarianceOfMean(Values(f, n)) / (n as real))
  {
    TermStatistics(f, sq, n);
    SpreadOverDivisors(Values(f, n), n, spread);
  }

  /** The same for payoffs whose spread the pricer scales by d^2 instead of
      computing it from the discounted terms d * payoff. */
  lemma {:induction false} DiscountedTermVariances(p: nat -> F64, psq: nat -> F64, dp: nat -> F64, d: F64, n: nat, spread: F64)
    requires n >= 2 && d.Fin?
    requires forall i :: 0 <= i < n ==> p(i).Fin? && psq(i) == Square(p(i)) && dp(i) == Mul(d, p(i)) && dp(i).Fin?
    requires spread == Mul(Sub(MeanOf(SumOver(psq, 0, n), n),
                               Mul(MeanOf(SumOver(p, 0, n), n), MeanOf(SumOver(p, 0, n), n))),
                           Square(d))
    ensures Div(spread, CorrectedDivisor(n)) == Fin(UnbiasedVarianceOfMean(Values(dp, n)))
    ensures Div(spread, WrittenDivisor(n)) == Fin(UnbiasedVarianceOfMean(Values(dp, n)) / (n as real))
  {
    var ys := Values(p, n);
    var zs := Values(dp, n);
    TermStatistics(p, psq, n);
    ScaledValues(p, dp, d, n);
    DiscountedSpread(ys, zs, d, spread, MeanOf(SumOver(psq, 0, n), n), MeanOf(SumOver(p, 0, n), n));
    SpreadOverDivisors(zs, n, spread);
  }

  /** Terms d * p(i) have the values of the p(i) scaled by d. */
  lemma {:induction false} ScaledValues(p: nat -> F64, dp: nat -> F64, d: F64, n: nat)
    requires d.Fin?
    requires forall i :: 0 <= i < n ==> p(i).Fin? && dp(i) == Mul(d, p(i)) && dp(i).Fin?
    ensures forall k :: 0 <= k < n ==> Values(dp, n)[k] == d.val * Values(p, n)[k]
  {
    forall k | 0 <= k < n
      ensures Values(dp, n)[k] == d.val * Values(p, n)[k]
    {
      assert dp(k) == Mul(d, p(k));
    }
  }

  /** A spread scaled by d^2 is the spread of the sample scaled by d. */
  lemma {:induction false} DiscountedSpread(ys: seq<real>, zs: seq<real>, d: F64, spread: F64, meanSq: F64, mean: F64)
    requires |ys| >= 1 && |zs| == |ys| && d.Fin?
    requires forall k :: 0 <= k < |ys| ==> zs[k] == d.val * ys[k]
    requires meanSq == Fin(SampleMeanSquare(ys)) && mean == Fin(SampleMean(ys))
    requires spread == Mul(Sub(meanSq, Mul(mean, mean)), Square(d))
    ensures spread == Sub(Fin(SampleMeanSquare(zs)), Mul(Fin(SampleMean(zs)), Fin(SampleMean(zs))))
  {
    ScaledStatistics(ys, d.val, zs);
    ScaledSpreadF64(SampleMeanSquare(ys), SampleMean(ys), d, SampleMeanSquare(zs), SampleMean(zs));
  }

  /** The pricer's discounted spread is the spread of the discounted
      sample. */
  lemma ScaledSpreadF64(q: real, m: real, d: F64, zq: real, zm: real)
    requires d.Fin? && zq == d.val * d.val * q && zm == d.val * m
    ensures Mul(Sub(Fin(q), Mul(Fin(m), Fin(m))), Square(d)) == Sub(Fin(zq), Mul(Fin(zm), Fin(zm)))
  {
    SubFinite(Fin(q), Mul(Fin(m), Fin(m)));
    SubFinite(Fin(zq), Mul(Fin(zm), Fin(zm)));
    ScaledSpread(q, m, d.val);
  }

  /** With the control variate, the pricer's variance over either divisor
      against the unbiased variance of the mean of its controlled terms. */
  lemma ControlledVariances(c: McConfig, env: Env, corrected: bool)
    requires c.useControlVariate && c.paths >= 2
    requires forall i :: 0 <= i < c.paths ==> ControlledTerm(c, env, corrected)(i).Fin?
    ensures var xs := Values(ControlledTerm(c, env, corrected), c.paths);
            && Estimate(c, env, corrected, CorrectedDivisor(c.paths)).1 == Fin(UnbiasedVarianceOfMean(xs))
            && Estimate(c, env, corrected, WrittenDivisor(c.paths)).1
               == Fin(UnbiasedVarianceOfMean(xs) / (c.paths as real))
  {
    var n := c.paths;
    var term := ControlledTerm(c, env, corrected);
    var sq := (i: nat) => Square(term(i));
    assert Spread(c, env, corrected)
           == Sub(MeanOf(SumOver(sq, 0, n), n), Mul(MeanOf(SumOver(term, 0, n), n), MeanOf(SumOver(term, 0, n), n)));
    FiniteTermVariances(term, sq, n, Spread(c, env, corrected));
  }

  /** The per-path estimator without the control variate: the discounted
      payoff. */
  function DiscountedPayoff(c: McConfig, env: Env): nat -> F64 {
    var d := Discount(c, env.m);
    var sample := SampleOf(c, env);
    (i: nat) => Mul(d, sample(i).payoff)
  }

  /** Without the control variate, the pricer's variance over either divisor
      against the unbiased variance of the mean of the discounted payoffs. */
  lemma PlainVariances(c: McConfig, env: Env, corrected: bool)
    requires !c.useControlVariate && c.paths >= 2
    requires FinitePayoffs(c, env) && Discount(c, env.m).Fin?
    ensures forall i :: 0 <= i < c.paths ==> DiscountedPayoff(c, env)(i).Fin?
    ensures var xs := Values(DiscountedPayoff(c, env), c.paths);
            && Estimate(c, env, corrected, CorrectedDivisor(c.paths)).1 == Fin(UnbiasedVarianceOfMean(xs))
            && Estimate(c, env, corrected, WrittenDivisor(c.paths)).1
               == Fin(UnbiasedVarianceOfMean(xs) / (c.paths as real))
  {
    var n := c.paths;
    var d := Discount(c, env.m);
    var sample := SampleOf(c, env);
    var analytic := Analytic(c.payoff, env);
    var f := (j: nat) => Contribution(sample(j), analytic);
    assert FirstPass(c, env) == SumsOver(f, 0, n);
    forall i | 0 <= i < n
      ensures f(i).payoff.Fin? && f(i).payoffSq == Square(f(i).payoff)
      ensures DiscountedPayoff(c, env)(i) == Mul(d, f(i).payoff) && DiscountedPayoff(c, env)(i).Fin?
    {
      assert f(i).payoff == sample(i).payoff;
    }
    PayoffSumVariances(f, DiscountedPayoff(c, env), d, n, Spread(c, env, corrected));
  }

  /** `DiscountedTermVariances` for the payoff components of a reduction. */
  lemma {:induction false} PayoffSumVariances(f: nat -> Sums, dp: nat -> F64, d: F64, n: nat, spread: F64)
    requires n >= 2 && d.Fin?
    requires forall i :: 0 <= i < n ==>
               f(i).payoff.Fin? && f(i).payoffSq == Square(f(i).payoff) && dp(i) == Mul(d, f(i).payoff) && dp(i).Fin?
    requires spread == Mul(Sub(MeanOf(SumsOver(f, 0, n).payoffSq, n),
                               Mul(MeanOf(SumsOver(f, 0, n).payoff, n), MeanOf(SumsOver(f, 0, n).payoff, n))),
                           Square(d))
    ensures Div(spread, CorrectedDivisor(n)) == Fin(UnbiasedVarianceOfMean(Values(dp, n)))
    ensures Div(spread, WrittenDivisor(n)) == Fin(UnbiasedVarianceOfMean(Values(dp, n)) / (n as real))
  {
    PayoffSums(f, n);
    DiscountedTermVariances((i: nat) => f(i).payoff, (i: nat) => f(i).payoffSq, dp, d, n, spread);
  }

  /** The payoff and squared-payoff sums of a reduction. */
  lemma {:induction false} PayoffSums(f: nat -> Sums, n: nat)
    ensures SumsOver(f, 0, n).payoff == SumOver((i: nat) => f(i).payoff, 0, n)
    ensures SumsOver(f, 0, n).payoffSq == SumOver((i: nat) => f(i).payoffSq, 0, n)
  {
    SumsComponentwise(f, 0, n);
  }

  /** The corrected pricer's variance is the unbiased variance of the mean
      of the per-path estimator; the written one is that value over n. */
  lemma CorrectedVarianceIsUnbiased(c: McConfig, env: Env)
    requires c.paths >= 2
    requires c.useControlVariate ==> forall i :: 0 <= i < c.paths ==> ControlledTerm(c, env, true)(i).Fin?
    requires !c.useControlVariate ==> FinitePayoffs(c, env) && Discount(c, env.m).Fin?
    ensures c.useControlVariate ==>
              CorrectedEstimate(c, env).1 == Fin(UnbiasedVarianceOfMean(Values(ControlledTerm(c, env, true), c.paths)))
    ensures !c.useControlVariate ==>
              && (forall i :: 0 <= i < c.paths ==> DiscountedPayoff(c, env)(i).Fin?)
              && CorrectedEstimate(c, env).1 == Fin(UnbiasedVarianceOfMean(Values(DiscountedPayoff(c, env), c.paths)))
              && RawEstimate(c, env).1
                 == Fin(UnbiasedVarianceOfMean(Values(DiscountedPayoff(c, env), c.paths)) / (c.paths as real))
  {
    if c.useControlVariate {
      ControlledVariances(c, env, true);
    } else {
      PlainVariances(c, env, true);
      PlainVariances(c, env, false);
    }
  }
}
