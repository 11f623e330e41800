/**
 * The pathwise Greeks of a European call under GBM, and Gamma as a
 * central difference of Delta.
 *
 * Each routine simulates the terminal price in one step from the first
 * normal draw of path i's generator (and, with antithetic sampling, from its
 * negation), averages a per-path quantity over the paths and discounts it.
 * Any other payoff makes the routine return 0 straight away.  The Greeks do
 * not validate their configuration.
 */
module Greeks {
  import opened Float
  import opened Errors
  import opened Payoffs
  import opened Engine

  /** The first normal draw of path i. */
  function FirstDraw(c: McConfig, env: Env, i: nat): (z: F64)
    ensures z.Fin?
  {
    Draw(env, PathSeed(c.seed, i), 0, 1.0)
  }

  /** `spot * exp((r - 0.5 sigma^2) t + sigma sqrt(t) z)`. */
  function Terminal(c: McConfig, m: MathLib, spot: F64, z: F64): F64 {
    Mul(spot, Growth(c, m, c.t, Sqrt(m, c.t), z))
  }

  /** The antithetic combination of a path and its twin. */
  function Combine(c: McConfig, a: F64, b: F64): F64 {
    if c.useAntithetic then Average(a, b) else a
  }

  /** The discounted mean of per-path values, `sum / n * discount`. */
  function DiscountedMean(c: McConfig, m: MathLib, f: nat -> F64): F64 {
    Mul(MeanOf(SumOver(f, 0, c.paths), c.paths), Discount(c, m))
  }

  // ---------------------------------------------------------------------
  // Delta.

  /** The pathwise delta `1{S_T > K} S_T / S_0`. */
  function DeltaOfPath(spot: F64, k: F64, st: F64): F64 {
    if Gt(st, k) then Div(st, spot) else Zero
  }

  function DeltaTerm(c: McConfig, env: Env, k: F64, i: nat): F64 {
    var z := FirstDraw(c, env, i);
    Combine(c, DeltaOfPath(c.s0, k, Terminal(c, env.m, c.s0, z)),
               DeltaOfPath(c.s0, k, Terminal(c, env.m, c.s0, Neg(z))))
  }

  /** `mc_delta_european_call_gbm_pathwise`. */
  function Delta(c: McConfig, env: Env): (d: F64)
    ensures !c.payoff.EuropeanCall? ==> d == Zero
    ensures c.payoff.EuropeanCall? && c.paths == 0 ==> d.NaN?
  {
    match c.payoff
    case EuropeanCall(k) => DiscountedMean(c, env.m, (i: nat) => DeltaTerm(c, env, k, i))
    case _ => Zero
  }

  // ---------------------------------------------------------------------
  // Vega.

  /** The log-price exponent as the vega routine writes it, with
      `W_T = sqrt(t) z`. */
  function VegaExponent(c: McConfig, wT: F64): F64 {
    Add(Mul(LogDrift(c), c.t), Mul(c.sigma, wT))
  }

  /** `-sigma t + W_T`, the factor of `dS_T/dsigma = S_T (-sigma t + W_T)`. */
  function VegaFactor(c: McConfig, wT: F64): F64 {
    Add(Mul(Neg(c.sigma), c.t), wT)
  }

  function VegaOfPath(c: McConfig, m: MathLib, k: F64, wT: F64): F64 {
    var st := Mul(c.s0, Exp(m, VegaExponent(c, wT)));
    if Gt(st, k) then Mul(st, VegaFactor(c, wT)) else Zero
  }

  function VegaTerm(c: McConfig, env: Env, k: F64, i: nat): F64 {
    var z := FirstDraw(c, env, i);
    var sqrtT := Sqrt(env.m, c.t);
    Combine(c, VegaOfPath(c, env.m, k, Mul(sqrtT, z)), VegaOfPath(c, env.m, k, Mul(sqrtT, Neg(z))))
  }

  /** `mc_vega_european_call_gbm_pathwise`. */
  function Vega(c: McConfig, env: Env): (v: F64)
    ensures !c.payoff.EuropeanCall? ==> v == Zero
    ensures c.payoff.EuropeanCall? && c.paths == 0 ==> v.NaN?
  {
    match c.payoff
    case EuropeanCall(k) => DiscountedMean(c, env.m, (i: nat) => VegaTerm(c, env, k, i))
    case _ => Zero
  }

  // ---------------------------------------------------------------------
  // Rho.

  /** `-t max(S_T - K, 0) + 1{S_T > K} S_T t`. */
  function RhoOfPath(t: F64, k: F64, st: F64): F64 {
    var indicator := if Gt(st, k) then One else Zero;
    Add(Mul(Neg(t), CallValue(st, k)), Mul(indicator, Mul(st, t)))
  }

  function RhoTerm(c: McConfig, env: Env, k: F64, i: nat): F64 {
    var z := FirstDraw(c, env, i);
    Combine(c, RhoOfPath(c.t, k, Terminal(c, env.m, c.s0, z)),
               RhoOfPath(c.t, k, Terminal(c, env.m, c.s0, Neg(z))))
  }

  /** `mc_rho_european_call_gbm_pathwise`. */
  function Rho(c: McConfig, env: Env): (rho: F64)
    ensures !c.payoff.EuropeanCall? ==> rho == Zero
    ensures c.payoff.EuropeanCall? && c.paths == 0 ==> rho.NaN?
  {
    match c.payoff
    case EuropeanCall(k) => DiscountedMean(c, env.m, (i: nat) => RhoTerm(c, env, k, i))
    case _ => Zero
  }

  // ---------------------------------------------------------------------
  // Gamma.

  const DefaultGammaShare: F64 := Fin(0.001)

  /** `cfg.epsilon.unwrap_or(1e-3 * s0)`. */
  function GammaStep(c: McConfig): (eps: F64)
    ensures c.epsilon.Some? ==> eps == c.epsilon.value
    ensures c.epsilon.None? && c.s0.Fin? ==> eps == Fin(c.s0.val / 1000.0)
  {
    match c.epsilon
    case Some(e) => e
    case None => Mul(DefaultGammaShare, c.s0)
  }

  function WithSpot(c: McConfig, spot: F64): McConfig {
    c.(s0 := spot)
  }

  function CentralDifference(up: F64, down: F64, eps: F64): F64 {
    Div(Sub(up, down), Mul(Two, eps))
  }

  /** `mc_gamma_european_call_gbm_finite_diff`: two full Delta runs with the
      same seeds.  Off the European call both runs return 0, so Gamma is 0;
      a step of 0 or NaN (the Greeks do not validate) divides by 0 or NaN
      and never gives a finite Gamma. */
  function GammaFiniteDiff(c: McConfig, env: Env): (r: F64)
    ensures !c.payoff.EuropeanCall? && !GammaStep(c).NaN? && GammaStep(c) != Zero ==> r == Zero
    ensures GammaStep(c).NaN? || GammaStep(c) == Zero ==> !r.Fin?
  {
    var eps := GammaStep(c);
    var up := Delta(WithSpot(c, Add(c.s0, eps)), env);
    var down := Delta(WithSpot(c, Sub(c.s0, eps)), env);
    if !c.payoff.EuropeanCall? && !eps.NaN? && eps != Zero then
      CentralDifferenceOfZeros(eps);
      CentralDifference(up, down, eps)
    else
      CentralDifference(up, down, eps)
  }

  /** The pair reduction of the batched routine. */
  function PairsOver(f: nat -> (F64, F64), lo: nat, hi: nat): (F64, F64)
    requires lo <= hi
    decreases hi - lo
  {
    if lo == hi then (Zero, Zero)
    else
      var acc := PairsOver(f, lo, hi - 1);
      (Add(acc.0, f(hi - 1).0), Add(acc.1, f(hi - 1).1))
  }

  /** Both deltas of path i from one draw, at the raised and lowered spots. */
  function DeltaPair(c: McConfig, env: Env, k: F64, up: F64, down: F64, i: nat): (F64, F64) {
    var z := FirstDraw(c, env, i);
    var sqrtT := Sqrt(env.m, c.t);
    var g1 := Growth(c, env.m, c.t, sqrtT, z);
    var g2 := Growth(c, env.m, c.t, sqrtT, Neg(z));
    var up1 := DeltaOfPath(up, k, Mul(up, g1));
    var down1 := DeltaOfPath(down, k, Mul(down, g1));
    if c.useAntithetic then
      (Average(up1, DeltaOfPath(up, k, Mul(up, g2))), Average(down1, DeltaOfPath(down, k, Mul(down, g2))))
    else
      (up1, down1)
  }

  /** `mc_gamma_european_call_gbm_finite_diff_batched`. */
  function GammaBatched(c: McConfig, env: Env): (g: F64)
    ensures !c.payoff.EuropeanCall? ==> g == Zero
  {
    match c.payoff
    case EuropeanCall(k) =>
      var eps := GammaStep(c);
      var up := Add(c.s0, eps);
      var down := Sub(c.s0, eps);
      var sums := PairsOver((i: nat) => DeltaPair(c, env, k, up, down, i), 0, c.paths);
      var discount := Discount(c, env.m);
      CentralDifference(Mul(MeanOf(sums.0, c.paths), discount),
                        Mul(MeanOf(sums.1, c.paths), discount), eps)
    case _ => Zero
  }

  // ---------------------------------------------------------------------
  // Properties.

  predicate FinNonNeg(x: F64) { x.Fin? && x.val >= 0.0 }

  /** A sum of finite non-negative terms is finite and non-negative. */
  lemma {:induction false} SumFinNonNeg(f: nat -> F64, lo: nat, hi: nat)
    requires lo <= hi
    requires forall i :: lo <= i < hi ==> FinNonNeg(f(i))
    ensures FinNonNeg(SumOver(f, lo, hi))
    decreases hi - lo
  {
    if lo < hi {
      SumFinNonNeg(f, lo, hi - 1);
      assert FinNonNeg(f(hi - 1));
    }
  }

  /** The configurations under which the simulated prices are finite and
      positive. */
  ghost predicate FiniteMarket(c: McConfig, m: MathLib) {
    && Axioms(m)
    && c.s0.Fin? && c.s0.val > 0.0
    && c.r.Fin? && c.sigma.Fin?
    && c.t.Fin? && c.t.val >= 0.0
  }

  lemma GrowthPositive(c: McConfig, m: MathLib, z: F64)
    requires FiniteMarket(c, m) && z.Fin?
    ensures Growth(c, m, c.t, Sqrt(m, c.t), z).Fin? && Growth(c, m, c.t, Sqrt(m, c.t), z).val > 0.0
  {
    var sqrtT := Sqrt(m, c.t);
    assert sqrtT.Fin?;
    var x := Add(Mul(LogDrift(c), c.t), Mul(Mul(c.sigma, sqrtT), z));
    assert x.Fin?;
    assert Exp(m, x) == Fin(m.exp(x.val));
  }

  lemma TerminalPositive(c: McConfig, m: MathLib, spot: F64, z: F64)
    requires FiniteMarket(c, m) && z.Fin? && spot.Fin? && spot.val > 0.0
    ensures Terminal(c, m, spot, z).Fin? && Terminal(c, m, spot, z).val > 0.0
  {
    GrowthPositive(c, m, z);
    var g := Growth(c, m, c.t, Sqrt(m, c.t), z);
    assert spot.val * g.val > 0.0;
  }

  lemma DeltaOfPathFinNonNeg(spot: F64, k: F64, st: F64)
    requires spot.Fin? && spot.val > 0.0 && st.Fin? && st.val > 0.0
    ensures FinNonNeg(DeltaOfPath(spot, k, st))
  {
  }

  lemma AverageFinNonNeg(a: F64, b: F64)
    requires FinNonNeg(a) && FinNonNeg(b)
    ensures FinNonNeg(Average(a, b))
  {
  }

  lemma DeltaTermFinNonNeg(c: McConfig, env: Env, k: F64, i: nat)
    requires FiniteMarket(c, env.m)
    ensures FinNonNeg(DeltaTerm(c, env, k, i))
  {
    var z := FirstDraw(c, env, i);
    TerminalPositive(c, env.m, c.s0, z);
    TerminalPositive(c, env.m, c.s0, Neg(z));
    DeltaOfPathFinNonNeg(c.s0, k, Terminal(c, env.m, c.s0, z));
    DeltaOfPathFinNonNeg(c.s0, k, Terminal(c, env.m, c.s0, Neg(z)));
    if c.useAntithetic {
      AverageFinNonNeg(DeltaOfPath(c.s0, k, Terminal(c, env.m, c.s0, z)),
                       DeltaOfPath(c.s0, k, Terminal(c, env.m, c.s0, Neg(z))));
    }
  }

  lemma MeanFinNonNeg(total: F64, n: nat)
    requires FinNonNeg(total) && n >= 1
    ensures FinNonNeg(MeanOf(total, n))
  {
    assert total.val / (n as real) >= 0.0;
  }

  lemma DiscountPositive(c: McConfig, m: MathLib)
    requires Axioms(m) && c.r.Fin? && c.t.Fin?
    ensures Discount(c, m).Fin? && Discount(c, m).val > 0.0
  {
    var x := Mul(Neg(c.r), c.t);
    assert x.Fin?;
    assert Discount(c, m) == Fin(m.exp(x.val));
  }

  lemma ScaledFinNonNeg(a: F64, b: F64)
    requires FinNonNeg(a) && b.Fin? && b.val > 0.0
    ensures FinNonNeg(Mul(a, b))
  {
    assert a.val * b.val >= 0.0;
  }

  /** With finite market data and at least one path, Delta is a finite
      value >= 0: every pathwise delta is either 0 or S_T / S_0 > 0, and
      the discount factor is positive. */
  lemma DeltaNonNegative(c: McConfig, env: Env)
    requires FiniteMarket(c, env.m) && c.paths >= 1
    ensures FinNonNeg(Delta(c, env))
  {
    if c.payoff.EuropeanCall? {
      var k := c.payoff.k;
      var f := (i: nat) => DeltaTerm(c, env, k, i);
      forall i | 0 <= i < c.paths
        ensures FinNonNeg(f(i))
      {
        DeltaTermFinNonNeg(c, env, k, i);
      }
      SumFinNonNeg(f, 0, c.paths);
      MeanFinNonNeg(SumOver(f, 0, c.paths), c.paths);
      DiscountPositive(c, env.m);
      ScaledFinNonNeg(MeanOf(SumOver(f, 0, c.paths), c.paths), Discount(c, env.m));
      assert Delta(c, env) == DiscountedMean(c, env.m, f);
    }
  }

  /** The pathwise delta is the exact slope of the terminal price in the
      spot: S_T is linear in S_0, so raising the spot by h raises S_T by
      h S_T / S_0. */
  lemma DeltaIsSpotSlope(c: McConfig, m: MathLib, z: F64, h: real)
    requires FiniteMarket(c, m) && z.Fin?
    ensures var st := Terminal(c, m, c.s0, z);
            st.Fin? && Terminal(c, m, Fin(c.s0.val + h), z) == Fin(st.val + h * (st.val / c.s0.val))
  {
    var g := Growth(c, m, c.t, Sqrt(m, c.t), z);
    GrowthPositive(c, m, z);
    var s := c.s0.val;
    assert Terminal(c, m, c.s0, z) == Fin(s * g.val);
    assert Terminal(c, m, Fin(s + h), z) == Fin((s + h) * g.val);
    assert s * g.val / s == g.val;
  }

  /** The vega factor is the exact derivative of the log-price exponent in
      sigma: the exponent is quadratic in sigma, with leading coefficient
      -t/2. */
  lemma VegaFactorIsSigmaSlope(c: McConfig, wT: F64, h: real)
    requires c.r.Fin? && c.sigma.Fin? && c.t.Fin? && wT.Fin?
    ensures var e := VegaExponent(c, wT);
            var f := VegaFactor(c, wT);
            e.Fin? && f.Fin? &&
            VegaExponent(c.(sigma := Fin(c.sigma.val + h)), wT)
              == Fin(e.val + h * f.val - 0.5 * h * h * c.t.val)
  {
    var s := c.sigma.val;
    var t := c.t.val;
    var r := c.r.val;
    var w := wT.val;
    var c' := c.(sigma := Fin(s + h));
    FiniteLogDrift(c);
    FiniteLogDrift(c');
    assert VegaExponent(c, wT) == Fin((r - 0.5 * s * s) * t + s * w);
    assert VegaExponent(c', wT) == Fin((r - 0.5 * (s + h) * (s + h)) * t + (s + h) * w);
    assert VegaFactor(c, wT) == Fin(-s * t + w);
    ExponentExpansion(r, s, t, w, h);
  }

  /** With finite rate and volatility the log drift is `r - sigma^2 / 2`. */
  lemma FiniteLogDrift(c: McConfig)
    requires c.r.Fin? && c.sigma.Fin?
    ensures LogDrift(c) == Fin(c.r.val - 0.5 * c.sigma.val * c.sigma.val)
  {
    var q := Mul(Mul(Half, c.sigma), c.sigma);
    assert q == Fin(0.5 * c.sigma.val * c.sigma.val);
    assert Neg(q) == Fin(-(0.5 * c.sigma.val * c.sigma.val));
  }

  /** The real identity behind the vega factor: expanding the square in
      `(r - (s + h)^2 / 2) t + (s + h) w`. */
  lemma ExponentExpansion(r: real, s: real, t: real, w: real, h: real)
    ensures (r - 0.5 * (s + h) * (s + h)) * t + (s + h) * w
         == (r - 0.5 * s * s) * t + s * w + h * (-s * t + w) - 0.5 * h * h * t
  {
    assert (s + h) * (s + h) == s * s + 2.0 * s * h + h * h;
    assert 0.5 * (s * s + 2.0 * s * h + h * h) * t
        == 0.5 * s * s * t + s * h * t + 0.5 * h * h * t;
  }

  /** Per path, rho collapses to t K when the call finishes in the money
      and to 0 otherwise: the discount term and the price term cancel. */
  lemma RhoOfPathClosedForm(t: F64, k: F64, st: F64)
    requires t.Fin? && k.Fin? && st.Fin?
    ensures RhoOfPath(t, k, st) == Fin(if st.val > k.val then t.val * k.val else 0.0)
  {
    if st.val > k.val {
      assert CallValue(st, k) == Fin(st.val - k.val);
      assert -t.val * (st.val - k.val) + 1.0 * (st.val * t.val) == t.val * k.val;
    } else {
      assert CallValue(st, k) == Zero;
      assert -t.val * 0.0 + 0.0 * (st.val * t.val) == 0.0;
    }
  }

  /** The pair reduction is two independent sums. */
  lemma {:induction false} PairsComponentwise(f: nat -> (F64, F64), lo: nat, hi: nat)
    requires lo <= hi
    ensures PairsOver(f, lo, hi).0 == SumOver((i: nat) => f(i).0, lo, hi)
    ensures PairsOver(f, lo, hi).1 == SumOver((i: nat) => f(i).1, lo, hi)
    decreases hi - lo
  {
    if lo < hi {
      PairsComponentwise(f, lo, hi - 1);
    }
  }

  /** Each half of the batched pair is the delta term of the configuration
      with the spot moved. */
  lemma DeltaPairHalves(c: McConfig, env: Env, k: F64, up: F64, down: F64, i: nat)
    ensures DeltaPair(c, env, k, up, down, i).0 == DeltaTerm(WithSpot(c, up), env, k, i)
    ensures DeltaPair(c, env, k, up, down, i).1 == DeltaTerm(WithSpot(c, down), env, k, i)
  {
    assert Growth(WithSpot(c, up), env.m, c.t, Sqrt(env.m, c.t), FirstDraw(c, env, i))
        == Growth(c, env.m, c.t, Sqrt(env.m, c.t), FirstDraw(c, env, i));
  }

  /** The batched sums, discounted, are the two Delta runs. */
  lemma BatchedMeansAreDeltas(c: McConfig, env: Env, k: F64, up: F64, down: F64)
    requires c.payoff == EuropeanCall(k)
    ensures var sums := PairsOver((i: nat) => DeltaPair(c, env, k, up, down, i), 0, c.paths);
            && Mul(MeanOf(sums.0, c.paths), Discount(c, env.m)) == Delta(WithSpot(c, up), env)
            && Mul(MeanOf(sums.1, c.paths), Discount(c, env.m)) == Delta(WithSpot(c, down), env)
  {
    var pair := (i: nat) => DeltaPair(c, env, k, up, down, i);
    PairsComponentwise(pair, 0, c.paths);
    var fUp := (i: nat) => DeltaTerm(WithSpot(c, up), env, k, i);
    var fDown := (i: nat) => DeltaTerm(WithSpot(c, down), env, k, i);
    forall i: nat | 0 <= i < c.paths
      ensures pair(i).0 == fUp(i) && pair(i).1 == fDown(i)
    {
      DeltaPairHalves(c, env, k, up, down, i);
    }
    SumOverCongruent((i: nat) => pair(i).0, fUp, 0, c.paths);
    SumOverCongruent((i: nat) => pair(i).1, fDown, 0, c.paths);
    assert Delta(WithSpot(c, up), env) == DiscountedMean(WithSpot(c, up), env.m, fUp);
    assert Delta(WithSpot(c, down), env) == DiscountedMean(WithSpot(c, down), env.m, fDown);
  }

  lemma ZeroOverFiniteStep(eps: F64)
    requires eps.Fin? && eps.val != 0.0
    ensures Div(Zero, Mul(Two, eps)) == Zero
  {
    assert Mul(Two, eps) == Fin(2.0 * eps.val);
  }

  lemma ZeroOverInfiniteStep(eps: F64)
    requires eps.PosInf? || eps.NegInf?
    ensures Div(Zero, Mul(Two, eps)) == Zero
  {
  }

  /** The difference quotient of two zero deltas is zero unless the step
      is zero or NaN. */
  lemma CentralDifferenceOfZeros(eps: F64)
    requires !eps.NaN? && eps != Zero
    ensures CentralDifference(Zero, Zero, eps) == Zero
  {
    if eps.Fin? {
      ZeroOverFiniteStep(eps);
    } else {
      ZeroOverInfiniteStep(eps);
    }
    SubZero(Zero);
    assert CentralDifference(Zero, Zero, eps) == Div(Sub(Zero, Zero), Mul(Two, eps));
  }

  /** For a European call the batched routine computes exactly the finite
      difference of two Delta runs; for other payoffs both give 0 unless
      the step is 0 or NaN, where the finite difference is 0/0. */
  lemma GammaBatchedMatchesFiniteDiff(c: McConfig, env: Env)
    requires c.payoff.EuropeanCall? || (!GammaStep(c).NaN? && GammaStep(c) != Zero)
    ensures GammaBatched(c, env) == GammaFiniteDiff(c, env)
  {
    var eps := GammaStep(c);
    if c.payoff.EuropeanCall? {
      BatchedMeansAreDeltas(c, env, c.payoff.k, Add(c.s0, eps), Sub(c.s0, eps));
    } else {
      CentralDifferenceOfZeros(eps);
    }
  }
}
