/**
 * The Heston stochastic-volatility stepper: parameter validation,
 * construction, and one time step of the (spot, variance) pair under one of
 * three discretisation schemes.
 *
 * A step consumes two normal draws before it checks anything, and the
 * Andersen QE scheme consumes one more uniform draw in its exponential
 * branch.  The draws are parameters here: `z1`, `z2` are the two normals
 * and `u` is the uniform the QE scheme would draw next.  The step checks its
 * inputs, runs the scheme, and then checks that the spot is finite and
 * positive and the variance finite and non-negative.
 */
module Heston {
  import opened Float
  import opened Errors

  datatype HestonScheme = FullTruncationEuler | AndersenQE | Alfonsi

  datatype HestonParams = HestonParams(
    s0: F64, v0: F64, r: F64, kappa: F64, theta: F64, xi: F64, rho: F64)

  datatype Heston = Heston(params: HestonParams, scheme: HestonScheme)

  // ---------------------------------------------------------------------
  // Validation and construction.

  const KappaCap: F64 := Fin(100.0)
  const XiCap: F64 := Fin(5.0)
  const ThetaCap: F64 := Fin(1.0)

  /** A value that passed the positivity guard and is not above `cap`:
      NaN, or a real in (0, cap]. */
  predicate PositiveUpTo(x: F64, cap: real) {
    x.NaN? || (x.Fin? && 0.0 < x.val <= cap)
  }

  predicate ValidParams(p: HestonParams) {
    && PositiveOrNaN(p.s0)
    && NonNegativeOrNaN(p.v0)
    && p.r.Fin?
    && PositiveUpTo(p.kappa, 100.0)
    && PositiveUpTo(p.theta, 1.0)
    && PositiveUpTo(p.xi, 5.0)
    && CorrelationOrNaN(p.rho)
  }

  function CapError(name: string, value: F64, constraint: string): Result<()> {
    Err(InvalidParameters(name, value, constraint))
  }

  /** `validate_params`: the generic guards, then the three caps. */
  function ValidateParams(p: HestonParams): (r: Result<()>)
    ensures r.Ok? <==> ValidParams(p)
    ensures r.Err? ==> r.error.InvalidParameters?
  {
    var _ :- ValidatePositive("s0", p.s0);
    var _ :- ValidateNonNegative("v0", p.v0);
    var _ :- ValidateFinite("r", p.r);
    var _ :- ValidatePositive("kappa", p.kappa);
    var _ :- ValidatePositive("theta", p.theta);
    var _ :- ValidatePositive("xi", p.xi);
    var _ :- ValidateCorrelation("rho", p.rho);
    if Gt(p.kappa, KappaCap) then
      CapError("kappa", p.kappa, "extremely high mean reversion speed (>100) may cause numerical issues")
    else if Gt(p.xi, XiCap) then
      CapError("xi", p.xi, "extremely high vol-of-vol (>5) may cause numerical issues")
    else if Gt(p.theta, ThetaCap) then
      CapError("theta", p.theta, "long-term variance >1 (100% vol) is unrealistic")
    else
      Ok(())
  }

  /** The Feller condition 2 kappa theta > xi^2 fails (as the source tests it). */
  predicate FellerViolated(p: HestonParams) {
    Le(Mul(Mul(Two, p.kappa), p.theta), Mul(p.xi, p.xi))
  }

  /** `new_with_scheme_quiet`.  Result: (the model or the validation error,
      whether the Feller warning is printed).  A Feller violation never
      fails construction. */
  function NewWithSchemeQuiet(p: HestonParams, scheme: HestonScheme, suppressWarnings: bool)
    : (r: (Result<Heston>, bool))
    ensures r.0.Ok? <==> ValidParams(p)
    ensures r.0.Ok? ==> r.0.value == Heston(p, scheme)
    ensures r.0.Err? ==> r.0 == Err(ValidateParams(p).error)
    ensures r.1 <==> ValidParams(p) && FellerViolated(p) && !suppressWarnings
  {
    match ValidateParams(p)
    case Err(e) => (Err(e), false)
    case Ok(_) => (Ok(Heston(p, scheme)), FellerViolated(p) && !suppressWarnings)
  }

  /** `new_with_scheme`: warnings on. */
  function NewWithScheme(p: HestonParams, scheme: HestonScheme): (r: Result<Heston>)
    ensures r.Ok? <==> ValidParams(p)
    ensures r.Ok? ==> r.value == Heston(p, scheme)
  {
    NewWithSchemeQuiet(p, scheme, false).0
  }

  /** `new`: the Andersen QE scheme by default. */
  function New(p: HestonParams): (r: Result<Heston>)
    ensures r.Ok? <==> ValidParams(p)
    ensures r.Ok? ==> r.value.scheme == AndersenQE && r.value.params == p
  {
    NewWithScheme(p, AndersenQE)
  }

  function SchemeName(s: HestonScheme): (name: string)
    ensures |name| > 0
  {
    match s
    case FullTruncationEuler => "Full Truncation Euler"
    case AndersenQE => "Andersen QE"
    case Alfonsi => "Alfonsi"
  }

  // ---------------------------------------------------------------------
  // The schemes.

  /** What a scheme leaves behind: the new spot and variance, and whether
      it drew a uniform. */
  datatype Update = Update(s: F64, v: F64, drewUniform: bool)

  /** `sqrt(1 - rho^2)`, the weight of the independent normal. */
  function Complement(m: MathLib, rho: F64): F64 {
    Sqrt(m, Sub(One, Mul(rho, rho)))
  }

  /** The variance increment `rho z1 + sqrt(1 - rho^2) z2`. */
  function VarianceShock(m: MathLib, rho: F64, z1: F64, z2: F64): F64 {
    Add(Mul(rho, z1), Mul(Complement(m, rho), z2))
  }

  /** `sqrt(v)` when v > 0, else 0. */
  function PositivePartRoot(m: MathLib, v: F64): F64 {
    if Gt(v, Zero) then Sqrt(m, v) else Zero
  }

  /** Full truncation Euler: the variance is clamped at 0, and the spot
      moves with the variance from before the step. */
  function StepFullTruncation(p: HestonParams, m: MathLib, s: F64, v: F64, dt: F64, dwS: F64, dwV: F64)
    : (u: Update)
    ensures NonNeg(u.v) && !u.drewUniform
  {
    var sqrtDt := Sqrt(m, dt);
    var sqrtV := PositivePartRoot(m, v);
    var dv := Add(Mul(Mul(p.kappa, Sub(p.theta, v)), dt), Mul(Mul(Mul(p.xi, sqrtV), sqrtDt), dwV));
    var v' := Max(Add(v, dv), Zero);
    MaxZeroNonNeg(Add(v, dv));
    var drift := Add(Mul(p.r, dt), Mul(Mul(sqrtV, sqrtDt), dwS));
    Update(Mul(s, Exp(m, drift)), v', false)
  }

  const PsiCritical: F64 := Fin(1.5)
  const SpotFloor: F64 := Fin(0.0000000001)

  /** The QE moment-matching quantities from the current variance. */
  function QeDecay(p: HestonParams, m: MathLib, dt: F64): F64 {
    Exp(m, Mul(Neg(p.kappa), dt))
  }

  function QeMean(p: HestonParams, m: MathLib, v: F64, dt: F64): F64 {
    Add(p.theta, Mul(Sub(v, p.theta), QeDecay(p, m, dt)))
  }

  function QeVariance(p: HestonParams, m: MathLib, v: F64, dt: F64): F64 {
    var e := QeDecay(p, m, dt);
    Add(Mul(Div(Mul(Mul(Mul(v, p.xi), p.xi), e), p.kappa), Sub(One, e)),
        Mul(Div(Mul(Mul(p.theta, p.xi), p.xi), Mul(Two, p.kappa)), Square(Sub(One, e))))
  }

  function QePsi(p: HestonParams, m: MathLib, v: F64, dt: F64): F64 {
    var mean := QeMean(p, m, v, dt);
    Div(QeVariance(p, m, v, dt), Mul(mean, mean))
  }

  /** The quadratic branch: a scaled square of `sqrt|dw_v| + b`. */
  function QeQuadratic(mean: F64, psi: F64, m: MathLib, dwV: F64): F64 {
    var twoOverPsi := Div(Two, psi);
    var b2 := Add(Sub(twoOverPsi, One), Sqrt(m, Mul(twoOverPsi, Sub(twoOverPsi, One))));
    var a := Div(mean, Add(One, b2));
    Mul(a, Square(Add(Sqrt(m, Abs(dwV)), Sqrt(m, b2))))
  }

  /** The exponential branch: an atom at 0 of mass p, then an exponential
      tail read off the uniform u. */
  function QeExponential(mean: F64, psi: F64, u: real): F64 {
    var prob := Div(Sub(psi, One), Add(psi, One));
    var beta := Div(Sub(One, prob), mean);
    if Le(Fin(u), prob) then Zero
    else Div(Mul(Div(Sub(One, prob), beta), Sub(Fin(u), prob)), Sub(One, prob))
  }

  /** The martingale-corrected log-return of the QE scheme. */
  function QeLogReturn(p: HestonParams, m: MathLib, v: F64, vNext: F64, dt: F64, dwS: F64): F64 {
    var kappaRhoOverXi := Sub(Div(Mul(p.kappa, p.rho), p.xi), Half);
    var k0 := Mul(Div(Mul(Mul(Neg(p.rho), p.kappa), p.theta), p.xi), dt);
    var k1 := Sub(Mul(Mul(Half, dt), kappaRhoOverXi), Div(p.rho, p.xi));
    var k2 := Add(Mul(Mul(Half, dt), kappaRhoOverXi), Div(p.rho, p.xi));
    var k3 := Mul(Mul(Half, dt), Sub(One, Mul(p.rho, p.rho)));
    Add(Add(Add(Add(Mul(p.r, dt), k0), Mul(k1, v)), Mul(k2, vNext)),
        Mul(Mul(Sqrt(m, Max(v, Zero)), Sqrt(m, k3)), dwS))
  }

  /** Andersen's quadratic-exponential scheme: psi <= 1.5 selects the
      quadratic branch, anything else (NaN included) the exponential one,
      which is the only place a uniform is drawn; the new variance is
      clamped at 0 and the spot floored at 1e-10. */
  function StepAndersenQE(p: HestonParams, m: MathLib, s: F64, v: F64, dt: F64, dwS: F64, dwV: F64, u: real)
    : (up: Update)
    ensures NonNeg(up.v)
    ensures !up.s.NaN? && Ge(up.s, SpotFloor)
    ensures up.drewUniform <==> !Le(QePsi(p, m, v, dt), PsiCritical)
  {
    var mean := QeMean(p, m, v, dt);
    var psi := QePsi(p, m, v, dt);
    var quadratic := Le(psi, PsiCritical);
    var raw := if quadratic then QeQuadratic(mean, psi, m, dwV) else QeExponential(mean, psi, u);
    var vNext := Max(raw, Zero);
    MaxZeroNonNeg(raw);
    var s' := Max(Mul(s, Exp(m, QeLogReturn(p, m, v, vNext, dt, dwS))), SpotFloor);
    Update(s', vNext, !quadratic)
  }

  const AlfonsiGamma: F64 := Fin(0.5)

  /** The Euler value before the Alfonsi correction. */
  function AlfonsiAux(p: HestonParams, m: MathLib, v: F64, dt: F64, dwV: F64): F64 {
    Add(Add(v, Mul(Mul(p.kappa, Sub(p.theta, v)), dt)), Mul(Mul(Mul(p.xi, Sqrt(m, v)), Sqrt(m, dt)), dwV))
  }

  /** The correction, applied only when both v and the auxiliary value are
      positive. */
  function AlfonsiCorrection(p: HestonParams, m: MathLib, v: F64, vAux: F64, dt: F64, dwV: F64): (c: F64)
    ensures !(Gt(v, Zero) && Gt(vAux, Zero)) ==> c == Zero
  {
    if Gt(v, Zero) && Gt(vAux, Zero) then
      var vAuxPos := Max(vAux, Zero);
      var sqrtDt := Sqrt(m, dt);
      Div(Mul(Mul(Mul(Mul(Mul(AlfonsiGamma, p.xi), p.xi), dt),
                  Sub(Div(One, Sqrt(m, vAuxPos)), Div(One, Sqrt(m, v)))),
              Sub(Mul(dwV, dwV), dt)),
          Mul(Two, sqrtDt))
    else
      Zero
  }

  /** `(sqrt(v') + sqrt(v')) / 2` when v' > 0, else 0: both terms read the
      already-updated variance. */
  function AlfonsiVol(m: MathLib, v': F64): F64 {
    if Gt(v', Zero) then Div(Add(Sqrt(m, v'), Sqrt(m, v')), Two) else Zero
  }

  function StepAlfonsi(p: HestonParams, m: MathLib, s: F64, v: F64, dt: F64, dwS: F64, dwV: F64)
    : (up: Update)
    ensures NonNeg(up.v) && !up.drewUniform
  {
    var vAux := AlfonsiAux(p, m, v, dt, dwV);
    var sum := Add(vAux, AlfonsiCorrection(p, m, v, vAux, dt, dwV));
    var v' := Max(sum, Zero);
    MaxZeroNonNeg(sum);
    var drift := Add(Mul(p.r, dt), Mul(Mul(AlfonsiVol(m, v'), Sqrt(m, dt)), dwS));
    Update(Mul(s, Exp(m, drift)), v', false)
  }

  // ---------------------------------------------------------------------
  // The step.

  /** The result of `step`: the status, the (possibly updated) spot and
      variance, and the draws taken from the generator. */
  datatype StepOutcome = StepOutcome(status: Result<()>, s: F64, v: F64, normalsDrawn: nat, drewUniform: bool)

  predicate GoodSpot(s: F64) { s.Fin? && s.val > 0.0 }
  predicate GoodVariance(v: F64) { v.Fin? && v.val >= 0.0 }

  function RunScheme(h: Heston, m: MathLib, s: F64, v: F64, dt: F64, dwS: F64, dwV: F64, u: real): (up: Update)
    ensures NonNeg(up.v)
  {
    match h.scheme
    case FullTruncationEuler => StepFullTruncation(h.params, m, s, v, dt, dwS, dwV)
    case AndersenQE => StepAndersenQE(h.params, m, s, v, dt, dwS, dwV, u)
    case Alfonsi => StepAlfonsi(h.params, m, s, v, dt, dwS, dwV)
  }

  /** `Heston::step`. */
  function Step(h: Heston, m: MathLib, s: F64, v: F64, dt: F64, z1: real, z2: real, u: real): (o: StepOutcome)
    ensures o.normalsDrawn == 2
    ensures !(dt.Fin? && dt.val > 0.0) ==>
              o.status == Err(InvalidParameters("dt", dt, "must be positive and finite")) && o.s == s && o.v == v
    ensures dt.Fin? && dt.val > 0.0 && !(GoodSpot(s) && GoodVariance(v)) ==>
              o.status.Err? && o.status.error.NumericalInstability? && o.s == s && o.v == v && !o.drewUniform
    ensures o.status.Ok? ==> GoodSpot(o.s) && GoodVariance(o.v)
    ensures o.status.Ok? <==> dt.Fin? && dt.val > 0.0 && GoodSpot(s) && GoodVariance(v)
                              && GoodSpot(o.s) && GoodVariance(o.v)
  {
    var dwS := Fin(z1);
    var dwV := VarianceShock(m, h.params.rho, Fin(z1), Fin(z2));
    if !IsFinite(dt) || Le(dt, Zero) then
      StepOutcome(Err(InvalidParameters("dt", dt, "must be positive and finite")), s, v, 2, false)
    else if !IsFinite(s) || Le(s, Zero) then
      StepOutcome(Err(NumericalInstability("Heston step", "stock price is invalid")), s, v, 2, false)
    else if !IsFinite(v) || Lt(v, Zero) then
      StepOutcome(Err(NumericalInstability("Heston step", "variance is invalid")), s, v, 2, false)
    else
      var up := RunScheme(h, m, s, v, dt, dwS, dwV, u);
      StepOutcome(CheckAfterStep(h.scheme, up), up.s, up.v, 2, up.drewUniform)
  }

  /** The output check after a scheme has run, naming the scheme. */
  function CheckAfterStep(scheme: HestonScheme, up: Update): (r: Result<()>)
    ensures r.Ok? <==> GoodSpot(up.s) && GoodVariance(up.v)
    ensures r.Err? ==> r.error.NumericalInstability?
  {
    var methodName := "Heston " + SchemeName(scheme);
    if !IsFinite(up.s) || Le(up.s, Zero) then
      Err(NumericalInstability(methodName, "stock price became invalid after step"))
    else if !IsFinite(up.v) || Lt(up.v, Zero) then
      Err(NumericalInstability(methodName, "variance became invalid after step"))
    else
      Ok(())
  }

  // ---------------------------------------------------------------------
  // Properties.

  /** The three schemes have distinct names. */
  lemma SchemeNamesDistinct(a: HestonScheme, b: HestonScheme)
    ensures SchemeName(a) == SchemeName(b) <==> a == b
  {
    if a != b {
      assert SchemeName(a)[0] != SchemeName(b)[0] || |SchemeName(a)| != |SchemeName(b)|;
    }
  }

  /** A parameter set that breaks the Feller condition still constructs. */
  lemma FellerViolationStillConstructs(p: HestonParams, scheme: HestonScheme, quiet: bool)
    requires ValidParams(p) && FellerViolated(p)
    ensures NewWithSchemeQuiet(p, scheme, quiet).0 == Ok(Heston(p, scheme))
  {
  }

  /** The library's own example of a Feller violation: kappa = 1,
      theta = 0.04, xi = 1 (2 kappa theta = 0.08 <= 1). */
  lemma FellerExample()
    ensures var p := HestonParams(Fin(100.0), Fin(0.04), Fin(0.05), One, Fin(0.04), One, Zero);
            FellerViolated(p) && New(p).Ok?
  {
  }

  /** Each cap rejects on its own: a parameter set that is valid except for
      one capped value above its cap fails validation. */
  lemma CapsReject(p: HestonParams)
    requires ValidParams(p)
    ensures ValidateParams(p.(kappa := Fin(100.5))).Err?
    ensures ValidateParams(p.(xi := Fin(5.5))).Err?
    ensures ValidateParams(p.(theta := Fin(1.5))).Err?
    ensures ValidateParams(p.(kappa := KappaCap)).Ok?
  {
  }

  lemma SquareAtMostOne(x: real)
    requires -1.0 <= x <= 1.0
    ensures x * x <= 1.0
  {
    if x >= 0.0 {
      assert x * x <= x * 1.0;
    } else {
      assert x * x <= (-x) * 1.0;
    }
  }

  /** With |rho| <= 1 and finite draws, both increments are finite. */
  lemma ShocksFinite(m: MathLib, rho: F64, z1: F64, z2: F64)
    requires Axioms(m) && rho.Fin? && -1.0 <= rho.val <= 1.0 && z1.Fin? && z2.Fin?
    ensures VarianceShock(m, rho, z1, z2).Fin?
  {
    var one := Sub(One, Mul(rho, rho));
    assert one == Fin(1.0 - rho.val * rho.val);
    SquareAtMostOne(rho.val);
    assert Complement(m, rho) == Fin(m.sqrt(1.0 - rho.val * rho.val));
  }

  /** With rho = 0 the variance shock is the second draw alone, and with
      rho = 1 the first one: the weights are rho and sqrt(1 - rho^2). */
  lemma ShockExtremes(m: MathLib, z1: F64, z2: F64)
    requires Axioms(m) && z1.Fin? && z2.Fin?
    ensures VarianceShock(m, One, z1, z2) == z1
    ensures VarianceShock(m, Zero, z1, z2) == z2
  {
    assert Complement(m, One) == Zero;
    assert Mul(Zero, z2) == Zero;
    assert Add(Mul(One, z1), Zero) == z1;
    assert Complement(m, Zero) == One;
    assert Mul(Zero, z1) == Zero;
  }

  /** The full-truncation spot update reads only the variance before the
      step: changing the mean-reversion parameters or the variance shock
      leaves the new spot unchanged. */
  lemma FullTruncationSpotUsesOldVariance(p: HestonParams, q: HestonParams, m: MathLib,
                                          s: F64, v: F64, dt: F64, dwS: F64, dwV: F64, dwV': F64)
    requires q.r == p.r
    ensures StepFullTruncation(p, m, s, v, dt, dwS, dwV).s == StepFullTruncation(q, m, s, v, dt, dwS, dwV').s
  {
  }

  /** In the quadratic branch the new QE variance depends on the shock only
      through its absolute value. */
  lemma QeQuadraticUsesAbsShock(mean: F64, psi: F64, m: MathLib, dwV: F64)
    ensures QeQuadratic(mean, psi, m, dwV) == QeQuadratic(mean, psi, m, Neg(dwV))
  {
    assert Abs(dwV) == Abs(Neg(dwV));
  }

  /** In the exponential branch a uniform at or below the atom's mass p
      gives a zero variance. */
  lemma QeAtomAtZero(p: HestonParams, m: MathLib, s: F64, v: F64, dt: F64, dwS: F64, dwV: F64, u: real)
    requires var psi := QePsi(p, m, v, dt);
             !Le(psi, PsiCritical) && Le(Fin(u), Div(Sub(psi, One), Add(psi, One)))
    ensures StepAndersenQE(p, m, s, v, dt, dwS, dwV, u).v == Zero
    ensures StepAndersenQE(p, m, s, v, dt, dwS, dwV, u).drewUniform
  {
  }

  /** The "averaged" Alfonsi volatility is the square root of the new
      variance: both terms of the average read it. */
  lemma AlfonsiAveragedVolIsNewVol(m: MathLib, v': F64)
    requires v'.Fin? && v'.val > 0.0
    ensures AlfonsiVol(m, v') == Sqrt(m, v')
  {
    assert Sqrt(m, v') == Fin(m.sqrt(v'.val));
    var a := m.sqrt(v'.val);
    assert (a + a) / 2.0 == a;
  }

  /** The input and output checks in terms of the schemes: with good
      inputs, a step succeeds exactly when the scheme's spot is finite and
      positive and its variance finite. */
  lemma StepOkIffSchemeGood(h: Heston, m: MathLib, s: F64, v: F64, dt: F64, z1: real, z2: real, u: real)
    requires dt.Fin? && dt.val > 0.0 && GoodSpot(s) && GoodVariance(v)
    ensures var up := RunScheme(h, m, s, v, dt, Fin(z1), VarianceShock(m, h.params.rho, Fin(z1), Fin(z2)), u);
            Step(h, m, s, v, dt, z1, z2, u).status.Ok? <==> GoodSpot(up.s) && up.v.Fin?
  {
    var up := RunScheme(h, m, s, v, dt, Fin(z1), VarianceShock(m, h.params.rho, Fin(z1), Fin(z2)), u);
    assert !Le(dt, Zero) && !Le(s, Zero) && !Lt(v, Zero);
    assert Step(h, m, s, v, dt, z1, z2, u).status == CheckAfterStep(h.scheme, up);
  }

  /** Finite model parameters with |rho| <= 1. */
  predicate FiniteParams(p: HestonParams) {
    p.r.Fin? && p.kappa.Fin? && p.theta.Fin? && p.xi.Fin? && p.rho.Fin? && -1.0 <= p.rho.val <= 1.0
  }

  lemma FullTruncationSpotGood(p: HestonParams, m: MathLib, s: F64, v: F64, dt: F64, dwS: F64, dwV: F64)
    requires Axioms(m) && FiniteParams(p) && dwS.Fin?
    requires dt.Fin? && dt.val > 0.0 && GoodSpot(s) && GoodVariance(v)
    ensures GoodSpot(StepFullTruncation(p, m, s, v, dt, dwS, dwV).s)
  {
    var sqrtDt := Sqrt(m, dt);
    assert sqrtDt.Fin?;
    var sqrtV := PositivePartRoot(m, v);
    assert sqrtV.Fin?;
    var drift := Add(Mul(p.r, dt), Mul(Mul(sqrtV, sqrtDt), dwS));
    assert drift.Fin?;
    SpotTimesExp(m, s, drift);
  }

  /** A positive spot times an exponential stays positive and finite. */
  lemma SpotTimesExp(m: MathLib, s: F64, x: F64)
    requires Axioms(m) && GoodSpot(s) && x.Fin?
    ensures GoodSpot(Mul(s, Exp(m, x)))
  {
    var e := m.exp(x.val);
    assert Exp(m, x) == Fin(e) && e > 0.0;
    assert s.val * e > 0.0;
  }

  lemma FullTruncationVarianceFinite(p: HestonParams, m: MathLib, s: F64, v: F64, dt: F64, dwS: F64, dwV: F64)
    requires Axioms(m) && FiniteParams(p) && dwV.Fin?
    requires dt.Fin? && dt.val > 0.0 && GoodVariance(v)
    ensures StepFullTruncation(p, m, s, v, dt, dwS, dwV).v.Fin?
  {
    var sqrtDt := Sqrt(m, dt);
    assert sqrtDt.Fin?;
    var sqrtV := PositivePartRoot(m, v);
    assert sqrtV.Fin?;
    var dv := Add(Mul(Mul(p.kappa, Sub(p.theta, v)), dt), Mul(Mul(Mul(p.xi, sqrtV), sqrtDt), dwV));
    assert dv.Fin?;
    MaxZeroNonNeg(Add(v, dv));
  }

  /** With finite parameters and good inputs, a full-truncation step never
      fails: every intermediate is finite, `exp` is positive, and the
      variance clamp keeps it >= 0. */
  lemma FullTruncationNeverFails(p: HestonParams, m: MathLib, s: F64, v: F64, dt: F64, z1: real, z2: real, u: real)
    requires Axioms(m) && FiniteParams(p)
    requires dt.Fin? && dt.val > 0.0 && GoodSpot(s) && GoodVariance(v)
    ensures Step(Heston(p, FullTruncationEuler), m, s, v, dt, z1, z2, u).status.Ok?
  {
    var dwV := VarianceShock(m, p.rho, Fin(z1), Fin(z2));
    ShocksFinite(m, p.rho, Fin(z1), Fin(z2));
    FullTruncationSpotGood(p, m, s, v, dt, Fin(z1), dwV);
    FullTruncationVarianceFinite(p, m, s, v, dt, Fin(z1), dwV);
    StepOkIffSchemeGood(Heston(p, FullTruncationEuler), m, s, v, dt, z1, z2, u);
  }
}
