/**
 * IEEE-754 binary64 values as the pricing core uses them.
 *
 * A finite value is an exact real: rounding, overflow to infinity and
 * signed zero are not modelled.  The special values are kept because the
 * core's guards are written with IEEE comparisons (`value <= 0.0` lets NaN
 * through, `is_finite` rejects it) and its clamps use Rust's `f64::max`,
 * which returns the other operand when one of them is NaN.
 *
 * `exp` and `sqrt` are not interpreted: they are fields of a `MathLib`
 * record handed to every operation that needs them, and the only facts
 * assumed about them are the positivity facts and the exact roots of 0 and
 * 1 in `Axioms`.
 */
module Float {

  datatype F64 = Fin(val: real) | PosInf | NegInf | NaN

  /** The exponential and the square root on finite arguments. */
  datatype MathLib = MathLib(exp: real -> real, sqrt: real -> real)

  /** The only properties of exp and sqrt the model relies on. */
  ghost predicate Axioms(m: MathLib) {
    && (forall x: real :: m.exp(x) > 0.0)
    && (forall x: real :: x >= 0.0 ==> m.sqrt(x) >= 0.0)
    && (forall x: real :: x > 0.0 ==> m.sqrt(x) > 0.0)
    && m.sqrt(0.0) == 0.0
    && m.sqrt(1.0) == 1.0
  }

  const Zero: F64 := Fin(0.0)
  const One: F64 := Fin(1.0)
  const Half: F64 := Fin(0.5)
  const Two: F64 := Fin(2.0)

  /** `f64::is_finite`. */
  predicate IsFinite(x: F64) { x.Fin? }

  /** Neither NaN nor below zero: the values a `.max(0.0)` clamp can return. */
  predicate NonNeg(x: F64) { x.PosInf? || (x.Fin? && x.val >= 0.0) }

  /** Strictly above zero and not NaN. */
  predicate Positive(x: F64) { x.PosInf? || (x.Fin? && x.val > 0.0) }

  /** `usize as f64` (exact for the path and step counts the guards admit). */
  function FromNat(n: nat): (r: F64)
    ensures r.Fin? && r.val == n as real
  {
    Fin(n as real)
  }

  function Neg(x: F64): F64 {
    match x
    case Fin(a) => Fin(-a)
    case PosInf => NegInf
    case NegInf => PosInf
    case NaN => NaN
  }

  function Abs(x: F64): (r: F64)
    ensures x.NaN? <==> r.NaN?
    ensures !x.NaN? ==> NonNeg(r)
  {
    match x
    case Fin(a) => Fin(if a < 0.0 then -a else a)
    case NaN => NaN
    case _ => PosInf
  }

  function Add(a: F64, b: F64): (r: F64)
    ensures a.Fin? && b.Fin? ==> r == Fin(a.val + b.val)
    ensures r.NaN? <==> a.NaN? || b.NaN? || (a.PosInf? && b.NegInf?) || (a.NegInf? && b.PosInf?)
  {
    match (a, b)
    case (NaN, _) => NaN
    case (_, NaN) => NaN
    case (PosInf, NegInf) => NaN
    case (NegInf, PosInf) => NaN
    case (PosInf, _) => PosInf
    case (_, PosInf) => PosInf
    case (NegInf, _) => NegInf
    case (_, NegInf) => NegInf
    case (Fin(x), Fin(y)) => Fin(x + y)
  }

  /** IEEE subtraction is addition of the negation. */
  function Sub(a: F64, b: F64): F64 {
    Add(a, Neg(b))
  }

  /** Sign of a non-NaN value: -1, 0 or 1. */
  function Sign(x: F64): int
    requires !x.NaN?
  {
    match x
    case Fin(a) => if a > 0.0 then 1 else if a < 0.0 then -1 else 0
    case PosInf => 1
    case NegInf => -1
  }

  function InfOfSign(s: int): F64 {
    if s > 0 then PosInf else NegInf
  }

  function Mul(a: F64, b: F64): (r: F64)
    ensures a.Fin? && b.Fin? ==> r == Fin(a.val * b.val)
  {
    if a.NaN? || b.NaN? then NaN
    else if a.Fin? && b.Fin? then Fin(a.val * b.val)
    else if Sign(a) == 0 || Sign(b) == 0 then NaN
    else InfOfSign(Sign(a) * Sign(b))
  }

  function Div(a: F64, b: F64): (r: F64)
    ensures a.Fin? && b.Fin? && b.val != 0.0 ==> r == Fin(a.val / b.val)
    ensures a.Fin? && b.Fin? && b.val == 0.0 ==> !r.Fin?
  {
    if a.NaN? || b.NaN? then NaN
    else if a.Fin? && b.Fin? then
      if b.val != 0.0 then Fin(a.val / b.val)
      else if a.val == 0.0 then NaN
      else InfOfSign(Sign(a))
    else if a.Fin? then Zero
    else if b.Fin? then InfOfSign(Sign(a) * (if Sign(b) < 0 then -1 else 1))
    else NaN
  }

  /** `a < b` under IEEE comparison: false whenever either side is NaN. */
  predicate Lt(a: F64, b: F64) {
    match (a, b)
    case (NaN, _) => false
    case (_, NaN) => false
    case (Fin(x), Fin(y)) => x < y
    case (NegInf, _) => !b.NegInf?
    case (_, PosInf) => !a.PosInf?
    case _ => false
  }

  predicate Le(a: F64, b: F64) { Lt(a, b) || (!a.NaN? && a == b) }
  predicate Gt(a: F64, b: F64) { Lt(b, a) }
  predicate Ge(a: F64, b: F64) { Le(b, a) }

  /** Rust's `f64::max`: a NaN operand yields the other operand. */
  function Max(a: F64, b: F64): (r: F64)
    ensures !a.NaN? || !b.NaN? ==> !r.NaN?
    ensures !a.NaN? ==> Ge(r, a)
    ensures !b.NaN? ==> Ge(r, b)
    ensures r == a || r == b
  {
    if a.NaN? then b
    else if b.NaN? then a
    else if Lt(a, b) then b
    else a
  }

  function Exp(m: MathLib, x: F64): F64 {
    match x
    case Fin(a) => Fin(m.exp(a))
    case PosInf => PosInf
    case NegInf => Zero
    case NaN => NaN
  }

  /** IEEE sqrt: NaN below zero. */
  function Sqrt(m: MathLib, x: F64): F64 {
    match x
    case Fin(a) => if a < 0.0 then NaN else Fin(m.sqrt(a))
    case PosInf => PosInf
    case NegInf => NaN
    case NaN => NaN
  }

  /** `x.powi(2)`, taken as `x * x`. */
  function Square(x: F64): F64 {
    Mul(x, x)
  }

  // ---------------------------------------------------------------------
  // Algebra of the model's addition, used by the reduction lemmas.

  lemma AddComm(a: F64, b: F64)
    ensures Add(a, b) == Add(b, a)
  {
  }

  lemma AddAssoc(a: F64, b: F64, c: F64)
    ensures Add(Add(a, b), c) == Add(a, Add(b, c))
  {
  }

  lemma AddZero(a: F64)
    ensures Add(a, Zero) == a && Add(Zero, a) == a
  {
  }

  /** Subtracting zero changes nothing (a NaN stays NaN). */
  lemma SubZero(a: F64)
    ensures Sub(a, Zero) == a
  {
  }

  /** Finite operands subtract exactly. */
  lemma SubFinite(a: F64, b: F64)
    requires a.Fin? && b.Fin?
    ensures Sub(a, b) == Fin(a.val - b.val)
  {
  }

  /** Zero times a finite value is zero (times an infinity it is NaN). */
  lemma ZeroTimesFinite(a: F64)
    requires a.Fin?
    ensures Mul(Zero, a) == Zero
  {
  }

  /** Clamping with `.max(0.0)` never yields NaN and never a negative value. */
  lemma MaxZeroNonNeg(x: F64)
    ensures NonNeg(Max(x, Zero))
    ensures x.Fin? ==> Max(x, Zero).Fin?
  {
  }

  /** Sums, quotients by a positive count and products with a finite
      positive factor keep a value `NonNeg` (0 * inf is NaN). */
  lemma NonNegAdd(a: F64, b: F64)
    requires NonNeg(a) && NonNeg(b)
    ensures NonNeg(Add(a, b))
  {
  }

  lemma NonNegDiv(a: F64, n: nat)
    requires NonNeg(a) && n > 0
    ensures NonNeg(Div(a, FromNat(n)))
  {
  }

  lemma NonNegMul(a: F64, b: F64)
    requires NonNeg(a) && b.Fin? && b.val > 0.0
    ensures NonNeg(Mul(a, b))
  {
  }

  /** Dividing anything by a finite zero never gives a finite value. */
  lemma DivByZeroNotFinite(a: F64)
    ensures !Div(a, Zero).Fin?
  {
  }
}
