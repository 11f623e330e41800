/**
 * The library's error taxonomy (`SdeError`), its result type and the
 * parameter guards of the `validation` module.  Every guard is total: it
 * maps its input to `Ok(())` or to one typed error, and the contracts below
 * describe the accepted set independently of the IEEE comparison the
 * guard is written with.
 */
module Errors {
  import opened Float

  datatype Option<+T> = None | Some(value: T)

  datatype SdeError =
    | InvalidParameters(parameter: string, value: F64, constraint: string)
    | NumericalInstability(methodName: string, reason: string)
    | FellerConditionViolation(kappa: F64, theta: F64, xi: F64, fellerValue: F64)
    | InvalidConfiguration(field: string, reason: string)
    | MonteCarloError(paths: nat, reason: string)
    | PayoffError(payoffType: string, reason: string)
    | RandomGenerationError(reason: string)
    | CalibrationError(reason: string, currentError: Option<F64>)
    | UnsupportedOperation(operation: string, context: string)

  /** `SdeResult<T>`, usable with `:-` like Rust's `?`. */
  datatype Result<+T> = Ok(value: T) | Err(error: SdeError) {
    predicate IsFailure() {
      Err?
    }

    function PropagateFailure<U>(): Result<U>
      requires Err?
    {
      Err(error)
    }

    function Extract(): T
      requires Ok?
    {
      value
    }
  }

  // ---------------------------------------------------------------------
  // Accepted sets, stated without IEEE comparisons.

  /** What `value <= 0.0` lets through: NaN, +inf and positive reals. */
  predicate PositiveOrNaN(x: F64) {
    x.NaN? || x.PosInf? || (x.Fin? && x.val > 0.0)
  }

  /** What `value < 0.0` lets through: NaN, +inf and reals >= 0. */
  predicate NonNegativeOrNaN(x: F64) {
    x.NaN? || x.PosInf? || (x.Fin? && x.val >= 0.0)
  }

  /** What the correlation guard lets through: NaN and reals in [-1, 1]. */
  predicate CorrelationOrNaN(x: F64) {
    x.NaN? || (x.Fin? && -1.0 <= x.val <= 1.0)
  }

  const MaxPaths: nat := 1_000_000_000
  const MaxSteps: nat := 100_000

  /** The error a value guard reports. */
  predicate ReportsValue(r: Result<()>, name: string, value: F64) {
    r.Err? ==> r.error.InvalidParameters? && r.error.parameter == name && r.error.value == value
  }

  // ---------------------------------------------------------------------
  // The guards.

  function ValidatePositive(name: string, value: F64): (r: Result<()>)
    ensures r.Ok? <==> PositiveOrNaN(value)
    ensures ReportsValue(r, name, value)
  {
    if Le(value, Zero) then
      Err(InvalidParameters(name, value, "must be positive (> 0)"))
    else
      Ok(())
  }

  function ValidateNonNegative(name: string, value: F64): (r: Result<()>)
    ensures r.Ok? <==> NonNegativeOrNaN(value)
    ensures ReportsValue(r, name, value)
  {
    if Lt(value, Zero) then
      Err(InvalidParameters(name, value, "must be non-negative (≥ 0)"))
    else
      Ok(())
  }

  /** Inclusive bounds; a NaN value, or a NaN bound, is accepted. */
  function ValidateRange(name: string, value: F64, min: F64, max: F64): (r: Result<()>)
    ensures value.Fin? && min.Fin? && max.Fin? ==>
              (r.Ok? <==> min.val <= value.val <= max.val)
    ensures value.NaN? ==> r.Ok?
    ensures !value.Fin? && !value.NaN? && min.Fin? && max.Fin? ==> r.Err?
    ensures ReportsValue(r, name, value)
  {
    if Lt(value, min) || Gt(value, max) then
      Err(InvalidParameters(name, value, "must be in range [min, max]"))
    else
      Ok(())
  }

  function ValidateCorrelation(name: string, rho: F64): (r: Result<()>)
    ensures r.Ok? <==> CorrelationOrNaN(rho)
    ensures ReportsValue(r, name, rho)
  {
    ValidateRange(name, rho, Fin(-1.0), One)
  }

  function ValidateFinite(name: string, value: F64): (r: Result<()>)
    ensures r.Err? <==> value == NaN || value == PosInf || value == NegInf
    ensures ReportsValue(r, name, value)
  {
    if !IsFinite(value) then
      Err(InvalidParameters(name, value, "must be finite (not NaN or infinite)"))
    else
      Ok(())
  }

  function ValidatePaths(paths: nat): (r: Result<()>)
    ensures r.Ok? <==> 1 <= paths <= MaxPaths
    ensures r.Err? ==> r.error.InvalidConfiguration? && r.error.field == "paths"
  {
    if paths == 0 then
      Err(InvalidConfiguration("paths", "must be greater than 0"))
    else if paths > MaxPaths then
      Err(InvalidConfiguration("paths", "exceeds maximum allowed (1 billion)"))
    else
      Ok(())
  }

  function ValidateSteps(steps: nat): (r: Result<()>)
    ensures r.Ok? <==> 1 <= steps <= MaxSteps
    ensures r.Err? ==> r.error.InvalidConfiguration? && r.error.field == "steps"
  {
    if steps == 0 then
      Err(InvalidConfiguration("steps", "must be greater than 0"))
    else if steps > MaxSteps then
      Err(InvalidConfiguration("steps", "exceeds maximum allowed (100,000)"))
    else
      Ok(())
  }

  // ---------------------------------------------------------------------
  // The edge cases the guards are documented with.

  /** Zero is rejected by the positivity guard and accepted by the
      non-negativity guard; NaN passes both. */
  lemma ZeroAndNaNAtTheSignGuards(name: string)
    ensures ValidatePositive(name, Zero).Err?
    ensures ValidateNonNegative(name, Zero).Ok?
    ensures ValidatePositive(name, NaN).Ok? && ValidateNonNegative(name, NaN).Ok?
  {
  }

  /** The correlation bounds are inclusive: +-1 pass, +-1.1 fail. */
  lemma CorrelationBoundsInclusive(name: string)
    ensures ValidateCorrelation(name, One).Ok? && ValidateCorrelation(name, Fin(-1.0)).Ok?
    ensures ValidateCorrelation(name, Fin(1.1)).Err? && ValidateCorrelation(name, Fin(-1.1)).Err?
  {
  }
}
