# fast-sde in Dafny

A model of the discrete core of fast-sde, a Rust library that prices options by
Monte Carlo simulation of stochastic differential equations. The model covers:

- the counter-based random stream and its factory (`src/rng.rs`);
- the parameter and configuration guards (`src/error.rs`);
- the option payoffs (`src/mc/payoffs.rs`);
- the geometric-Brownian-motion pricer `mc_price_option_gbm` with its
  configuration check, antithetic pairing, six-sum reduction, control
  variate, variance clamp and finiteness checks, and the pathwise Greeks
  with the finite-difference Gamma (`src/mc/mc_engine.rs`);
- the Heston stepper: parameter validation, construction, the three
  discretisation schemes and the checks around a step
  (`src/models/heston.rs`).

The modules:

| module | file | what it holds |
|---|---|---|
| `Float` | float.dfy | `f64` as `Fin(real) \| PosInf \| NegInf \| NaN`, with IEEE comparisons, Rust's `max`, and `exp`/`sqrt` as fields of a `MathLib` record |
| `Errors` | errors.dfy | `SdeError`, `Result`, and the `validation` functions |
| `Rng` | rng.dfy | `CounterRng` and `RngFactory` on `bv64`; the mixer and its inverse |
| `Payoffs` | payoffs.dfy | `Payoff` and `calculate` |
| `Variance` | variance.dfy | the two divisors of the variance of a Monte Carlo mean, and the sample algebra that compares them |
| `Engine` | engine.dfy | `McConfig`, `validate`, the per-path sample, the reductions and the pricer |
| `Greeks` | greeks.dfy | Delta, Vega, Rho, Gamma and the batched Gamma |
| `Heston` | heston.dfy | `HestonParams`, `Heston`, `validate_params`, the constructors, the schemes and `step` |

Finite arithmetic is exact over the reals. The IEEE special values are kept
because the guards treat them specially: `value <= 0.0` lets NaN through, and
`x.max(0.0)` turns NaN into 0. Randomness is a parameter:

- `normal(seed, k)` is the k-th standard normal draw of the generator seeded
  with `seed`;
- the QE scheme's uniform is an argument of the step;
- `bsCall` is the Black–Scholes price for the configuration.

The three parallel passes of the pricer are one per-path function. The
`rayon` reduction is a fold over the path range, and `SumsSplit` shows that
any split point gives the same total.

## Model

| member | source | states |
|---|---|---|
| Errors.ValidatePositive | src/error.rs:130-140 | accepts exactly the values that are not `<= 0` (positive reals, +inf, NaN); the error carries the given name and value |
| Errors.ValidateNonNegative | src/error.rs:143-153 | accepts exactly the values that are not `< 0`, so 0 and NaN pass; the error carries name and value |
| Errors.ValidateRange | src/error.rs:156-166 | for finite bounds a finite value passes iff min <= value <= max (inclusive); NaN passes; infinities fail; name and value are reported |
| Errors.ValidateCorrelation | src/error.rs:169-171 | passes iff rho is in [-1, 1] or NaN |
| Errors.ValidateFinite | src/error.rs:174-184 | fails exactly on NaN, +inf and -inf |
| Errors.ValidatePaths | src/error.rs:187-201 | passes iff 1 <= paths <= 10^9; otherwise `InvalidConfiguration` on field "paths" |
| Errors.ValidateSteps | src/error.rs:204-218 | passes iff 1 <= steps <= 10^5; otherwise `InvalidConfiguration` on field "steps" |
| Errors.ZeroAndNaNAtTheSignGuards | src/error.rs:226-231 | 0 is rejected as positive but accepted as non-negative; NaN passes both |
| Errors.CorrelationBoundsInclusive | src/error.rs:233-241 | +-1.0 are accepted and +-1.1 rejected |
| Rng.New | src/rng.rs:56-58 | the generator holds the given seed and counter |
| Rng.Bump | src/rng.rs:62 | a draw increments the counter by one modulo 2^64 and keeps the base seed |
| Rng.UnmixMix | src/rng.rs:64-66 | the splitmix stages have an explicit inverse, so the mixer is a bijection on 64-bit words |
| Rng.MixInjective | src/rng.rs:64-66 | two mixer inputs give the same word iff they are equal |
| Rng.Output | src/rng.rs:63-66 | the emitted word decodes, under the inverse mixer, to `base_seed + counter` |
| Rng.NextU64 | src/rng.rs:60-67 | `next_u64` bumps first and then emits the word of the bumped state |
| Rng.Top53 | src/rng.rs:70 | the shifted word is below 2^53 |
| Rng.UnitInterval | src/rng.rs:70 | the scaled numerator lies in [0, 1) and times 2^53 gives back the numerator |
| Rng.Uniform | src/rng.rs:69-71 | `uniform` advances the generator as one `next_u64` and returns a value in [0, 1) |
| Rng.Advance | src/rng.rs:60-62 | any number of draws leaves the base seed unchanged |
| Rng.Draws | src/rng.rs:60-66 | the j-th of k words is the output of the state bumped j+1 times, so equal states give equal streams |
| Rng.CreateCounterRng | src/rng.rs:112-114 | path p's generator has the factory's seed and counter p |
| Rng.ShiftedAdvance | src/rng.rs:112-114 | path p advanced k+1 times is path p+1 advanced k times |
| Rng.NeighbourPathStreams | src/rng.rs:60-66 | path p+1's stream is path p's stream without its first word |
| Rng.OutputsDiffer | src/rng.rs:63-66 | states with different mixer inputs emit different words |
| Rng.DistinctInputsDistinctStreams | src/rng.rs:60-66 | generators whose first mixer inputs differ draw different streams |
| Rng.BumpChangesInput | src/rng.rs:62-63 | a bump always changes the mixer input |
| Rng.AdjacentPathsDistinctStreams | src/rng.rs:148-160 | paths p and p+1 (0 and 1 among them) draw different non-empty streams |
| Payoffs.Calculate | src/mc/payoffs.rs:57-100 | every payoff is non-negative (or +inf) on every admissible path |
| Payoffs.ScanBarrier | src/mc/payoffs.rs:77-83 | the early-exit scan reports a knock-out iff some price on the path is >= h |
| Payoffs.EuropeanDependsOnLast | src/mc/payoffs.rs:61-65 | European payoffs of two paths with the same last price are equal |
| Payoffs.CallPutParity | src/mc/payoffs.rs:61-65 | for finite data, call minus put equals S_T - K |
| Payoffs.BarrierKnockOut | src/mc/payoffs.rs:76-97 | a price >= h anywhere on the path, the first one included, makes the barrier payoff 0 |
| Payoffs.BarrierVersusEuropean | src/mc/payoffs.rs:76-97 | without a touch the barrier payoff is the European one, and it is never larger |
| Payoffs.AsianIsAverage | src/mc/payoffs.rs:69-72 | the Asian call is max(mean - K, 0) over the real mean of the path |
| Payoffs.AsianSinglePoint | src/mc/payoffs.rs:69-72 | on a one-price path the Asian call equals the European call |
| Payoffs.AsianEmptyPath | src/mc/payoffs.rs:70-71 | on an empty path the Asian average is 0/0 = NaN and the clamp returns 0 |
| Engine.Validate | src/mc/mc_engine.rs:39-59 | accepts exactly the valid configurations: paths and steps in range, s0, sigma, t positive, r finite, epsilon positive and at most s0/10; the paths and steps errors come first |
| Engine.PathSeed | src/mc/mc_engine.rs:136 | path i's seed is `seed + i` on 64-bit words, equal to it when there is no overflow |
| Engine.Normals | src/mc/mc_engine.rs:145-146 | the trajectory's draws are consecutive draws of the path's generator, with the antithetic sign applied |
| Engine.Trajectory | src/mc/mc_engine.rs:141-151 | the path starts at s0 and each price is the previous times the GBM growth factor of its draw |
| Engine.Control | src/mc/mc_engine.rs:161-180 | the control is non-negative, and 0 for payoffs other than the European and Asian calls |
| Engine.Analytic | src/mc/mc_engine.rs:161-180 | the analytic price is 0 for payoffs without a control |
| Engine.PathSample | src/mc/mc_engine.rs:135-220 | the per-path payoff and control are non-negative, and the control is 0 for payoffs without one |
| Engine.TwinUsesSecondBlock | src/mc/mc_engine.rs:136-199 | one generator's stream of 2·steps draws is the first trajectory's `steps` draws followed by the next `steps`, and the antithetic twin's draws are exactly that second block negated |
| Engine.PathSampleFromStream | src/mc/mc_engine.rs:135-220 | read off the path's stream: without antithetic sampling the sample is the first trajectory's payoff and control; with it, the payoff and the control are each 0.5·(first + twin), the twin running on the second block of draws negated |
| Engine.AverageNonNeg | src/mc/mc_engine.rs:218-219 | the antithetic average of two non-negative values is non-negative |
| Engine.PlusAssoc | src/mc/mc_engine.rs:231-243 | the reduction's combine step is associative |
| Engine.PlusNoSums | src/mc/mc_engine.rs:232-241 | the all-zero tuple is the identity of the combine step |
| Engine.SumsSplit | src/mc/mc_engine.rs:231-243 | reducing a range equals combining the reductions of any two halves |
| Engine.SumSplit | src/mc/mc_engine.rs:336-337 | the same for the scalar sums of the later passes |
| Engine.SumsComponentwise | src/mc/mc_engine.rs:126-133 | each of the six reduced components is the sum of that component alone |
| Engine.CvCoefficient | src/mc/mc_engine.rs:265-269 | b is cov/var when var exceeds 1e-10 and 0 otherwise (NaN included) |
| Engine.ClampVariance | src/mc/mc_engine.rs:417-430 | values in (-1e-10, 0) become 0; values at or below -1e-10, and -inf, fail with `NumericalInstability`; anything else passes |
| Engine.Finalize | src/mc/mc_engine.rs:453-467 | succeeds iff the price is finite and the variance is finite and above -1e-10; then the variance is >= 0 |
| Engine.Price | src/mc/mc_engine.rs:118-468 | validation errors are returned unchanged; any `Ok` has a valid config, a finite price and a finite variance >= 0; other errors are `NumericalInstability` |
| Engine.PriceCorrected | src/mc/mc_engine.rs:118-468 | the pricer with the centring and the divisor corrected keeps `Engine.Price`'s guarantees (validation errors first, finite price, finite non-negative variance, numerical-instability errors otherwise); its variance's value is stated by `Engine.CorrectedVarianceIsUnbiased` |
| Engine.SinglePathVarianceNotFinite | src/mc/mc_engine.rs:412-414 | with one path the divisor n(n-1) is 0 and the variance is never finite |
| Engine.SinglePathAlwaysFails | src/mc/mc_engine.rs:412-465 | so the pricer fails whenever paths = 1, although validation accepts it |
| Engine.FirstPassWithoutControl | src/mc/mc_engine.rs:176-179 | for puts and barriers the control, squared control and analytic sums are 0 |
| Engine.CoefficientWithoutControl | src/mc/mc_engine.rs:261-269 | zero control sums give b = 0 |
| Engine.ControlledWithoutControl | src/mc/mc_engine.rs:335 | with b = 0 and a zero control, a controlled term is the discounted payoff |
| Engine.ControlVariateInert | src/mc/mc_engine.rs:258-335 | for payoffs without a control, b = 0 and each controlled term is discount times the payoff |
| Engine.EuropeanCallSelfControl | src/mc/mc_engine.rs:161-167 | for the European call the control equals the payoff on every path |
| Engine.SelfControlSums | src/mc/mc_engine.rs:222-229 | so the control sums repeat the payoff sums |
| Engine.PerfectControlCoefficient | src/mc/mc_engine.rs:261-269 | a control equal to the payoff with variance above the threshold gets b = 1 |
| Engine.AnalyticMean | src/mc/mc_engine.rs:165-166 | the mean of the per-path analytic prices is the Black–Scholes price |
| Engine.SelfControlledTerm | src/mc/mc_engine.rs:335 | with b = 1 and control = payoff, a controlled term is discount times the centre, whatever the payoff |
| Engine.SelfControlledCentres | src/mc/mc_engine.rs:335 | centred on the analytic price the term is discount times that price; centred on it divided by the discount the term is the price |
| Engine.SelfControlFacts | src/mc/mc_engine.rs:246-269 | for the European call with a varying control, b = 1, the analytic mean is the Black–Scholes price and control = payoff |
| Engine.EuropeanTermWritten | src/mc/mc_engine.rs:335 | as written, every controlled term of the European call is discount times the Black–Scholes price |
| Engine.EuropeanTermCorrected | src/mc/mc_engine.rs:335 | with the corrected centre every term is the Black–Scholes price |
| Engine.EuropeanControlVariatePrice | src/mc/mc_engine.rs:271-339 | as written, the control-variate price of a European call is discount times the Black–Scholes price |
| Engine.EuropeanControlVariatePriceCorrected | src/mc/mc_engine.rs:271-339 | with the corrected centre the price is the Black–Scholes price |
| Engine.VarianceUnderstatedByPathCount | src/mc/mc_engine.rs:411-434 | the corrected divisor leaves the price unchanged and multiplies any finite written variance by n |
| Engine.ControlledVariances | src/mc/mc_engine.rs:340-414 | with the control variate and finite controlled terms, mean(x^2) - mean^2 over n - 1 is the textbook unbiased variance of the mean of the per-path controlled terms, and over n(n-1) that value divided by n |
| Engine.PlainVariances | src/mc/mc_engine.rs:433-434 | without the control variate and with finite payoffs, the spread scaled by discount^2 over n - 1 is the unbiased variance of the mean of the discounted payoffs, and over n(n-1) that value divided by n |
| Engine.CorrectedVarianceIsUnbiased | src/mc/mc_engine.rs:405-434 | the corrected estimate's variance is the unbiased variance of the mean of the per-path estimator (controlled terms, or discounted payoffs); without the control variate the written one is that value over n |
| Variance.WrittenDivisorOfOnePath | src/mc/mc_engine.rs:414 | the divisor n(n-1) is 0 for one path |
| Variance.DeviationsAboutMean | src/mc/mc_engine.rs:412-413 | the numerator mean(x^2) - mean^2 times n is the sum of squared deviations from the mean |
| Variance.VarianceOfMeanFormulas | src/mc/mc_engine.rs:412-414 | over n - 1 the numerator is the textbook unbiased variance of the mean; over n(n-1), as written, it is that value divided by n |
| Variance.DivisorRescale | src/mc/mc_engine.rs:433-434 | whenever the written variance is finite, the corrected one is n times it |
| Variance.TwoPathVarianceExample | src/mc/mc_engine.rs:433-434 | payoffs 0 and 2 give a written variance of 1/2 against an unbiased variance of the mean of 1 |
| Greeks.FirstDraw | src/mc/mc_engine.rs:507-508 | each Greek reads the first draw of path i's generator, a finite value |
| Greeks.Delta | src/mc/mc_engine.rs:493-536 | 0 for any payoff other than the European call; NaN for a call with no paths |
| Greeks.Vega | src/mc/mc_engine.rs:563-611 | 0 for any payoff other than the European call; NaN for a call with no paths |
| Greeks.Rho | src/mc/mc_engine.rs:638-685 | 0 for any payoff other than the European call; NaN for a call with no paths |
| Greeks.GammaStep | src/mc/mc_engine.rs:719 | epsilon is the configured one, else s0/1000 |
| Greeks.GammaFiniteDiff | src/mc/mc_engine.rs:717-734 | two full Delta runs at s0 ± ε on the same seeds over 2ε: 0 for any payoff other than the European call (when ε is neither 0 nor NaN), and never finite when ε is 0 or NaN |
| Greeks.GammaBatched | src/mc/mc_engine.rs:766-776 | 0 for any payoff other than the European call |
| Greeks.TerminalPositive | src/mc/mc_engine.rs:510-512 | with finite positive market data the simulated terminal price is finite and positive |
| Greeks.DeltaOfPathFinNonNeg | src/mc/mc_engine.rs:514-517 | the pathwise delta is 0 or S_T/S0, finite and >= 0 |
| Greeks.DeltaTermFinNonNeg | src/mc/mc_engine.rs:514-530 | the antithetic-averaged pathwise delta is finite and >= 0 |
| Greeks.DeltaNonNegative | src/mc/mc_engine.rs:493-536 | with finite market data and at least one path, Delta is finite and >= 0 |
| Greeks.DeltaIsSpotSlope | src/mc/mc_engine.rs:510-517 | S_T/S0 is the exact slope of the terminal price in the spot |
| Greeks.VegaFactorIsSigmaSlope | src/mc/mc_engine.rs:583-590 | -sigma t + W_T is the derivative of the log-price exponent in sigma |
| Greeks.RhoOfPathClosedForm | src/mc/mc_engine.rs:659-665 | the pathwise rho is t K in the money and 0 otherwise |
| Greeks.PairsComponentwise | src/mc/mc_engine.rs:828 | the pair reduction is two independent sums |
| Greeks.DeltaPairHalves | src/mc/mc_engine.rs:788-826 | each half of a batched pair is the delta term of the configuration with the spot moved, on the same draw |
| Greeks.BatchedMeansAreDeltas | src/mc/mc_engine.rs:784-831 | the discounted means of the batched pass are the two Delta runs at the moved spots |
| Greeks.CentralDifferenceOfZeros | src/mc/mc_engine.rs:733 | two zero deltas give Gamma 0 unless epsilon is 0 or NaN |
| Greeks.GammaBatchedMatchesFiniteDiff | src/mc/mc_engine.rs:717-835 | the batched Gamma equals the two-run Gamma for the European call, and for other payoffs whenever epsilon is neither 0 nor NaN |
| Heston.ValidateParams | src/models/heston.rs:96-132 | accepts exactly: s0 positive, v0 non-negative, r finite, kappa in (0, 100], theta in (0, 1], xi in (0, 5], rho in [-1, 1] (NaN passing the sign and range guards); errors are `InvalidParameters` |
| Heston.NewWithSchemeQuiet | src/models/heston.rs:74-93 | construction succeeds iff the parameters validate, keeping them and the scheme; the warning fires iff valid, Feller-violating and not suppressed |
| Heston.NewWithScheme | src/models/heston.rs:70-72 | succeeds iff the parameters validate, with the given scheme |
| Heston.New | src/models/heston.rs:66-68 | succeeds iff the parameters validate, with the Andersen QE scheme |
| Heston.SchemeName | src/models/heston.rs:387-393 | every scheme has a non-empty name |
| Heston.SchemeNamesDistinct | src/models/heston.rs:387-393 | two schemes share a name iff they are the same scheme |
| Heston.StepFullTruncation | src/models/heston.rs:217-238 | the new variance is >= 0 (or +inf) and no uniform is drawn |
| Heston.StepAndersenQE | src/models/heston.rs:266-322 | the new variance is >= 0, the spot is at least 1e-10 and never NaN, and a uniform is drawn iff psi is not <= 1.5 |
| Heston.AlfonsiCorrection | src/models/heston.rs:365-370 | the correction is 0 unless both v and the auxiliary value are positive |
| Heston.StepAlfonsi | src/models/heston.rs:344-384 | the new variance is >= 0 and no uniform is drawn |
| Heston.Step | src/models/heston.rs:135-200 | two normals are drawn; a bad dt, spot or variance fails before any scheme runs, leaving them unchanged; `Ok` iff the inputs and the outputs are good, and then spot > 0 and variance >= 0, both finite |
| Heston.CheckAfterStep | src/models/heston.rs:184-199 | the post-step check passes iff the new spot is finite and positive and the new variance finite and non-negative; every failure is a numerical instability |
| Heston.FellerViolationStillConstructs | src/models/heston.rs:83-92 | a valid parameter set that breaks the Feller condition still constructs |
| Heston.FellerExample | src/models/heston.rs:468-482 | kappa = 1, theta = 0.04, xi = 1 breaks the Feller condition and `new` succeeds |
| Heston.CapsReject | src/models/heston.rs:106-129 | each cap rejects on its own (kappa 100.5, xi 5.5, theta 1.5) and kappa = 100 passes |
| Heston.ShocksFinite | src/models/heston.rs:146-147 | with abs(rho) <= 1 and finite draws the variance shock is finite |
| Heston.ShockExtremes | src/models/heston.rs:146-147 | rho = 1 makes the variance shock z1; rho = 0 makes it z2 (for any `exp`/`sqrt` satisfying `Float.Axioms`, which fix sqrt(0) = 0 and sqrt(1) = 1) |
| Heston.FullTruncationSpotUsesOldVariance | src/models/heston.rs:226-235 | the new spot does not depend on kappa, theta, xi or the variance shock |
| Heston.QeQuadraticUsesAbsShock | src/models/heston.rs:288-292 | the quadratic branch depends on the shock only through its absolute value |
| Heston.QeAtomAtZero | src/models/heston.rs:295-300 | in the exponential branch a uniform <= p gives variance 0 |
| Heston.AlfonsiAveragedVolIsNewVol | src/models/heston.rs:375-379 | the "averaged" volatility is the square root of the new variance |
| Heston.StepOkIffSchemeGood | src/models/heston.rs:172-199 | with good inputs a step succeeds iff the scheme's spot is finite and positive and its variance finite |
| Heston.FullTruncationSpotGood | src/models/heston.rs:225-235 | with finite parameters and good inputs the full-truncation spot is finite and positive |
| Heston.FullTruncationVarianceFinite | src/models/heston.rs:225-231 | with finite parameters and good inputs the full-truncation variance is finite |
| Heston.FullTruncationNeverFails | src/models/heston.rs:150-238 | so a full-truncation step with finite parameters and good inputs never fails |

## Left out

- Floating point: arithmetic is exact over the reals, with no rounding, no overflow to infinity and no signed zero. `exp` and `sqrt` are arbitrary functions carrying positivity axioms and the exact roots sqrt(0) = 0 and sqrt(1) = 1 only. Convergence, variance reduction and Greek accuracy are statistical claims and are not modelled.
- `rayon` parallelism: the passes are sequential folds. Partition independence (`Engine.SumsSplit`) holds in exact arithmetic only.
- `CounterRng::normal` (src/rng.rs:73-98): a Box–Muller transform over a process-wide mutable spare value.
- `StdRng`, `seed_rng_from_u64` and `get_normal_draw` (src/rng.rs:117-129): a third-party generator. Its draws are the `normal` parameter of `Engine.Env`.
- Rng.StdSeed: the `create_std_rng` seed `base_seed + path_id` is defined but carries no contract. Extra 64-bit adder facts make the other `bv64` proofs unstable.
- Rng.AdjacentPathsDistinctStreams: distinct streams are proved for adjacent path ids, and for any two generators whose first mixer inputs differ. They are not proved for an arbitrary pair p != q: the step from p != q to `seed + p + 1 != seed + q + 1` on 64-bit words is beyond the solver here.
- `bs_call_price` (src/analytics/bs_analytic.rs): a closed form over `erf`, taken as the parameter `bsCall`.
- The `greeks` bit set of `McConfig` and `Default for McConfig` (src/mc/mc_engine.rs:10-19, 62-79): neither is read by the pricer.
- Error display and messages (src/error.rs:47-118): reasons keep their fixed text but not the formatted numbers.
- The Feller warning's `eprintln!` is a boolean in the result of `Heston.NewWithSchemeQuiet`.
- The `SDEModel` implementation for `Heston` (src/models/heston.rs:396-417): a simplified one-dimensional step not used by `step`.
- The QE moment and martingale-correction formulas (src/models/heston.rs:278-316) are written out but nothing is proved about their values beyond the branch and the clamps.
- Engine.Price: its contract bounds the result (finite, variance >= 0, error kinds). The price's value is stated for the European call by `Engine.EuropeanControlVariatePrice`, and the variance's relation to the unbiased variance of the mean of the per-path terms by `Engine.VarianceUnderstatedByPathCount` and `Engine.CorrectedVarianceIsUnbiased`.
- Engine.PathSeed: `seed + i as u64` overflow is taken as wrapping, as in a release build. A debug build panics.

## Notes on the code

- The doc comment of `mc_price_option_gbm` (src/mc/mc_engine.rs:111) calls the returned variance the "sample variance of the estimator (for confidence intervals)", and src/lib.rs:34 and examples/demo.rs:50 take its square root as the standard error. The code divides the population variance `mean(x^2) - mean^2` by `n(n-1)` (src/mc/mc_engine.rs:412-414, 433-434), which is the unbiased variance of the mean divided by n (first finding).
- The same doc comment gives the control-variate estimator as `Y - b(X - E[X])` (src/mc/mc_engine.rs:102). The code subtracts the mean analytic price, which is discounted, from an undiscounted payoff (second finding).
- The same doc comment says each path with draw Z is paired with a path with -Z (src/mc/mc_engine.rs:98-99). The code gives the twin the next `steps` draws of the same generator, negated; the model follows the code (`Engine.TwinUsesSecondBlock`, `Engine.PathSampleFromStream`).
- The Alfonsi step names its volatility `sqrt_v_avg` (src/models/heston.rs:375), but both terms read the already-updated variance, so the "average" is `sqrt(v')` (`Heston.AlfonsiAveragedVolIsNewVol`); the model follows the code.
- With `paths = 1` the configuration validates but the pricer always fails, because `n(n-1) = 0` (`Engine.SinglePathAlwaysFails`).
- NaN passes `validate_positive`, `validate_non_negative` and `validate_range`, since each rejects only on a true comparison.
- The Greeks do not call `validate`.

## Findings

| source | as written | input that shows it | evidently intended | confidence | as-written member | corrected member |
|---|---|---|---|---|---|---|
| src/mc/mc_engine.rs:412-414, src/mc/mc_engine.rs:433-434 | the variance of the estimate is `(mean(x^2) - mean^2) / (n(n-1))`, the unbiased variance of the mean divided by n | two paths paying 0 and 2 with discount 1: as written 1/2, unbiased variance of the mean 1 | `(mean(x^2) - mean^2) / (n-1)`, the unbiased variance of the mean, whose square root src/lib.rs:34 and examples/demo.rs:50 take as the standard error | medium, not executed | Engine.VarianceUnderstatedByPathCount, Engine.ControlledVariances, Variance.TwoPathVarianceExample | Engine.CorrectedVarianceIsUnbiased, Variance.VarianceOfMeanFormulas, Engine.PriceCorrected |
| src/mc/mc_engine.rs:335, src/mc/mc_engine.rs:404-405 | the control (an undiscounted payoff) is centred on the mean analytic price, which is already discounted | European call with the control variate: the control equals the payoff, b = 1, and every term is `discount * bsCall`, so with r = 0.05 and t = 1 the price is about 0.951 times the Black–Scholes price | centre on the control's expectation under the simulation, `bsCall / discount`, which makes every term `bsCall` | high, not executed | Engine.EuropeanControlVariatePrice | Engine.EuropeanControlVariatePriceCorrected |
