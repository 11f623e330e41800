/**
 * Option payoffs evaluated on one simulated price path `[S_0, ..., S_T]`.
 *
 * The European and barrier payoffs read the last price, so they need a
 * non-empty path; the Asian payoff divides the path sum by its length, which
 * on an empty path is 0/0 = NaN and is then clamped to 0 by `max`.
 */
module Payoffs {
  import opened Float

  datatype Payoff =
    | EuropeanCall(k: F64)
    | EuropeanPut(k: F64)
    | AsianCall(k: F64)
    | BarrierCallUpAndOut(k: F64, h: F64)
    | BarrierPutUpAndOut(k: F64, h: F64)

  /** `path.iter().sum()`: a left fold of IEEE additions from zero. */
  function Sum(path: seq<F64>): (r: F64)
    decreases |path|
  {
    if |path| == 0 then Zero else Add(Sum(path[..|path| - 1]), path[|path| - 1])
  }

  /** The exact sum of finite values. */
  function RealSum(xs: seq<real>): real
    decreases |xs|
  {
    if |xs| == 0 then 0.0 else RealSum(xs[..|xs| - 1]) + xs[|xs| - 1]
  }

  predicate AllFinite(path: seq<F64>) {
    forall i :: 0 <= i < |path| ==> path[i].Fin?
  }

  function Values(path: seq<F64>): (xs: seq<real>)
    requires AllFinite(path)
    ensures |xs| == |path|
    ensures forall i :: 0 <= i < |path| ==> xs[i] == path[i].val
  {
    seq(|path|, i requires 0 <= i < |path| => path[i].val)
  }

  /** On a path of finite prices the IEEE fold is the exact sum. */
  lemma {:induction false} SumOfFinite(path: seq<F64>)
    requires AllFinite(path)
    ensures Sum(path) == Fin(RealSum(Values(path)))
    decreases |path|
  {
    if |path| > 0 {
      var init := path[..|path| - 1];
      SumOfFinite(init);
      assert Values(init) == Values(path)[..|path| - 1];
    }
  }

  /** The barrier is touched: some price compares `>= h` (NaN never does). */
  predicate Touches(path: seq<F64>, h: F64) {
    exists i :: 0 <= i < |path| && Ge(path[i], h)
  }

  /** The knock-out scan of the barrier payoffs, with its early exit. */
  method ScanBarrier(path: seq<F64>, h: F64) returns (knockedOut: bool)
    ensures knockedOut <==> Touches(path, h)
  {
    knockedOut := false;
    var i := 0;
    while i < |path|
      invariant 0 <= i <= |path|
      invariant forall j :: 0 <= j < i ==> !Ge(path[j], h)
    {
      if Ge(path[i], h) {
        knockedOut := true;
        return;
      }
      i := i + 1;
    }
  }

  function CallValue(last: F64, k: F64): F64 { Max(Sub(last, k), Zero) }
  function PutValue(last: F64, k: F64): F64 { Max(Sub(k, last), Zero) }

  /** What a path needs for `calculate` not to panic. */
  predicate Admissible(p: Payoff, path: seq<F64>) {
    |path| > 0 || p.AsianCall?
  }

  /** `Payoff::calculate`. */
  function Calculate(p: Payoff, path: seq<F64>): (r: F64)
    requires Admissible(p, path)
    ensures NonNeg(r)
  {
    MaxZeroNonNeg(Sub(if |path| > 0 then path[|path| - 1] else Zero, p.k));
    MaxZeroNonNeg(Sub(p.k, if |path| > 0 then path[|path| - 1] else Zero));
    match p
    case EuropeanCall(k) => CallValue(path[|path| - 1], k)
    case EuropeanPut(k) => PutValue(path[|path| - 1], k)
    case AsianCall(k) =>
      var average := Div(Sum(path), FromNat(|path|));
      MaxZeroNonNeg(Sub(average, k));
      Max(Sub(average, k), Zero)
    case BarrierCallUpAndOut(k, h) =>
      if Touches(path, h) then Zero else CallValue(path[|path| - 1], k)
    case BarrierPutUpAndOut(k, h) =>
      if Touches(path, h) then Zero else PutValue(path[|path| - 1], k)
  }

  // ---------------------------------------------------------------------
  // Properties.

  /** European payoffs read only the last price. */
  lemma EuropeanDependsOnLast(p: Payoff, a: seq<F64>, b: seq<F64>)
    requires p.EuropeanCall? || p.EuropeanPut?
    requires |a| > 0 && |b| > 0 && a[|a| - 1] == b[|b| - 1]
    ensures Calculate(p, a) == Calculate(p, b)
  {
  }

  /** Put-call parity per path: call - put = S_T - K for finite values. */
  lemma CallPutParity(k: F64, path: seq<F64>)
    requires |path| > 0 && path[|path| - 1].Fin? && k.Fin?
    ensures Calculate(EuropeanCall(k), path).Fin? && Calculate(EuropeanPut(k), path).Fin?
    ensures Calculate(EuropeanCall(k), path).val - Calculate(EuropeanPut(k), path).val
            == path[|path| - 1].val - k.val
  {
  }

  /** Touching the barrier, at any index including the first, knocks the
      option out. */
  lemma BarrierKnockOut(p: Payoff, path: seq<F64>, i: nat)
    requires p.BarrierCallUpAndOut? || p.BarrierPutUpAndOut?
    requires i < |path| && Ge(path[i], p.h)
    ensures Calculate(p, path) == Zero
  {
  }

  /** The European counterpart of a barrier payoff. */
  function Vanilla(p: Payoff): (q: Payoff)
    requires p.BarrierCallUpAndOut? || p.BarrierPutUpAndOut?
    ensures q.k == p.k && (q.EuropeanCall? <==> p.BarrierCallUpAndOut?)
  {
    if p.BarrierCallUpAndOut? then EuropeanCall(p.k) else EuropeanPut(p.k)
  }

  /** Without a touch the barrier payoff is the European one, and in every
      case it is at most the European one. */
  lemma BarrierVersusEuropean(p: Payoff, path: seq<F64>)
    requires p.BarrierCallUpAndOut? || p.BarrierPutUpAndOut?
    requires |path| > 0
    ensures !Touches(path, p.h) ==> Calculate(p, path) == Calculate(Vanilla(p), path)
    ensures Le(Calculate(p, path), Calculate(Vanilla(p), path))
  {
  }

  /** The Asian call pays the excess of the arithmetic mean over the strike. */
  lemma AsianIsAverage(k: F64, path: seq<F64>)
    requires |path| > 0 && AllFinite(path) && k.Fin?
    ensures var mean := RealSum(Values(path)) / (|path| as real);
            Calculate(AsianCall(k), path) == Fin(if mean - k.val > 0.0 then mean - k.val else 0.0)
  {
    SumOfFinite(path);
  }

  /** On a one-price path the Asian call is the European call. */
  lemma AsianSinglePoint(k: F64, s: F64)
    ensures Calculate(AsianCall(k), [s]) == Calculate(EuropeanCall(k), [s])
  {
    assert Sum([s]) == Add(Zero, s) by {
      assert [s][..0] == [];
    }
  }

  /** On an empty path the Asian average is NaN, which the clamp turns
      into 0. */
  lemma AsianEmptyPath(k: F64)
    ensures Calculate(AsianCall(k), []) == Zero
  {
  }
}
