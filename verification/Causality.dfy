/** No look-ahead: what a backtest reports up to a moment does not depend on ticks after it. */
module Causality {
  import opened Wrappers
  import opened Types
  import opened MarketData
  import opened SimulatedPortfolio
  import opened Backtest

  lemma {:induction false} LaterTicksCreditNothing(m: Positions, t: Time, past: seq<FundingTick>,
                                                   future: seq<FundingTick>, step: int)
    requires ValidTicks(past + future) && ValidTicks(past) && forall tk <- future :: tk.time >= t
    ensures StepCredit(m, t, past + future, step) == StepCredit(m, t, past, step)
  {
    if future == [] {
      assert past + future == past;
    } else {
      var n := |future| - 1;
      var all := past + future;
      assert all[..|all| - 1] == past + future[..n];
      LaterTicksCreditNothing(m, t, past, future[..n], step);
    }
  }

  lemma LaterTicksAccrueNothing(m: Positions, t: Time, past: seq<FundingTick>, future: seq<FundingTick>, step: int)
    requires ValidTicks(past + future) && ValidTicks(past) && forall tk <- future :: tk.time >= t
    ensures Accrued(m, t, past + future, step) == Accrued(m, t, past, step)
  {
    forall k | k in m
      ensures Earned(past + future, k, m[k].notional, step, t - step, t)
              == Earned(past, k, m[k].notional, step, t - step, t)
    {
      LaterTicksEarnNothing(past, future, k, m[k].notional, step, t - step, t);
    }
  }

  lemma StepIgnoresFuture<S>(setup: Setup<S>, past: seq<FundingTick>, future: seq<FundingTick>, t: Time, s: Sim<S>)
    requires ValidTicks(past + future) && ValidTicks(past) && forall tk <- future :: tk.time > t
    ensures StepAt(setup, past + future, t, s) == StepAt(setup, past, t, s)
  {
    LaterTicksCreditNothing(s.book.positions, t, past, future, setup.step);
    LaterTicksAccrueNothing(s.book.positions, t, past, future, setup.step);
    FutureIsInvisible(t, past, future);
  }

  lemma StepBefore(start: Time, step: int, k: nat, horizon: Time)
    requires k > 1 && step > 0 && start + (k - 1) * step <= horizon
    ensures start + (k - 2) * step <= horizon
  {
    assert (k - 1) * step == (k - 2) * step + step;
  }

  lemma NextIgnoresFuture<S>(setup: Setup<S>, past: seq<FundingTick>, future: seq<FundingTick>,
                             state: S, start: Time, k: nat, horizon: Time)
    requires ValidTicks(past + future) && ValidTicks(past) && (forall tk <- future :: tk.time > horizon)
    requires start + k * setup.step <= horizon
    requires Simulated(setup, past + future, state, start, k) == Simulated(setup, past, state, start, k)
    ensures Simulated(setup, past + future, state, start, k + 1) == Simulated(setup, past, state, start, k + 1)
  {
    var before := Simulated(setup, past, state, start, k);
    if before.Going? {
      SimulatedNext(setup, past + future, state, start, k);
      SimulatedNext(setup, past, state, start, k);
      StepIgnoresFuture(setup, past, future, start + k * setup.step, before.sim);
    } else {
      SimulatedStays(setup, past + future, state, start, k);
      SimulatedStays(setup, past, state, start, k);
    }
  }

  /** The steps up to the horizon go the same way whatever is appended after it, for any strategy. */
  lemma {:induction false} RunIgnoresFuture<S>(setup: Setup<S>, past: seq<FundingTick>, future: seq<FundingTick>,
                                               state: S, start: Time, k: nat, horizon: Time)
    requires ValidTicks(past + future) && ValidTicks(past) && setup.step > 0
    requires forall tk <- future :: tk.time > horizon
    requires k > 0 ==> start + (k - 1) * setup.step <= horizon
    ensures Simulated(setup, past + future, state, start, k) == Simulated(setup, past, state, start, k)
  {
    if k > 0 {
      if k > 1 { StepBefore(start, setup.step, k, horizon); }
      RunIgnoresFuture(setup, past, future, state, start, k - 1, horizon);
      NextIgnoresFuture(setup, past, future, state, start, k - 1, horizon);
    }
  }

  /* ----- later steps only append to the report ----- */

  ghost predicate Extends<S>(earlier: Sim<S>, later: Sim<S>) {
    earlier.curve <= later.curve && earlier.trades <= later.trades
  }

  lemma {:induction false} ClosesExtend<S>(costs: Costs, t: Time, orders: seq<OrderIntent>, s: Sim<S>)
    ensures Extends(s, AfterCloses(costs, t, orders, s))
  {
    if orders != [] { ClosesExtend(costs, t, orders[..|orders| - 1], s); }
  }

  lemma {:induction false} OpensExtend<S>(costs: Costs, t: Time, swaps: seq<SwapIntent>, s: Sim<S>)
    ensures Extends(s, AfterOpens(costs, t, swaps, s))
  {
    if swaps != [] { OpensExtend(costs, t, swaps[..|swaps| - 1], s); }
  }

  lemma StepExtends<S>(setup: Setup<S>, ticks: seq<FundingTick>, t: Time, s: Sim<S>)
    requires ValidTicks(ticks)
    ensures Extends(s, StepAt(setup, ticks, t, s).sim)
  {
    var accrued := AfterAccrual(ticks, setup.step, t, s);
    match setup.decide(s.state, StepInput(t, SnapshotAt(t, ticks), accrued.book.positions))
    case Err(message) =>
    case Ok((state, dec)) =>
      var decided := accrued.(state := state, decisions := accrued.decisions + 1);
      ClosesExtend(setup.costs, t, dec.orders, decided);
      OpensExtend(setup.costs, t, dec.swaps, AfterCloses(setup.costs, t, dec.orders, decided));
  }

  lemma {:induction false} RunExtends<S>(setup: Setup<S>, ticks: seq<FundingTick>, state: S, start: Time, k: nat,
                                         n: nat)
    requires ValidTicks(ticks) && k <= n
    ensures Extends(Simulated(setup, ticks, state, start, k).sim, Simulated(setup, ticks, state, start, n).sim)
  {
    if k < n {
      RunExtends(setup, ticks, state, start, k, n - 1);
      var before := Simulated(setup, ticks, state, start, n - 1);
      if before.Going? { StepExtends(setup, ticks, start + (n - 1) * setup.step, before.sim); }
    }
  }

  /** A run that is still going has one curve point per step, at the step's time. */
  lemma {:induction false} CurveFollowsSteps<S>(setup: Setup<S>, ticks: seq<FundingTick>, state: S, start: Time, k: nat)
    requires ValidTicks(ticks) && Simulated(setup, ticks, state, start, k).Going?
    ensures var curve := Simulated(setup, ticks, state, start, k).sim.curve;
            |curve| == k && forall i | 0 <= i < k :: curve[i].time == start + i * setup.step
  {
    if k > 0 {
      CurveFollowsSteps(setup, ticks, state, start, k - 1);
      var before := Simulated(setup, ticks, state, start, k - 1).sim;
      StepAddsOnePoint(setup, ticks, start + (k - 1) * setup.step, before);
    }
  }

  lemma StepAddsOnePoint<S>(setup: Setup<S>, ticks: seq<FundingTick>, t: Time, s: Sim<S>)
    requires ValidTicks(ticks) && StepAt(setup, ticks, t, s).Going?
    ensures var curve := StepAt(setup, ticks, t, s).sim.curve;
            |curve| == |s.curve| + 1 && curve[..|s.curve|] == s.curve && curve[|s.curve|].time == t
  {
    var accrued := AfterAccrual(ticks, setup.step, t, s);
    match setup.decide(s.state, StepInput(t, SnapshotAt(t, ticks), accrued.book.positions))
    case Err(message) =>
    case Ok((state, dec)) =>
      var decided := accrued.(state := state, decisions := accrued.decisions + 1);
      TradingLeavesCurve(setup.costs, t, dec.orders, dec.swaps, decided);
  }

  lemma TradingLeavesCurve<S>(costs: Costs, t: Time, orders: seq<OrderIntent>, swaps: seq<SwapIntent>, s: Sim<S>)
    ensures AfterOpens(costs, t, swaps, AfterCloses(costs, t, orders, s)).curve == s.curve
  {
    ClosesLeaveCurve(costs, t, orders, s);
    OpensLeaveCurve(costs, t, swaps, AfterCloses(costs, t, orders, s));
  }

  lemma {:induction false} ClosesLeaveCurve<S>(costs: Costs, t: Time, orders: seq<OrderIntent>, s: Sim<S>)
    ensures AfterCloses(costs, t, orders, s).curve == s.curve
  {
    if orders != [] { ClosesLeaveCurve(costs, t, orders[..|orders| - 1], s); }
  }

  lemma {:induction false} OpensLeaveCurve<S>(costs: Costs, t: Time, swaps: seq<SwapIntent>, s: Sim<S>)
    ensures AfterOpens(costs, t, swaps, s).curve == s.curve
  {
    if swaps != [] { OpensLeaveCurve(costs, t, swaps[..|swaps| - 1], s); }
  }

  /** What the strategy is shown at step m, if the run gets there. */
  ghost function ShownAt<S>(setup: Setup<S>, ticks: seq<FundingTick>, state: S, start: Time, m: nat): StepInput
    requires ValidTicks(ticks)
  {
    var t := start + m * setup.step;
    StepInput(t, SnapshotAt(t, ticks),
              Accrued(Simulated(setup, ticks, state, start, m).sim.book.positions, t, ticks, setup.step))
  }

  /**
   And it is what step m decides on: the strategy's answer to it stops the run, or gives the strategy
   its next state.
   */
  lemma DecidesOnShown<S>(setup: Setup<S>, ticks: seq<FundingTick>, state: S, start: Time, m: nat)
    requires ValidTicks(ticks) && Simulated(setup, ticks, state, start, m).Going?
    ensures var before, next := Simulated(setup, ticks, state, start, m), Simulated(setup, ticks, state, start, m + 1);
            match setup.decide(before.sim.state, ShownAt(setup, ticks, state, start, m))
            case Err(message) => next.Stopped? && next.message == message && next.at == start + m * setup.step
            case Ok((decided, dec)) => next.Going? && next.sim.state == decided
  {
    var before := Simulated(setup, ticks, state, start, m).sim;
    var t := start + m * setup.step;
    SimulatedNext(setup, ticks, state, start, m);
    var accrued := AfterAccrual(ticks, setup.step, t, before);
    match setup.decide(before.state, StepInput(t, SnapshotAt(t, ticks), accrued.book.positions))
    case Err(message) =>
    case Ok((next, dec)) =>
      var decided := accrued.(state := next, decisions := accrued.decisions + 1);
      TradingLeavesState(setup.costs, t, dec.orders, dec.swaps, decided);
  }

  lemma TradingLeavesState<S>(costs: Costs, t: Time, orders: seq<OrderIntent>, swaps: seq<SwapIntent>, s: Sim<S>)
    ensures AfterOpens(costs, t, swaps, AfterCloses(costs, t, orders, s)).state == s.state
  {
    ClosesLeaveState(costs, t, orders, s);
    OpensLeaveState(costs, t, swaps, AfterCloses(costs, t, orders, s));
  }

  lemma {:induction false} ClosesLeaveState<S>(costs: Costs, t: Time, orders: seq<OrderIntent>, s: Sim<S>)
    ensures AfterCloses(costs, t, orders, s).state == s.state
  {
    if orders != [] { ClosesLeaveState(costs, t, orders[..|orders| - 1], s); }
  }

  lemma {:induction false} OpensLeaveState<S>(costs: Costs, t: Time, swaps: seq<SwapIntent>, s: Sim<S>)
    ensures AfterOpens(costs, t, swaps, s).state == s.state
  {
    if swaps != [] { OpensLeaveState(costs, t, swaps[..|swaps| - 1], s); }
  }

  lemma ShownIgnoresFuture<S>(setup: Setup<S>, past: seq<FundingTick>, future: seq<FundingTick>, state: S, start: Time,
                              m: nat, horizon: Time)
    requires ValidTicks(past + future) && ValidTicks(past) && setup.step > 0
    requires (forall tk <- future :: tk.time > horizon) && start + m * setup.step <= horizon
    ensures ShownAt(setup, past + future, state, start, m) == ShownAt(setup, past, state, start, m)
  {
    var t := start + m * setup.step;
    assert (m - 1) * setup.step == m * setup.step - setup.step;
    RunIgnoresFuture(setup, past, future, state, start, m, horizon);
    LaterTicksAccrueNothing(Simulated(setup, past, state, start, m).sim.book.positions, t, past, future, setup.step);
    FutureIsInvisible(t, past, future);
  }

  /**
   Two series that agree up to the horizon. In every step up to it that both full runs make, the
   strategy is shown the same, and both reports begin with the trades and the curve of those steps.
   */
  lemma NoLookAhead<S>(setup: Setup<S>, past: seq<FundingTick>, a: seq<FundingTick>, b: seq<FundingTick>,
                       state: S, cancelledAt: Option<nat>, k: nat, horizon: Time)
    requires past != [] && ValidTicks(past) && ValidTicks(past + a) && ValidTicks(past + b) && setup.step > 0
    requires (forall tk <- a :: tk.time > horizon) && (forall tk <- b :: tk.time > horizon)
    requires k > 0 ==> StartOf(past, setup.step) + (k - 1) * setup.step <= horizon
    requires k <= Allowed(cancelledAt, StepsOf(past + a, setup.step))
             && k <= Allowed(cancelledAt, StepsOf(past + b, setup.step))
    ensures var start := StartOf(past, setup.step);
            && StartOf(past + a, setup.step) == start == StartOf(past + b, setup.step)
            && (forall m: nat | m < k ::
                ShownAt(setup, past + a, state, start, m) == ShownAt(setup, past + b, state, start, m))
            && Simulated(setup, past + a, state, start, k) == Simulated(setup, past + b, state, start, k)
            && Extends(Simulated(setup, past, state, start, k).sim, Replayed(setup, past + a, state, cancelledAt).sim)
            && Extends(Simulated(setup, past, state, start, k).sim, Replayed(setup, past + b, state, cancelledAt).sim)
  {
    var start := StartOf(past, setup.step);
    forall m: nat | m < k
      ensures ShownAt(setup, past + a, state, start, m) == ShownAt(setup, past + b, state, start, m)
    {
      MulMonotone(m, k - 1, setup.step);
      ShownIgnoresFuture(setup, past, a, state, start, m, horizon);
      ShownIgnoresFuture(setup, past, b, state, start, m, horizon);
    }
    RunIgnoresFuture(setup, past, a, state, start, k, horizon);
    RunIgnoresFuture(setup, past, b, state, start, k, horizon);
    RunExtends(setup, past + a, state, start, k, Allowed(cancelledAt, StepsOf(past + a, setup.step)));
    RunExtends(setup, past + b, state, start, k, Allowed(cancelledAt, StepsOf(past + b, setup.step)));
  }
}
