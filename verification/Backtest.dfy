/** The backtest: a strategy stepped through a funding series over a simulated portfolio. */
module Backtest {
  import opened Collections
  import opened Wrappers
  import opened Decimals
  import opened Types
  import opened MarketData
  import opened SimulatedPortfolio
  import opened Drawdown

  /** What the strategy sees at a step. */
  datatype StepInput = StepInput(now: Time, market: Snapshot, held: Positions)

  /** A deterministic strategy carries its own state from step to step; it may refuse with a message. */
  datatype Setup<!S> = Setup(
    decide: (S, StepInput) -> Result<(S, Decision), string>, step: int, startingNav: real, costs: Costs)

  /** The simulation between two steps: the strategy, the portfolio and the report so far. */
  datatype Sim<S> = Sim(
    state: S, book: Book, totalFunding: real, totalFees: real,
    decisions: nat, opens: nat, closes: nat, curve: seq<NavPoint>, trades: seq<Trade>)

  datatype Outcome<S> = Going(sim: Sim<S>) | Stopped(sim: Sim<S>, at: Time, message: string)

  function Begin<S>(setup: Setup<S>, state: S): Sim<S> {
    Sim(state, Book(setup.startingNav, map[]), 0.0, 0.0, 0, 0, 0, [], [])
  }

  /* ----- one step as a function ----- */

  function CloseStep<S>(costs: Costs, t: Time, o: OrderIntent, s: Sim<S>): Sim<S> {
    if !o.reduceOnly || o.symbol !in s.book.positions then s else
      var trade := CloseTrade(t, s.book.positions[o.symbol], costs);
      s.(book := AfterClose(s.book, o.symbol, costs), closes := s.closes + 1,
         totalFees := s.totalFees + trade.fees, trades := s.trades + [trade])
  }

  function AfterCloses<S>(costs: Costs, t: Time, orders: seq<OrderIntent>, s: Sim<S>): Sim<S> {
    if orders == [] then s
    else CloseStep(costs, t, orders[|orders| - 1], AfterCloses(costs, t, orders[..|orders| - 1], s))
  }

  function OpenStep<S>(costs: Costs, t: Time, sw: SwapIntent, s: Sim<S>): Sim<S> {
    if sw.outToken.symbol == "USDC" || !CanOpen(s.book, sw.outToken.symbol, sw.inAmount, costs) then s else
      var trade := OpenTrade(t, sw.outToken.symbol, sw.inAmount, costs);
      s.(book := AfterOpen(s.book, t, sw.outToken.symbol, sw.inAmount, costs), opens := s.opens + 1,
         totalFees := s.totalFees + trade.fees, trades := s.trades + [trade])
  }

  function AfterOpens<S>(costs: Costs, t: Time, swaps: seq<SwapIntent>, s: Sim<S>): Sim<S> {
    if swaps == [] then s
    else OpenStep(costs, t, swaps[|swaps| - 1], AfterOpens(costs, t, swaps[..|swaps| - 1], s))
  }

  /** Funding of the elapsed step comes first. */
  ghost function AfterAccrual<S>(ticks: seq<FundingTick>, step: int, t: Time, s: Sim<S>): Sim<S>
    requires ValidTicks(ticks)
  {
    s.(book := Book(s.book.cash, Accrued(s.book.positions, t, ticks, step)),
       totalFunding := s.totalFunding + StepCredit(s.book.positions, t, ticks, step))
  }

  function AfterDecision<S>(costs: Costs, t: Time, state: S, dec: Decision, s: Sim<S>): Sim<S> {
    AfterOpens(costs, t, dec.swaps,
               AfterCloses(costs, t, dec.orders, s.(state := state, decisions := s.decisions + 1)))
  }

  ghost function Marked<S>(t: Time, s: Sim<S>): Sim<S> {
    s.(curve := s.curve + [NavPoint(t, Nav(s.book))])
  }

  ghost function StepAt<S>(setup: Setup<S>, ticks: seq<FundingTick>, t: Time, s: Sim<S>): Outcome<S>
    requires ValidTicks(ticks)
  {
    var accrued := AfterAccrual(ticks, setup.step, t, s);
    match setup.decide(s.state, StepInput(t, SnapshotAt(t, ticks), accrued.book.positions))
    case Err(message) => Stopped(accrued, t, message)
    case Ok((state, dec)) => Going(Marked(t, AfterDecision(setup.costs, t, state, dec, accrued)))
  }

  /* ----- the run as a function ----- */

  /** Round down to a multiple of the step. */
  function Truncate(t: Time, step: int): Time
    requires step > 0
  {
    t - t % step
  }

  function StartOf(ticks: seq<FundingTick>, step: int): Time
    requires ticks != [] && step > 0
  {
    Truncate(ticks[0].time, step)
  }

  function EndOf(ticks: seq<FundingTick>, step: int): Time
    requires ticks != [] && step > 0
  {
    Truncate(ticks[|ticks| - 1].time, step) + step
  }

  /** The first k steps, at start, start + step, and so on, unless the strategy stops the run earlier. */
  ghost function Simulated<S>(setup: Setup<S>, ticks: seq<FundingTick>, state: S, start: Time, k: nat): Outcome<S>
    requires ValidTicks(ticks)
  {
    if k == 0 then Going(Begin(setup, state)) else
      match Simulated(setup, ticks, state, start, k - 1)
      case Stopped(sim, at, message) => Stopped(sim, at, message)
      case Going(sim) => StepAt(setup, ticks, start + (k - 1) * setup.step, sim)
  }

  lemma SimulatedNext<S>(setup: Setup<S>, ticks: seq<FundingTick>, state: S, start: Time, k: nat)
    requires ValidTicks(ticks) && Simulated(setup, ticks, state, start, k).Going?
    ensures Simulated(setup, ticks, state, start, k + 1)
         == StepAt(setup, ticks, start + k * setup.step, Simulated(setup, ticks, state, start, k).sim)
  {
  }

  lemma SimulatedStays<S>(setup: Setup<S>, ticks: seq<FundingTick>, state: S, start: Time, k: nat)
    requires ValidTicks(ticks) && Simulated(setup, ticks, state, start, k).Stopped?
    ensures Simulated(setup, ticks, state, start, k + 1) == Simulated(setup, ticks, state, start, k)
  {
  }

  function EndingNav<S>(setup: Setup<S>, s: Sim<S>): real {
    if s.curve == [] then setup.startingNav else s.curve[|s.curve| - 1].nav
  }

  /* ----- the run as the program does it ----- */

  ghost predicate SortedByTime(ticks: seq<FundingTick>) {
    forall i, j | 0 <= i < j < |ticks| :: ticks[i].time <= ticks[j].time
  }

  /** Inserts after every tick that is not later. */
  method InsertByTime(sorted: seq<FundingTick>, tk: FundingTick) returns (longer: seq<FundingTick>)
    requires SortedByTime(sorted)
    ensures SortedByTime(longer) && multiset(longer) == multiset(sorted) + multiset{tk}
  {
    var j := |sorted|;
    while j > 0 && tk.time < sorted[j - 1].time
      invariant 0 <= j <= |sorted|
      invariant forall k | j <= k < |sorted| :: tk.time < sorted[k].time
    {
      j := j - 1;
    }
    longer := sorted[..j] + [tk] + sorted[j..];
    InsertedIsSorted(sorted, j, tk);
    SpliceAddsOne(sorted, j, tk);
  }

  lemma InsertedIsSorted(sorted: seq<FundingTick>, j: nat, tk: FundingTick)
    requires SortedByTime(sorted) && j <= |sorted|
    requires j > 0 ==> sorted[j - 1].time <= tk.time
    requires forall k | j <= k < |sorted| :: tk.time < sorted[k].time
    ensures SortedByTime(sorted[..j] + [tk] + sorted[j..])
  {
    var longer := sorted[..j] + [tk] + sorted[j..];
    forall k | 0 <= k < |longer|
      ensures longer[k] == if k < j then sorted[k] else if k == j then tk else sorted[k - 1]
    {
    }
  }

  /** Some ordering by time; ticks of one instant may come out in any order. */
  method SortTicks(ticks: seq<FundingTick>) returns (sorted: seq<FundingTick>)
    ensures SortedByTime(sorted) && multiset(sorted) == multiset(ticks)
  {
    sorted := [];
    for i := 0 to |ticks|
      invariant SortedByTime(sorted) && multiset(sorted) == multiset(ticks[..i])
    {
      assert ticks[..i + 1] == ticks[..i] + [ticks[i]];
      sorted := InsertByTime(sorted, ticks[i]);
    }
    assert ticks[..|ticks|] == ticks;
  }

  /** `end` is set only by a run that went all the way. */
  datatype Report<S> = Report(
    start: Time, end: Option<Time>, sim: Sim<S>, endingNav: real, totalReturn: real, maxDrawdown: real)

  datatype RunError = NoTicks | Cancelled | DecideFailed(at: Time, message: string)

  /** Closes, in order: reduce-only orders for symbols that are held. */
  method ApplyCloses<S>(pf: Portfolio, costs: Costs, t: Time, orders: seq<OrderIntent>, s: Sim<S>) returns (r: Sim<S>)
    requires pf.View() == s.book && Keyed(pf.positions)
    modifies pf
    ensures r == AfterCloses(costs, t, orders, s) && pf.View() == r.book && Keyed(pf.positions)
  {
    r := s;
    for i := 0 to |orders|
      invariant r == AfterCloses(costs, t, orders[..i], s) && pf.View() == r.book && Keyed(pf.positions)
    {
      assert orders[..i + 1][..i] == orders[..i];
      var o := orders[i];
      if o.reduceOnly {
        var closed := pf.Close(t, o.symbol, costs);
        if closed.Some? {
          r := r.(book := Book(pf.cash, pf.positions), closes := r.closes + 1,
                  totalFees := r.totalFees + closed.value.fees, trades := r.trades + [closed.value]);
        }
      }
    }
    assert orders[..|orders|] == orders;
  }

  /** Then opens: every swap into something other than USDC that the portfolio can afford. */
  method ApplyOpens<S>(pf: Portfolio, costs: Costs, t: Time, swaps: seq<SwapIntent>, s: Sim<S>) returns (r: Sim<S>)
    requires pf.View() == s.book && Keyed(pf.positions)
    modifies pf
    ensures r == AfterOpens(costs, t, swaps, s) && pf.View() == r.book && Keyed(pf.positions)
  {
    r := s;
    for i := 0 to |swaps|
      invariant r == AfterOpens(costs, t, swaps[..i], s) && pf.View() == r.book && Keyed(pf.positions)
    {
      assert swaps[..i + 1][..i] == swaps[..i];
      var sw := swaps[i];
      if sw.outToken.symbol == "USDC" { continue; }
      var trade := pf.Open(t, sw.outToken.symbol, sw.inAmount, costs);
      if trade.Some? {
        r := r.(book := Book(pf.cash, pf.positions), opens := r.opens + 1,
                totalFees := r.totalFees + trade.value.fees, trades := r.trades + [trade.value]);
      }
    }
    assert swaps[..|swaps|] == swaps;
  }

  /** One pass of the time loop. */
  method RunStep<S>(pf: Portfolio, setup: Setup<S>, ticks: seq<FundingTick>, t: Time, s: Sim<S>) returns (r: Outcome<S>)
    requires ValidTicks(ticks) && pf.View() == s.book && Keyed(pf.positions)
    modifies pf
    ensures r == StepAt(setup, ticks, t, s) && pf.View() == r.sim.book && Keyed(pf.positions)
  {
    var stepFunding := pf.AccrueFunding(t, ticks, setup.step);
    var sim := s.(book := Book(pf.cash, pf.positions), totalFunding := s.totalFunding + stepFunding);
    var snap := MarketSnapshotAt(t, ticks);
    match setup.decide(sim.state, StepInput(t, snap, pf.positions)) {
      case Err(message) => return Stopped(sim, t, message);
      case Ok((state, dec)) =>
        sim := sim.(state := state, decisions := sim.decisions + 1);
        sim := ApplyCloses(pf, setup.costs, t, dec.orders, sim);
        sim := ApplyOpens(pf, setup.costs, t, dec.swaps, sim);
        var nav := pf.ComputeNav();
        r := Going(sim.(curve := sim.curve + [NavPoint(t, nav)]));
    }
  }

  /** Step k of the run that started at `start`. */
  method Advance<S>(pf: Portfolio, setup: Setup<S>, series: seq<FundingTick>, t: Time, s: Sim<S>, ghost state: S,
                    ghost start: Time, ghost k: nat)
    returns (r: Outcome<S>)
    requires ValidTicks(series) && pf.View() == s.book && Keyed(pf.positions)
    requires t == start + k * setup.step && Simulated(setup, series, state, start, k) == Going(s)
    modifies pf
    ensures r == Simulated(setup, series, state, start, k + 1) && pf.View() == r.sim.book && Keyed(pf.positions)
  {
    SimulatedNext(setup, series, state, start, k);
    r := RunStep(pf, setup, series, t, s);
  }

  /** How many times the loop's clock, set to start, reads no later than end. */
  function StepCount(start: Time, end: Time, step: int): nat
    requires step > 0
  {
    if end < start then 0 else (end - start) / step + 1
  }

  /** The last reading is no later than end, and the next one would be. */
  lemma StepCountExact(start: Time, end: Time, step: int, k: nat)
    requires step > 0
    ensures k > 0 && start + (k - 1) * step <= end ==> k <= StepCount(start, end, step)
    ensures start + k * step > end ==> k >= StepCount(start, end, step)
  {
    var q := if end < start then -1 else (end - start) / step;
    MulMonotone(q + 1, k - 1, step);
    MulMonotone(k, q, step);
    assert (q + 1) * step == q * step + step;
    assert end - start < q * step + step;
    assert end >= start ==> q * step <= end - start;
  }

  lemma {:induction false} StoppedForGood<S>(setup: Setup<S>, ticks: seq<FundingTick>, state: S, start: Time, k: nat,
                                             n: nat)
    requires ValidTicks(ticks) && k <= n && Simulated(setup, ticks, state, start, k).Stopped?
    ensures Simulated(setup, ticks, state, start, n) == Simulated(setup, ticks, state, start, k)
  {
    if k < n {
      StoppedForGood(setup, ticks, state, start, k, n - 1);
      SimulatedStays(setup, ticks, state, start, n - 1);
    }
  }

  /** The steps that remain when the context is found cancelled before step `cancelledAt`. */
  function Allowed(cancelledAt: Option<nat>, steps: nat): nat {
    if cancelledAt.Some? && cancelledAt.value < steps then cancelledAt.value else steps
  }

  lemma NotYetCancelled(cancelledAt: Option<nat>, steps: nat, k: nat)
    requires k < steps && k <= Allowed(cancelledAt, steps)
    ensures if cancelledAt == Some(k) then k == Allowed(cancelledAt, steps) else k + 1 <= Allowed(cancelledAt, steps)
  {
  }

  /**
   The time loop over a sorted series: every step up to and including `end`, or up to a cancellation or
   the first error.
   */
  method StepThrough<S>(setup: Setup<S>, series: seq<FundingTick>, state: S, start: Time, end: Time,
                        cancelledAt: Option<nat>)
    returns (r: Outcome<S>, cancelled: bool)
    requires setup.step > 0 && ValidTicks(series) && start <= end + setup.step
    ensures r == Simulated(setup, series, state, start, Allowed(cancelledAt, StepCount(start, end, setup.step)))
    ensures cancelled <==>
              r.Going? && Allowed(cancelledAt, StepCount(start, end, setup.step)) < StepCount(start, end, setup.step)
  {
    var pf := new Portfolio(setup.startingNav);
    r, cancelled := Going(Begin(setup, state)), false;
    ghost var steps := StepCount(start, end, setup.step);
    var k := 0;
    var t := start;
    while t <= end
      invariant t == start + k * setup.step && t - setup.step <= end && k <= Allowed(cancelledAt, steps)
      invariant r.Going? && r == Simulated(setup, series, state, start, k)
      invariant pf.View() == r.sim.book && Keyed(pf.positions) && fresh(pf)
      decreases end - t
    {
      NextStep(start, setup.step, k + 1);
      StepCountExact(start, end, setup.step, k + 1);
      NotYetCancelled(cancelledAt, steps, k);
      if cancelledAt == Some(k) {
        return r, true;
      }
      r := Advance(pf, setup, series, t, r.sim, state, start, k);
      k := k + 1;
      if r.Stopped? {
        StoppedForGood(setup, series, state, start, k, Allowed(cancelledAt, steps));
        return;
      }
      t := t + setup.step;
    }
    LastStepCounted(start, end, setup.step, k);
  }

  lemma LastStepCounted(start: Time, end: Time, step: int, k: nat)
    requires step > 0 && start + k * step > end && start + k * step - step <= end
    ensures k == StepCount(start, end, step)
  {
    assert (k - 1) * step == k * step - step;
    if k > 0 {
      StepCountExact(start, end, step, k);
    }
  }

  /**
   Every step from the first truncated tick to one step past the last truncated one, unless cancelled
   before one of them.
   */
  ghost function Replayed<S>(setup: Setup<S>, series: seq<FundingTick>, state: S, cancelledAt: Option<nat>): Outcome<S>
    requires setup.step > 0 && ValidTicks(series) && series != []
  {
    Simulated(setup, series, state, StartOf(series, setup.step), Allowed(cancelledAt, StepsOf(series, setup.step)))
  }

  function StepsOf(series: seq<FundingTick>, step: int): nat
    requires step > 0 && series != []
  {
    StepCount(StartOf(series, step), EndOf(series, step), step)
  }

  /** Why a run ended early, if it did. */
  ghost function ErrorOf<S>(setup: Setup<S>, series: seq<FundingTick>, outcome: Outcome<S>,
                            cancelledAt: Option<nat>): Option<RunError>
    requires setup.step > 0 && series != []
  {
    if outcome.Stopped? then Some(DecideFailed(outcome.at, outcome.message))
    else if Allowed(cancelledAt, StepsOf(series, setup.step)) < StepsOf(series, setup.step) then Some(Cancelled)
    else None
  }

  /** The whole run: sort the ticks in place, replay them, then summarise. */
  method Run<S>(setup: Setup<S>, ticks: seq<FundingTick>, state: S, cancelledAt: Option<nat>)
    returns (report: Report<S>, error: Option<RunError>, series: seq<FundingTick>)
    requires setup.step > 0 && ValidTicks(ticks)
    ensures SortedByTime(series) && multiset(series) == multiset(ticks) && ValidTicks(series)
    ensures series == [] <==> ticks == []
    ensures ticks == [] ==> error == Some(NoTicks) && report.endingNav == 0.0
    ensures ticks != [] ==>
              var outcome := Replayed(setup, series, state, cancelledAt);
              && error == ErrorOf(setup, series, outcome, cancelledAt)
              && report.start == StartOf(series, setup.step)
              && report.sim == outcome.sim && report.endingNav == EndingNav(setup, outcome.sim)
              && (error.Some? ==> report.end == None && report.totalReturn == 0.0 && report.maxDrawdown == 0.0)
              && (error.None? ==>
                    && report.end == Some(EndOf(series, setup.step))
                    && report.totalReturn == (if setup.startingNav == 0.0 then 0.0
                                              else Div(report.endingNav, setup.startingNav) - 1.0)
                    && IsPeakDrawdown(outcome.sim.curve, report.maxDrawdown)
                    && (NonNegative(outcome.sim.curve) ==> IsMaxDrawdown(outcome.sim.curve, report.maxDrawdown)))
  {
    report, error, series := Report(0, None, Begin(setup, state), 0.0, 0.0, 0.0), None, ticks;
    if ticks == [] {
      error := Some(NoTicks);
      return;
    }
    series := SortTicks(ticks);
    SameBagIsValid(ticks, series);
    EndAfterStart(series, setup.step);
    var start, end := StartOf(series, setup.step), EndOf(series, setup.step);
    var outcome, cancelled := StepThrough(setup, series, state, start, end, cancelledAt);
    report := Report(start, None, outcome.sim, EndingNav(setup, outcome.sim), 0.0, 0.0);
    if outcome.Stopped? {
      error := Some(DecideFailed(outcome.at, outcome.message));
      return;
    }
    if cancelled {
      error := Some(Cancelled);
      return;
    }
    report := report.(end := Some(end));
    if setup.startingNav != 0.0 {
      report := report.(totalReturn := Div(report.endingNav, setup.startingNav) - 1.0);
    }
    var maxDrawdown := ComputeMaxDrawdown(outcome.sim.curve);
    report := report.(maxDrawdown := maxDrawdown);
  }

  lemma NextStep(start: Time, step: int, k: nat)
    requires k > 0
    ensures start + (k - 1) * step + step == start + k * step
  {
  }

  lemma EndAfterStart(ticks: seq<FundingTick>, step: int)
    requires ticks != [] && step > 0 && SortedByTime(ticks)
    ensures StartOf(ticks, step) < EndOf(ticks, step)
  {
    TruncateMonotone(ticks[0].time, ticks[|ticks| - 1].time, step);
  }

  lemma TruncateMonotone(a: Time, b: Time, step: int)
    requires a <= b && step > 0
    ensures Truncate(a, step) <= Truncate(b, step)
  {
    var p, q := a / step, b / step;
    assert a == p * step + a % step && b == q * step + b % step;
    assert (q + 1) * step == q * step + step;
    if q < p {
      MulMonotone(q + 1, p, step);
    } else {
      MulMonotone(p, q, step);
    }
  }

  lemma MulMonotone(x: int, y: int, k: nat)
    ensures x <= y ==> x * k <= y * k
  {
    assert x <= y ==> (y - x) * k >= 0;
  }

  lemma SameBagIsValid(a: seq<FundingTick>, b: seq<FundingTick>)
    requires multiset(a) == multiset(b) && ValidTicks(a)
    ensures ValidTicks(b) && |a| == |b|
  {
    assert |a| == |multiset(a)| == |multiset(b)| == |b|;
    forall i | 0 <= i < |b| ensures b[i].interval != 0 {
      assert b[i] in multiset(a);
    }
  }
}
