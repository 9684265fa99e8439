/** What a trade earns: the ticks of its holding window, no more and no fewer, and every tick in one step. */
module HoldingWindows {
  import opened Types
  import opened MarketData
  import opened SimulatedPortfolio
  import opened Backtest

  ghost predicate QuietBetween(trades: seq<Trade>, i: int, j: int, symbol: string) {
    forall m | i < m < j && m < |trades| :: 0 <= m ==> trades[m].symbol != symbol
  }

  /** Trade i opened this position, and its symbol has not traded since. */
  ghost predicate OpenedBy(trades: seq<Trade>, i: int, p: OpenPosition) {
    && 0 <= i < |trades| && trades[i].action == OpenAction
    && trades[i].symbol == p.symbol && trades[i].notional == p.notional && trades[i].time == p.openedAt
         && trades[i].fees == p.openFees
    && QuietBetween(trades, i, |trades|, p.symbol)
  }

  /** Trade j closes what trade i opened, and reports exactly what its holding window earned. */
  ghost predicate RoundTrip(ticks: seq<FundingTick>, step: int, costs: Costs, trades: seq<Trade>, i: int, j: int)
    requires ValidTicks(ticks)
  {
    && 0 <= i < j < |trades| && trades[i].action == OpenAction && trades[j].action == CloseAction
    && trades[i].symbol == trades[j].symbol && trades[i].notional == trades[j].notional
    && QuietBetween(trades, i, j, trades[j].symbol)
    && trades[j].funding == Earned(ticks, trades[j].symbol, trades[j].notional, step, trades[i].time, trades[j].time)
    && trades[j].fees == trades[i].fees + SideFees(trades[j].notional, costs)
    && trades[j].netPnL == trades[j].funding - trades[j].fees
  }

  /** Every close in the report is the end of a round trip. */
  ghost predicate ClosesAreRoundTrips(ticks: seq<FundingTick>, step: int, costs: Costs, trades: seq<Trade>)
    requires ValidTicks(ticks)
  {
    forall j | 0 <= j < |trades| && trades[j].action == CloseAction ::
      exists i :: RoundTrip(ticks, step, costs, trades, i, j)
  }

  /** Every open position was opened by a reported trade and has earned its window up to t. */
  ghost predicate PositionsEarned(ticks: seq<FundingTick>, step: int, t: Time, m: Positions, trades: seq<Trade>)
    requires ValidTicks(ticks)
  {
    forall k <- m ::
      && m[k].symbol == k && m[k].openedAt <= t
      && m[k].funding == Earned(ticks, k, m[k].notional, step, m[k].openedAt, t)
      && exists i :: OpenedBy(trades, i, m[k])
  }

  ghost predicate Accounted<S>(ticks: seq<FundingTick>, setup: Setup<S>, t: Time, s: Sim<S>)
    requires ValidTicks(ticks)
  {
    && ClosesAreRoundTrips(ticks, setup.step, setup.costs, s.trades)
    && PositionsEarned(ticks, setup.step, t, s.book.positions, s.trades)
  }

  lemma AccrualMovesWindow<S>(ticks: seq<FundingTick>, setup: Setup<S>, t: Time, s: Sim<S>)
    requires ValidTicks(ticks) && setup.step > 0 && Accounted(ticks, setup, t - setup.step, s)
    ensures Accounted(ticks, setup, t, AfterAccrual(ticks, setup.step, t, s))
  {
    var m := s.book.positions;
    var n := Accrued(m, t, ticks, setup.step);
    forall k | k in n
      ensures n[k].funding == Earned(ticks, k, n[k].notional, setup.step, n[k].openedAt, t)
      ensures exists i :: OpenedBy(s.trades, i, n[k])
    {
      WindowsAddUp(ticks, k, m[k].notional, setup.step, m[k].openedAt, t - setup.step, t);
      var i :| OpenedBy(s.trades, i, m[k]);
      assert OpenedBy(s.trades, i, n[k]);
    }
  }

  lemma RoundTripsPersist(ticks: seq<FundingTick>, step: int, costs: Costs, trades: seq<Trade>, tr: Trade)
    requires ValidTicks(ticks) && ClosesAreRoundTrips(ticks, step, costs, trades)
    requires tr.action == CloseAction ==> exists i :: RoundTrip(ticks, step, costs, trades + [tr], i, |trades|)
    ensures ClosesAreRoundTrips(ticks, step, costs, trades + [tr])
  {
    var longer := trades + [tr];
    forall j | 0 <= j < |longer| && longer[j].action == CloseAction
      ensures exists i :: RoundTrip(ticks, step, costs, longer, i, j)
    {
      if j < |trades| {
        var i :| RoundTrip(ticks, step, costs, trades, i, j);
        assert RoundTrip(ticks, step, costs, longer, i, j);
      }
    }
  }

  lemma OpenedByPersists(trades: seq<Trade>, tr: Trade, i: int, p: OpenPosition)
    requires OpenedBy(trades, i, p) && tr.symbol != p.symbol
    ensures OpenedBy(trades + [tr], i, p)
  {
  }

  lemma CloseAccounted<S>(ticks: seq<FundingTick>, setup: Setup<S>, t: Time, o: OrderIntent, s: Sim<S>)
    requires ValidTicks(ticks) && Accounted(ticks, setup, t, s)
    ensures Accounted(ticks, setup, t, CloseStep(setup.costs, t, o, s))
  {
    if o.reduceOnly && o.symbol in s.book.positions {
      var p := s.book.positions[o.symbol];
      var trade := CloseTrade(t, p, setup.costs);
      var i :| OpenedBy(s.trades, i, p);
      assert RoundTrip(ticks, setup.step, setup.costs, s.trades + [trade], i, |s.trades|);
      RoundTripsPersist(ticks, setup.step, setup.costs, s.trades, trade);
      OthersStayEarned(ticks, setup.step, t, s.book.positions, s.trades, trade);
    }
  }

  /** A trade in one symbol leaves the positions in the others accounted for. */
  lemma OthersStayEarned(ticks: seq<FundingTick>, step: int, t: Time, m: Positions, trades: seq<Trade>, tr: Trade)
    requires ValidTicks(ticks) && PositionsEarned(ticks, step, t, m, trades)
    ensures PositionsEarned(ticks, step, t, m - {tr.symbol}, trades + [tr])
  {
    var n := m - {tr.symbol};
    forall k | k in n ensures exists i :: OpenedBy(trades + [tr], i, n[k]) {
      var i :| OpenedBy(trades, i, m[k]);
      OpenedByPersists(trades, tr, i, m[k]);
      assert n[k] == m[k];
    }
  }

  lemma OpenAccounted<S>(ticks: seq<FundingTick>, setup: Setup<S>, t: Time, sw: SwapIntent, s: Sim<S>)
    requires ValidTicks(ticks) && Accounted(ticks, setup, t, s)
    ensures Accounted(ticks, setup, t, OpenStep(setup.costs, t, sw, s))
  {
    var sym := sw.outToken.symbol;
    if sym != "USDC" && CanOpen(s.book, sym, sw.inAmount, setup.costs) {
      var m, trade := s.book.positions, OpenTrade(t, sym, sw.inAmount, setup.costs);
      var p := OpenPosition(t, sym, sw.inAmount, 0.0, trade.fees);
      RoundTripsPersist(ticks, setup.step, setup.costs, s.trades, trade);
      OthersStayEarned(ticks, setup.step, t, m, s.trades, trade);
      assert m - {sym} == m;
      EmptyWindow(ticks, sym, sw.inAmount, setup.step, t);
      assert OpenedBy(s.trades + [trade], |s.trades|, p);
    }
  }

  lemma {:induction false} ClosesAccounted<S>(ticks: seq<FundingTick>, setup: Setup<S>, t: Time,
                                              orders: seq<OrderIntent>, s: Sim<S>)
    requires ValidTicks(ticks) && Accounted(ticks, setup, t, s)
    ensures Accounted(ticks, setup, t, AfterCloses(setup.costs, t, orders, s))
  {
    if orders != [] {
      var n := |orders| - 1;
      ClosesAccounted(ticks, setup, t, orders[..n], s);
      CloseAccounted(ticks, setup, t, orders[n], AfterCloses(setup.costs, t, orders[..n], s));
    }
  }

  lemma {:induction false} OpensAccounted<S>(ticks: seq<FundingTick>, setup: Setup<S>, t: Time, swaps: seq<SwapIntent>,
                                             s: Sim<S>)
    requires ValidTicks(ticks) && Accounted(ticks, setup, t, s)
    ensures Accounted(ticks, setup, t, AfterOpens(setup.costs, t, swaps, s))
  {
    if swaps != [] {
      var n := |swaps| - 1;
      OpensAccounted(ticks, setup, t, swaps[..n], s);
      OpenAccounted(ticks, setup, t, swaps[n], AfterOpens(setup.costs, t, swaps[..n], s));
    }
  }

  lemma StepAccounted<S>(ticks: seq<FundingTick>, setup: Setup<S>, t: Time, s: Sim<S>)
    requires ValidTicks(ticks) && setup.step > 0 && Accounted(ticks, setup, t - setup.step, s)
    ensures Accounted(ticks, setup, t, StepAt(setup, ticks, t, s).sim)
  {
    var accrued := AfterAccrual(ticks, setup.step, t, s);
    AccrualMovesWindow(ticks, setup, t, s);
    match setup.decide(s.state, StepInput(t, SnapshotAt(t, ticks), accrued.book.positions))
    case Err(message) =>
    case Ok((state, dec)) =>
      var decided := accrued.(state := state, decisions := accrued.decisions + 1);
      assert Accounted(ticks, setup, t, decided);
      ClosesAccounted(ticks, setup, t, dec.orders, decided);
      OpensAccounted(ticks, setup, t, dec.swaps, AfterCloses(setup.costs, t, dec.orders, decided));
  }

  /** The time of the last step a run of k steps has made. */
  function Clock<S>(setup: Setup<S>, start: Time, k: nat): Time {
    start + (k - 1) * setup.step
  }

  lemma ClockTicks<S>(setup: Setup<S>, start: Time, k: nat)
    requires k > 0
    ensures Clock(setup, start, k) - setup.step == Clock(setup, start, k - 1)
  {
  }

  lemma BeginAccounted<S>(ticks: seq<FundingTick>, setup: Setup<S>, t: Time, state: S)
    requires ValidTicks(ticks)
    ensures Accounted(ticks, setup, t, Begin(setup, state))
  {
  }

  lemma {:induction false} RunAccounted<S>(setup: Setup<S>, ticks: seq<FundingTick>, state: S, start: Time, k: nat)
    returns (t: Time)
    requires ValidTicks(ticks) && setup.step > 0
    ensures var r := Simulated(setup, ticks, state, start, k);
            Accounted(ticks, setup, t, r.sim) && (r.Going? ==> t == Clock(setup, start, k))
  {
    if k == 0 {
      t := Clock(setup, start, 0);
      BeginAccounted(ticks, setup, t, state);
    } else {
      t := RunAccounted(setup, ticks, state, start, k - 1);
      var before := Simulated(setup, ticks, state, start, k - 1);
      if before.Going? {
        ClockTicks(setup, start, k);
        t := Clock(setup, start, k);
        StepAccounted(ticks, setup, t, before.sim);
      }
    }
  }

  /** In every run, each close reports the funding of exactly the ticks between its open and itself. */
  lemma TradesEarnTheirWindows<S>(setup: Setup<S>, ticks: seq<FundingTick>, state: S, start: Time, k: nat)
    requires ValidTicks(ticks) && setup.step > 0
    ensures var r := Simulated(setup, ticks, state, start, k);
            && ClosesAreRoundTrips(ticks, setup.step, setup.costs, r.sim.trades)
            && (r.Going? ==>
                PositionsEarned(ticks, setup.step, Clock(setup, start, k), r.sim.book.positions, r.sim.trades))
  {
    var t := RunAccounted(setup, ticks, state, start, k);
  }

  /* ----- every tick belongs to exactly one step ----- */

  /** The funding window of step k covers tick time x. */
  ghost predicate InStep(start: Time, step: int, k: int, x: Time) {
    start + k * step - step <= x < start + k * step
  }

  lemma StepOf(start: Time, step: int, x: Time) returns (k: nat)
    requires step > 0 && start - step <= x
    ensures InStep(start, step, k, x)
  {
    k := (x - start + step) / step;
    assert x - start + step == k * step + (x - start + step) % step;
  }

  lemma StepIsUnique(start: Time, step: int, k: int, m: int, x: Time)
    requires step > 0 && InStep(start, step, k, x) && InStep(start, step, m, x)
    ensures k == m
  {
    assert (k + 1) * step == k * step + step;
    assert (m + 1) * step == m * step + step;
    if k < m {
      MulMonotone(k + 1, m, step);
      assert false;
    } else if m < k {
      MulMonotone(m + 1, k, step);
      assert false;
    }
  }

  /** The steps of a whole run tile the series: each of its ticks is credited in exactly one of them. */
  lemma StepsTileTheSeries(ticks: seq<FundingTick>, step: int, i: nat)
    requires step > 0 && SortedByTime(ticks) && i < |ticks|
    ensures exists k: nat :: InStep(StartOf(ticks, step), step, k, ticks[i].time)
              && StartOf(ticks, step) + k * step <= EndOf(ticks, step)
              && forall m: int | InStep(StartOf(ticks, step), step, m, ticks[i].time) :: m == k
  {
    var start, end, x := StartOf(ticks, step), EndOf(ticks, step), ticks[i].time;
    TruncateMonotone(ticks[0].time, x, step);
    TruncateMonotone(x, ticks[|ticks| - 1].time, step);
    assert Truncate(x, step) <= x < Truncate(x, step) + step;
    var k := StepOf(start, step, x);
    StepEndIsTruncated(ticks[0].time, step, k, x);
    forall m: int | InStep(start, step, m, x) ensures m == k { StepIsUnique(start, step, k, m, x); }
  }

  /** Step times are multiples of the step, so the step that covers x ends at the truncation of x plus one step. */
  lemma StepEndIsTruncated(first: Time, step: int, k: int, x: Time)
    requires step > 0 && InStep(Truncate(first, step), step, k, x)
    ensures Truncate(first, step) + k * step == Truncate(x, step) + step
  {
    var f, q := first / step, x / step;
    assert Truncate(first, step) == f * step && Truncate(x, step) == q * step;
    assert (f + k) * step == f * step + k * step;
    assert (q + 1) * step == q * step + step;
    assert InStep(0, step, q + 1, x);
    StepIsUnique(0, step, f + k, q + 1, x);
  }
}
