/** Sorting by time leaves ticks of one instant in any order: when that matters to a backtest, and when it does not. */
module TickOrder {
  import opened Wrappers
  import opened Collections
  import opened Types
  import opened MarketData
  import opened SimulatedPortfolio
  import opened Backtest

  /** Ticks of one symbol at one time show the same quote. */
  ghost predicate TiesAgree(ticks: seq<FundingTick>) {
    forall x, y | x in ticks && y in ticks && x.symbol == y.symbol && x.time == y.time :: QuoteOf(x) == QuoteOf(y)
  }

  ghost predicate SameBag(a: seq<FundingTick>, b: seq<FundingTick>) {
    multiset(a) == multiset(b) && ValidTicks(a) && ValidTicks(b)
  }

  ghost predicate Reordered(a: seq<FundingTick>, b: seq<FundingTick>) {
    SameBag(a, b) && TiesAgree(a)
  }

  lemma BagMembers(a: seq<FundingTick>, b: seq<FundingTick>)
    requires SameBag(a, b)
    ensures forall x :: x in a <==> x in b
  {
    forall x ensures x in a <==> x in b {
      assert x in a <==> x in multiset(a);
      assert x in b <==> x in multiset(b);
    }
  }

  /* ----- what a step reads ----- */

  /** What one tick pays within a window. */
  function Payment(symbol: string, notional: real, step: int, from: Time, to: Time): FundingTick -> real {
    (tk: FundingTick) =>
      if tk.interval != 0 && tk.symbol == symbol && from <= tk.time < to then TickFunding(tk, notional, step) else 0.0
  }

  lemma {:induction false} EarnedIsSum(ticks: seq<FundingTick>, symbol: string, notional: real, step: int, from: Time,
                                       to: Time)
    requires ValidTicks(ticks)
    ensures Earned(ticks, symbol, notional, step, from, to) == SumOf(ticks, Payment(symbol, notional, step, from, to))
  {
    if ticks != [] {
      EarnedIsSum(ticks[..|ticks| - 1], symbol, notional, step, from, to);
    }
  }

  function Credit(m: Positions, t: Time, step: int): FundingTick -> real {
    (tk: FundingTick) => if tk.interval != 0 then TickCredit(m, t, tk, step) else 0.0
  }

  lemma {:induction false} StepCreditIsSum(m: Positions, t: Time, ticks: seq<FundingTick>, step: int)
    requires ValidTicks(ticks)
    ensures StepCredit(m, t, ticks, step) == SumOf(ticks, Credit(m, t, step))
  {
    if ticks != [] {
      StepCreditIsSum(m, t, ticks[..|ticks| - 1], step);
    }
  }

  lemma AccrualOrderFree(m: Positions, t: Time, a: seq<FundingTick>, b: seq<FundingTick>, step: int)
    requires SameBag(a, b)
    ensures Accrued(m, t, a, step) == Accrued(m, t, b, step) && StepCredit(m, t, a, step) == StepCredit(m, t, b, step)
  {
    forall k | k in m
      ensures Earned(a, k, m[k].notional, step, t - step, t) == Earned(b, k, m[k].notional, step, t - step, t)
    {
      EarnedIsSum(a, k, m[k].notional, step, t - step, t);
      EarnedIsSum(b, k, m[k].notional, step, t - step, t);
      SumOrderFree(a, b, Payment(k, m[k].notional, step, t - step, t));
    }
    StepCreditIsSum(m, t, a, step);
    StepCreditIsSum(m, t, b, step);
    SumOrderFree(a, b, Credit(m, t, step));
  }

  /** The latest visible ticks of one symbol in two orderings show the same quote. */
  lemma LatestTicksAgree(t: Time, a: seq<FundingTick>, b: seq<FundingTick>, i: nat, j: nat)
    requires Reordered(a, b) && Latest(a, t, i) && Latest(b, t, j) && a[i].symbol == b[j].symbol
    ensures QuoteOf(a[i]) == QuoteOf(b[j])
  {
    BagMembers(a, b);
    var x, y := a[i], b[j];
    assert x in b && y in a;
    var j' :| 0 <= j' < |b| && b[j'] == x;
    var i' :| 0 <= i' < |a| && a[i'] == y;
    assert y.time <= x.time <= y.time;
  }

  lemma ShowsTheSame(t: Time, a: seq<FundingTick>, b: seq<FundingTick>, p: Snapshot, q: Snapshot, sym: string)
    requires Reordered(a, b) && IsSnapshot(p, t, a) && IsSnapshot(q, t, b) && sym in p
    ensures sym in q && p[sym] == q[sym]
  {
    var i: nat :| Latest(a, t, i) && a[i].symbol == sym && p[sym] == QuoteOf(a[i]);
    var x := a[i];
    BagMembers(a, b);
    assert x in b;
    var m :| 0 <= m < |b| && b[m] == x;
    assert b[m].symbol in q;
    var j: nat :| Latest(b, t, j) && b[j].symbol == sym && q[sym] == QuoteOf(b[j]);
    LatestTicksAgree(t, a, b, i, j);
  }

  lemma Swapped(a: seq<FundingTick>, b: seq<FundingTick>)
    requires Reordered(a, b)
    ensures Reordered(b, a)
  {
    BagMembers(a, b);
  }

  lemma ShownInBoth(t: Time, a: seq<FundingTick>, b: seq<FundingTick>, sym: string)
    requires Reordered(a, b) && sym in SnapshotAt(t, a)
    ensures sym in SnapshotAt(t, b) && SnapshotAt(t, a)[sym] == SnapshotAt(t, b)[sym]
  {
    SnapshotAtIsSnapshot(t, a);
    SnapshotAtIsSnapshot(t, b);
    ShowsTheSame(t, a, b, SnapshotAt(t, a), SnapshotAt(t, b), sym);
  }

  lemma SnapshotOrderFree(t: Time, a: seq<FundingTick>, b: seq<FundingTick>)
    requires Reordered(a, b)
    ensures SnapshotAt(t, a) == SnapshotAt(t, b)
  {
    var p, q := SnapshotAt(t, a), SnapshotAt(t, b);
    Swapped(a, b);
    forall sym | sym in p ensures sym in q && p[sym] == q[sym] { ShownInBoth(t, a, b, sym); }
    forall sym | sym in q ensures sym in p { ShownInBoth(t, b, a, sym); }
  }

  /* ----- whole runs ----- */

  lemma StepOrderFree<S>(setup: Setup<S>, a: seq<FundingTick>, b: seq<FundingTick>, t: Time, s: Sim<S>)
    requires Reordered(a, b)
    ensures StepAt(setup, a, t, s) == StepAt(setup, b, t, s)
  {
    AccrualOrderFree(s.book.positions, t, a, b, setup.step);
    SnapshotOrderFree(t, a, b);
  }

  ghost predicate StepsAgree<S>(setup: Setup<S>, a: seq<FundingTick>, b: seq<FundingTick>, state: S, start: Time,
                                k: nat)
    requires ValidTicks(a) && ValidTicks(b)
  {
    Simulated(setup, a, state, start, k) == Simulated(setup, b, state, start, k)
  }

  lemma {:induction false} AllStepsAgree<S>(setup: Setup<S>, a: seq<FundingTick>, b: seq<FundingTick>,
                                            state: S, start: Time, k: nat)
    requires ValidTicks(a) && ValidTicks(b)
    requires forall j: nat | StepsAgree(setup, a, b, state, start, j) :: StepsAgree(setup, a, b, state, start, j + 1)
    ensures StepsAgree(setup, a, b, state, start, k)
  {
    if k > 0 {
      AllStepsAgree(setup, a, b, state, start, k - 1);
    }
  }

  lemma NextOrderFree<S>(setup: Setup<S>, a: seq<FundingTick>, b: seq<FundingTick>, state: S, start: Time, k: nat)
    requires Reordered(a, b) && StepsAgree(setup, a, b, state, start, k)
    ensures StepsAgree(setup, a, b, state, start, k + 1)
  {
    var before := Simulated(setup, a, state, start, k);
    if before.Going? {
      SimulatedNext(setup, a, state, start, k);
      SimulatedNext(setup, b, state, start, k);
      StepOrderFree(setup, a, b, start + k * setup.step, before.sim);
    } else {
      SimulatedStays(setup, a, state, start, k);
      SimulatedStays(setup, b, state, start, k);
    }
  }

  lemma SimulationOrderFree<S>(setup: Setup<S>, a: seq<FundingTick>, b: seq<FundingTick>,
                               state: S, start: Time, k: nat)
    requires Reordered(a, b)
    ensures StepsAgree(setup, a, b, state, start, k)
  {
    forall j: nat | StepsAgree(setup, a, b, state, start, j) ensures StepsAgree(setup, a, b, state, start, j + 1) {
      NextOrderFree(setup, a, b, state, start, j);
    }
    AllStepsAgree(setup, a, b, state, start, k);
  }

  lemma SameEnds(a: seq<FundingTick>, b: seq<FundingTick>)
    requires SameBag(a, b) && SortedByTime(a) && SortedByTime(b) && a != []
    ensures b != [] && a[0].time == b[0].time && a[|a| - 1].time == b[|b| - 1].time
  {
    BagMembers(a, b);
    assert a[0] in b && a[|a| - 1] in b;
    assert b[0] in a && b[|b| - 1] in a;
  }

  /** If ticks of one symbol at one time agree, a run has one outcome, whichever order the sort leaves them in. */
  lemma OutcomeOrderFree<S>(setup: Setup<S>, a: seq<FundingTick>, b: seq<FundingTick>, state: S,
                            cancelledAt: Option<nat>)
    requires Reordered(a, b) && SortedByTime(a) && SortedByTime(b) && a != [] && setup.step > 0
    ensures b != [] && Replayed(setup, a, state, cancelledAt) == Replayed(setup, b, state, cancelledAt)
    ensures StepsOf(a, setup.step) == StepsOf(b, setup.step)
  {
    SameEnds(a, b);
    SimulationOrderFree(setup, a, b, state, StartOf(a, setup.step), Allowed(cancelledAt, StepsOf(a, setup.step)));
  }

  /* ----- and only then ----- */

  /** The ticks at two places change places. */
  function Exchanged(ticks: seq<FundingTick>, m: nat, i: nat): seq<FundingTick>
    requires m < |ticks| && i < |ticks|
  {
    ticks[m := ticks[i]][i := ticks[m]]
  }

  lemma ExchangedIsSorted(ticks: seq<FundingTick>, m: nat, i: nat)
    requires m < |ticks| && i < |ticks| && ticks[m].time == ticks[i].time && SortedByTime(ticks) && ValidTicks(ticks)
    ensures SortedByTime(Exchanged(ticks, m, i)) && SameBag(ticks, Exchanged(ticks, m, i))
  {
    var other := Exchanged(ticks, m, i);
    assert forall k | 0 <= k < |ticks| :: other[k].time == ticks[k].time;
  }

  /** Exchanging the tick that is shown with another of its symbol and time shows the other one. */
  lemma ExchangedShowsOther(ticks: seq<FundingTick>, t: Time, m: nat, i: nat)
    requires m < |ticks| && Latest(ticks, t, i)
    requires ticks[m].symbol == ticks[i].symbol && ticks[m].time == ticks[i].time
    ensures Latest(Exchanged(ticks, m, i), t, i) && Exchanged(ticks, m, i)[i] == ticks[m]
  {
    var other := Exchanged(ticks, m, i);
    assert forall k | 0 <= k < |ticks| :: other[k].time == ticks[k].time && other[k].symbol == ticks[k].symbol;
  }

  lemma ShownQuote(ticks: seq<FundingTick>, t: Time, i: nat)
    requires Latest(ticks, t, i)
    ensures ticks[i].symbol in SnapshotAt(t, ticks) && SnapshotAt(t, ticks)[ticks[i].symbol] == QuoteOf(ticks[i])
  {
    SnapshotAtIsSnapshot(t, ticks);
    var j: nat :| Latest(ticks, t, j) && ticks[j].symbol == ticks[i].symbol
                  && SnapshotAt(t, ticks)[ticks[i].symbol] == QuoteOf(ticks[j]);
    LatestIsUnique(ticks, t, i, j);
  }

  /** Two differing ticks of one symbol and time: some other order of the series shows the other one. */
  lemma TieShows(ticks: seq<FundingTick>, x: nat, y: nat) returns (other: seq<FundingTick>)
    requires SortedByTime(ticks) && ValidTicks(ticks) && x < |ticks| && y < |ticks|
    requires ticks[x].symbol == ticks[y].symbol && ticks[x].time == ticks[y].time
    requires QuoteOf(ticks[x]) != QuoteOf(ticks[y])
    ensures SameBag(ticks, other) && SortedByTime(other)
    ensures SnapshotAt(ticks[x].time, other) != SnapshotAt(ticks[x].time, ticks)
  {
    var t := ticks[x].time;
    SnapshotAtIsSnapshot(t, ticks);
    assert ticks[x].symbol in SnapshotAt(t, ticks);
    var i: nat :| Latest(ticks, t, i) && ticks[i].symbol == ticks[x].symbol;
    var m := if QuoteOf(ticks[x]) == QuoteOf(ticks[i]) then y else x;
    other := Exchanged(ticks, m, i);
    ExchangedIsSorted(ticks, m, i);
    ExchangedShowsOther(ticks, t, m, i);
    ShownQuote(ticks, t, i);
    ShownQuote(other, t, i);
  }

  /** What a strategy is shown does not depend on the order of ties exactly when ties show the same quote. */
  lemma ShownOrderFreeExactly(ticks: seq<FundingTick>)
    requires SortedByTime(ticks) && ValidTicks(ticks)
    ensures TiesAgree(ticks) <==>
            forall other, t | SameBag(ticks, other) && SortedByTime(other) ::
              SnapshotAt(t, ticks) == SnapshotAt(t, other)
  {
    if TiesAgree(ticks) {
      forall other, t | SameBag(ticks, other) && SortedByTime(other)
        ensures SnapshotAt(t, ticks) == SnapshotAt(t, other)
      {
        SnapshotOrderFree(t, ticks, other);
      }
    } else {
      var p, q :| p in ticks && q in ticks && p.symbol == q.symbol && p.time == q.time && QuoteOf(p) != QuoteOf(q);
      var x: nat :| x < |ticks| && ticks[x] == p;
      var y: nat :| y < |ticks| && ticks[y] == q;
      var other := TieShows(ticks, x, y);
    }
  }
}
