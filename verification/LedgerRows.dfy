/** What the ledgers and the venue calls of a tick tell about its legs. */
module LedgerRows {
  import opened Wrappers
  import opened Texts
  import opened Types
  import opened Tables
  import opened TickSpec
  import opened TickFacts
  import opened Ledgers

  /* ----- which slots succeed ----- */

  /** A swap has succeeded exactly when the gate let it through and its venue, if it went to one, confirmed it. */
  lemma {:induction false} SwapsDoneExactly(plan: Plan, d: Desk, n: nat, i: nat)
    requires plan.Valid() && i < n <= |plan.decision.swaps|
    ensures i in AfterSwaps(plan, Untouched(d), n).swapsDone <==>
              SwapAllowed(plan, Untouched(d), i) && plan.swapEffects[i].accepted
  {
    SwapsMatchBelow(plan, d, n - 1);
    if i < n - 1 { SwapsDoneExactly(plan, d, n - 1, i); }
  }

  lemma {:induction false} SwapsMatchBelow(plan: Plan, d: Desk, n: nat)
    requires plan.Valid() && n <= |plan.decision.swaps|
    ensures forall i <- AfterSwaps(plan, Untouched(d), n).swapsDone :: i < n
  {
    if n > 0 { SwapsMatchBelow(plan, d, n - 1); }
  }

  lemma {:induction false} OrdersDoneExactly(plan: Plan, d: Desk, n: nat, j: nat)
    requires plan.Valid() && j < n <= |plan.decision.orders|
    ensures j in AfterOrders(plan, Untouched(d), n).ordersDone <==>
              OrderAllowed(plan, Untouched(d), j) && plan.orderEffects[j].accepted
  {
    OrdersMatchBelow(plan, d, n - 1);
    if j < n - 1 { OrdersDoneExactly(plan, d, n - 1, j); }
  }

  lemma {:induction false} OrdersMatchBelow(plan: Plan, d: Desk, n: nat)
    requires plan.Valid() && n <= |plan.decision.orders|
    ensures forall j <- AfterOrders(plan, Untouched(d), n).ordersDone :: j < n
  {
    if n == 0 {
      SwapsMatch(plan, d, |plan.decision.swaps|);
    } else {
      OrdersMatchBelow(plan, d, n - 1);
    }
  }

  /* ----- what a row says ----- */

  /** Booked on paper: the agent is a paper agent or has no venue for it. */
  predicate SwapOnPaper(cfg: Config, s: SwapIntent) {
    cfg.paper || s.chain !in cfg.swapVenues
  }

  /** The row is about this swap of the tick: what it asked for, and how it went. */
  ghost predicate SwapRowSays(cfg: Config, inp: TickInput, i: nat, row: SwapRow, done: bool)
    requires inp.Valid() && i < |inp.decision.swaps|
  {
    var s, outcome := inp.decision.swaps[i], inp.swapAnswers[i].outcome;
    && row.agentId == cfg.agentId && row.decisionId == inp.decisionId && row.time == Stamp(inp.now)
    && row.chain == s.chain && row.inToken == s.inToken.symbol && row.outToken == s.outToken.symbol
    && row.clientId == NullIfBlank(StampedSwap(cfg, inp, i).clientId)
    && row.dex == (if s.chain in cfg.swapVenues && cfg.swapVenues[s.chain] != ""
                   then cfg.swapVenues[s.chain] else "noop")
    && row.inAmount == s.inAmount && row.slippageBps == s.slippageBps
    && (row.status == SwapConfirmed <==> done)
    && (row.paper <==> SwapOnPaper(cfg, s))
    && (row.paper ==> done && row.outAmount == s.inAmount && row.gasPaid == 0.0 && row.txHash == None)
    && (!row.paper && outcome.Settled? ==>
          row.outAmount == outcome.outAmount && row.gasPaid == outcome.gas && row.txHash == NullIfBlank(outcome.hash))
    && (!row.paper && !outcome.Settled? ==> row.status == SwapFailed && row.outAmount == 0.0 && row.gasPaid == 0.0)
    && (row.txHash.Some? ==> outcome.Settled? || outcome.ConfirmFailed?)
  }

  ghost predicate OrderRowSays(cfg: Config, inp: TickInput, j: nat, row: OrderRow, done: bool)
    requires inp.Valid() && j < |inp.decision.orders|
  {
    var o, outcome := inp.decision.orders[j], inp.orderAnswers[j].outcome;
    && row.agentId == cfg.agentId && row.decisionId == inp.decisionId && row.time == Stamp(inp.now)
    && row.venue == o.venue && row.symbol == o.symbol && row.side == o.side
    && row.clientId == StampedOrder(cfg, inp, j).clientId
    && row.price == o.price && row.size == o.size && row.reduceOnly == o.reduceOnly
    && (row.status == OrderRejected <==> !done)
    && (row.paper <==> cfg.paper || !cfg.hasPerp)
    && (row.paper ==> row.status == OrderOpen && row.venueId == None)
    && (!row.paper && outcome.Acked? ==>
          row.status == outcome.status && row.venueId == NullIfBlank(outcome.venueId))
    && (row.venueId.Some? ==> outcome.Acked?)
  }

  lemma SwapEffectSays(cfg: Config, open: OpenBasis, inp: TickInput, i: nat)
    requires inp.Valid() && i < |inp.decision.swaps|
    ensures var e := PlanOf(cfg, open, inp).swapEffects[i]; SwapRowSays(cfg, inp, i, e.row, e.accepted)
  {
    ExecutionSays(cfg, inp, i, StampedSwap(cfg, inp, i));
  }

  lemma ExecutionSays(cfg: Config, inp: TickInput, i: nat, s: SwapIntent)
    requires inp.Valid() && i < |inp.decision.swaps| && s == StampedSwap(cfg, inp, i)
    ensures var e := ExecuteSwap(cfg, inp, s, inp.swapAnswers[i]); SwapRowSays(cfg, inp, i, e.row, e.accepted)
  {
    assert NullIfBlank("") == None;
    assert s.chain == inp.decision.swaps[i].chain && s.inAmount == inp.decision.swaps[i].inAmount
        && s.inToken == inp.decision.swaps[i].inToken && s.outToken == inp.decision.swaps[i].outToken
        && s.slippageBps == inp.decision.swaps[i].slippageBps;
  }

  lemma OrderEffectSays(cfg: Config, open: OpenBasis, inp: TickInput, j: nat)
    requires inp.Valid() && j < |inp.decision.orders|
    ensures var e := PlanOf(cfg, open, inp).orderEffects[j]; OrderRowSays(cfg, inp, j, e.row, e.accepted)
  {
    assert NullIfBlank("") == None;
  }

  /* ----- the ledgers of a tick ----- */

  /** These rows tell of these slots, one each in order, which ones the tick got done. */
  ghost predicate OrderRowsTell(cfg: Config, inp: TickInput, rows: seq<OrderRow>, slots: seq<nat>, done: set<nat>)
    requires inp.Valid()
  {
    && |rows| == |slots| && Increasing(slots)
    && (forall r | 0 <= r < |slots| :: slots[r] < |inp.decision.orders|
          && OrderRowSays(cfg, inp, slots[r], rows[r], slots[r] in done))
    && (forall j <- done :: j in slots)
  }

  /**
   The order ledger tells which orders succeeded: those let through, with their own price and size,
   rejected if they did not.
   */
  lemma OrderLedgerTells(cfg: Config, d: Desk, inp: TickInput) returns (rows: seq<OrderRow>, slots: seq<nat>)
    requires CleanTick(cfg, d, inp)
    ensures Tick(cfg, d, inp).orderLedger == d.orderLedger + rows
    ensures OrderRowsTell(cfg, inp, rows, slots, Legs(cfg, d, inp).ordersDone)
  {
    var plan, n := PlanOf(cfg, d.open, inp), |inp.decision.orders|;
    slots := OrderLedgerComplete(cfg, d, inp);
    rows := RowsAt(plan.orderEffects, slots);
    OrdersMatchBelow(plan, d, n);
    forall r | 0 <= r < |slots|
      ensures slots[r] < n && OrderRowSays(cfg, inp, slots[r], rows[r], slots[r] in Legs(cfg, d, inp).ordersDone)
    {
      assert slots[r] in slots;
      OrderEffectSays(cfg, d.open, inp, slots[r]);
      OrdersDoneExactly(plan, d, n, slots[r]);
    }
    forall j | j in Legs(cfg, d, inp).ordersDone ensures j in slots {
      OrdersDoneExactly(plan, d, n, j);
    }
  }

  ghost predicate SwapRowsTell(cfg: Config, inp: TickInput, rows: seq<SwapRow>, slots: seq<nat>, done: set<nat>)
    requires inp.Valid()
  {
    && |rows| == |slots| && Increasing(slots)
    && forall r | 0 <= r < |slots| :: slots[r] < |inp.decision.swaps|
         && SwapRowSays(cfg, inp, slots[r], rows[r], slots[r] in done)
  }

  /** So does the swap ledger, of the swaps that get a row. */
  lemma SwapLedgerTells(cfg: Config, d: Desk, inp: TickInput) returns (rows: seq<SwapRow>, slots: seq<nat>)
    requires CleanTick(cfg, d, inp)
    ensures Tick(cfg, d, inp).swapLedger == d.swapLedger + rows
    ensures SwapRowsTell(cfg, inp, rows, slots, Legs(cfg, d, inp).swapsDone)
  {
    var plan, n := PlanOf(cfg, d.open, inp), |inp.decision.swaps|;
    slots := SwapLedgerUpToPairs(cfg, d, inp);
    rows := RowsAt(plan.swapEffects, slots);
    OrdersKeepSwaps(plan, d, |inp.decision.orders|);
    forall r | 0 <= r < |slots|
      ensures slots[r] < n && SwapRowSays(cfg, inp, slots[r], rows[r], slots[r] in Legs(cfg, d, inp).swapsDone)
    {
      assert slots[r] in slots;
      SwapEffectSays(cfg, d.open, inp, slots[r]);
      SwapsDoneExactly(plan, d, n, slots[r]);
    }
  }

  /* ----- the venue calls of a leg ----- */

  /**
   A swap walks through its venue as far as it gets: a quote, then a submission, then a confirmation of
   that transaction.
   */
  lemma SwapStages(cfg: Config, open: OpenBasis, inp: TickInput, i: nat)
    requires inp.Valid() && i < |inp.decision.swaps|
    ensures var calls, s := PlanOf(cfg, open, inp).swapEffects[i].calls, StampedSwap(cfg, inp, i);
            var outcome := inp.swapAnswers[i].outcome;
            && (calls == [] <==> SwapOnPaper(cfg, s))
            && (calls != [] ==>
                  && calls[0] == QuoteCall(s)
                  && (|calls| > 1 <==> !outcome.QuoteFailed?)
                  && (|calls| > 1 ==> calls[1] == SwapCall(s))
                  && (|calls| > 2 <==> outcome.ConfirmFailed? || outcome.Settled?)
                  && (|calls| > 2 ==> calls[2..] == [ConfirmCall(outcome.tx)]))
  {
  }

  /** The intent sent is the one decided on, with a client id if it had none. */
  lemma SentAsDecided(cfg: Config, inp: TickInput)
    requires inp.Valid()
    ensures forall i: nat | i < |inp.decision.swaps| ::
              var s := StampedSwap(cfg, inp, i); s.(clientId := "") == inp.decision.swaps[i].(clientId := "")
    ensures forall j: nat | j < |inp.decision.orders| ::
              var o := StampedOrder(cfg, inp, j); o.(clientId := "") == inp.decision.orders[j].(clientId := "")
    ensures forall i: nat | i < |inp.decision.swaps| && inp.decision.swaps[i].clientId != "" ::
              StampedSwap(cfg, inp, i) == inp.decision.swaps[i]
    ensures forall j: nat | j < |inp.decision.orders| && inp.decision.orders[j].clientId != "" ::
              StampedOrder(cfg, inp, j) == inp.decision.orders[j]
  {
  }

  /** The placements among the calls, in order. */
  function Placements(calls: seq<Call>): seq<OrderIntent> {
    if calls == [] then [] else
      var rest, last := Placements(calls[..|calls| - 1]), calls[|calls| - 1];
      if last.PlaceCall? then rest + [last.order] else rest
  }

  /** The orders let through so far, as they are sent. */
  ghost function LetThrough(cfg: Config, d: Desk, inp: TickInput, n: nat): seq<OrderIntent>
    requires inp.Valid() && n <= |inp.decision.orders|
  {
    if n == 0 then [] else
      var rest := LetThrough(cfg, d, inp, n - 1);
      if OrderAllowed(PlanOf(cfg, d.open, inp), Untouched(d), n - 1)
      then rest + [StampedOrder(cfg, inp, n - 1)] else rest
  }

  lemma {:induction false} PlacementsOfConcat(a: seq<Call>, b: seq<Call>)
    ensures Placements(a + b) == Placements(a) + Placements(b)
  {
    if b == [] {
      assert a + b == a;
    } else {
      assert (a + b)[..|a + b| - 1] == a + b[..|b| - 1];
      PlacementsOfConcat(a, b[..|b| - 1]);
    }
  }

  lemma {:induction false} NoPlacements(calls: seq<Call>)
    requires forall i | 0 <= i < |calls| :: !calls[i].PlaceCall?
    ensures Placements(calls) == []
  {
    if calls != [] { NoPlacements(calls[..|calls| - 1]); }
  }

  lemma SwapPlacesNothing(cfg: Config, d: Desk, inp: TickInput, i: nat, p: Progress)
    requires inp.Valid() && i < |inp.decision.swaps|
    ensures Placements(SwapStep(PlanOf(cfg, d.open, inp), i, p).calls) == Placements(p.calls)
  {
    var e := PlanOf(cfg, d.open, inp).swapEffects[i];
    NoPlacements(e.calls);
    PlacementsOfConcat(p.calls, e.calls);
  }

  lemma {:induction false} SwapsPlaceNothing(cfg: Config, d: Desk, inp: TickInput, n: nat)
    requires inp.Valid() && n <= |inp.decision.swaps|
    ensures Placements(AfterSwaps(PlanOf(cfg, d.open, inp), Untouched(d), n).calls) == Placements(d.calls)
  {
    if n > 0 {
      SwapsPlaceNothing(cfg, d, inp, n - 1);
      SwapPlacesNothing(cfg, d, inp, n - 1, AfterSwaps(PlanOf(cfg, d.open, inp), Untouched(d), n - 1));
    }
  }

  lemma OrderPlacesItself(cfg: Config, d: Desk, inp: TickInput, j: nat, p: Progress)
    requires inp.Valid() && j < |inp.decision.orders| && !cfg.paper && cfg.hasPerp
    ensures var plan := PlanOf(cfg, d.open, inp);
            Placements(OrderStep(plan, j, p).calls) == Placements(p.calls) +
              if plan.refusesOrder(j, p.inflight) then [] else [StampedOrder(cfg, inp, j)]
  {
    var e, o := PlanOf(cfg, d.open, inp).orderEffects[j], StampedOrder(cfg, inp, j);
    assert e.calls == [PlaceCall(o)];
    assert (p.calls + e.calls)[..|p.calls|] == p.calls;
  }

  /** So far the tick has placed just the orders let through. */
  ghost predicate PlacedThrough(cfg: Config, d: Desk, inp: TickInput, n: nat)
    requires inp.Valid() && n <= |inp.decision.orders|
  {
    Placements(AfterOrders(PlanOf(cfg, d.open, inp), Untouched(d), n).calls)
      == Placements(d.calls) + LetThrough(cfg, d, inp, n)
  }

  lemma NonePlacedYet(cfg: Config, d: Desk, inp: TickInput)
    requires inp.Valid()
    ensures PlacedThrough(cfg, d, inp, 0)
  {
    SwapsPlaceNothing(cfg, d, inp, |inp.decision.swaps|);
  }

  lemma NextPlaced(cfg: Config, d: Desk, inp: TickInput, n: nat)
    requires inp.Valid() && n < |inp.decision.orders| && !cfg.paper && cfg.hasPerp && PlacedThrough(cfg, d, inp, n)
    ensures PlacedThrough(cfg, d, inp, n + 1)
  {
    OrderPlacesItself(cfg, d, inp, n, AfterOrders(PlanOf(cfg, d.open, inp), Untouched(d), n));
  }

  lemma {:induction false} AllPlaced(cfg: Config, d: Desk, inp: TickInput, n: nat)
    requires inp.Valid() && n <= |inp.decision.orders| && PlacedThrough(cfg, d, inp, 0)
    requires forall m: nat | m < |inp.decision.orders| && PlacedThrough(cfg, d, inp, m) ::
               PlacedThrough(cfg, d, inp, m + 1)
    ensures PlacedThrough(cfg, d, inp, n)
  {
    if n > 0 { AllPlaced(cfg, d, inp, n - 1); }
  }

  lemma OrdersPlaceThemselves(cfg: Config, d: Desk, inp: TickInput, n: nat)
    requires inp.Valid() && n <= |inp.decision.orders| && !cfg.paper && cfg.hasPerp
    ensures PlacedThrough(cfg, d, inp, n)
  {
    NonePlacedYet(cfg, d, inp);
    forall m: nat | m < |inp.decision.orders| && PlacedThrough(cfg, d, inp, m)
      ensures PlacedThrough(cfg, d, inp, m + 1)
    {
      NextPlaced(cfg, d, inp, m);
    }
    AllPlaced(cfg, d, inp, n);
  }

  /**
   A live tick places each order the gate lets through, once and in order, and then cancels what the
   decision names.
   */
  lemma TickPlacesAndCancels(cfg: Config, d: Desk, inp: TickInput)
    requires inp.Valid() && !cfg.paper && cfg.hasPerp
    ensures var calls, ids := Tick(cfg, d, inp).calls, inp.decision.cancels;
            && Placements(calls) == Placements(d.calls) + LetThrough(cfg, d, inp, |inp.decision.orders|)
            && |ids| <= |calls| && forall c | 0 <= c < |ids| :: calls[|calls| - |ids| + c] == CancelCall(ids[c])
  {
    var before, cancels := Legs(cfg, d, inp).calls, CancelCalls(cfg, inp.decision.cancels);
    OrdersPlaceThemselves(cfg, d, inp, |inp.decision.orders|);
    NoPlacements(cancels);
    PlacementsOfConcat(before, cancels);
  }
}
