/** What a recorded basis says about its two legs, and in which order legs reach the venues. */
module PairedLegs {
  import opened Wrappers
  import opened Types
  import opened TickSpec
  import opened TickFacts
  import opened Staging

  /* ----- which keys are open after a tick, slot by slot ----- */

  ghost predicate ReducedBy(dec: Decision, p: Progress, j: nat, k: string) {
    ReduceOnlyAt(dec, j, k) && j in p.ordersDone
  }

  ghost predicate BothLegsDone(dec: Decision, p: Progress, i: nat, j: nat, k: string) {
    OpeningAt(dec, i, k) && i in p.swapsDone && HedgeAt(dec, j, k) && j in p.ordersDone
  }

  /** The entry records exactly the two legs that succeeded. */
  ghost predicate EntryOf(cfg: Config, inp: TickInput, p: Progress, i: nat, j: nat, k: string, bp: BasisPosition) {
    && BothLegsDone(inp.decision, p, i, j, k)
    && RecordsLegs(inp.decision.swaps[i], inp.decision.orders[j], bp)
    && OpenedAt(cfg.agentId, inp.now, k, inp.decisionId, bp)
  }

  lemma LegsMatch(cfg: Config, d: Desk, inp: TickInput)
    requires inp.Valid()
    ensures SetsMatchSlots(inp.decision, Legs(cfg, d, inp))
  {
    OrdersMatch(PlanOf(cfg, d.open, inp), d, |inp.decision.orders|);
  }

  /** With one swap and one order per key, the success maps speak about single slots. */
  lemma DistinctKeysIdentifySlots(dec: Decision, p: Progress, k: string)
    requires DistinctSwapKeys(dec) && DistinctOrderKeys(dec) && SetsMatchSlots(dec, p)
    ensures k in p.orderOk && HasReduceOnly(dec, k) <==> exists j: nat :: ReducedBy(dec, p, j, k)
    ensures Pairable(dec, k) && k in p.swapOk && k in p.orderOk <==>
            exists i: nat, j: nat :: BothLegsDone(dec, p, i, j, k)
  {
    if k in p.orderOk && HasReduceOnly(dec, k) {
      var j: nat :| ReduceOnlyAt(dec, j, k);
      assert ReducedBy(dec, p, j, k);
    }
    if Pairable(dec, k) && k in p.swapOk && k in p.orderOk {
      var i: nat :| OpeningAt(dec, i, k);
      var j: nat :| HedgeAt(dec, j, k);
      assert BothLegsDone(dec, p, i, j, k);
    }
  }

  /**
   The exact transition of the open set when keys are not repeated: keys leave by a succeeded
   reduce-only order, and enter only with both of their legs succeeded; the rest is untouched.
   */
  lemma ExactTransition(cfg: Config, d: Desk, inp: TickInput, k: string)
    requires inp.Valid() && DistinctSwapKeys(inp.decision) && DistinctOrderKeys(inp.decision)
    ensures var dec, p, after := inp.decision, Legs(cfg, d, inp), Tick(cfg, d, inp).open;
            && (k in after <==>
                  (k in d.open && !exists j: nat :: ReducedBy(dec, p, j, k)) ||
                  (k !in d.open && exists i: nat, j: nat :: BothLegsDone(dec, p, i, j, k)))
            && (k in d.open && k in after ==> after[k] == d.open[k])
            && (k !in d.open && k in after ==>
                  exists i: nat, j: nat :: EntryOf(cfg, inp, p, i, j, k, after[k]))
  {
    LegsMatch(cfg, d, inp);
    DistinctKeysIdentifySlots(inp.decision, Legs(cfg, d, inp), k);
    OpenSetAfterTick(cfg, d, inp, k);
    DistinctKeysNeverReopen(inp.decision, k);
    if k !in d.open && k in Tick(cfg, d, inp).open {
      EnteredIsEntry(cfg, d, inp, k);
    }
  }

  lemma EnteredIsEntry(cfg: Config, d: Desk, inp: TickInput, k: string)
    requires inp.Valid() && DistinctSwapKeys(inp.decision) && DistinctOrderKeys(inp.decision)
    requires k !in d.open && k in Tick(cfg, d, inp).open
    ensures exists i: nat, j: nat :: EntryOf(cfg, inp, Legs(cfg, d, inp), i, j, k, Tick(cfg, d, inp).open[k])
  {
    var p, bp := Legs(cfg, d, inp), Tick(cfg, d, inp).open[k];
    LegsMatch(cfg, d, inp);
    DistinctKeysIdentifySlots(inp.decision, p, k);
    OpenSetAfterTick(cfg, d, inp, k);
    var i: nat, j: nat :| BooksLegs(cfg, inp, i, j, k, bp);
    assert EntryOf(cfg, inp, p, i, j, k, bp);
  }

  lemma DistinctKeysNeverReopen(dec: Decision, k: string)
    requires DistinctOrderKeys(dec)
    ensures HasHedge(dec, k) ==> !HasReduceOnly(dec, k)
  {
    forall i: nat, j: nat | ReduceOnlyAt(dec, i, k) ensures !HedgeAt(dec, j, k) {
      assert j < |dec.orders| && i != j ==> OrderKey(dec.orders[j]) != k;
    }
  }

  /* ----- no half-open pair: exactly which decisions guarantee it ----- */

  /** Key k is recorded as opened by this tick, rather than kept from before. */
  ghost predicate RecordedNow(cfg: Config, d: Desk, inp: TickInput, k: string)
    requires inp.Valid()
  {
    k in Tick(cfg, d, inp).open && !(k in d.open && !ClosedInTick(inp, Legs(cfg, d, inp), k))
  }

  /** The swap and the order that an entry for key k records both succeeded. */
  ghost predicate BookedLegsDone(dec: Decision, p: Progress, k: string) {
    && (exists i: nat :: LastOpeningAt(dec, i, k) && i in p.swapsDone)
    && (exists j: nat :: FirstHedgeAt(dec, j, k) && j in p.ordersDone)
  }

  /** No agent, desk or venue answers make a tick with this decision record an entry one of whose two legs failed. */
  ghost predicate NeverHalfOpen(dec: Decision) {
    forall cfg: Config, d: Desk, inp: TickInput, k |
      inp.Valid() && inp.decision == dec && RecordedNow(cfg, d, inp, k) ::
      BookedLegsDone(dec, Legs(cfg, d, inp), k)
  }

  ghost predicate OneSwap(dec: Decision, k: string) {
    forall i, h | 0 <= i < h < |dec.swaps| :: SwapKey(dec.swaps[i]) != k || SwapKey(dec.swaps[h]) != k
  }

  ghost predicate OneOrder(dec: Decision, k: string) {
    forall j, h | 0 <= j < h < |dec.orders| :: OrderKey(dec.orders[j]) != k || OrderKey(dec.orders[h]) != k
  }

  /** The key of every pair is carried by one swap and one order, and by nothing else. */
  ghost predicate PairKeysAreSingle(dec: Decision) {
    forall k | Pairable(dec, k) :: OneSwap(dec, k) && OneOrder(dec, k)
  }

  lemma SingleKeysRecordDoneLegs(cfg: Config, d: Desk, inp: TickInput, k: string)
    requires inp.Valid() && PairKeysAreSingle(inp.decision) && RecordedNow(cfg, d, inp, k)
    ensures BookedLegsDone(inp.decision, Legs(cfg, d, inp), k)
  {
    var dec, p := inp.decision, Legs(cfg, d, inp);
    OpenSetAfterTick(cfg, d, inp, k);
    LegsMatch(cfg, d, inp);
    var i: nat, j: nat :| BooksLegs(cfg, inp, i, j, k, Tick(cfg, d, inp).open[k]);
    var doneSwap: nat :| doneSwap in p.swapsDone && SwapKey(dec.swaps[doneSwap]) == k;
    var doneOrder: nat :| doneOrder in p.ordersDone && OrderKey(dec.orders[doneOrder]) == k;
    assert i == doneSwap && j == doneOrder;
  }

  /** So under such a decision every new entry is made of two legs that both succeeded. */
  lemma RecordedEntry(cfg: Config, d: Desk, inp: TickInput, k: string)
    requires inp.Valid() && PairKeysAreSingle(inp.decision) && RecordedNow(cfg, d, inp, k)
    ensures exists i: nat, j: nat :: EntryOf(cfg, inp, Legs(cfg, d, inp), i, j, k, Tick(cfg, d, inp).open[k])
  {
    var dec, p, bp := inp.decision, Legs(cfg, d, inp), Tick(cfg, d, inp).open[k];
    OpenSetAfterTick(cfg, d, inp, k);
    SingleKeysRecordDoneLegs(cfg, d, inp, k);
    var i: nat, j: nat :| BooksLegs(cfg, inp, i, j, k, bp);
    SameLastOpening(dec, k, i);
    SameFirstHedge(dec, k, j);
    assert EntryOf(cfg, inp, p, i, j, k, bp);
  }

  lemma SameLastOpening(dec: Decision, k: string, i: nat)
    requires LastOpeningAt(dec, i, k)
    ensures forall h: nat :: LastOpeningAt(dec, h, k) ==> h == i
  {
  }

  lemma SameFirstHedge(dec: Decision, k: string, j: nat)
    requires FirstHedgeAt(dec, j, k)
    ensures forall h: nat :: FirstHedgeAt(dec, h, k) ==> h == j
  {
  }

  /** Without a risk engine, a staged tick records every pairable key that some chosen swap and order carry. */
  lemma StagedRecords(dec: Decision, confirmed: set<nat>, acked: set<nat>, i: nat, j: nat, k: string)
    requires Pairable(dec, k)
    requires i in confirmed && i < |dec.swaps| && SwapKey(dec.swaps[i]) == k
    requires j in acked && j < |dec.orders| && OrderKey(dec.orders[j]) == k
    ensures var cfg, d, inp := LiveConfig(dec, None), EmptyDesk(map[]), StagedInput(dec, confirmed, acked);
            && RecordedNow(cfg, d, inp, k)
            && Legs(cfg, d, inp).swapsDone <= confirmed
            && Legs(cfg, d, inp).ordersDone <= acked
  {
    var cfg, d, inp := LiveConfig(dec, None), EmptyDesk(map[]), StagedInput(dec, confirmed, acked);
    var plan := PlanOf(cfg, d.open, inp);
    StagedPlan(dec, None, d.open, confirmed, acked);
    UngatedSwaps(plan, d, confirmed, acked, |dec.swaps|);
    UngatedOrders(plan, d, confirmed, acked, |dec.orders|);
    OrdersKeepSwaps(plan, d, |dec.orders|);
    LegsMatch(cfg, d, inp);
    OpenSetAfterTick(cfg, d, inp, k);
  }

  /** Of two swaps with a pair's key, the one that is not recorded can vouch for the one that is. */
  lemma SecondSwapVouches(dec: Decision, k: string)
    requires Pairable(dec, k) && !OneSwap(dec, k)
    ensures !NeverHalfOpen(dec)
  {
    var other := UnrecordedSwap(dec, k);
    var j: nat :| HedgeAt(dec, j, k);
    StagedRecords(dec, {other}, {j}, other, j, k);
  }

  lemma UnrecordedSwap(dec: Decision, k: string) returns (other: nat)
    requires !OneSwap(dec, k)
    ensures other < |dec.swaps| && SwapKey(dec.swaps[other]) == k && !LastOpeningAt(dec, other, k)
  {
    var a: nat, b: nat :| a < b < |dec.swaps| && SwapKey(dec.swaps[a]) == k && SwapKey(dec.swaps[b]) == k;
    other := if LastOpeningAt(dec, a, k) then b else a;
  }

  /** The same with two orders. */
  lemma SecondOrderVouches(dec: Decision, k: string)
    requires Pairable(dec, k) && !OneOrder(dec, k)
    ensures !NeverHalfOpen(dec)
  {
    var i: nat :| OpeningAt(dec, i, k);
    var other := UnrecordedOrder(dec, k);
    StagedRecords(dec, {i}, {other}, i, other, k);
  }

  lemma UnrecordedOrder(dec: Decision, k: string) returns (other: nat)
    requires !OneOrder(dec, k)
    ensures other < |dec.orders| && OrderKey(dec.orders[other]) == k && !FirstHedgeAt(dec, other, k)
  {
    var a: nat, b: nat :| a < b < |dec.orders| && OrderKey(dec.orders[a]) == k && OrderKey(dec.orders[b]) == k;
    other := if FirstHedgeAt(dec, a, k) then b else a;
  }

  /**
   A decision is safe from half-open records exactly when the key of every pair is carried by one swap
   and one order.
   */
  lemma HalfOpenExact(dec: Decision)
    ensures NeverHalfOpen(dec) <==> PairKeysAreSingle(dec)
  {
    if PairKeysAreSingle(dec) {
      forall cfg: Config, d: Desk, inp: TickInput, k | inp.Valid() && inp.decision == dec && RecordedNow(cfg, d, inp, k)
        ensures BookedLegsDone(dec, Legs(cfg, d, inp), k)
      {
        SingleKeysRecordDoneLegs(cfg, d, inp, k);
      }
    } else {
      var k :| Pairable(dec, k) && !(OneSwap(dec, k) && OneOrder(dec, k));
      if !OneSwap(dec, k) { SecondSwapVouches(dec, k); } else { SecondOrderVouches(dec, k); }
    }
  }

  /** Two purchases of one token and one hedge: the first purchase vouches for the second, which is the one recorded. */
  lemma TwoPurchasesRecordedHalfOpen()
    ensures !NeverHalfOpen(Decision([SampleSwap("USDC", "WIF", ""), SampleSwap("USDC", "WIF", "").(inAmount := 7.0)],
                                    [SampleOrder("WIF", Sell, false)], []))
  {
    var dec := Decision([SampleSwap("USDC", "WIF", ""), SampleSwap("USDC", "WIF", "").(inAmount := 7.0)],
                        [SampleOrder("WIF", Sell, false)], []);
    var k := SwapKey(dec.swaps[0]);
    assert OpeningAt(dec, 0, k) && HedgeAt(dec, 0, k);
    assert SwapKey(dec.swaps[1]) == k;
    SecondSwapVouches(dec, k);
  }

  /* ----- spot first ----- */

  /** Order j is sent to the perp venue. */
  ghost predicate OrderSent(cfg: Config, d: Desk, inp: TickInput, j: nat)
    requires inp.Valid()
  {
    && j < |inp.decision.orders| && !cfg.paper && cfg.hasPerp
    && var plan := PlanOf(cfg, d.open, inp);
       !plan.refusesOrder(j, AfterOrders(plan, Untouched(d), j).inflight)
  }

  /** What the documentation calls spot-first: a hedge paired with a swap is sent only once that swap has confirmed. */
  ghost predicate HedgesWaitForSpot(dec: Decision) {
    forall cfg: Config, d: Desk, inp: TickInput, j: nat, k |
      inp.Valid() && inp.decision == dec && OrderSent(cfg, d, inp, j) && HedgeAt(dec, j, k) && HasOpening(dec, k) ::
      exists i: nat :: OpeningAt(dec, i, k) && i in Legs(cfg, d, inp).swapsDone
  }

  /** If no swap of the decision confirms, its hedges are sent all the same. */
  lemma HedgeSentUnpaired(dec: Decision, k: string)
    requires Pairable(dec, k)
    ensures !HedgesWaitForSpot(dec)
  {
    var j: nat :| HedgeAt(dec, j, k);
    var cfg, d, inp := LiveConfig(dec, None), EmptyDesk(map[]), StagedInput(dec, {}, {});
    NothingConfirms(dec);
    assert OrderSent(cfg, d, inp, j);
  }

  lemma NothingConfirms(dec: Decision)
    ensures Legs(LiveConfig(dec, None), EmptyDesk(map[]), StagedInput(dec, {}, {})).swapsDone == {}
  {
    var plan := PlanOf(LiveConfig(dec, None), map[], StagedInput(dec, {}, {}));
    var d := EmptyDesk(map[]);
    StagedPlan(dec, None, map[], {}, {});
    UngatedSwaps(plan, d, {}, {}, |dec.swaps|);
    OrdersKeepSwaps(plan, d, |dec.orders|);
  }

  /** The runtime does not enforce it: the promise holds only of decisions that contain no pair at all. */
  lemma SpotFirstExact(dec: Decision)
    ensures HedgesWaitForSpot(dec) <==> forall k :: !Pairable(dec, k)
  {
    if k :| Pairable(dec, k) {
      HedgeSentUnpaired(dec, k);
    } else {
      forall j: nat, k | HedgeAt(dec, j, k) ensures !HasOpening(dec, k) {
        assert !Pairable(dec, k);
      }
    }
  }

  /** The smallest decision that shows it: one swap, one hedge, and a swap venue that gives no quote. */
  lemma HedgeSentAfterFailedSwap()
    ensures !HedgesWaitForSpot(Decision([SampleSwap("USDC", "WIF", "")], [SampleOrder("WIF", Sell, false)], []))
  {
    var dec := Decision([SampleSwap("USDC", "WIF", "")], [SampleOrder("WIF", Sell, false)], []);
    var key := SwapKey(dec.swaps[0]);
    assert OpeningAt(dec, 0, key) && HedgeAt(dec, 0, key);
    HedgeSentUnpaired(dec, key);
  }

  /** A call to a swap venue. */
  predicate IsSpotCall(c: Call) {
    c.QuoteCall? || c.SwapCall? || c.ConfirmCall?
  }

  /** What the runtime does order: in every tick all spot calls precede all orders, and those precede the cancels. */
  ghost predicate SpotThenPerpThenCancel(calls: seq<Call>, a: nat, b: nat) {
    && a <= b <= |calls|
    && (forall i | 0 <= i < a :: IsSpotCall(calls[i]))
    && (forall i | a <= i < b :: calls[i].PlaceCall?)
    && (forall i | b <= i < |calls| :: calls[i].CancelCall?)
  }

  ghost predicate OnlySpotCalls(plan: Plan) {
    forall e <- plan.swapEffects, i | 0 <= i < |e.calls| :: IsSpotCall(e.calls[i])
  }

  ghost predicate OnlyPerpCalls(plan: Plan) {
    forall e <- plan.orderEffects, i | 0 <= i < |e.calls| :: e.calls[i].PlaceCall?
  }

  lemma {:induction false} SwapCallsAppend(plan: Plan, start: Progress, n: nat)
    requires plan.Valid() && n <= |plan.decision.swaps| && OnlySpotCalls(plan)
    ensures var calls := AfterSwaps(plan, start, n).calls;
            && |start.calls| <= |calls| && calls[..|start.calls|] == start.calls
            && forall i | |start.calls| <= i < |calls| :: IsSpotCall(calls[i])
  {
    if n > 0 { SwapCallsAppend(plan, start, n - 1); }
  }

  lemma {:induction false} OrderCallsAppend(plan: Plan, start: Progress, n: nat)
    requires plan.Valid() && n <= |plan.decision.orders| && OnlyPerpCalls(plan)
    ensures var was, calls := AfterSwaps(plan, start, |plan.decision.swaps|).calls, AfterOrders(plan, start, n).calls;
            && |was| <= |calls| && calls[..|was|] == was
            && forall i | |was| <= i < |calls| :: calls[i].PlaceCall?
  {
    if n > 0 { OrderCallsAppend(plan, start, n - 1); }
  }

  lemma EffectsCallTheirVenue(cfg: Config, open: OpenBasis, inp: TickInput)
    requires inp.Valid()
    ensures OnlySpotCalls(PlanOf(cfg, open, inp)) && OnlyPerpCalls(PlanOf(cfg, open, inp))
  {
  }

  /** Swaps, then orders, then cancels. */
  lemma TickCallOrder(cfg: Config, d: Desk, inp: TickInput)
    requires inp.Valid()
    ensures d.calls <= Tick(cfg, d, inp).calls
    ensures exists a, b :: SpotThenPerpThenCancel(Tick(cfg, d, inp).calls[|d.calls|..], a, b)
  {
    var plan := PlanOf(cfg, d.open, inp);
    EffectsCallTheirVenue(cfg, d.open, inp);
    SwapCallsAppend(plan, Untouched(d), |inp.decision.swaps|);
    OrderCallsAppend(plan, Untouched(d), |inp.decision.orders|);
    CallsInThreeParts(d.calls, AfterSwaps(plan, Untouched(d), |inp.decision.swaps|).calls,
                      Executed(plan, Untouched(d)).calls, CancelCalls(cfg, inp.decision.cancels));
  }

  lemma CallsInThreeParts(was: seq<Call>, spot: seq<Call>, perp: seq<Call>, cancels: seq<Call>)
    requires was <= spot <= perp
    requires forall i | |was| <= i < |spot| :: IsSpotCall(spot[i])
    requires forall i | |spot| <= i < |perp| :: perp[i].PlaceCall?
    requires forall i | 0 <= i < |cancels| :: cancels[i].CancelCall?
    ensures was <= perp + cancels
    ensures exists a, b :: SpotThenPerpThenCancel((perp + cancels)[|was|..], a, b)
  {
    assert SpotThenPerpThenCancel((perp + cancels)[|was|..], |spot| - |was|, |perp| - |was|);
  }
}
