/** Executing one decision twice: when the second execution leaves the ledgers alone, and when it does not. */
module Replays {
  import opened Texts
  import opened Types
  import opened RiskPolicy
  import opened TickSpec
  import opened TickFacts
  import opened Staging
  import opened TickSafety
  import opened Ledgers

  /** A second execution: the same decision at the same time, over ledgers that hold the first one's rows. */
  ghost predicate Replayed(cfg: Config, d: Desk, inp: TickInput, e: Desk, again: TickInput) {
    && inp.Valid() && again.Valid() && AllRecorded(inp)
    && again.now == inp.now && again.decisionId == inp.decisionId && again.decision == inp.decision
    && e.swapLedger == Tick(cfg, d, inp).swapLedger && e.orderLedger == Tick(cfg, d, inp).orderLedger
  }

  /* ----- executions that refused nothing ----- */

  /** If the first execution let every slot through, no second one adds a row, whatever is open by then. */
  lemma ReplayAfterNoRefusal(cfg: Config, d: Desk, inp: TickInput, e: Desk, again: TickInput)
    requires Replayed(cfg, d, inp, e, again)
    requires forall i: nat | i < |inp.decision.swaps| :: SwapAllowed(PlanOf(cfg, d.open, inp), Untouched(d), i)
    requires forall j: nat | j < |inp.decision.orders| :: OrderAllowed(PlanOf(cfg, d.open, inp), Untouched(d), j)
    ensures Tick(cfg, e, again).swapLedger == e.swapLedger && Tick(cfg, e, again).orderLedger == e.orderLedger
  {
    ReplayAddsNothing(cfg, d, inp, e, again);
  }

  /* ----- a gate that counts positions ----- */

  /** What a gate without an exposure limit asks of a slot: something about the slot alone, and room for an open. */
  ghost predicate CountsOnly(plan: Plan, held: nat, cap: int, fine: (nat, bool) -> bool) {
    && plan.Valid() && NonEmptyKeys(plan.decision)
    && (forall i: nat, inflight: set<string> {:trigger plan.refusesSwap(i, inflight)} | i < |plan.decision.swaps| ::
          !plan.refusesSwap(i, inflight) <==>
            fine(i, true) && (plan.decision.swaps[i].IsOpening() && cap > 0 ==> held + |Named(inflight)| < cap))
    && (forall j: nat, inflight: set<string> {:trigger plan.refusesOrder(j, inflight)} | j < |plan.decision.orders| ::
          !plan.refusesOrder(j, inflight) <==>
            fine(j, false) && (!plan.decision.orders[j].reduceOnly && cap > 0 ==>
              held + |inflight - {Exclusion(plan.decision.orders[j], inflight)}| < cap))
  }

  ghost function FineSlot(cfg: Config, l: Limits, inp: TickInput): (nat, bool) -> bool {
    (n: nat, swap: bool) =>
      if swap then n < |inp.decision.swaps| && FineSwap(l, StampedSwap(cfg, inp, n))
      else n < |inp.decision.orders| && FineOrder(l, StampedOrder(cfg, inp, n))
  }

  predicate FineSwap(l: Limits, s: SwapIntent) {
    (l.maxSpotSlippageBps > 0 ==> s.slippageBps <= l.maxSpotSlippageBps)
    && (l.maxNotionalPerLeg != 0.0 ==> s.inAmount <= l.maxNotionalPerLeg)
  }

  predicate FineOrder(l: Limits, o: OrderIntent) {
    l.maxNotionalPerLeg != 0.0 ==> o.Notional() <= l.maxNotionalPerLeg
  }

  ghost predicate CapOnly(cfg: Config, l: Limits) {
    UsesPolicy(cfg, l) && l.maxTotalBasisExposure == 0.0
  }

  lemma PolicySwapExactly(cfg: Config, l: Limits, open: OpenBasis, inp: TickInput, i: nat, inflight: set<string>)
    requires CapOnly(cfg, l) && i < |inp.decision.swaps|
    ensures !SwapRefused(cfg, open, inp, i, inflight) <==>
              FineSwap(l, StampedSwap(cfg, inp, i))
              && (inp.decision.swaps[i].IsOpening() && l.maxConcurrentPositions > 0 ==>
                    |open| + |Named(inflight)| < l.maxConcurrentPositions)
  {
    SnapshotSize(open, inflight, "");
  }

  lemma PolicyOrderExactly(cfg: Config, l: Limits, open: OpenBasis, inp: TickInput, j: nat, inflight: set<string>)
    requires CapOnly(cfg, l) && j < |inp.decision.orders|
    ensures !OrderRefused(cfg, open, inp, j, inflight) <==>
              FineOrder(l, StampedOrder(cfg, inp, j))
              && (!inp.decision.orders[j].reduceOnly && l.maxConcurrentPositions > 0 ==>
                    |open| + |inflight - {Exclusion(inp.decision.orders[j], inflight)}| < l.maxConcurrentPositions)
  {
    SnapshotSize(open, inflight, Exclusion(inp.decision.orders[j], inflight));
  }

  lemma PolicyCountsOnly(cfg: Config, l: Limits, open: OpenBasis, inp: TickInput)
    requires inp.Valid() && CapOnly(cfg, l) && NonEmptyKeys(inp.decision)
    ensures CountsOnly(PlanOf(cfg, open, inp), |open|, l.maxConcurrentPositions, FineSlot(cfg, l, inp))
  {
    var plan, cap, fine := PlanOf(cfg, open, inp), l.maxConcurrentPositions, FineSlot(cfg, l, inp);
    forall i: nat, inflight: set<string> | i < |plan.decision.swaps|
      ensures !plan.refusesSwap(i, inflight) <==>
                fine(i, true) && (plan.decision.swaps[i].IsOpening() && cap > 0 ==> |open| + |Named(inflight)| < cap)
    {
      PolicySwapExactly(cfg, l, open, inp, i, inflight);
    }
    forall j: nat, inflight: set<string> | j < |plan.decision.orders|
      ensures !plan.refusesOrder(j, inflight) <==>
                fine(j, false) && (!plan.decision.orders[j].reduceOnly && cap > 0 ==>
                  |open| + |inflight - {Exclusion(plan.decision.orders[j], inflight)}| < cap)
    {
      PolicyOrderExactly(cfg, l, open, inp, j, inflight);
    }
  }

  /* ----- two executions side by side ----- */

  /** Two plans for one decision: the same answers, the second with at least as many positions held. */
  ghost predicate Heavier(f: Plan, r: Plan, held: nat, more: nat, cap: int, fine: (nat, bool) -> bool) {
    && CountsOnly(f, held, cap, fine) && CountsOnly(r, more, cap, fine) && f.decision == r.decision && held <= more
    && (forall i: nat | i < |f.swapEffects| :: f.swapEffects[i].accepted == r.swapEffects[i].accepted)
    && (forall j: nat | j < |f.orderEffects| :: f.orderEffects[j].accepted == r.orderEffects[j].accepted)
  }

  /** The second execution has succeeded in just the same, or its cap is full and it has succeeded in no more. */
  ghost predicate Behind(p: Progress, q: Progress, held: nat, more: nat, cap: int) {
    && "" !in p.inflight && (cap > 0 ==> Fits(p.inflight, held, cap))
    && q.inflight <= p.inflight && q.swapOk <= p.swapOk
    && ((q.inflight == p.inflight && q.swapOk == p.swapOk) || (cap > 0 && more + |q.inflight| >= cap))
  }

  lemma NamedIsAll(inflight: set<string>)
    requires "" !in inflight
    ensures Named(inflight) == inflight == inflight - {""}
  {
  }

  /** A swap let through the second time was let through the first time. */
  lemma SwapWasAllowed(f: Plan, r: Plan, held: nat, more: nat, cap: int, fine: (nat, bool) -> bool,
                       slot: nat, p: Progress, q: Progress)
    requires Heavier(f, r, held, more, cap, fine) && slot < |f.decision.swaps| && Behind(p, q, held, more, cap)
    ensures !r.refusesSwap(slot, q.inflight) ==> !f.refusesSwap(slot, p.inflight)
    ensures !r.refusesSwap(slot, q.inflight) && cap > 0 && more + |q.inflight| >= cap ==>
              !f.decision.swaps[slot].IsOpening()
    ensures r.refusesSwap(slot, q.inflight) && !f.refusesSwap(slot, p.inflight) ==>
              cap > 0 && more + |q.inflight| >= cap
  {
    NamedIsAll(p.inflight);
    NamedIsAll(q.inflight);
  }

  lemma SwapStepBehind(f: Plan, r: Plan, held: nat, more: nat, cap: int, fine: (nat, bool) -> bool,
                       slot: nat, p: Progress, q: Progress)
    requires Heavier(f, r, held, more, cap, fine) && slot < |f.decision.swaps| && Behind(p, q, held, more, cap)
    ensures Behind(SwapStep(f, slot, p), SwapStep(r, slot, q), held, more, cap)
  {
    var s := f.decision.swaps[slot];
    assert s in f.decision.swaps;
    SwapWasAllowed(f, r, held, more, cap, fine, slot, p, q);
    NamedIsAll(p.inflight);
    if !f.refusesSwap(slot, p.inflight) && s.IsOpening() && cap > 0 {
      FitsOneMore(p.inflight, SwapKey(s), held, cap);
    }
  }

  /** Nor does the second execution let an order through that the first refused. */
  lemma OrderWasAllowed(f: Plan, r: Plan, held: nat, more: nat, cap: int, fine: (nat, bool) -> bool,
                        slot: nat, p: Progress, q: Progress)
    requires Heavier(f, r, held, more, cap, fine) && slot < |f.decision.orders| && Behind(p, q, held, more, cap)
    ensures !r.refusesOrder(slot, q.inflight) ==> !f.refusesOrder(slot, p.inflight)
  {
    var o := f.decision.orders[slot];
    if !r.refusesOrder(slot, q.inflight) && !o.reduceOnly && cap > 0 {
      var k := Exclusion(o, q.inflight);
      NamedIsAll(p.inflight);
      NamedIsAll(q.inflight);
      if more + |q.inflight| >= cap {
        assert k in q.inflight && k in p.inflight;
        assert Exclusion(o, p.inflight) == k;
        assert p.inflight == (p.inflight - {k}) + {k};
      }
    }
  }

  /** An order only the first execution lets through finds the cap full the second time. */
  lemma RefusedMeansFull(f: Plan, r: Plan, held: nat, more: nat, cap: int, fine: (nat, bool) -> bool,
                         slot: nat, p: Progress, q: Progress)
    requires Heavier(f, r, held, more, cap, fine) && slot < |f.decision.orders| && Behind(p, q, held, more, cap)
    requires r.refusesOrder(slot, q.inflight) && !f.refusesOrder(slot, p.inflight)
    ensures cap > 0 && more + |q.inflight| >= cap
  {
    SubsetSize(q.inflight - {Exclusion(f.decision.orders[slot], q.inflight)}, q.inflight);
  }

  /** At a full cap a hedge let through has its key in flight already. */
  lemma FullAddsNothing(r: Plan, more: nat, cap: int, fine: (nat, bool) -> bool, slot: nat, q: Progress)
    requires CountsOnly(r, more, cap, fine) && slot < |r.decision.orders| && cap > 0
    requires "" !in q.inflight && more + |q.inflight| >= cap
    ensures OrderStep(r, slot, q).inflight == q.inflight
  {
    if !r.refusesOrder(slot, q.inflight) && r.decision.orders[slot].IsHedge() {
      NamedIsAll(q.inflight);
      assert OrderKey(r.decision.orders[slot]) in q.inflight;
      assert q.inflight + {OrderKey(r.decision.orders[slot])} == q.inflight;
    }
  }

  lemma OrderStepBehind(f: Plan, r: Plan, held: nat, more: nat, cap: int, fine: (nat, bool) -> bool,
                        slot: nat, p: Progress, q: Progress)
    requires Heavier(f, r, held, more, cap, fine) && slot < |f.decision.orders| && Behind(p, q, held, more, cap)
    ensures Behind(OrderStep(f, slot, p), OrderStep(r, slot, q), held, more, cap)
  {
    var o := f.decision.orders[slot];
    assert o in f.decision.orders;
    OrderWasAllowed(f, r, held, more, cap, fine, slot, p, q);
    if !f.refusesOrder(slot, p.inflight) && o.IsHedge() && cap > 0 {
      NamedIsAll(p.inflight);
      FitsOneMore(p.inflight, OrderKey(o), held, cap);
    }
    if cap > 0 && more + |q.inflight| >= cap {
      FullAddsNothing(r, more, cap, fine, slot, q);
    } else if r.refusesOrder(slot, q.inflight) && !f.refusesOrder(slot, p.inflight) {
      RefusedMeansFull(f, r, held, more, cap, fine, slot, p, q);
    }
  }

  lemma {:induction false} SwapsBehind(f: Plan, r: Plan, held: nat, more: nat, cap: int, fine: (nat, bool) -> bool,
                                       d: Desk, e: Desk, n: nat)
    requires Heavier(f, r, held, more, cap, fine) && n <= |f.decision.swaps|
    ensures Behind(AfterSwaps(f, Untouched(d), n), AfterSwaps(r, Untouched(e), n), held, more, cap)
  {
    if n > 0 {
      SwapsBehind(f, r, held, more, cap, fine, d, e, n - 1);
      SwapStepBehind(f, r, held, more, cap, fine, n - 1,
                     AfterSwaps(f, Untouched(d), n - 1), AfterSwaps(r, Untouched(e), n - 1));
    }
  }

  ghost predicate BehindAt(f: Plan, r: Plan, d: Desk, e: Desk, held: nat, more: nat, cap: int, n: nat)
    requires f.Valid() && r.Valid() && n <= |f.decision.orders| && n <= |r.decision.orders|
  {
    Behind(AfterOrders(f, Untouched(d), n), AfterOrders(r, Untouched(e), n), held, more, cap)
  }

  lemma NoOrderBehind(f: Plan, r: Plan, held: nat, more: nat, cap: int, fine: (nat, bool) -> bool, d: Desk, e: Desk)
    requires Heavier(f, r, held, more, cap, fine)
    ensures BehindAt(f, r, d, e, held, more, cap, 0)
  {
    SwapsBehind(f, r, held, more, cap, fine, d, e, |f.decision.swaps|);
  }

  lemma NextOrderBehind(f: Plan, r: Plan, held: nat, more: nat, cap: int, fine: (nat, bool) -> bool,
                        d: Desk, e: Desk, n: nat)
    requires Heavier(f, r, held, more, cap, fine) && n < |f.decision.orders| && BehindAt(f, r, d, e, held, more, cap, n)
    ensures BehindAt(f, r, d, e, held, more, cap, n + 1)
  {
    OrderStepBehind(f, r, held, more, cap, fine, n, AfterOrders(f, Untouched(d), n), AfterOrders(r, Untouched(e), n));
  }

  lemma {:induction false} OrdersBehind(f: Plan, r: Plan, held: nat, more: nat, cap: int, fine: (nat, bool) -> bool,
                                        d: Desk, e: Desk, n: nat)
    requires Heavier(f, r, held, more, cap, fine) && n <= |f.decision.orders|
    ensures BehindAt(f, r, d, e, held, more, cap, n)
  {
    if n == 0 {
      NoOrderBehind(f, r, held, more, cap, fine, d, e);
    } else {
      OrdersBehind(f, r, held, more, cap, fine, d, e, n - 1);
      NextOrderBehind(f, r, held, more, cap, fine, d, e, n - 1);
    }
  }

  /* ----- replays over a book that has not shrunk ----- */

  /** The same slots meet venues that accept them. */
  ghost predicate SameAnswers(cfg: Config, a: TickInput, b: TickInput) {
    && a.Valid() && b.Valid() && a.decision == b.decision
    && (forall i: nat | i < |a.decision.swaps| ::
          PlanOf(cfg, map[], a).swapEffects[i].accepted == PlanOf(cfg, map[], b).swapEffects[i].accepted)
    && (forall j: nat | j < |a.decision.orders| ::
          PlanOf(cfg, map[], a).orderEffects[j].accepted == PlanOf(cfg, map[], b).orderEffects[j].accepted)
  }

  lemma SameAnswersAnywhere(cfg: Config, a: TickInput, b: TickInput, x: OpenBasis, y: OpenBasis)
    requires SameAnswers(cfg, a, b)
    ensures var f, r := PlanOf(cfg, x, a), PlanOf(cfg, y, b);
            && (forall i: nat | i < |f.swapEffects| :: f.swapEffects[i].accepted == r.swapEffects[i].accepted)
            && (forall j: nat | j < |f.orderEffects| :: f.orderEffects[j].accepted == r.orderEffects[j].accepted)
  {
    var f, r := PlanOf(cfg, x, a), PlanOf(cfg, y, b);
    assert f.swapEffects == PlanOf(cfg, map[], a).swapEffects && f.orderEffects == PlanOf(cfg, map[], a).orderEffects;
    assert r.swapEffects == PlanOf(cfg, map[], b).swapEffects && r.orderEffects == PlanOf(cfg, map[], b).orderEffects;
  }

  /**
   Under a policy without an exposure limit, a replay that finds no fewer positions open and gets the
   same answers adds no row: no slot passes that did not pass the first time.
   */
  lemma ReplayOverMoreAddsNothing(cfg: Config, l: Limits, d: Desk, inp: TickInput, e: Desk, again: TickInput)
    requires Replayed(cfg, d, inp, e, again) && CapOnly(cfg, l) && NonEmptyKeys(inp.decision)
    requires SameAnswers(cfg, inp, again) && |d.open| <= |e.open|
    ensures Tick(cfg, e, again).swapLedger == e.swapLedger && Tick(cfg, e, again).orderLedger == e.orderLedger
  {
    var f, r, fine := PlanOf(cfg, d.open, inp), PlanOf(cfg, e.open, again), FineSlot(cfg, l, inp);
    PolicyCountsOnly(cfg, l, d.open, inp);
    PolicyCountsOnly(cfg, l, e.open, again);
    assert CountsOnly(r, |e.open|, l.maxConcurrentPositions, fine);
    SameAnswersAnywhere(cfg, inp, again, d.open, e.open);
    forall i: nat | i < |inp.decision.swaps| && SwapAllowed(r, Untouched(e), i)
      ensures SwapAllowed(f, Untouched(d), i)
    {
      SwapsBehind(f, r, |d.open|, |e.open|, l.maxConcurrentPositions, fine, d, e, i);
      SwapWasAllowed(f, r, |d.open|, |e.open|, l.maxConcurrentPositions, fine, i,
                     AfterSwaps(f, Untouched(d), i), AfterSwaps(r, Untouched(e), i));
    }
    forall j: nat | j < |inp.decision.orders| && OrderAllowed(r, Untouched(e), j)
      ensures OrderAllowed(f, Untouched(d), j)
    {
      OrdersBehind(f, r, |d.open|, |e.open|, l.maxConcurrentPositions, fine, d, e, j);
      OrderWasAllowed(f, r, |d.open|, |e.open|, l.maxConcurrentPositions, fine, j,
                      AfterOrders(f, Untouched(d), j), AfterOrders(r, Untouched(e), j));
    }
    ReplayAddsNothing(cfg, d, inp, e, again);
  }

  lemma NothingCloses(cfg: Config, d: Desk, inp: TickInput)
    requires inp.Valid() && forall o <- inp.decision.orders :: !o.reduceOnly
    ensures |d.open| <= |Tick(cfg, d, inp).open|
  {
    forall k | k in d.open ensures k in Tick(cfg, d, inp).open {
      OpenSetAfterTick(cfg, d, inp, k);
    }
    SubsetSize(d.open.Keys, Tick(cfg, d, inp).open.Keys);
  }

  /** On paper, a decision that closes nothing can be replayed from the desk its tick left. */
  lemma PaperReplayAddsNothing(cfg: Config, l: Limits, d: Desk, inp: TickInput, again: TickInput)
    requires inp.Valid() && Replayed(cfg, d, inp, Tick(cfg, d, inp), again) && cfg.paper && CapOnly(cfg, l)
    requires NonEmptyKeys(inp.decision) && forall o <- inp.decision.orders :: !o.reduceOnly
    ensures var e := Tick(cfg, d, inp);
            Tick(cfg, e, again).swapLedger == e.swapLedger && Tick(cfg, e, again).orderLedger == e.orderLedger
  {
    NothingCloses(cfg, d, inp);
    ReplayOverMoreAddsNothing(cfg, l, d, inp, Tick(cfg, d, inp), again);
  }

  /* ----- why closes matter ----- */

  /** Buy one token and close the position in another. */
  function Rotation(): TickInput {
    RecordedInput(Decision([SampleSwap("USDC", "BONK", "")], [SampleOrder("WIF", Side.Buy, true)], []))
  }

  lemma OneSwapLedger(plan: Plan, d: Desk)
    requires plan.Valid() && |plan.decision.swaps| == 1 && plan.swapEffects[0].recorded && d.swapLedger == []
    ensures |Executed(plan, Untouched(d)).swapLedger| == if plan.refusesSwap(0, {}) then 0 else 1
  {
    OrdersLeaveSwaps(plan, Untouched(d), |plan.decision.orders|);
    assert AfterSwaps(plan, Untouched(d), 0) == Untouched(d);
    assert AfterSwaps(plan, Untouched(d), 1) == SwapStep(plan, 0, Untouched(d));
  }

  lemma RotationSwap(open: OpenBasis)
    ensures SwapRefused(OneSlotConfig(), open, Rotation(), 0, {}) <==> open != map[]
  {
    SnapshotSize(open, {}, "");
    assert {} - {""} == {};
  }

  lemma RotationLedger(d: Desk)
    requires d.swapLedger == []
    ensures |Legs(OneSlotConfig(), d, Rotation()).swapLedger| == if d.open == map[] then 1 else 0
  {
    OneSwapLedger(PlanOf(OneSlotConfig(), d.open, Rotation()), d);
    RotationSwap(d.open);
  }

  lemma OneOrderSucceeds(plan: Plan, d: Desk)
    requires plan.Valid() && |plan.decision.orders| == 1 && plan.orderEffects[0].accepted
    requires forall inflight :: !plan.refusesOrder(0, inflight)
    ensures OrderKey(plan.decision.orders[0]) in Executed(plan, Untouched(d)).orderOk
  {
    assert AfterOrders(plan, Untouched(d), 1) == OrderStep(plan, 0, AfterOrders(plan, Untouched(d), 0));
  }

  lemma RotationOrderPasses(open: OpenBasis, inflight: set<string>)
    ensures !OrderRefused(OneSlotConfig(), open, Rotation(), 0, inflight)
  {
  }

  lemma RotationOrder(d: Desk)
    ensures ToUpper("WIF") in Legs(OneSlotConfig(), d, Rotation()).orderOk
  {
    var plan := PlanOf(OneSlotConfig(), d.open, Rotation());
    forall inflight ensures !plan.refusesOrder(0, inflight) {
      RotationOrderPasses(d.open, inflight);
    }
    OneOrderSucceeds(plan, d);
  }

  lemma RotationCloses(d: Desk)
    requires d.open.Keys == {ToUpper("WIF")}
    ensures Tick(OneSlotConfig(), d, Rotation()).open == map[]
  {
    RotationOrder(d);
    forall k ensures k !in Tick(OneSlotConfig(), d, Rotation()).open {
      OpenSetAfterTick(OneSlotConfig(), d, Rotation(), k);
      assert ReduceOnlyAt(Rotation().decision, 0, ToUpper("WIF"));
    }
  }

  /** The cap refuses the purchase, the close frees the slot, and the replay makes the purchase. */
  lemma ReplayAfterCloseAddsRow(d: Desk)
    requires d.open.Keys == {ToUpper("WIF")} && d.swapLedger == []
    ensures var e := Tick(OneSlotConfig(), d, Rotation());
            && Replayed(OneSlotConfig(), d, Rotation(), e, Rotation())
            && CapOnly(OneSlotConfig(), CapLimits(1)) && NonEmptyKeys(Rotation().decision)
            && |e.swapLedger| == 0 && |Tick(OneSlotConfig(), e, Rotation()).swapLedger| == 1
  {
    var e := Tick(OneSlotConfig(), d, Rotation());
    RotationLedger(d);
    RotationCloses(d);
    TickLedgers(OneSlotConfig(), d, Rotation());
    RotationLedger(e);
    TickLedgers(OneSlotConfig(), e, Rotation());
    RotationIsRecorded();
  }

  lemma TickLedgers(cfg: Config, d: Desk, inp: TickInput)
    requires inp.Valid()
    ensures Tick(cfg, d, inp).swapLedger == Legs(cfg, d, inp).swapLedger
  {
  }

  lemma RotationIsRecorded()
    ensures AllRecorded(Rotation()) && NonEmptyKeys(Rotation().decision) && CapOnly(OneSlotConfig(), CapLimits(1))
  {
    assert |ToUpper("WIF")| == 3 && |ToUpper("BONK")| == 4;
  }
}
