/** What one tick leaves behind, stated slot by slot instead of as a fold. */
module TickFacts {
  import opened Wrappers
  import opened Texts
  import opened Types
  import opened TickSpec

  /* ----- what a decision contains, per basis key ----- */

  ghost predicate OpeningAt(dec: Decision, i: nat, k: string) {
    i < |dec.swaps| && dec.swaps[i].IsOpening() && SwapKey(dec.swaps[i]) == k
  }

  ghost predicate OtherSwapAt(dec: Decision, i: nat, k: string) {
    i < |dec.swaps| && !dec.swaps[i].IsOpening() && SwapKey(dec.swaps[i]) == k
  }

  ghost predicate HedgeAt(dec: Decision, j: nat, k: string) {
    j < |dec.orders| && dec.orders[j].IsHedge() && OrderKey(dec.orders[j]) == k
  }

  ghost predicate ReduceOnlyAt(dec: Decision, j: nat, k: string) {
    j < |dec.orders| && dec.orders[j].reduceOnly && OrderKey(dec.orders[j]) == k
  }

  /** The swap and the order whose amounts an entry for key k records. */
  ghost predicate LastOpeningAt(dec: Decision, i: nat, k: string) {
    OpeningAt(dec, i, k) && forall h: nat | i < h :: !OpeningAt(dec, h, k)
  }

  ghost predicate FirstHedgeAt(dec: Decision, j: nat, k: string) {
    HedgeAt(dec, j, k) && forall h: nat | h < j :: !HedgeAt(dec, h, k)
  }

  ghost predicate HasOpening(dec: Decision, k: string) { exists i: nat :: OpeningAt(dec, i, k) }
  ghost predicate HasOtherSwap(dec: Decision, k: string) { exists i: nat :: OtherSwapAt(dec, i, k) }
  ghost predicate HasHedge(dec: Decision, k: string) { exists j: nat :: HedgeAt(dec, j, k) }
  ghost predicate HasReduceOnly(dec: Decision, k: string) { exists j: nat :: ReduceOnlyAt(dec, j, k) }

  /** The decision holds both legs of an open for this key. */
  ghost predicate Pairable(dec: Decision, k: string) {
    HasOpening(dec, k) && HasHedge(dec, k)
  }

  ghost predicate DistinctSwapKeys(dec: Decision) {
    forall i, j | 0 <= i < j < |dec.swaps| :: SwapKey(dec.swaps[i]) != SwapKey(dec.swaps[j])
  }

  ghost predicate DistinctOrderKeys(dec: Decision) {
    forall i, j | 0 <= i < j < |dec.orders| :: OrderKey(dec.orders[i]) != OrderKey(dec.orders[j])
  }

  /** The empty key is the runtime's mark for "exclude nothing". */
  ghost predicate NonEmptyKeys(dec: Decision) {
    && (forall s <- dec.swaps :: SwapKey(s) != "")
    && (forall o <- dec.orders :: OrderKey(o) != "")
  }

  /* ----- what became of each slot ----- */

  /** What every step keeps, knowing its place, holds when a later one runs. */
  lemma {:induction false} KeptBySwapsInTurn(plan: Plan, start: Progress, n: nat, keeps: (nat, Progress) -> bool)
    requires plan.Valid() && n <= |plan.decision.swaps| && keeps(0, start)
    requires forall m: nat, p: Progress | m < |plan.decision.swaps| && keeps(m, p) :: keeps(m + 1, SwapStep(plan, m, p))
    ensures keeps(n, AfterSwaps(plan, start, n))
  {
    if n > 0 {
      KeptBySwapsInTurn(plan, start, n - 1, keeps);
    }
  }

  lemma {:induction false} KeptByOrdersInTurn(plan: Plan, start: Progress, n: nat, j: nat,
                                              keeps: (nat, Progress) -> bool)
    requires plan.Valid() && n <= |plan.decision.orders| && n <= j && keeps(0, AfterOrders(plan, start, 0))
    requires forall m: nat, p: Progress | m < |plan.decision.orders| && m < j && keeps(m, p) ::
               keeps(m + 1, OrderStep(plan, m, p))
    ensures keeps(n, AfterOrders(plan, start, n))
  {
    if n > 0 {
      KeptByOrdersInTurn(plan, start, n - 1, j, keeps);
    }
  }

  /** What every step keeps holds after any number of them. */
  lemma {:induction false} KeptBySwaps(plan: Plan, start: Progress, n: nat, keeps: Progress -> bool)
    requires plan.Valid() && n <= |plan.decision.swaps| && keeps(start)
    requires forall i: nat, p: Progress | i < |plan.decision.swaps| && keeps(p) :: keeps(SwapStep(plan, i, p))
    ensures keeps(AfterSwaps(plan, start, n))
  {
    if n > 0 { KeptBySwaps(plan, start, n - 1, keeps); }
  }

  lemma {:induction false} KeptByOrders(plan: Plan, start: Progress, n: nat, keeps: Progress -> bool)
    requires plan.Valid() && n <= |plan.decision.orders|
    requires keeps(AfterSwaps(plan, start, |plan.decision.swaps|))
    requires forall j: nat, p: Progress | j < |plan.decision.orders| && keeps(p) :: keeps(OrderStep(plan, j, p))
    ensures keeps(AfterOrders(plan, start, n))
  {
    if n > 0 { KeptByOrders(plan, start, n - 1, keeps); }
  }

  /** The keys of the slots that succeeded are exactly the keys the success maps hold. */
  ghost predicate SetsMatchSlots(dec: Decision, p: Progress) {
    && (forall i <- p.swapsDone :: i < |dec.swaps| && SwapKey(dec.swaps[i]) in p.swapOk)
    && (forall k <- p.swapOk :: exists i :: i in p.swapsDone && SwapKey(dec.swaps[i]) == k)
    && (forall j <- p.ordersDone :: j < |dec.orders| && OrderKey(dec.orders[j]) in p.orderOk)
    && (forall k <- p.orderOk :: exists j :: j in p.ordersDone && OrderKey(dec.orders[j]) == k)
  }

  lemma SwapStepMatches(plan: Plan, slot: nat, p: Progress)
    requires plan.Valid() && slot < |plan.decision.swaps| && SetsMatchSlots(plan.decision, p)
    ensures SetsMatchSlots(plan.decision, SwapStep(plan, slot, p))
  {
    var q := SwapStep(plan, slot, p);
    if q.swapOk != p.swapOk { assert slot in q.swapsDone; }
  }

  lemma OrderStepMatches(plan: Plan, slot: nat, p: Progress)
    requires plan.Valid() && slot < |plan.decision.orders| && SetsMatchSlots(plan.decision, p)
    ensures SetsMatchSlots(plan.decision, OrderStep(plan, slot, p))
  {
    var q := OrderStep(plan, slot, p);
    if q.orderOk != p.orderOk { assert slot in q.ordersDone; }
  }

  lemma {:induction false} SwapsMatch(plan: Plan, d: Desk, n: nat)
    requires plan.Valid() && n <= |plan.decision.swaps|
    ensures SetsMatchSlots(plan.decision, AfterSwaps(plan, Untouched(d), n))
    ensures AfterSwaps(plan, Untouched(d), n).ordersDone == {}
  {
    if n > 0 {
      SwapsMatch(plan, d, n - 1);
      SwapStepMatches(plan, n - 1, AfterSwaps(plan, Untouched(d), n - 1));
    }
  }

  lemma {:induction false} OrdersMatch(plan: Plan, d: Desk, n: nat)
    requires plan.Valid() && n <= |plan.decision.orders|
    ensures SetsMatchSlots(plan.decision, AfterOrders(plan, Untouched(d), n))
  {
    if n == 0 {
      SwapsMatch(plan, d, |plan.decision.swaps|);
    } else {
      OrdersMatch(plan, d, n - 1);
      OrderStepMatches(plan, n - 1, AfterOrders(plan, Untouched(d), n - 1));
    }
  }

  /** A succeeded swap had passed the gate at its turn, and an opening one is in flight from then on. */
  lemma {:induction false} SwapsShow(plan: Plan, d: Desk, n: nat, i: nat)
    requires plan.Valid() && n <= |plan.decision.swaps|
    requires i in AfterSwaps(plan, Untouched(d), n).swapsDone
    ensures i < n && plan.swapEffects[i].accepted
    ensures !plan.refusesSwap(i, AfterSwaps(plan, Untouched(d), i).inflight)
    ensures plan.decision.swaps[i].IsOpening() ==>
              SwapKey(plan.decision.swaps[i]) in AfterSwaps(plan, Untouched(d), n).inflight
  {
    if i in AfterSwaps(plan, Untouched(d), n - 1).swapsDone {
      SwapsShow(plan, d, n - 1, i);
    }
  }

  /** Every phantom of the swap phase comes from an opening swap that succeeded. */
  lemma {:induction false} InflightIsOpened(plan: Plan, d: Desk, n: nat, k: string)
    requires plan.Valid() && n <= |plan.decision.swaps|
    requires k in AfterSwaps(plan, Untouched(d), n).inflight
    ensures exists i: nat :: OpeningAt(plan.decision, i, k) && i in AfterSwaps(plan, Untouched(d), n).swapsDone
  {
    if k in AfterSwaps(plan, Untouched(d), n - 1).inflight {
      InflightIsOpened(plan, d, n - 1, k);
    } else {
      assert OpeningAt(plan.decision, n - 1, k);
    }
  }

  lemma {:induction false} SwapsLeaveOrders(plan: Plan, start: Progress, n: nat)
    requires plan.Valid() && n <= |plan.decision.swaps|
    ensures var p := AfterSwaps(plan, start, n); p.orderOk == start.orderOk && p.orderLedger == start.orderLedger
  {
    if n > 0 { SwapsLeaveOrders(plan, start, n - 1); }
  }

  lemma {:induction false} OrdersLeaveSwaps(plan: Plan, start: Progress, n: nat)
    requires plan.Valid() && n <= |plan.decision.orders|
    ensures var s, p := AfterSwaps(plan, start, |plan.decision.swaps|), AfterOrders(plan, start, n);
            p.swapOk == s.swapOk && p.swapLedger == s.swapLedger
  {
    if n > 0 { OrdersLeaveSwaps(plan, start, n - 1); }
  }

  /** Orders leave the swap results alone and add phantoms only for keys without a succeeded swap. */
  lemma {:induction false} OrdersKeepSwaps(plan: Plan, d: Desk, n: nat)
    requires plan.Valid() && n <= |plan.decision.orders|
    ensures var s, p := AfterSwaps(plan, Untouched(d), |plan.decision.swaps|), AfterOrders(plan, Untouched(d), n);
            && p.swapOk == s.swapOk && p.swapsDone == s.swapsDone
            && s.inflight <= p.inflight && p.inflight * s.swapOk <= s.inflight
  {
    if n > 0 { OrdersKeepSwaps(plan, d, n - 1); }
  }

  /** A succeeded order had passed the gate at its turn. */
  lemma {:induction false} OrdersShow(plan: Plan, d: Desk, n: nat, j: nat)
    requires plan.Valid() && n <= |plan.decision.orders|
    requires j in AfterOrders(plan, Untouched(d), n).ordersDone
    ensures j < n && plan.orderEffects[j].accepted
    ensures !plan.refusesOrder(j, AfterOrders(plan, Untouched(d), j).inflight)
  {
    if n == 0 {
      SwapsMatch(plan, d, |plan.decision.swaps|);
    } else if j in AfterOrders(plan, Untouched(d), n - 1).ordersDone {
      OrdersShow(plan, d, n - 1, j);
    }
  }

  /* ----- reconciliation, without the folds ----- */

  lemma {:induction false} OpeningSwapsHoldLast(swaps: seq<SwapIntent>, k: string)
    ensures k in OpeningSwaps(swaps) <==> exists i | 0 <= i < |swaps| :: swaps[i].IsOpening() && SwapKey(swaps[i]) == k
    ensures k in OpeningSwaps(swaps) ==>
              exists i | 0 <= i < |swaps| :: swaps[i] == OpeningSwaps(swaps)[k] && swaps[i].IsOpening()
                  && SwapKey(swaps[i]) == k
                && forall j | i < j < |swaps| :: !(swaps[j].IsOpening() && SwapKey(swaps[j]) == k)
  {
    if swaps != [] {
      var init, last := swaps[..|swaps| - 1], swaps[|swaps| - 1];
      OpeningSwapsHoldLast(init, k);
      if last.IsOpening() && SwapKey(last) == k {
        assert swaps[|swaps| - 1] == OpeningSwaps(swaps)[k];
      } else if k in OpeningSwaps(init) {
        var i :| 0 <= i < |init| && init[i] == OpeningSwaps(init)[k] && init[i].IsOpening() && SwapKey(init[i]) == k
                 && forall j | i < j < |init| :: !(init[j].IsOpening() && SwapKey(init[j]) == k);
        assert swaps[i] == init[i];
        forall j | i < j < |swaps| ensures !(swaps[j].IsOpening() && SwapKey(swaps[j]) == k) {
          if j < |init| { assert swaps[j] == init[j]; }
        }
      }
    }
  }

  lemma PairedSwap(dec: Decision, k: string)
    ensures k in OpeningSwaps(dec.swaps) <==> HasOpening(dec, k)
    ensures HasOpening(dec, k) ==>
              exists i: nat :: LastOpeningAt(dec, i, k) && dec.swaps[i] == OpeningSwaps(dec.swaps)[k]
  {
    OpeningSwapsHoldLast(dec.swaps, k);
    if k in OpeningSwaps(dec.swaps) {
      var i :| 0 <= i < |dec.swaps| && dec.swaps[i] == OpeningSwaps(dec.swaps)[k] && dec.swaps[i].IsOpening()
               && SwapKey(dec.swaps[i]) == k
               && forall j | i < j < |dec.swaps| :: !(dec.swaps[j].IsOpening() && SwapKey(dec.swaps[j]) == k);
      assert OpeningAt(dec, i, k);
      assert LastOpeningAt(dec, i, k);
    }
  }

  lemma {:induction false} ClosesDropKeys(cfg: Config, inp: TickInput, orderOk: set<string>, b: Book, n: nat, k: string)
    requires inp.Valid() && n <= |inp.decision.orders|
    ensures var c := AfterCloses(cfg, inp, orderOk, b, n);
            && (k in c.open <==>
                k in b.open && !(k in orderOk && exists j: nat :: j < n && ReduceOnlyAt(inp.decision, j, k)))
            && (k in c.open ==> c.open[k] == b.open[k])
  {
    if n > 0 {
      ClosesDropKeys(cfg, inp, orderOk, b, n - 1, k);
      var o := inp.decision.orders[n - 1];
      assert ReduceOnlyAt(inp.decision, n - 1, k) <==> o.reduceOnly && OrderKey(o) == k;
    }
  }

  /** A step that adds key k does so for the first hedge under k. */
  lemma OpenStepPairs(cfg: Config, inp: TickInput, written: bool, swapOk: set<string>, orderOk: set<string>, b: Book,
                      j: nat, k: string)
    requires j < |inp.decision.orders| && (forall h: nat | h < j :: !HedgeAt(inp.decision, h, k))
    requires k !in b.open && k in OpenStep(cfg, inp, inp.decision.orders[j], written, swapOk, orderOk, b).open
    ensures PairedEntry(cfg, inp, j, k, OpenStep(cfg, inp, inp.decision.orders[j], written, swapOk, orderOk, b).open[k])
  {
    assert HedgeAt(inp.decision, j, k);
  }

  /** Which keys the first n orders have added to the book, and what their entries record. */
  ghost predicate AddedSoFar(cfg: Config, inp: TickInput, swapOk: set<string>, orderOk: set<string>, b: Book, c: Book,
                             n: nat, k: string) {
    var gained := HasOpening(inp.decision, k) && k in swapOk && k in orderOk
                  && exists j: nat :: j < n && HedgeAt(inp.decision, j, k);
    && (k in c.open <==> k in b.open || gained)
    && (k in b.open ==> c.open[k] == b.open[k])
    && (k in c.open && k !in b.open ==> exists j: nat :: j < n && PairedEntry(cfg, inp, j, k, c.open[k]))
  }

  lemma OpenStepAdds(cfg: Config, inp: TickInput, written: bool, swapOk: set<string>, orderOk: set<string>, b: Book,
                     c: Book, j: nat, k: string)
    requires j < |inp.decision.orders| && AddedSoFar(cfg, inp, swapOk, orderOk, b, c, j, k)
    ensures AddedSoFar(cfg, inp, swapOk, orderOk, b,
                       OpenStep(cfg, inp, inp.decision.orders[j], written, swapOk, orderOk, c), j + 1, k)
  {
    var o := inp.decision.orders[j];
    PairedSwap(inp.decision, k);
    assert HedgeAt(inp.decision, j, k) <==> o.IsHedge() && OrderKey(o) == k;
    if k !in c.open && k in OpenStep(cfg, inp, o, written, swapOk, orderOk, c).open {
      OpenStepPairs(cfg, inp, written, swapOk, orderOk, c, j, k);
    }
  }

  lemma {:induction false} OpensAddKeys(cfg: Config, inp: TickInput, swapOk: set<string>, orderOk: set<string>, b: Book,
                                        n: nat, k: string)
    requires inp.Valid() && n <= |inp.decision.orders|
    ensures AddedSoFar(cfg, inp, swapOk, orderOk, b, AfterOpens(cfg, inp, swapOk, orderOk, b, n), n, k)
  {
    if n > 0 {
      OpensAddKeys(cfg, inp, swapOk, orderOk, b, n - 1, k);
      OpenStepAdds(cfg, inp, inp.orderAnswers[n - 1].openWritten, swapOk, orderOk, b,
                   AfterOpens(cfg, inp, swapOk, orderOk, b, n - 1), n - 1, k);
    }
  }

  /** The entry pairs hedge order j, the first under key k, with the last opening swap of the decision under k. */
  ghost predicate PairedEntry(cfg: Config, inp: TickInput, j: nat, k: string, bp: BasisPosition) {
    && FirstHedgeAt(inp.decision, j, k) && k in OpeningSwaps(inp.decision.swaps)
    && bp == NewBasis(cfg, inp, OpeningSwaps(inp.decision.swaps)[k], inp.decision.orders[j])
  }

  /**
   The entry says what this swap bought and what this order shorted: tokens for the amount paid, and
   the short at the size and price of the order.
   */
  ghost predicate RecordsLegs(s: SwapIntent, o: OrderIntent, bp: BasisPosition) {
    && |bp.legs| == 2
    && bp.legs[0].kind == Spot && bp.legs[0].asset == s.outToken && bp.legs[0].qty == s.inAmount
    && bp.legs[0].avgPrice == 0.0
    && bp.legs[1].kind == Perp && bp.legs[1].symbol == o.symbol
    && bp.legs[1].qty == o.size && bp.legs[1].avgPrice == o.price
    && bp.underlying == (if o.basisKey != "" then o.basisKey else o.symbol)
  }

  /** Whose entry it is, and since when it is open. */
  ghost predicate OpenedAt(agent: string, now: Time, k: string, decisionId: string, bp: BasisPosition) {
    && bp.agentId == agent && bp.openedAt == now && bp.state == Open && bp.closedAt == None
    && bp.id == "bp:" + agent + ":" + k + ":" + ShortId(decisionId)
  }

  /** The entry records swap i and order j: the last opening and the first hedge of its key. */
  ghost predicate BooksLegs(cfg: Config, inp: TickInput, i: nat, j: nat, k: string, bp: BasisPosition) {
    && LastOpeningAt(inp.decision, i, k) && FirstHedgeAt(inp.decision, j, k)
    && RecordsLegs(inp.decision.swaps[i], inp.decision.orders[j], bp)
    && OpenedAt(cfg.agentId, inp.now, k, inp.decisionId, bp)
  }

  lemma EntryBooksLegs(cfg: Config, inp: TickInput, j: nat, k: string, bp: BasisPosition)
    requires PairedEntry(cfg, inp, j, k, bp)
    ensures exists i: nat :: BooksLegs(cfg, inp, i, j, k, bp)
  {
    PairedSwap(inp.decision, k);
    var i: nat :| LastOpeningAt(inp.decision, i, k) && inp.decision.swaps[i] == OpeningSwaps(inp.decision.swaps)[k];
    assert BooksLegs(cfg, inp, i, j, k, bp);
  }

  /** How the legs of a tick went. */
  ghost function Legs(cfg: Config, d: Desk, inp: TickInput): Progress
    requires inp.Valid()
  {
    Executed(PlanOf(cfg, d.open, inp), Untouched(d))
  }

  lemma TickBook(cfg: Config, d: Desk, inp: TickInput)
    requires inp.Valid()
    ensures var after, p := Tick(cfg, d, inp), Legs(cfg, d, inp);
            Book(after.open, after.positions) == Reconciled(cfg, inp, p.swapOk, p.orderOk, Book(d.open, d.positions))
  {
  }

  lemma RunOneMore(cfg: Config, d: Desk, inputs: seq<TickInput>, inp: TickInput)
    requires ValidRun(inputs) && inp.Valid()
    ensures ValidRun(inputs + [inp]) && Run(cfg, d, inputs + [inp]) == Tick(cfg, Run(cfg, d, inputs), inp)
  {
    assert (inputs + [inp])[..|inputs|] == inputs;
  }

  ghost predicate ClosedInTick(inp: TickInput, p: Progress, k: string) {
    k in p.orderOk && HasReduceOnly(inp.decision, k)
  }

  ghost predicate OpenedInTick(inp: TickInput, p: Progress, k: string) {
    Pairable(inp.decision, k) && k in p.swapOk && k in p.orderOk
  }

  /** Which keys are open after a tick, for every decision, and what their entries are. */
  lemma OpenSetAfterTick(cfg: Config, d: Desk, inp: TickInput, k: string)
    requires inp.Valid()
    ensures var p, after := Legs(cfg, d, inp), Tick(cfg, d, inp).open;
            var kept := k in d.open && !ClosedInTick(inp, p, k);
            && (k in after <==> kept || OpenedInTick(inp, p, k))
            && (kept ==> after[k] == d.open[k])
            && (k in after && !kept ==> exists i: nat, j: nat :: BooksLegs(cfg, inp, i, j, k, after[k]))
  {
    var p := Legs(cfg, d, inp);
    var b := Book(d.open, d.positions);
    var n := |inp.decision.orders|;
    ClosesDropKeys(cfg, inp, p.orderOk, b, n, k);
    OpensAddKeys(cfg, inp, p.swapOk, p.orderOk, AfterCloses(cfg, inp, p.orderOk, b, n), n, k);
    assert HasReduceOnly(inp.decision, k) <==> exists j: nat :: j < n && ReduceOnlyAt(inp.decision, j, k);
    assert HasHedge(inp.decision, k) <==> exists j: nat :: j < n && HedgeAt(inp.decision, j, k);
    var after := Tick(cfg, d, inp).open;
    if k in after && !(k in d.open && !ClosedInTick(inp, p, k)) {
      var j: nat :| PairedEntry(cfg, inp, j, k, after[k]);
      EntryBooksLegs(cfg, inp, j, k, after[k]);
    }
  }
}
