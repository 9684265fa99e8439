/** The swap and order ledgers: which intents of a tick get a row, and what a replay adds. */
module Ledgers {
  import opened Wrappers
  import opened Texts
  import opened Types
  import opened Tables
  import opened TickSpec
  import opened TickFacts
  import opened Staging
  import opened PaperMode

  /* ----- identifiers of one decision never coincide ----- */

  lemma SwapPreimagesDiffer(agent: string, decisionId: string, i: nat, j: nat, s: SwapIntent, t: SwapIntent)
    requires i != j
    ensures SwapPreimage(agent, decisionId, i, s) != SwapPreimage(agent, decisionId, j, t)
  {
    var head := agent + "|" + decisionId + "|";
    var a := s.chain + "|" + s.inToken.mint + "|" + s.outToken.mint;
    var b := t.chain + "|" + t.inToken.mint + "|" + t.outToken.mint;
    SlotsDiffer(head, i, j, a, b);
  }

  lemma OrderPreimagesDiffer(cfg: Config, decisionId: string, i: nat, j: nat, o: OrderIntent, p: OrderIntent)
    requires i != j
    ensures OrderPreimage(cfg, decisionId, i, o) != OrderPreimage(cfg, decisionId, j, p)
  {
    var head := cfg.agentId + "|" + decisionId + "|";
    var a := o.venue + "|" + o.symbol + "|" + o.side.Text() + "|" + cfg.sizeText(o.size);
    var b := p.venue + "|" + p.symbol + "|" + p.side.Text() + "|" + cfg.sizeText(p.size);
    SlotsDiffer(head, i, j, a, b);
  }

  lemma SlotsDiffer(head: string, i: nat, j: nat, a: string, b: string)
    requires i != j
    ensures head + (Numeral(i) + "|" + a) != head + (Numeral(j) + "|" + b)
  {
    var x, y := Numeral(i) + "|" + a, Numeral(j) + "|" + b;
    if x == y {
      BarTerminatesNumeral(i, j, a, b);
    } else {
      SamePrefixDiffers(head, x, y);
    }
  }

  /** Strategies leave the client ids to the runtime. */
  ghost predicate UnstampedIntents(dec: Decision) {
    (forall s <- dec.swaps :: s.clientId == "") && (forall o <- dec.orders :: o.clientId == "")
  }

  /** The digest separates the preimages of this decision. */
  ghost predicate CollisionFree(cfg: Config, inp: TickInput) {
    && (forall i: nat, j: nat | i < j < |inp.decision.swaps| ::
          var a := SwapPreimage(cfg.agentId, inp.decisionId, i, inp.decision.swaps[i]);
          var b := SwapPreimage(cfg.agentId, inp.decisionId, j, inp.decision.swaps[j]);
          a != b ==> cfg.digest(a) != cfg.digest(b))
    && (forall i: nat, j: nat | i < j < |inp.decision.orders| ::
          var a := OrderPreimage(cfg, inp.decisionId, i, inp.decision.orders[i]);
          var b := OrderPreimage(cfg, inp.decisionId, j, inp.decision.orders[j]);
          a != b ==> cfg.digest(a) != cfg.digest(b))
  }

  /* ----- plans whose rows can be told apart ----- */

  /** All ledger writes land, and the rows carry one agent, one time and pairwise different client ids. */
  ghost predicate Distinguishable(plan: Plan, agent: string, time: Time) {
    && plan.Valid()
    && (forall i: nat | i < |plan.swapEffects| ::
          var e := plan.swapEffects[i];
          e.recorded && e.row.agentId == agent && e.row.time == time && e.row.clientId.Some?)
    && (forall i: nat, j: nat | i < j < |plan.swapEffects| ::
        plan.swapEffects[i].row.clientId != plan.swapEffects[j].row.clientId)
    && (forall i: nat | i < |plan.orderEffects| ::
          var e := plan.orderEffects[i]; e.recorded && e.row.agentId == agent && e.row.time == time)
    && (forall i: nat, j: nat | i < j < |plan.orderEffects| ::
        plan.orderEffects[i].row.clientId != plan.orderEffects[j].row.clientId)
  }

  ghost predicate AllRecorded(inp: TickInput) {
    (forall a <- inp.swapAnswers :: a.recorded) && (forall a <- inp.orderAnswers :: a.recorded)
  }

  /** Turning an order round changes its hash input. */
  lemma SideChangesPreimage(cfg: Config, decisionId: string, slot: nat, o: OrderIntent)
    ensures OrderPreimage(cfg, decisionId, slot, o.(side := Buy))
              != OrderPreimage(cfg, decisionId, slot, o.(side := Sell))
  {
    var buy := OrderPreimage(cfg, decisionId, slot, o.(side := Buy));
    var sell := OrderPreimage(cfg, decisionId, slot, o.(side := Sell));
    assert |sell| == |buy| + 1;
  }

  lemma StampedIdsDiffer(cfg: Config, inp: TickInput)
    requires inp.Valid() && UnstampedIntents(inp.decision) && CollisionFree(cfg, inp)
    ensures forall i: nat, j: nat | i < j < |inp.decision.swaps| ::
              StampedSwap(cfg, inp, i).clientId != StampedSwap(cfg, inp, j).clientId
    ensures forall i: nat, j: nat | i < j < |inp.decision.orders| ::
              StampedOrder(cfg, inp, i).clientId != StampedOrder(cfg, inp, j).clientId
  {
    forall i: nat, j: nat | i < j < |inp.decision.swaps|
      ensures StampedSwap(cfg, inp, i).clientId != StampedSwap(cfg, inp, j).clientId
    {
      assert inp.decision.swaps[i] in inp.decision.swaps && inp.decision.swaps[j] in inp.decision.swaps;
      SwapPreimagesDiffer(cfg.agentId, inp.decisionId, i, j, inp.decision.swaps[i], inp.decision.swaps[j]);
      SamePrefixDiffers("sw_", cfg.digest(SwapPreimage(cfg.agentId, inp.decisionId, i, inp.decision.swaps[i])),
                        cfg.digest(SwapPreimage(cfg.agentId, inp.decisionId, j, inp.decision.swaps[j])));
    }
    forall i: nat, j: nat | i < j < |inp.decision.orders|
      ensures StampedOrder(cfg, inp, i).clientId != StampedOrder(cfg, inp, j).clientId
    {
      assert inp.decision.orders[i] in inp.decision.orders && inp.decision.orders[j] in inp.decision.orders;
      OrderPreimagesDiffer(cfg, inp.decisionId, i, j, inp.decision.orders[i], inp.decision.orders[j]);
      SamePrefixDiffers("pf_", cfg.digest(OrderPreimage(cfg, inp.decisionId, i, inp.decision.orders[i])),
                        cfg.digest(OrderPreimage(cfg, inp.decisionId, j, inp.decision.orders[j])));
    }
  }

  lemma SamePrefixDiffers(head: string, a: string, b: string)
    requires a != b
    ensures head + a != head + b
  {
    assert (head + a)[|head|..] == a;
    assert (head + b)[|head|..] == b;
  }

  lemma StampedIsNotBlank(cfg: Config, inp: TickInput, i: nat)
    requires i < |inp.decision.swaps| && inp.decision.swaps[i].clientId == ""
    ensures NullIfBlank(StampedSwap(cfg, inp, i).clientId) == Some(StampedSwap(cfg, inp, i).clientId)
  {
    var id := StampedSwap(cfg, inp, i).clientId;
    assert id[0] == 's' && id[0] in id;
  }

  lemma SwapRowFields(cfg: Config, open: OpenBasis, inp: TickInput, i: nat)
    requires inp.Valid() && i < |inp.decision.swaps|
    ensures var e, s := PlanOf(cfg, open, inp).swapEffects[i], inp.decision.swaps[i];
            && e.recorded == inp.swapAnswers[i].recorded
            && e.row.agentId == cfg.agentId && e.row.time == Stamp(inp.now)
            && e.row.inToken == s.inToken.symbol && e.row.outToken == s.outToken.symbol
            && e.row.clientId == NullIfBlank(StampedSwap(cfg, inp, i).clientId)
  {
  }

  lemma OrderRowFields(cfg: Config, open: OpenBasis, inp: TickInput, j: nat)
    requires inp.Valid() && j < |inp.decision.orders|
    ensures var e := PlanOf(cfg, open, inp).orderEffects[j];
            && e.recorded == inp.orderAnswers[j].recorded
            && e.row.agentId == cfg.agentId && e.row.time == Stamp(inp.now)
            && e.row.clientId == StampedOrder(cfg, inp, j).clientId
  {
  }

  lemma PlanIsDistinguishable(cfg: Config, open: OpenBasis, inp: TickInput)
    requires inp.Valid() && AllRecorded(inp) && UnstampedIntents(inp.decision) && CollisionFree(cfg, inp)
    ensures Distinguishable(PlanOf(cfg, open, inp), cfg.agentId, Stamp(inp.now))
  {
    var plan := PlanOf(cfg, open, inp);
    StampedIdsDiffer(cfg, inp);
    forall i: nat | i < |plan.swapEffects|
      ensures var e := plan.swapEffects[i];
              && e.recorded && e.row.agentId == cfg.agentId && e.row.time == Stamp(inp.now)
              && e.row.clientId == Some(StampedSwap(cfg, inp, i).clientId)
    {
      assert inp.swapAnswers[i] in inp.swapAnswers && inp.decision.swaps[i] in inp.decision.swaps;
      SwapRowFields(cfg, open, inp, i);
      StampedIsNotBlank(cfg, inp, i);
    }
    forall j: nat | j < |plan.orderEffects|
      ensures var e := plan.orderEffects[j];
              && e.recorded && e.row.agentId == cfg.agentId && e.row.time == Stamp(inp.now)
              && e.row.clientId == StampedOrder(cfg, inp, j).clientId
    {
      assert inp.orderAnswers[j] in inp.orderAnswers;
      OrderRowFields(cfg, open, inp, j);
    }
  }

  /* ----- which slots get a row ----- */

  /** The gate lets swap i through at its turn. */
  ghost predicate SwapAllowed(plan: Plan, start: Progress, i: nat)
    requires plan.Valid() && i < |plan.decision.swaps|
  {
    !plan.refusesSwap(i, AfterSwaps(plan, start, i).inflight)
  }

  ghost predicate OrderAllowed(plan: Plan, start: Progress, j: nat)
    requires plan.Valid() && j < |plan.decision.orders|
  {
    !plan.refusesOrder(j, AfterOrders(plan, start, j).inflight)
  }

  ghost predicate SamePair(a: SwapRow, b: SwapRow) {
    a.inToken == b.inToken && a.outToken == b.outToken
  }

  /** An earlier allowed swap of the tick trades the same pair of token symbols. */
  ghost predicate Shadowed(plan: Plan, start: Progress, i: nat)
    requires plan.Valid() && i < |plan.decision.swaps|
  {
    exists h: nat :: h < i && SwapAllowed(plan, start, h) && SamePair(plan.swapEffects[h].row, plan.swapEffects[i].row)
  }

  /** The rows of the given slots, in order. */
  ghost function RowsAt<Row>(effects: seq<Effect<Row>>, slots: seq<nat>): seq<Row>
    requires forall i <- slots :: i < |effects|
  {
    seq(|slots|, r requires 0 <= r < |slots| => assert slots[r] in slots; effects[slots[r]].row)
  }

  ghost predicate Increasing(slots: seq<nat>) {
    forall r, s | 0 <= r < s < |slots| :: slots[r] < slots[s]
  }

  /** The first allowed swap of a pair is not shadowed. */
  lemma {:induction false} SomeUnshadowed(plan: Plan, start: Progress, h: nat)
    requires plan.Valid() && h < |plan.decision.swaps| && SwapAllowed(plan, start, h)
    ensures exists f: nat :: f <= h && SwapAllowed(plan, start, f) && !Shadowed(plan, start, f)
              && SamePair(plan.swapEffects[f].row, plan.swapEffects[h].row)
  {
    if Shadowed(plan, start, h) {
      var g: nat :| g < h && SwapAllowed(plan, start, g) && SamePair(plan.swapEffects[g].row, plan.swapEffects[h].row);
      SomeUnshadowed(plan, start, g);
    }
  }

  ghost predicate NoSwapRowsAt(rows: seq<SwapRow>, agent: string, time: Time) {
    forall r | 0 <= r < |rows| :: rows[r].agentId != agent || rows[r].time != time
  }

  ghost predicate NoOrderRowsAt(rows: seq<OrderRow>, agent: string, time: Time) {
    forall r | 0 <= r < |rows| :: rows[r].agentId != agent || rows[r].time != time
  }

  /** Inserting one more distinguishable row: kept unless an earlier row of the tick has its pair. */
  lemma PersistAmongSlots(plan: Plan, agent: string, time: Time, was: seq<SwapRow>, slots: seq<nat>, i: nat)
    requires Distinguishable(plan, agent, time) && i < |plan.swapEffects| && NoSwapRowsAt(was, agent, time)
    requires forall h <- slots :: h < i
    ensures var r := plan.swapEffects[i].row;
            var rows := was + RowsAt(plan.swapEffects, slots);
            PersistSwap(rows, r) ==
              if exists h :: h in slots && SamePair(plan.swapEffects[h].row, r)
                then Err(UniqueViolation) else Ok(rows + [r])
  {
    var r := plan.swapEffects[i].row;
    var rows := was + RowsAt(plan.swapEffects, slots);
    forall x | 0 <= x < |rows| ensures !SameSwapClient(rows[x], r) {
      if x >= |was| {
        assert slots[x - |was|] in slots && rows[x] == plan.swapEffects[slots[x - |was|]].row;
      }
    }
    if h :| h in slots && SamePair(plan.swapEffects[h].row, r) {
      var y :| 0 <= y < |slots| && slots[y] == h;
      assert SameSwapPrimaryKey(rows[|was| + y], r);
    } else {
      forall x | 0 <= x < |rows| ensures !SameSwapPrimaryKey(rows[x], r) {
        if x >= |was| {
          assert slots[x - |was|] in slots && rows[x] == plan.swapEffects[slots[x - |was|]].row;
        }
      }
    }
  }

  /** The allowed swaps among the first n that no earlier one shadows, in order. */
  ghost predicate KeptSwaps(plan: Plan, start: Progress, slots: seq<nat>, n: nat)
    requires plan.Valid() && n <= |plan.decision.swaps|
  {
    && Increasing(slots)
    && forall i: nat :: i in slots <==> i < n && SwapAllowed(plan, start, i) && !Shadowed(plan, start, i)
  }

  lemma KeptSwapsGrow(plan: Plan, start: Progress, slots: seq<nat>, n: nat)
    requires plan.Valid() && n < |plan.decision.swaps| && KeptSwaps(plan, start, slots, n)
    ensures KeptSwaps(plan, start,
                      if SwapAllowed(plan, start, n) && !Shadowed(plan, start, n) then slots + [n] else slots, n + 1)
  {
    forall r | 0 <= r < |slots| ensures slots[r] < n { assert slots[r] in slots; }
  }

  lemma SwapStepPersists(plan: Plan, slot: nat, p: Progress)
    requires plan.Valid() && slot < |plan.decision.swaps| && plan.swapEffects[slot].recorded
    ensures var r := PersistSwap(p.swapLedger, plan.swapEffects[slot].row);
            SwapStep(plan, slot, p).swapLedger ==
              if !plan.refusesSwap(slot, p.inflight) && r.Ok? then r.value else p.swapLedger
  {
  }

  lemma KeptSwapsStep(plan: Plan, d: Desk, agent: string, time: Time, slots: seq<nat>, i: nat, p: Progress)
    requires Distinguishable(plan, agent, time) && i < |plan.decision.swaps| && NoSwapRowsAt(d.swapLedger, agent, time)
    requires KeptSwaps(plan, Untouched(d), slots, i) && p == AfterSwaps(plan, Untouched(d), i)
    requires p.swapLedger == d.swapLedger + RowsAt(plan.swapEffects, slots)
    ensures var more := if SwapAllowed(plan, Untouched(d), i) && !Shadowed(plan, Untouched(d), i)
                        then slots + [i] else slots;
            SwapStep(plan, i, p).swapLedger == d.swapLedger + RowsAt(plan.swapEffects, more)
  {
    PersistAmongSlots(plan, agent, time, d.swapLedger, slots, i);
    ShadowedBySlots(plan, Untouched(d), slots, i);
    SwapStepPersists(plan, i, p);
    RowsAtGrow(plan.swapEffects, slots, i);
  }

  /** One more slot: the slots kept and the rows written stay in step. */
  lemma KeepSwapSlot(plan: Plan, d: Desk, agent: string, time: Time, slots: seq<nat>, i: nat, p: Progress)
    returns (more: seq<nat>)
    requires Distinguishable(plan, agent, time) && i < |plan.decision.swaps| && NoSwapRowsAt(d.swapLedger, agent, time)
    requires KeptSwaps(plan, Untouched(d), slots, i) && p == AfterSwaps(plan, Untouched(d), i)
    requires p.swapLedger == d.swapLedger + RowsAt(plan.swapEffects, slots)
    ensures KeptSwaps(plan, Untouched(d), more, i + 1)
    ensures SwapStep(plan, i, p).swapLedger == d.swapLedger + RowsAt(plan.swapEffects, more)
  {
    more := if SwapAllowed(plan, Untouched(d), i) && !Shadowed(plan, Untouched(d), i) then slots + [i] else slots;
    KeptSwapsGrow(plan, Untouched(d), slots, i);
    KeptSwapsStep(plan, d, agent, time, slots, i, p);
  }

  /** The swap ledger gains, in slot order, one row for each allowed swap that no earlier one shadows. */
  lemma {:induction false} SwapLedgerAfter(plan: Plan, d: Desk, agent: string, time: Time, n: nat)
    returns (slots: seq<nat>)
    requires Distinguishable(plan, agent, time) && n <= |plan.decision.swaps| && NoSwapRowsAt(d.swapLedger, agent, time)
    ensures KeptSwaps(plan, Untouched(d), slots, n)
    ensures AfterSwaps(plan, Untouched(d), n).swapLedger == d.swapLedger + RowsAt(plan.swapEffects, slots)
  {
    if n == 0 {
      slots := [];
    } else {
      var before := SwapLedgerAfter(plan, d, agent, time, n - 1);
      slots := KeepSwapSlot(plan, d, agent, time, before, n - 1, AfterSwaps(plan, Untouched(d), n - 1));
    }
  }

  lemma RowsAtGrow<Row>(effects: seq<Effect<Row>>, slots: seq<nat>, i: nat)
    requires i < |effects| && forall h <- slots :: h < |effects|
    ensures RowsAt(effects, slots + [i]) == RowsAt(effects, slots) + [effects[i].row]
  {
  }

  lemma ShadowedBySlots(plan: Plan, start: Progress, slots: seq<nat>, i: nat)
    requires plan.Valid() && i < |plan.decision.swaps|
    requires KeptSwaps(plan, start, slots, i)
    ensures Shadowed(plan, start, i) <==>
              exists h :: h in slots && SamePair(plan.swapEffects[h].row, plan.swapEffects[i].row)
  {
    if Shadowed(plan, start, i) {
      var h: nat :| h < i && SwapAllowed(plan, start, h) && SamePair(plan.swapEffects[h].row, plan.swapEffects[i].row);
      SomeUnshadowed(plan, start, h);
    }
  }

  ghost predicate KeptOrders(plan: Plan, start: Progress, slots: seq<nat>, n: nat)
    requires plan.Valid() && n <= |plan.decision.orders|
  {
    Increasing(slots) && forall j: nat :: j in slots <==> j < n && OrderAllowed(plan, start, j)
  }

  lemma KeptOrdersGrow(plan: Plan, start: Progress, slots: seq<nat>, n: nat)
    requires plan.Valid() && n < |plan.decision.orders| && KeptOrders(plan, start, slots, n)
    ensures KeptOrders(plan, start, if OrderAllowed(plan, start, n) then slots + [n] else slots, n + 1)
  {
    forall r | 0 <= r < |slots| ensures slots[r] < n { assert slots[r] in slots; }
  }

  lemma NoClashAmongOrders(plan: Plan, agent: string, time: Time, was: seq<OrderRow>, slots: seq<nat>, i: nat)
    requires Distinguishable(plan, agent, time) && i < |plan.orderEffects| && NoOrderRowsAt(was, agent, time)
    requires forall h <- slots :: h < i
    ensures var rows := was + RowsAt(plan.orderEffects, slots);
            PersistOrder(rows, plan.orderEffects[i].row) == rows + [plan.orderEffects[i].row]
  {
    var r, rows := plan.orderEffects[i].row, was + RowsAt(plan.orderEffects, slots);
    forall x | 0 <= x < |rows| ensures !SameOrderKey(rows[x], r) {
      if x >= |was| {
        assert slots[x - |was|] in slots && rows[x] == plan.orderEffects[slots[x - |was|]].row;
      }
    }
  }

  lemma KeptOrdersStep(plan: Plan, d: Desk, agent: string, time: Time, slots: seq<nat>, j: nat, p: Progress)
    requires Distinguishable(plan, agent, time) && j < |plan.decision.orders|
             && NoOrderRowsAt(d.orderLedger, agent, time)
    requires KeptOrders(plan, Untouched(d), slots, j) && p == AfterOrders(plan, Untouched(d), j)
    requires p.orderLedger == d.orderLedger + RowsAt(plan.orderEffects, slots)
    ensures var more := if OrderAllowed(plan, Untouched(d), j) then slots + [j] else slots;
            OrderStep(plan, j, p).orderLedger == d.orderLedger + RowsAt(plan.orderEffects, more)
  {
    NoClashAmongOrders(plan, agent, time, d.orderLedger, slots, j);
    RowsAtGrow(plan.orderEffects, slots, j);
  }

  lemma NoOrderRowYet(plan: Plan, d: Desk)
    requires plan.Valid()
    ensures AfterOrders(plan, Untouched(d), 0).orderLedger == d.orderLedger + RowsAt(plan.orderEffects, [])
  {
    SwapsLeaveOrders(plan, Untouched(d), |plan.decision.swaps|);
  }

  lemma KeepOrderSlot(plan: Plan, d: Desk, agent: string, time: Time, slots: seq<nat>, j: nat, p: Progress)
    returns (more: seq<nat>)
    requires Distinguishable(plan, agent, time) && j < |plan.decision.orders|
             && NoOrderRowsAt(d.orderLedger, agent, time)
    requires KeptOrders(plan, Untouched(d), slots, j) && p == AfterOrders(plan, Untouched(d), j)
    requires p.orderLedger == d.orderLedger + RowsAt(plan.orderEffects, slots)
    ensures KeptOrders(plan, Untouched(d), more, j + 1)
    ensures OrderStep(plan, j, p).orderLedger == d.orderLedger + RowsAt(plan.orderEffects, more)
  {
    more := if OrderAllowed(plan, Untouched(d), j) then slots + [j] else slots;
    KeptOrdersGrow(plan, Untouched(d), slots, j);
    KeptOrdersStep(plan, d, agent, time, slots, j, p);
  }

  /** The order ledger gains, in slot order, exactly one row for each allowed order. */
  lemma {:induction false} OrderLedgerAfter(plan: Plan, d: Desk, agent: string, time: Time, n: nat)
    returns (slots: seq<nat>)
    requires Distinguishable(plan, agent, time) && n <= |plan.decision.orders|
             && NoOrderRowsAt(d.orderLedger, agent, time)
    ensures KeptOrders(plan, Untouched(d), slots, n)
    ensures AfterOrders(plan, Untouched(d), n).orderLedger == d.orderLedger + RowsAt(plan.orderEffects, slots)
  {
    if n == 0 {
      slots := [];
      NoOrderRowYet(plan, d);
    } else {
      var before := OrderLedgerAfter(plan, d, agent, time, n - 1);
      slots := KeepOrderSlot(plan, d, agent, time, before, n - 1, AfterOrders(plan, Untouched(d), n - 1));
    }
  }

  /* ----- completeness for one tick ----- */

  ghost predicate CleanTick(cfg: Config, d: Desk, inp: TickInput) {
    && inp.Valid() && AllRecorded(inp) && UnstampedIntents(inp.decision) && CollisionFree(cfg, inp)
    && NoSwapRowsAt(d.swapLedger, cfg.agentId, Stamp(inp.now))
    && NoOrderRowsAt(d.orderLedger, cfg.agentId, Stamp(inp.now))
  }

  /** Every order the gate lets through gets exactly one row, in slot order; no other row appears. */
  lemma OrderLedgerComplete(cfg: Config, d: Desk, inp: TickInput) returns (slots: seq<nat>)
    requires CleanTick(cfg, d, inp)
    ensures var plan := PlanOf(cfg, d.open, inp);
            && KeptOrders(plan, Untouched(d), slots, |inp.decision.orders|)
            && Tick(cfg, d, inp).orderLedger == d.orderLedger + RowsAt(plan.orderEffects, slots)
  {
    PlanIsDistinguishable(cfg, d.open, inp);
    slots := OrderLedgerAfter(PlanOf(cfg, d.open, inp), d, cfg.agentId, Stamp(inp.now), |inp.decision.orders|);
  }

  /** Swaps fare the same except that a swap whose token pair was already traded in the tick gets no row. */
  lemma SwapLedgerUpToPairs(cfg: Config, d: Desk, inp: TickInput) returns (slots: seq<nat>)
    requires CleanTick(cfg, d, inp)
    ensures var plan := PlanOf(cfg, d.open, inp);
            && KeptSwaps(plan, Untouched(d), slots, |inp.decision.swaps|)
            && Tick(cfg, d, inp).swapLedger == d.swapLedger + RowsAt(plan.swapEffects, slots)
  {
    var plan := PlanOf(cfg, d.open, inp);
    PlanIsDistinguishable(cfg, d.open, inp);
    slots := SwapLedgerAfter(plan, d, cfg.agentId, Stamp(inp.now), |inp.decision.swaps|);
    OrdersLeaveSwaps(plan, Untouched(d), |inp.decision.orders|);
  }

  /* ----- completeness over runs ----- */

  /** A run of recorded ticks no two of which fall into one microsecond; the clock may step either way. */
  ghost predicate TickingRun(cfg: Config, inputs: seq<TickInput>) {
    && ValidRun(inputs)
    && (forall i | 0 <= i < |inputs| ::
          AllRecorded(inputs[i]) && UnstampedIntents(inputs[i].decision) && CollisionFree(cfg, inputs[i]))
    && (forall i, j | 0 <= i < j < |inputs| :: Stamp(inputs[i].now) != Stamp(inputs[j].now))
  }

  /** The agent has no ledger row at the given microsecond. */
  ghost predicate ClearAt(cfg: Config, d: Desk, time: Time) {
    NoSwapRowsAt(d.swapLedger, cfg.agentId, time) && NoOrderRowsAt(d.orderLedger, cfg.agentId, time)
  }

  ghost predicate RowsStamped(plan: Plan, time: Time) {
    && plan.Valid()
    && (forall i: nat | i < |plan.swapEffects| :: plan.swapEffects[i].row.time != time)
    && (forall j: nat | j < |plan.orderEffects| :: plan.orderEffects[j].row.time != time)
  }

  lemma {:induction false} SwapsStayClear(plan: Plan, start: Progress, n: nat, agent: string, time: Time)
    requires RowsStamped(plan, time) && n <= |plan.decision.swaps| && NoSwapRowsAt(start.swapLedger, agent, time)
    ensures NoSwapRowsAt(AfterSwaps(plan, start, n).swapLedger, agent, time)
  {
    if n > 0 {
      SwapsStayClear(plan, start, n - 1, agent, time);
    }
  }

  lemma {:induction false} OrdersStayClear(plan: Plan, start: Progress, n: nat, agent: string, time: Time)
    requires RowsStamped(plan, time) && n <= |plan.decision.orders| && NoOrderRowsAt(start.orderLedger, agent, time)
    ensures NoOrderRowsAt(AfterOrders(plan, start, n).orderLedger, agent, time)
  {
    if n > 0 {
      OrdersStayClear(plan, start, n - 1, agent, time);
    } else {
      SwapsLeaveOrders(plan, start, |plan.decision.swaps|);
    }
  }

  /** A tick writes at its own microsecond only. */
  lemma TickStaysClear(cfg: Config, d: Desk, inp: TickInput, time: Time)
    requires inp.Valid() && Stamp(inp.now) != time && ClearAt(cfg, d, time)
    ensures ClearAt(cfg, Tick(cfg, d, inp), time)
  {
    var plan := PlanOf(cfg, d.open, inp);
    forall i: nat | i < |plan.swapEffects| ensures plan.swapEffects[i].row.time != time {
      SwapRowFields(cfg, d.open, inp, i);
    }
    forall j: nat | j < |plan.orderEffects| ensures plan.orderEffects[j].row.time != time {
      OrderRowFields(cfg, d.open, inp, j);
    }
    SwapsStayClear(plan, Untouched(d), |inp.decision.swaps|, cfg.agentId, time);
    OrdersLeaveSwaps(plan, Untouched(d), |inp.decision.orders|);
    OrdersStayClear(plan, Untouched(d), |inp.decision.orders|, cfg.agentId, time);
  }

  lemma {:induction false} RunStaysClear(cfg: Config, d: Desk, inputs: seq<TickInput>, time: Time)
    requires ValidRun(inputs) && ClearAt(cfg, d, time) && forall i | 0 <= i < |inputs| :: Stamp(inputs[i].now) != time
    ensures ClearAt(cfg, Run(cfg, d, inputs), time)
  {
    if inputs != [] {
      var init := inputs[..|inputs| - 1];
      RunStaysClear(cfg, d, init, time);
      TickStaysClear(cfg, Run(cfg, d, init), inputs[|inputs| - 1], time);
    }
  }

  /** So the microsecond of every tick of a run is still free when the tick starts, if it was before the run. */
  lemma RunTicksAreClean(cfg: Config, d: Desk, inputs: seq<TickInput>, i: nat)
    requires TickingRun(cfg, inputs) && i < |inputs| && ClearAt(cfg, d, Stamp(inputs[i].now))
    ensures CleanTick(cfg, Run(cfg, d, inputs[..i]), inputs[i])
  {
    RunStaysClear(cfg, d, inputs[..i], Stamp(inputs[i].now));
  }

  lemma RunByTick(cfg: Config, d: Desk, inputs: seq<TickInput>, i: nat)
    requires ValidRun(inputs) && i < |inputs|
    ensures Run(cfg, d, inputs[..i + 1]) == Tick(cfg, Run(cfg, d, inputs[..i]), inputs[i])
  {
    assert inputs[..i + 1][..i] == inputs[..i];
  }

  /**
   In every run each tick adds exactly one row for each order it lets through, and likewise for swaps up
   to repeated pairs.
   */
  lemma RunLedgersComplete(cfg: Config, d: Desk, inputs: seq<TickInput>, i: nat)
    returns (orders: seq<nat>, swaps: seq<nat>)
    requires TickingRun(cfg, inputs) && i < |inputs| && ClearAt(cfg, d, Stamp(inputs[i].now))
    ensures var before, after := Run(cfg, d, inputs[..i]), Run(cfg, d, inputs[..i + 1]);
            var plan := PlanOf(cfg, before.open, inputs[i]);
            && KeptOrders(plan, Untouched(before), orders, |inputs[i].decision.orders|)
            && after.orderLedger == before.orderLedger + RowsAt(plan.orderEffects, orders)
            && KeptSwaps(plan, Untouched(before), swaps, |inputs[i].decision.swaps|)
            && after.swapLedger == before.swapLedger + RowsAt(plan.swapEffects, swaps)
  {
    var before := Run(cfg, d, inputs[..i]);
    RunTicksAreClean(cfg, d, inputs, i);
    RunByTick(cfg, d, inputs, i);
    orders := OrderLedgerComplete(cfg, before, inputs[i]);
    swaps := SwapLedgerUpToPairs(cfg, before, inputs[i]);
  }

  /* ----- which swaps get no row ----- */

  ghost predicate DistinctPairs(dec: Decision) {
    forall i, j | 0 <= i < j < |dec.swaps| ::
      dec.swaps[i].inToken.symbol != dec.swaps[j].inToken.symbol
      || dec.swaps[i].outToken.symbol != dec.swaps[j].outToken.symbol
  }

  /** No clean tick with this decision executes a swap without a ledger row. */
  ghost predicate NeverDropsSwap(dec: Decision) {
    forall cfg: Config, d: Desk, inp: TickInput, i: nat |
      && CleanTick(cfg, d, inp) && inp.decision == dec
      && i < |dec.swaps| && SwapAllowed(PlanOf(cfg, d.open, inp), Untouched(d), i) ::
      PlanOf(cfg, d.open, inp).swapEffects[i].row in Tick(cfg, d, inp).swapLedger
  }

  lemma DistinctPairsKeepEveryRow(cfg: Config, d: Desk, inp: TickInput, i: nat)
    requires CleanTick(cfg, d, inp) && DistinctPairs(inp.decision) && i < |inp.decision.swaps|
    requires SwapAllowed(PlanOf(cfg, d.open, inp), Untouched(d), i)
    ensures PlanOf(cfg, d.open, inp).swapEffects[i].row in Tick(cfg, d, inp).swapLedger
  {
    DistinctPairsShadowNothing(cfg, d.open, inp, Untouched(d), i);
    var slots := SwapLedgerUpToPairs(cfg, d, inp);
    RowOfSlot(PlanOf(cfg, d.open, inp).swapEffects, d.swapLedger, slots, i);
  }

  lemma DistinctPairsShadowNothing(cfg: Config, open: OpenBasis, inp: TickInput, start: Progress, i: nat)
    requires inp.Valid() && DistinctPairs(inp.decision) && i < |inp.decision.swaps|
    ensures !Shadowed(PlanOf(cfg, open, inp), start, i)
  {
    var plan := PlanOf(cfg, open, inp);
    forall h: nat | h < i ensures !SamePair(plan.swapEffects[h].row, plan.swapEffects[i].row) {
      SwapRowFields(cfg, open, inp, h);
      SwapRowFields(cfg, open, inp, i);
    }
  }

  lemma RowOfSlot<Row>(effects: seq<Effect<Row>>, was: seq<Row>, slots: seq<nat>, i: nat)
    requires (forall h <- slots :: h < |effects|) && i in slots
    ensures effects[i].row in was + RowsAt(effects, slots)
  {
    var r :| 0 <= r < |slots| && slots[r] == i;
    assert (was + RowsAt(effects, slots))[|was| + r] == effects[i].row;
  }

  lemma RepeatedPairDropsRow(dec: Decision, i: nat, j: nat)
    requires UnstampedIntents(dec) && i < j < |dec.swaps|
    requires dec.swaps[i].inToken.symbol == dec.swaps[j].inToken.symbol
             && dec.swaps[i].outToken.symbol == dec.swaps[j].outToken.symbol
    ensures !NeverDropsSwap(dec)
  {
    var cfg, d, inp := PaperConfig(), Desk(map[], map[], [], [], []), RecordedInput(dec);
    var plan := PlanOf(cfg, d.open, inp);
    assert CleanTick(cfg, d, inp);
    SwapRowFields(cfg, d.open, inp, i);
    SwapRowFields(cfg, d.open, inp, j);
    PlanIsDistinguishable(cfg, d.open, inp);
    assert SwapAllowed(plan, Untouched(d), i);
    assert Shadowed(plan, Untouched(d), j);
    var slots := SwapLedgerUpToPairs(cfg, d, inp);
    ShadowedRowIsAbsent(plan, cfg.agentId, Stamp(inp.now), slots, j);
    assert d.swapLedger + RowsAt(plan.swapEffects, slots) == RowsAt(plan.swapEffects, slots);
    assert SwapAllowed(plan, Untouched(d), j);
  }

  lemma ShadowedRowIsAbsent(plan: Plan, agent: string, time: Time, slots: seq<nat>, j: nat)
    requires Distinguishable(plan, agent, time) && j < |plan.swapEffects|
    requires (forall h <- slots :: h < |plan.swapEffects|) && j !in slots
    ensures plan.swapEffects[j].row !in RowsAt(plan.swapEffects, slots)
  {
    forall r | 0 <= r < |slots| ensures RowsAt(plan.swapEffects, slots)[r] != plan.swapEffects[j].row {
      assert slots[r] in slots;
      if slots[r] < j { assert plan.swapEffects[slots[r]].row.clientId != plan.swapEffects[j].row.clientId; }
    }
  }

  /** The swap ledger is complete for a decision exactly when no two of its swaps trade the same pair of symbols. */
  lemma SwapLedgerCompleteExactly(dec: Decision)
    requires UnstampedIntents(dec)
    ensures NeverDropsSwap(dec) <==> DistinctPairs(dec)
  {
    if DistinctPairs(dec) {
      forall cfg: Config, d: Desk, inp: TickInput, i: nat |
        CleanTick(cfg, d, inp) && inp.decision == dec && i < |dec.swaps|
            && SwapAllowed(PlanOf(cfg, d.open, inp), Untouched(d), i)
        ensures PlanOf(cfg, d.open, inp).swapEffects[i].row in Tick(cfg, d, inp).swapLedger
      {
        DistinctPairsKeepEveryRow(cfg, d, inp, i);
      }
    } else {
      var i: nat, j: nat :| i < j < |dec.swaps| && dec.swaps[i].inToken.symbol == dec.swaps[j].inToken.symbol
                            && dec.swaps[i].outToken.symbol == dec.swaps[j].outToken.symbol;
      RepeatedPairDropsRow(dec, i, j);
    }
  }

  /** Buying the same token twice in one decision: the second purchase can go unrecorded. */
  lemma SecondPurchaseUnrecorded()
    ensures !NeverDropsSwap(Decision([SampleSwap("USDC", "WIF", ""), SampleSwap("USDC", "WIF", "")], [], []))
  {
    RepeatedPairDropsRow(Decision([SampleSwap("USDC", "WIF", ""), SampleSwap("USDC", "WIF", "")], [], []), 0, 1);
  }

  /* ----- replaying a tick ----- */

  /** Some row would make inserting `r` change nothing. */
  ghost predicate SwapPresent(rows: seq<SwapRow>, r: SwapRow) {
    exists x :: 0 <= x < |rows| && (SameSwapClient(rows[x], r) || SameSwapPrimaryKey(rows[x], r))
  }

  ghost predicate OrderPresent(rows: seq<OrderRow>, r: OrderRow) {
    exists x :: 0 <= x < |rows| && SameOrderKey(rows[x], r)
  }

  lemma PresenceLasts(plan: Plan, slot: nat, p: Progress, r: SwapRow)
    requires plan.Valid() && slot < |plan.decision.swaps| && SwapPresent(p.swapLedger, r)
    ensures SwapPresent(SwapStep(plan, slot, p).swapLedger, r)
  {
    LedgerGrows(plan, slot, p);
    var x :| 0 <= x < |p.swapLedger| && (SameSwapClient(p.swapLedger[x], r) || SameSwapPrimaryKey(p.swapLedger[x], r));
    assert SwapStep(plan, slot, p).swapLedger[x] == p.swapLedger[x];
  }

  lemma AllowedIsPresent(plan: Plan, slot: nat, p: Progress)
    requires plan.Valid() && slot < |plan.decision.swaps| && plan.swapEffects[slot].recorded
             && !plan.refusesSwap(slot, p.inflight)
    ensures SwapPresent(SwapStep(plan, slot, p).swapLedger, plan.swapEffects[slot].row)
  {
    SwapStepPersists(plan, slot, p);
    var r := plan.swapEffects[slot].row;
    assert (p.swapLedger + [r])[|p.swapLedger|] == r;
  }

  /** After a recorded execution every allowed swap is present in the ledger. */
  lemma {:induction false} AllowedSwapsPresent(plan: Plan, start: Progress, n: nat, i: nat)
    requires plan.Valid() && i < n <= |plan.decision.swaps| && SwapAllowed(plan, start, i)
             && plan.swapEffects[i].recorded
    ensures SwapPresent(AfterSwaps(plan, start, n).swapLedger, plan.swapEffects[i].row)
  {
    if i < n - 1 {
      AllowedSwapsPresent(plan, start, n - 1, i);
      PresenceLasts(plan, n - 1, AfterSwaps(plan, start, n - 1), plan.swapEffects[i].row);
    } else {
      AllowedIsPresent(plan, i, AfterSwaps(plan, start, i));
    }
  }

  lemma LedgerGrows(plan: Plan, slot: nat, p: Progress)
    requires plan.Valid() && slot < |plan.decision.swaps|
    ensures p.swapLedger <= SwapStep(plan, slot, p).swapLedger
  {
  }

  lemma {:induction false} AllowedOrdersPresent(plan: Plan, start: Progress, n: nat, j: nat)
    requires plan.Valid() && j < n <= |plan.decision.orders| && OrderAllowed(plan, start, j)
             && plan.orderEffects[j].recorded
    ensures OrderPresent(AfterOrders(plan, start, n).orderLedger, plan.orderEffects[j].row)
  {
    var p, r := AfterOrders(plan, start, n - 1), plan.orderEffects[j].row;
    var q := OrderStep(plan, n - 1, p);
    if j < n - 1 {
      AllowedOrdersPresent(plan, start, n - 1, j);
      var x :| 0 <= x < |p.orderLedger| && SameOrderKey(p.orderLedger[x], r);
      assert q.orderLedger[x] == p.orderLedger[x];
    } else {
      assert (p.orderLedger + [r])[|p.orderLedger|] == r;
    }
  }

  /** An execution whose allowed slots are all present leaves the ledgers as they are. */
  lemma {:induction false} PresentSwapsAddNothing(plan: Plan, start: Progress, n: nat)
    requires plan.Valid() && n <= |plan.decision.swaps|
    requires forall i: nat | i < n && SwapAllowed(plan, start, i) ::
               SwapPresent(start.swapLedger, plan.swapEffects[i].row)
    ensures AfterSwaps(plan, start, n).swapLedger == start.swapLedger
  {
    if n > 0 { PresentSwapsAddNothing(plan, start, n - 1); }
  }

  lemma {:induction false} PresentOrdersAddNothing(plan: Plan, start: Progress, n: nat)
    requires plan.Valid() && n <= |plan.decision.orders|
    requires forall j: nat | j < n && OrderAllowed(plan, start, j) ::
               OrderPresent(start.orderLedger, plan.orderEffects[j].row)
    ensures AfterOrders(plan, start, n).orderLedger == start.orderLedger
  {
    if n == 0 {
      SwapsLeaveOrders(plan, start, |plan.decision.swaps|);
    } else {
      PresentOrdersAddNothing(plan, start, n - 1);
    }
  }

  /**
   Executing the same decision again, under the same id and clock, from any open set and with any
   venue answers, adds no row as long as it lets through no slot the first execution refused.
   */
  lemma ReplayAddsNothing(cfg: Config, d: Desk, inp: TickInput, e: Desk, again: TickInput)
    requires inp.Valid() && again.Valid() && AllRecorded(inp)
    requires again.now == inp.now && again.decisionId == inp.decisionId && again.decision == inp.decision
    requires e.swapLedger == Tick(cfg, d, inp).swapLedger && e.orderLedger == Tick(cfg, d, inp).orderLedger
    requires forall i: nat | i < |inp.decision.swaps| && SwapAllowed(PlanOf(cfg, e.open, again), Untouched(e), i) ::
               SwapAllowed(PlanOf(cfg, d.open, inp), Untouched(d), i)
    requires forall j: nat | j < |inp.decision.orders| && OrderAllowed(PlanOf(cfg, e.open, again), Untouched(e), j) ::
               OrderAllowed(PlanOf(cfg, d.open, inp), Untouched(d), j)
    ensures Tick(cfg, e, again).swapLedger == e.swapLedger
    ensures Tick(cfg, e, again).orderLedger == e.orderLedger
  {
    var first, second := PlanOf(cfg, d.open, inp), PlanOf(cfg, e.open, again);
    var swaps, orders := |inp.decision.swaps|, |inp.decision.orders|;
    OrdersLeaveSwaps(first, Untouched(d), orders);
    forall i: nat | i < swaps && SwapAllowed(second, Untouched(e), i)
      ensures SwapPresent(e.swapLedger, second.swapEffects[i].row)
    {
      assert inp.swapAnswers[i] in inp.swapAnswers;
      SwapRowFields(cfg, d.open, inp, i);
      SwapRowFields(cfg, e.open, again, i);
      AllowedSwapsPresent(first, Untouched(d), swaps, i);
      SameKeysPresent(e.swapLedger, first.swapEffects[i].row, second.swapEffects[i].row);
    }
    forall j: nat | j < orders && OrderAllowed(second, Untouched(e), j)
      ensures OrderPresent(e.orderLedger, second.orderEffects[j].row)
    {
      assert inp.orderAnswers[j] in inp.orderAnswers;
      OrderRowFields(cfg, d.open, inp, j);
      OrderRowFields(cfg, e.open, again, j);
      AllowedOrdersPresent(first, Untouched(d), orders, j);
    }
    PresentSwapsAddNothing(second, Untouched(e), swaps);
    OrdersLeaveSwaps(second, Untouched(e), orders);
    PresentOrdersAddNothing(second, Untouched(e), orders);
  }

  /** Replaying a tick to the letter, from the open set it started from, adds no row. */
  lemma ExactReplayAddsNothing(cfg: Config, d: Desk, inp: TickInput)
    requires inp.Valid() && AllRecorded(inp)
    ensures var e := Tick(cfg, d, inp).(open := d.open);
            && Tick(cfg, e, inp).swapLedger == e.swapLedger
            && Tick(cfg, e, inp).orderLedger == e.orderLedger
  {
    var e, plan := Tick(cfg, d, inp).(open := d.open), PlanOf(cfg, d.open, inp);
    forall i: nat | i < |inp.decision.swaps|
      ensures SwapAllowed(plan, Untouched(e), i) == SwapAllowed(plan, Untouched(d), i)
    {
      SwapsAgree(plan, plan, Untouched(e), Untouched(d), i);
    }
    forall j: nat | j < |inp.decision.orders|
      ensures OrderAllowed(plan, Untouched(e), j) == OrderAllowed(plan, Untouched(d), j)
    {
      OrdersAgree(plan, plan, Untouched(e), Untouched(d), j);
    }
    ReplayAddsNothing(cfg, d, inp, e, inp);
  }

  lemma SameKeysPresent(rows: seq<SwapRow>, r: SwapRow, s: SwapRow)
    requires SwapPresent(rows, r)
    requires r.agentId == s.agentId && r.time == s.time && r.inToken == s.inToken && r.outToken == s.outToken
             && r.clientId == s.clientId
    ensures SwapPresent(rows, s)
  {
    var x :| 0 <= x < |rows| && (SameSwapClient(rows[x], r) || SameSwapPrimaryKey(rows[x], r));
    assert SameSwapClient(rows[x], s) || SameSwapPrimaryKey(rows[x], s);
  }
}
