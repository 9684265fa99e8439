/** The agent runtime as the object it is: an open-basis map over a store, changed by loops over a decision. */
module AgentRuntime {
  import opened Collections
  import opened Texts
  import opened Types
  import opened RiskPolicy
  import opened TickSpec
  import opened Restart
  import opened AgentStore

  /** The engine treats a snapshot as a bag, as it must when the snapshot is read off a map. */
  ghost predicate OrderFree(risk: RiskEngine) {
    forall intent, a, b :: multiset(a) == multiset(b) ==> risk(intent, a) == risk(intent, b)
  }

  /** Taking any key out of a listing leaves the listing of the other keys. */
  lemma {:induction false} EntriesBag(open: OpenBasis, keys: set<string>, k: string)
    requires k in keys && keys <= open.Keys
    ensures multiset(Entries(open, keys)) == multiset{open[k]} + multiset(Entries(open, keys - {k}))
  {
    var f := First(keys);
    if f != k {
      EntriesBag(open, keys - {f}, k);
      EntriesBag(open, keys - {k}, f);
      assert keys - {f} - {k} == keys - {k} - {f};
    }
  }

  lemma {:induction false} PhantomsBag(keys: set<string>, exclude: string, k: string)
    requires k in keys
    ensures multiset(Phantoms(keys, exclude)) ==
              (if k == exclude then multiset{} else multiset{Phantom(k)}) + multiset(Phantoms(keys - {k}, exclude))
  {
    var f := First(keys);
    if f != k {
      PhantomsBag(keys - {f}, exclude, k);
      PhantomsBag(keys - {k}, exclude, f);
      assert keys - {f} - {k} == keys - {k} - {f};
    }
  }

  /** The hard-limit policy is such an engine, so an agent that uses it has a valid runtime. */
  lemma PolicyRuntimeIsValid(r: Runtime, l: Limits)
    requires UsesPolicy(r.cfg, l)
    ensures r.Valid()
  {
    forall intent, a: seq<BasisPosition>, b: seq<BasisPosition> | multiset(a) == multiset(b)
      ensures r.cfg.risk.value(intent, a) == r.cfg.risk.value(intent, b)
    {
      VerdictOrderFree(l, intent, a, b);
    }
  }

  class Runtime {
    const cfg: Config
    const store: Store
    var openBasis: OpenBasis
    ghost var calls: seq<Call>

    ghost predicate Valid() {
      cfg.risk.Some? ==> OrderFree(cfg.risk.value)
    }

    ghost function Desk(): TickSpec.Desk
      reads this, store
    {
      TickSpec.Desk(openBasis, store.positions, store.swapLedger, store.orderLedger, calls)
    }

    /** Picks up where the agent left off; a table that cannot be read starts it empty. */
    constructor (cfg: Config, store: Store, readable: bool)
      requires cfg.risk.Some? ==> OrderFree(cfg.risk.value)
      ensures Valid() && this.cfg == cfg && this.store == store && calls == []
      ensures if readable then IsHydration(openBasis, store.positions, cfg.agentId) else openBasis == map[]
    {
      this.cfg, this.store := cfg, store;
      openBasis, calls := map[], [];
      new;
      if readable {
        var rows := store.LoadOpenBasis(cfg.agentId);
        for i := 0 to |rows|
          invariant calls == []
          invariant forall j | 0 <= j < i :: ToUpper(rows[j].underlying) in openBasis
                      && rows[j].openedAt <= openBasis[ToUpper(rows[j].underlying)].openedAt
          invariant forall k <- openBasis :: exists j ::
                      0 <= j < i && rows[j] == openBasis[k] && ToUpper(rows[j].underlying) == k
        {
          openBasis := openBasis[ToUpper(rows[i].underlying) := rows[i]];
        }
        forall k | k in openBasis
          ensures exists id :: id in Tables.LiveIds(store.positions, cfg.agentId) && openBasis[k] == store.positions[id]
                    && ToUpper(store.positions[id].underlying) == k
        {
          var j :| 0 <= j < |rows| && rows[j] == openBasis[k] && ToUpper(rows[j].underlying) == k;
          assert rows[j] in rows;
        }
      }
    }

    /** A copy of the open positions, in whatever order the map yields them. */
    method SnapshotOpenBasis() returns (snap: seq<BasisPosition>)
      ensures multiset(snap) == multiset(Entries(openBasis, openBasis.Keys))
    {
      snap := [];
      var rest := openBasis.Keys;
      while rest != {}
        invariant rest <= openBasis.Keys
        invariant multiset(snap) + multiset(Entries(openBasis, rest)) == multiset(Entries(openBasis, openBasis.Keys))
        decreases rest
      {
        var k :| k in rest;
        EntriesBag(openBasis, rest, k);
        snap := snap + [openBasis[k]];
        rest := rest - {k};
      }
    }

    /** One phantom for every key in flight but the excluded one, in whatever order the map yields them. */
    method ListPhantoms(inflight: set<string>, exclude: string) returns (phantoms: seq<BasisPosition>)
      ensures multiset(phantoms) == multiset(Phantoms(inflight, exclude))
    {
      phantoms := [];
      var rest := inflight;
      while rest != {}
        invariant rest <= inflight
        invariant multiset(phantoms) + multiset(Phantoms(rest, exclude)) == multiset(Phantoms(inflight, exclude))
        decreases rest
      {
        var k :| k in rest;
        PhantomsBag(rest, exclude, k);
        if k != exclude { phantoms := phantoms + [Phantom(k)]; }
        rest := rest - {k};
      }
    }

    /** The open positions, then the phantoms: what the risk gate is shown. */
    method BuildRiskSnapshot(inflight: set<string>, exclude: string) returns (snap: seq<BasisPosition>)
      ensures multiset(snap) == multiset(RiskSnapshot(openBasis, inflight, exclude))
    {
      var held := SnapshotOpenBasis();
      var phantoms := ListPhantoms(inflight, exclude);
      snap := held + phantoms;
    }

    /** Gate, then paper booking or quote, submit and confirm in turn; true only for a booked or confirmed swap. */
    method ExecuteSwap(inp: TickInput, slot: nat, snap: seq<BasisPosition>) returns (ok: bool)
      requires inp.Valid() && slot < |inp.decision.swaps|
      modifies this`calls, store`swapLedger
      ensures var s, answer := StampedSwap(cfg, inp, slot), inp.swapAnswers[slot];
              var eff := TickSpec.ExecuteSwap(cfg, inp, s, answer);
              if Refused(cfg.risk, Intent.Swap(s), snap)
              then (!ok && calls == old(calls) && store.swapLedger == old(store.swapLedger))
              else (ok == eff.accepted && calls == old(calls) + eff.calls
                    && store.swapLedger ==
                         Written(old(store.swapLedger), answer.recorded,
                                 Tables.PersistSwap(old(store.swapLedger), eff.row)))
    {
      var s, answer := StampedSwap(cfg, inp, slot), inp.swapAnswers[slot];
      if cfg.risk.Some? {
        var verdict := cfg.risk.value(Intent.Swap(s), snap);
        if verdict.Block? { return false; }
      }
      var routed := s.chain in cfg.swapVenues;
      var dex := if routed then cfg.swapVenues[s.chain] else "";
      if cfg.paper || !routed {
        store.PersistSwap(SwapLedgerRow(cfg, inp, s, dex, "", SwapConfirmed, true, s.inAmount, 0.0), answer.recorded);
        return true;
      }
      calls := calls + [QuoteCall(s)];
      if answer.outcome.QuoteFailed? {
        store.PersistSwap(SwapLedgerRow(cfg, inp, s, dex, "", SwapFailed, false, 0.0, 0.0), answer.recorded);
        return false;
      }
      calls := calls + [SwapCall(s)];
      if answer.outcome.SubmitFailed? {
        store.PersistSwap(SwapLedgerRow(cfg, inp, s, dex, "", SwapFailed, false, 0.0, 0.0), answer.recorded);
        return false;
      }
      calls := calls + [ConfirmCall(answer.outcome.tx)];
      if answer.outcome.ConfirmFailed? {
        store.PersistSwap(SwapLedgerRow(cfg, inp, s, dex, answer.outcome.tx, SwapFailed, false, 0.0, 0.0),
                          answer.recorded);
        return false;
      }
      var status := answer.outcome.status;
      store.PersistSwap(SwapLedgerRow(cfg, inp, s, dex, answer.outcome.hash, status, false,
                                      answer.outcome.outAmount, answer.outcome.gas), answer.recorded);
      ok := status == SwapConfirmed;
    }

    /** Gate, then paper booking or placement; true unless blocked, failed or rejected. */
    method ExecuteOrder(inp: TickInput, slot: nat, snap: seq<BasisPosition>) returns (ok: bool)
      requires inp.Valid() && slot < |inp.decision.orders|
      modifies this`calls, store`orderLedger
      ensures var o, answer := StampedOrder(cfg, inp, slot), inp.orderAnswers[slot];
              var eff := TickSpec.ExecuteOrder(cfg, inp, o, answer);
              if Refused(cfg.risk, Intent.Order(o), snap)
              then (!ok && calls == old(calls) && store.orderLedger == old(store.orderLedger))
              else (ok == eff.accepted && calls == old(calls) + eff.calls
                    && store.orderLedger
                         == (if answer.recorded then Tables.PersistOrder(old(store.orderLedger), eff.row)
                                             else old(store.orderLedger)))
    {
      var o, answer := StampedOrder(cfg, inp, slot), inp.orderAnswers[slot];
      if cfg.risk.Some? {
        var verdict := cfg.risk.value(Intent.Order(o), snap);
        if verdict.Block? { return false; }
      }
      if cfg.paper || !cfg.hasPerp {
        store.PersistOrder(OrderLedgerRow(cfg, inp, o, "", OrderOpen, true), answer.recorded);
        return true;
      }
      calls := calls + [PlaceCall(o)];
      if answer.outcome.PlaceFailed? {
        store.PersistOrder(OrderLedgerRow(cfg, inp, o, "", OrderRejected, false), answer.recorded);
        return false;
      }
      store.PersistOrder(OrderLedgerRow(cfg, inp, o, answer.outcome.venueId, answer.outcome.status, false),
                         answer.recorded);
      ok := answer.outcome.status != OrderRejected;
    }

    /** Fresh snapshots give the verdicts the specification's fixed listing gives. */
    lemma SnapshotVerdict(intent: Intent, snap: seq<BasisPosition>, inflight: set<string>, exclude: string)
      requires Valid() && multiset(snap) == multiset(RiskSnapshot(openBasis, inflight, exclude))
      ensures Refused(cfg.risk, intent, snap) == Refused(cfg.risk, intent, RiskSnapshot(openBasis, inflight, exclude))
    {
    }

    /** One spot leg: a fresh snapshot, the execution, and the keys it leaves. */
    method RunSwap(inp: TickInput, i: nat, swapOk: set<string>, inflight: set<string>, ghost p: Progress)
      returns (swapOk': set<string>, inflight': set<string>, ghost q: Progress)
      requires Valid() && inp.Valid() && i < |inp.decision.swaps|
      requires swapOk == p.swapOk && inflight == p.inflight && calls == p.calls && store.swapLedger == p.swapLedger
      modifies this`calls, store`swapLedger
      ensures q == SwapStep(PlanOf(cfg, openBasis, inp), i, p)
      ensures swapOk' == q.swapOk && inflight' == q.inflight && calls == q.calls && store.swapLedger == q.swapLedger
    {
      var s := inp.decision.swaps[i];
      var snap := BuildRiskSnapshot(inflight, "");
      SnapshotVerdict(Intent.Swap(StampedSwap(cfg, inp, i)), snap, inflight, "");
      var ok := ExecuteSwap(inp, i, snap);
      swapOk', inflight' := swapOk, inflight;
      if ok {
        swapOk' := swapOk + {SwapKey(s)};
        if s.IsOpening() { inflight' := inflight + {SwapKey(s)}; }
      }
      q := SwapStep(PlanOf(cfg, openBasis, inp), i, p);
    }

    /** A hedge whose swap was accepted in this tick leaves its own key out of the count. */
    method AttemptOrder(inp: TickInput, j: nat, inflight: set<string>) returns (ok: bool)
      requires Valid() && inp.Valid() && j < |inp.decision.orders|
      modifies this`calls, store`orderLedger
      ensures var plan := PlanOf(cfg, openBasis, inp);
              var eff := plan.orderEffects[j];
              if plan.refusesOrder(j, inflight)
              then (!ok && calls == old(calls) && store.orderLedger == old(store.orderLedger))
              else (ok == eff.accepted && calls == old(calls) + eff.calls
                    && store.orderLedger == (if eff.recorded then Tables.PersistOrder(old(store.orderLedger), eff.row)
                                             else old(store.orderLedger)))
    {
      var o := inp.decision.orders[j];
      var key := OrderKey(o);
      var exclude := if !o.reduceOnly && o.side == Sell && key in inflight then key else "";
      var snap := BuildRiskSnapshot(inflight, exclude);
      SnapshotVerdict(Intent.Order(StampedOrder(cfg, inp, j)), snap, inflight, exclude);
      ok := ExecuteOrder(inp, j, snap);
    }

    /** One perp leg and the keys it leaves. */
    method RunOrder(inp: TickInput, j: nat, swapOk: set<string>, orderOk: set<string>, inflight: set<string>,
                    ghost p: Progress)
      returns (orderOk': set<string>, inflight': set<string>, ghost q: Progress)
      requires Valid() && inp.Valid() && j < |inp.decision.orders|
      requires swapOk == p.swapOk && orderOk == p.orderOk && inflight == p.inflight
      requires calls == p.calls && store.orderLedger == p.orderLedger
      modifies this`calls, store`orderLedger
      ensures q == OrderStep(PlanOf(cfg, openBasis, inp), j, p)
      ensures orderOk' == q.orderOk && inflight' == q.inflight && calls == q.calls && store.orderLedger == q.orderLedger
    {
      var o := inp.decision.orders[j];
      var key := OrderKey(o);
      var ok := AttemptOrder(inp, j, inflight);
      orderOk', inflight' := orderOk, inflight;
      if ok {
        orderOk' := orderOk + {key};
        if !o.reduceOnly && o.side == Sell && key !in swapOk { inflight' := inflight + {key}; }
      }
      q := OrderStep(PlanOf(cfg, openBasis, inp), j, p);
    }

    /** After i swaps of the tick: the loop's variables, the calls and the swap ledger. */
    ghost predicate AtSwap(inp: TickInput, start: Progress, i: nat, swapOk: set<string>, inflight: set<string>)
      requires inp.Valid() && i <= |inp.decision.swaps|
      reads this, store
    {
      var p := AfterSwaps(PlanOf(cfg, openBasis, inp), start, i);
      swapOk == p.swapOk && inflight == p.inflight && calls == p.calls && store.swapLedger == p.swapLedger
    }

    method RunNextSwap(inp: TickInput, i: nat, swapOk: set<string>, inflight: set<string>, ghost start: Progress)
      returns (swapOk': set<string>, inflight': set<string>)
      requires Valid() && inp.Valid() && i < |inp.decision.swaps| && AtSwap(inp, start, i, swapOk, inflight)
      modifies this`calls, store`swapLedger
      ensures AtSwap(inp, start, i + 1, swapOk', inflight')
    {
      ghost var plan := PlanOf(cfg, openBasis, inp);
      ghost var q;
      swapOk', inflight', q := RunSwap(inp, i, swapOk, inflight, AfterSwaps(plan, start, i));
    }

    /** After j orders of the tick: the loop's variables, the calls and the order ledger. */
    ghost predicate AtOrder(inp: TickInput, start: Progress, j: nat, swapOk: set<string>, orderOk: set<string>,
                            inflight: set<string>)
      requires inp.Valid() && j <= |inp.decision.orders|
      reads this, store
    {
      var p := AfterOrders(PlanOf(cfg, openBasis, inp), start, j);
      && swapOk == p.swapOk && orderOk == p.orderOk && inflight == p.inflight
      && calls == p.calls && store.orderLedger == p.orderLedger
    }

    method RunNextOrder(inp: TickInput, j: nat, swapOk: set<string>, orderOk: set<string>, inflight: set<string>,
                        ghost start: Progress)
      returns (orderOk': set<string>, inflight': set<string>)
      requires Valid() && inp.Valid() && j < |inp.decision.orders| && AtOrder(inp, start, j, swapOk, orderOk, inflight)
      modifies this`calls, store`orderLedger
      ensures AtOrder(inp, start, j + 1, swapOk, orderOk', inflight')
    {
      ghost var plan := PlanOf(cfg, openBasis, inp);
      ghost var q;
      TickFacts.OrdersLeaveSwaps(plan, start, j);
      TickFacts.OrdersLeaveSwaps(plan, start, j + 1);
      orderOk', inflight', q := RunOrder(inp, j, swapOk, orderOk, inflight, AfterOrders(plan, start, j));
    }

    /** All spot legs, in order. */
    method RunSwaps(inp: TickInput, ghost start: Progress) returns (swapOk: set<string>, inflight: set<string>)
      requires Valid() && inp.Valid() && AtSwap(inp, start, 0, {}, {})
      modifies this`calls, store`swapLedger
      ensures AtSwap(inp, start, |inp.decision.swaps|, swapOk, inflight)
    {
      swapOk, inflight := {}, {};
      for i := 0 to |inp.decision.swaps|
        invariant AtSwap(inp, start, i, swapOk, inflight)
      {
        swapOk, inflight := RunNextSwap(inp, i, swapOk, inflight, start);
      }
    }

    /** Then all perp legs, from where the spot legs left off. */
    method RunOrders(inp: TickInput, swapOk: set<string>, inflightOpens: set<string>, ghost start: Progress)
      returns (orderOk: set<string>, inflight: set<string>)
      requires Valid() && inp.Valid() && AtOrder(inp, start, 0, swapOk, {}, inflightOpens)
      modifies this`calls, store`orderLedger
      ensures AtOrder(inp, start, |inp.decision.orders|, swapOk, orderOk, inflight)
    {
      orderOk, inflight := {}, inflightOpens;
      for j := 0 to |inp.decision.orders|
        invariant AtOrder(inp, start, j, swapOk, orderOk, inflight)
      {
        orderOk, inflight := RunNextOrder(inp, j, swapOk, orderOk, inflight, start);
      }
    }

    /** All spot legs first, then all perp legs. */
    method RunLegs(inp: TickInput) returns (swapOk: set<string>, orderOk: set<string>, ghost p: Progress)
      requires Valid() && inp.Valid()
      modifies this`calls, store`swapLedger, store`orderLedger
      ensures p == Executed(PlanOf(cfg, openBasis, inp), Untouched(old(Desk())))
      ensures swapOk == p.swapOk && orderOk == p.orderOk
      ensures calls == p.calls && store.swapLedger == p.swapLedger && store.orderLedger == p.orderLedger
    {
      ghost var plan, start := PlanOf(cfg, openBasis, inp), Untouched(Desk());
      var inflight;
      swapOk, inflight := RunSwaps(inp, start);
      TickFacts.SwapsLeaveOrders(plan, start, |inp.decision.swaps|);
      orderOk, inflight := RunOrders(inp, swapOk, inflight, start);
      TickFacts.OrdersLeaveSwaps(plan, start, |inp.decision.orders|);
      p := Executed(plan, start);
    }

    method RunCancels(ids: seq<string>)
      modifies this`calls
      ensures calls == old(calls) + CancelCalls(cfg, ids)
    {
      for i := 0 to |ids|
        invariant calls == old(calls) + CancelCalls(cfg, ids[..i])
      {
        assert ids[..i + 1] == ids[..i] + [ids[i]];
        if !cfg.paper && cfg.hasPerp { calls := calls + [CancelCall(ids[i])]; }
      }
      assert ids[..|ids|] == ids;
    }

    ghost function OpenBook(): Book
      reads this, store
    {
      Book(openBasis, store.positions)
    }

    /** Closes first: every succeeded reduce-only order drops its key and closes its row. */
    method DropClosed(inp: TickInput, orderOk: set<string>)
      requires inp.Valid()
      modifies this`openBasis, store`positions
      ensures OpenBook() == AfterCloses(cfg, inp, orderOk, old(OpenBook()), |inp.decision.orders|)
    {
      for j := 0 to |inp.decision.orders|
        invariant OpenBook() == AfterCloses(cfg, inp, orderOk, old(OpenBook()), j)
      {
        var o := inp.decision.orders[j];
        if !o.reduceOnly { continue; }
        var key := OrderKey(o);
        if key !in openBasis { continue; }
        var bp := openBasis[key];
        if key !in orderOk { continue; }
        openBasis := openBasis - {key};
        var r := store.CloseBasis(cfg.agentId, bp.underlying, inp.wall, inp.orderAnswers[j].closeWritten);
      }
    }

    /** The opening swap each key is paired with: the last one wins. */
    method SwapsByKey(swaps: seq<SwapIntent>) returns (byKey: map<string, SwapIntent>)
      ensures byKey == OpeningSwaps(swaps)
    {
      byKey := map[];
      for i := 0 to |swaps|
        invariant byKey == OpeningSwaps(swaps[..i])
      {
        assert swaps[..i + 1][..i] == swaps[..i];
        if swaps[i].IsOpening() { byKey := byKey[SwapKey(swaps[i]) := swaps[i]]; }
      }
      assert swaps[..|swaps|] == swaps;
    }

    /** Then opens: every hedge whose key has both legs succeeded and is not open yet. */
    method RecordOpened(inp: TickInput, swapOk: set<string>, orderOk: set<string>)
      requires inp.Valid()
      modifies this`openBasis, store`positions
      ensures OpenBook() == AfterOpens(cfg, inp, swapOk, orderOk, old(OpenBook()), |inp.decision.orders|)
    {
      var byKey := SwapsByKey(inp.decision.swaps);
      for j := 0 to |inp.decision.orders|
        invariant OpenBook() == AfterOpens(cfg, inp, swapOk, orderOk, old(OpenBook()), j)
      {
        var o := inp.decision.orders[j];
        if o.reduceOnly || o.side != Sell { continue; }
        var key := OrderKey(o);
        if key !in byKey || key in openBasis { continue; }
        if key !in swapOk || key !in orderOk { continue; }
        var bp := NewBasis(cfg, inp, byKey[key], o);
        openBasis := openBasis[key := bp];
        var r := store.UpsertOpenBasis(bp, inp.orderAnswers[j].openWritten);
      }
    }

    /** One tick: swaps, orders, cancels, and the open basis brought up to date. */
    method Tick(inp: TickInput)
      requires Valid() && inp.Valid()
      modifies this, store
      ensures Valid() && Desk() == TickSpec.Tick(cfg, old(Desk()), inp)
    {
      var swapOk, orderOk, _ := RunLegs(inp);
      RunCancels(inp.decision.cancels);
      DropClosed(inp, orderOk);
      RecordOpened(inp, swapOk, orderOk);
    }
  }
}
