/**
 One tick of an agent as a function of values: the decision, the answers the venues give to each
 slot, and the desk (open basis, tables, venue-call log) before the tick.
 */
module TickSpec {
  import opened Wrappers
  import opened Collections
  import opened Texts
  import opened Types
  import opened RiskPolicy
  import opened Tables

  type OpenBasis = map<string, BasisPosition>

  /**
   What does not change while an agent runs. The risk engine is an interface; `digest` stands for
   the truncated SHA-256 the client ids are built from, `sizeText` for the decimal's printed form.
   */
  datatype Config = Config(
    agentId: string, paper: bool, swapVenues: map<string, string>, hasPerp: bool,
    risk: Option<RiskEngine>, digest: string -> string, sizeText: real -> string)

  /** How the swap venue answers one live swap, stage by stage; a settlement reports its own transaction hash. */
  datatype SwapOutcome =
    | QuoteFailed
    | SubmitFailed
    | ConfirmFailed(tx: string)
    | Settled(tx: string, hash: string, status: SwapStatus, outAmount: real, gas: real)

  datatype OrderOutcome = PlaceFailed | Acked(venueId: string, status: OrderStatus)

  /** `recorded` tells whether the ledger write for this slot reached the database. */
  datatype SwapAnswer = SwapAnswer(outcome: SwapOutcome, recorded: bool)

  /** `closeWritten` and `openWritten` tell the same of the position writes this order may cause. */
  datatype OrderAnswer = OrderAnswer(outcome: OrderOutcome, recorded: bool, closeWritten: bool, openWritten: bool)

  datatype TickInput = TickInput(
    now: Time, wall: Time, decisionId: string, decision: Decision,
    swapAnswers: seq<SwapAnswer>, orderAnswers: seq<OrderAnswer>)
  {
    /** Every slot of the decision has an answer. */
    ghost predicate Valid() {
      |swapAnswers| == |decision.swaps| && |orderAnswers| == |decision.orders|
    }
  }

  datatype Call =
    | QuoteCall(swap: SwapIntent)
    | SwapCall(swap: SwapIntent)
    | ConfirmCall(tx: string)
    | PlaceCall(order: OrderIntent)
    | CancelCall(id: string)

  datatype Desk = Desk(
    open: OpenBasis, positions: Positions, swapLedger: seq<SwapRow>, orderLedger: seq<OrderRow>, calls: seq<Call>)

  /* ----- keys and identifiers ----- */

  function SwapKey(s: SwapIntent): string {
    if s.basisKey != "" then ToUpper(s.basisKey) else ToUpper(s.outToken.symbol)
  }

  function OrderKey(o: OrderIntent): string {
    if o.basisKey != "" then ToUpper(o.basisKey) else ToUpper(o.symbol)
  }

  function SwapPreimage(agent: string, decisionId: string, slot: nat, s: SwapIntent): string {
    agent + "|" + decisionId + "|" + (Numeral(slot) + "|" +
      (s.chain + "|" + s.inToken.mint + "|" + s.outToken.mint))
  }

  function OrderPreimage(cfg: Config, decisionId: string, slot: nat, o: OrderIntent): string {
    cfg.agentId + "|" + decisionId + "|" + (Numeral(slot) + "|" +
      (o.venue + "|" + o.symbol + "|" + o.side.Text() + "|" + cfg.sizeText(o.size)))
  }

  function WithSwapClientId(cfg: Config, decisionId: string, slot: nat, s: SwapIntent): SwapIntent {
    if s.clientId != "" then s
    else s.(clientId := "sw_" + cfg.digest(SwapPreimage(cfg.agentId, decisionId, slot, s)))
  }

  function WithOrderClientId(cfg: Config, decisionId: string, slot: nat, o: OrderIntent): OrderIntent {
    if o.clientId != "" then o
    else o.(clientId := "pf_" + cfg.digest(OrderPreimage(cfg, decisionId, slot, o)))
  }

  function BasisId(agent: string, key: string, short: string): string {
    "bp:" + agent + ":" + key + ":" + short
  }

  /* ----- the snapshot the risk gate sees ----- */

  /** The positions under the given keys, listed in one fixed order. */
  ghost function Entries(open: OpenBasis, keys: set<string>): seq<BasisPosition> {
    if keys == {} then [] else
      var k := First(keys);
      (if k in open then [open[k]] else []) + Entries(open, keys - {k})
  }

  /** The stand-in for a basis accepted earlier in the same tick. */
  function Phantom(key: string): BasisPosition {
    BasisPosition("", "", key, Opening, [], 0, None)
  }

  ghost function Phantoms(keys: set<string>, exclude: string): seq<BasisPosition> {
    if keys == {} then [] else
      var k := First(keys);
      (if k == exclude then [] else [Phantom(k)]) + Phantoms(keys - {k}, exclude)
  }

  ghost function RiskSnapshot(open: OpenBasis, inflight: set<string>, exclude: string): seq<BasisPosition> {
    Entries(open, open.Keys) + Phantoms(inflight, exclude)
  }

  lemma {:induction false} SnapshotSize(open: OpenBasis, inflight: set<string>, exclude: string)
    ensures |RiskSnapshot(open, inflight, exclude)| == |open| + |inflight - {exclude}|
  {
    EntriesSize(open, open.Keys);
    PhantomsSize(inflight, exclude);
  }

  lemma {:induction false} EntriesSize(open: OpenBasis, keys: set<string>)
    requires keys <= open.Keys
    ensures |Entries(open, keys)| == |keys|
  {
    if keys != {} { EntriesSize(open, keys - {First(keys)}); }
  }

  lemma {:induction false} PhantomsSize(keys: set<string>, exclude: string)
    ensures |Phantoms(keys, exclude)| == |keys - {exclude}|
  {
    if keys != {} {
      var k := First(keys);
      PhantomsSize(keys - {k}, exclude);
      if k == exclude {
        assert keys - {exclude} == (keys - {k}) - {exclude};
      } else {
        assert keys - {exclude} == ((keys - {k}) - {exclude}) + {k};
      }
    }
  }

  predicate Refused(risk: Option<RiskEngine>, intent: Intent, snap: seq<BasisPosition>) {
    risk.Some? && risk.value(intent, snap).Block?
  }

  /** The agent's risk engine is the hard-limit policy with these limits. */
  ghost predicate UsesPolicy(cfg: Config, l: Limits) {
    cfg.risk.Some? && forall intent, snap :: cfg.risk.value(intent, snap) == PreTrade(l, intent, snap)
  }

  /* ----- executing one leg ----- */

  /** What executing an allowed leg does; `recorded` tells whether its ledger write reaches the database. */
  datatype Effect<Row> = Effect(accepted: bool, recorded: bool, calls: seq<Call>, row: Row)

  function SwapLedgerRow(cfg: Config, inp: TickInput, s: SwapIntent, dex: string, tx: string,
                         status: SwapStatus, paper: bool, outAmount: real, gas: real): SwapRow {
    SwapRow(Stamp(inp.now), cfg.agentId, inp.decisionId, s.chain, if dex == "" then "noop" else dex,
            s.inToken.symbol, s.outToken.symbol, s.inAmount, outAmount, s.slippageBps, gas,
            NullIfBlank(tx), status, paper, NullIfBlank(s.clientId))
  }

  /** A swap is booked on paper, or walked through its venue until a stage fails. */
  function ExecuteSwap(cfg: Config, inp: TickInput, s: SwapIntent, answer: SwapAnswer): Effect<SwapRow> {
    var venue := if s.chain in cfg.swapVenues then cfg.swapVenues[s.chain] else "";
    if cfg.paper || s.chain !in cfg.swapVenues then
      Effect(true, answer.recorded, [],
             SwapLedgerRow(cfg, inp, s, venue, "", SwapConfirmed, true, s.inAmount, 0.0))
    else match answer.outcome
      case QuoteFailed =>
        Effect(false, answer.recorded, [QuoteCall(s)],
               SwapLedgerRow(cfg, inp, s, venue, "", SwapFailed, false, 0.0, 0.0))
      case SubmitFailed =>
        Effect(false, answer.recorded, [QuoteCall(s), SwapCall(s)],
               SwapLedgerRow(cfg, inp, s, venue, "", SwapFailed, false, 0.0, 0.0))
      case ConfirmFailed(tx) =>
        Effect(false, answer.recorded, [QuoteCall(s), SwapCall(s), ConfirmCall(tx)],
               SwapLedgerRow(cfg, inp, s, venue, tx, SwapFailed, false, 0.0, 0.0))
      case Settled(tx, hash, status, outAmount, gas) =>
        Effect(status == SwapConfirmed, answer.recorded, [QuoteCall(s), SwapCall(s), ConfirmCall(tx)],
               SwapLedgerRow(cfg, inp, s, venue, hash, status, false, outAmount, gas))
  }

  function OrderLedgerRow(cfg: Config, inp: TickInput, o: OrderIntent, venueId: string,
                          status: OrderStatus, paper: bool): OrderRow {
    OrderRow(Stamp(inp.now), cfg.agentId, inp.decisionId, o.venue, o.symbol, o.side, o.price, o.size,
             o.reduceOnly, o.clientId, NullIfBlank(venueId), status, paper)
  }

  function ExecuteOrder(cfg: Config, inp: TickInput, o: OrderIntent, answer: OrderAnswer): Effect<OrderRow> {
    if cfg.paper || !cfg.hasPerp then
      Effect(true, answer.recorded, [], OrderLedgerRow(cfg, inp, o, "", OrderOpen, true))
    else match answer.outcome
      case PlaceFailed =>
        Effect(false, answer.recorded, [PlaceCall(o)], OrderLedgerRow(cfg, inp, o, "", OrderRejected, false))
      case Acked(venueId, status) =>
        Effect(status != OrderRejected, answer.recorded, [PlaceCall(o)],
               OrderLedgerRow(cfg, inp, o, venueId, status, false))
  }

  /** A hedge whose swap leg was accepted in this tick does not count that leg's cap slot again. */
  function Exclusion(o: OrderIntent, inflight: set<string>): string {
    if o.IsHedge() && OrderKey(o) in inflight then OrderKey(o) else ""
  }

  function StampedSwap(cfg: Config, inp: TickInput, slot: nat): SwapIntent
    requires slot < |inp.decision.swaps|
  {
    WithSwapClientId(cfg, inp.decisionId, slot, inp.decision.swaps[slot])
  }

  function StampedOrder(cfg: Config, inp: TickInput, slot: nat): OrderIntent
    requires slot < |inp.decision.orders|
  {
    WithOrderClientId(cfg, inp.decisionId, slot, inp.decision.orders[slot])
  }

  /* ----- executing all legs ----- */

  /**
   Everything about a tick's legs that is settled before they run: what each slot does if it is
   allowed, and the risk gate's answer for each slot and each set of keys in flight.
   */
  datatype Plan = Plan(
    decision: Decision,
    refusesSwap: (nat, set<string>) -> bool, refusesOrder: (nat, set<string>) -> bool,
    swapEffects: seq<Effect<SwapRow>>, orderEffects: seq<Effect<OrderRow>>)
  {
    ghost predicate Valid() {
      |swapEffects| == |decision.swaps| && |orderEffects| == |decision.orders|
    }
  }

  ghost predicate SwapRefused(cfg: Config, open: OpenBasis, inp: TickInput, slot: nat, inflight: set<string>) {
    slot < |inp.decision.swaps| &&
    Refused(cfg.risk, Intent.Swap(StampedSwap(cfg, inp, slot)), RiskSnapshot(open, inflight, ""))
  }

  ghost predicate OrderRefused(cfg: Config, open: OpenBasis, inp: TickInput, slot: nat, inflight: set<string>) {
    slot < |inp.decision.orders| &&
    var o := StampedOrder(cfg, inp, slot);
    Refused(cfg.risk, Intent.Order(o), RiskSnapshot(open, inflight, Exclusion(o, inflight)))
  }

  ghost function PlanOf(cfg: Config, open: OpenBasis, inp: TickInput): (plan: Plan)
    requires inp.Valid()
    ensures plan.Valid() && plan.decision == inp.decision
  {
    Plan(inp.decision,
         (slot: nat, inflight: set<string>) => SwapRefused(cfg, open, inp, slot, inflight),
         (slot: nat, inflight: set<string>) => OrderRefused(cfg, open, inp, slot, inflight),
         seq(|inp.decision.swaps|, i requires 0 <= i < |inp.decision.swaps| =>
           ExecuteSwap(cfg, inp, StampedSwap(cfg, inp, i), inp.swapAnswers[i])),
         seq(|inp.decision.orders|, j requires 0 <= j < |inp.decision.orders| =>
           ExecuteOrder(cfg, inp, StampedOrder(cfg, inp, j), inp.orderAnswers[j])))
  }

  /**
   The success maps and the side effects accumulated while the legs execute. `swapsDone` and
   `ordersDone` remember which slots succeeded; the runtime itself only keeps their keys.
   */
  datatype Progress = Progress(
    swapOk: set<string>, orderOk: set<string>, inflight: set<string>,
    swapsDone: set<nat>, ordersDone: set<nat>,
    swapLedger: seq<SwapRow>, orderLedger: seq<OrderRow>, calls: seq<Call>)

  function Untouched(d: Desk): Progress {
    Progress({}, {}, {}, {}, {}, d.swapLedger, d.orderLedger, d.calls)
  }

  function Written<T>(was: T, written: bool, r: Result<T, StoreError>): T {
    if written && r.Ok? then r.value else was
  }

  function SwapStep(plan: Plan, slot: nat, p: Progress): Progress
    requires plan.Valid() && slot < |plan.decision.swaps|
  {
    if plan.refusesSwap(slot, p.inflight) then p else
      var s, eff := plan.decision.swaps[slot], plan.swapEffects[slot];
      p.(calls := p.calls + eff.calls,
         swapLedger := Written(p.swapLedger, eff.recorded, PersistSwap(p.swapLedger, eff.row)),
         swapsDone := if eff.accepted then p.swapsDone + {slot} else p.swapsDone,
         swapOk := if eff.accepted then p.swapOk + {SwapKey(s)} else p.swapOk,
         inflight := if eff.accepted && s.IsOpening() then p.inflight + {SwapKey(s)} else p.inflight)
  }

  function AfterSwaps(plan: Plan, start: Progress, n: nat): Progress
    requires plan.Valid() && n <= |plan.decision.swaps|
  {
    if n == 0 then start else SwapStep(plan, n - 1, AfterSwaps(plan, start, n - 1))
  }

  function OrderStep(plan: Plan, slot: nat, p: Progress): Progress
    requires plan.Valid() && slot < |plan.decision.orders|
  {
    if plan.refusesOrder(slot, p.inflight) then p else
      var o, eff := plan.decision.orders[slot], plan.orderEffects[slot];
      p.(calls := p.calls + eff.calls,
         orderLedger := if eff.recorded then PersistOrder(p.orderLedger, eff.row) else p.orderLedger,
         ordersDone := if eff.accepted then p.ordersDone + {slot} else p.ordersDone,
         orderOk := if eff.accepted then p.orderOk + {OrderKey(o)} else p.orderOk,
         inflight := if eff.accepted && o.IsHedge() && OrderKey(o) !in p.swapOk
                     then p.inflight + {OrderKey(o)} else p.inflight)
  }

  function AfterOrders(plan: Plan, start: Progress, n: nat): Progress
    requires plan.Valid() && n <= |plan.decision.orders|
  {
    if n == 0 then AfterSwaps(plan, start, |plan.decision.swaps|)
    else OrderStep(plan, n - 1, AfterOrders(plan, start, n - 1))
  }

  /** The legs of the whole decision, executed. */
  function Executed(plan: Plan, start: Progress): Progress
    requires plan.Valid()
  {
    AfterOrders(plan, start, |plan.decision.orders|)
  }

  function CancelCalls(cfg: Config, ids: seq<string>): seq<Call> {
    if cfg.paper || !cfg.hasPerp then [] else seq(|ids|, i requires 0 <= i < |ids| => CancelCall(ids[i]))
  }

  /* ----- folding the successes into the open basis ----- */

  /** The in-memory open set together with the table it is written through to. */
  datatype Book = Book(open: OpenBasis, positions: Positions)

  predicate ClosesNow(o: OrderIntent, open: OpenBasis, orderOk: set<string>) {
    o.reduceOnly && OrderKey(o) in open && OrderKey(o) in orderOk
  }

  function CloseStep(cfg: Config, inp: TickInput, o: OrderIntent, written: bool, orderOk: set<string>, b: Book): Book {
    if !ClosesNow(o, b.open, orderOk) then b else
      var key := OrderKey(o);
      Book(b.open - {key},
           if written then CloseBasis(b.positions, cfg.agentId, b.open[key].underlying, inp.wall) else b.positions)
  }

  ghost function AfterCloses(cfg: Config, inp: TickInput, orderOk: set<string>, b: Book, n: nat): Book
    requires inp.Valid() && n <= |inp.decision.orders|
  {
    if n == 0 then b else
      CloseStep(cfg, inp, inp.decision.orders[n - 1], inp.orderAnswers[n - 1].closeWritten, orderOk,
                AfterCloses(cfg, inp, orderOk, b, n - 1))
  }

  /** The opening swap recorded for each key: the last one of the decision. */
  function OpeningSwaps(swaps: seq<SwapIntent>): map<string, SwapIntent> {
    if swaps == [] then map[] else
      var rest, s := OpeningSwaps(swaps[..|swaps| - 1]), swaps[|swaps| - 1];
      if s.IsOpening() then rest[SwapKey(s) := s] else rest
  }

  function NewBasis(cfg: Config, inp: TickInput, s: SwapIntent, o: OrderIntent): BasisPosition {
    BasisPosition(
      BasisId(cfg.agentId, OrderKey(o), ShortId(inp.decisionId)), cfg.agentId,
      if o.basisKey != "" then o.basisKey else o.symbol, Open,
      [Leg(Spot, s.outToken, "", s.inAmount, 0.0), Leg(Perp, NO_ASSET, o.symbol, o.size, o.price)],
      inp.now, None)
  }

  predicate OpensNow(o: OrderIntent, swaps: map<string, SwapIntent>, swapOk: set<string>, orderOk: set<string>,
                     open: OpenBasis) {
    var key := OrderKey(o);
    o.IsHedge() && key in swaps && key !in open && key in swapOk && key in orderOk
  }

  function OpenStep(cfg: Config, inp: TickInput, o: OrderIntent, written: bool,
                    swapOk: set<string>, orderOk: set<string>, b: Book): Book {
    var swaps := OpeningSwaps(inp.decision.swaps);
    if !OpensNow(o, swaps, swapOk, orderOk, b.open) then b else
      var bp := NewBasis(cfg, inp, swaps[OrderKey(o)], o);
      Book(b.open[OrderKey(o) := bp], Written(b.positions, written, UpsertOpenBasis(b.positions, bp)))
  }

  ghost function AfterOpens(cfg: Config, inp: TickInput, swapOk: set<string>, orderOk: set<string>, b: Book,
                            n: nat): Book
    requires inp.Valid() && n <= |inp.decision.orders|
  {
    if n == 0 then b else
      OpenStep(cfg, inp, inp.decision.orders[n - 1], inp.orderAnswers[n - 1].openWritten, swapOk, orderOk,
               AfterOpens(cfg, inp, swapOk, orderOk, b, n - 1))
  }

  /** Closes first, then opens. */
  ghost function Reconciled(cfg: Config, inp: TickInput, swapOk: set<string>, orderOk: set<string>, b: Book): Book
    requires inp.Valid()
  {
    var n := |inp.decision.orders|;
    AfterOpens(cfg, inp, swapOk, orderOk, AfterCloses(cfg, inp, orderOk, b, n), n)
  }

  ghost function Tick(cfg: Config, d: Desk, inp: TickInput): Desk
    requires inp.Valid()
  {
    var p := Executed(PlanOf(cfg, d.open, inp), Untouched(d));
    var b := Reconciled(cfg, inp, p.swapOk, p.orderOk, Book(d.open, d.positions));
    Desk(b.open, b.positions, p.swapLedger, p.orderLedger, p.calls + CancelCalls(cfg, inp.decision.cancels))
  }

  ghost predicate ValidRun(inputs: seq<TickInput>) {
    forall i | 0 <= i < |inputs| :: inputs[i].Valid()
  }

  /** A whole run, one input per tick. */
  ghost function Run(cfg: Config, d: Desk, inputs: seq<TickInput>): Desk
    requires ValidRun(inputs)
  {
    if inputs == [] then d
    else Tick(cfg, Run(cfg, d, inputs[..|inputs| - 1]), inputs[|inputs| - 1])
  }
}
