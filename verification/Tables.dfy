/** The persistent tables as values: basis positions keyed by id, and the swap and order ledgers. */
module Tables {
  import opened Wrappers
  import opened Types

  /** strategy_positions, keyed by its primary key. */
  type Positions = map<string, BasisPosition>

  datatype StoreError = UniqueViolation | NoOpenBasis | Unreachable

  /** A timestamp column keeps microseconds; the runtime's clock has nanoseconds. */
  function Stamp(t: Time): Time {
    t - t % 1000
  }

  /**
   The column holds the last whole microsecond that is not after the time, and keeps it when it is read
   and written again.
   */
  lemma StampIsLastMicrosecond(t: Time)
    ensures Stamp(t) <= t < Stamp(t) + 1000
    ensures forall m: int :: m * 1000 <= t <==> m * 1000 <= Stamp(t)
    ensures Stamp(Stamp(t)) == Stamp(t)
  {
  }

  function Stamped(p: BasisPosition): BasisPosition {
    p.(openedAt := Stamp(p.openedAt))
  }

  predicate LiveFor(row: BasisPosition, agent: string, underlying: string) {
    row.state.IsLive() && row.agentId == agent && row.underlying == underlying
  }

  /** The row an upsert leaves: a new id is inserted, a known id only has its state and legs replaced. */
  function UpsertedRow(t: Positions, p: BasisPosition): BasisPosition {
    if p.id in t then t[p.id].(state := p.state, legs := p.legs)
    else Stamped(p).(closedAt := None)
  }

  /** Whether storing `row` under `id` would break the partial unique index on live rows. */
  predicate Collides(t: Positions, id: string, row: BasisPosition) {
    row.state.IsLive() && exists other | other in t :: other != id && LiveFor(t[other], row.agentId, row.underlying)
  }

  function UpsertOpenBasis(t: Positions, p: BasisPosition): Result<Positions, StoreError> {
    var row := UpsertedRow(t, p);
    if Collides(t, p.id, row) then Err(UniqueViolation) else Ok(t[p.id := row])
  }

  function CloseBasis(t: Positions, agent: string, underlying: string, wall: Time): Positions {
    map id | id in t ::
      if LiveFor(t[id], agent, underlying) then t[id].(state := Closed, closedAt := Some(wall)) else t[id]
  }

  /** A close ends the live rows of that agent and underlying, and touches nothing else, in them or beside them. */
  lemma CloseEndsLiveRows(t: Positions, agent: string, underlying: string, wall: Time, id: string)
    requires id in t
    ensures var row, after := t[id], CloseBasis(t, agent, underlying, wall);
            && after.Keys == t.Keys
            && (row.state in {Opening, Open, Closing} && row.agentId == agent && row.underlying == underlying ==>
                  && after[id].state == Closed && after[id].closedAt == Some(wall)
                  && after[id].(state := row.state, closedAt := row.closedAt) == row)
            && (row.state in {Broken, Closed} || row.agentId != agent || row.underlying != underlying ==>
                  after[id] == row)
  {
  }

  function LiveIds(t: Positions, agent: string): set<string> {
    set id | id in t && t[id].state.IsLive() && t[id].agentId == agent
  }

  /** What the partial unique index guarantees. */
  ghost predicate OneLivePerUnderlying(t: Positions) {
    forall i, j | i in t && j in t && i != j && t[i].state.IsLive() ::
      !LiveFor(t[j], t[i].agentId, t[i].underlying)
  }

  lemma TableOpsKeepIndex(t: Positions, p: BasisPosition, agent: string, underlying: string, wall: Time)
    requires OneLivePerUnderlying(t)
    ensures UpsertOpenBasis(t, p).Ok? ==> OneLivePerUnderlying(UpsertOpenBasis(t, p).value)
    ensures OneLivePerUnderlying(CloseBasis(t, agent, underlying, wall))
  {
  }

  /** An upsert is accepted exactly when the table with its row still has one live row per agent and underlying. */
  lemma UpsertAcceptedExactly(t: Positions, p: BasisPosition)
    requires OneLivePerUnderlying(t)
    ensures UpsertOpenBasis(t, p).Ok? <==> OneLivePerUnderlying(t[p.id := UpsertedRow(t, p)])
  {
    var row, after := UpsertedRow(t, p), t[p.id := UpsertedRow(t, p)];
    if Collides(t, p.id, row) {
      var other :| other in t && other != p.id && LiveFor(t[other], row.agentId, row.underlying);
      assert after[other] == t[other] && after[p.id] == row;
    }
  }

  /** An upsert of a live position stores that position exactly when its id is new or was left by the same opening. */
  lemma UpsertStoresExactly(t: Positions, p: BasisPosition)
    requires p.closedAt == None && UpsertOpenBasis(t, p).Ok?
    ensures UpsertOpenBasis(t, p).value[p.id] == Stamped(p) <==>
            (p.id !in t || (t[p.id].agentId == p.agentId && t[p.id].underlying == p.underlying && t[p.id].id == p.id
                            && t[p.id].openedAt == Stamp(p.openedAt) && t[p.id].closedAt == None))
  {
  }

  datatype SwapRow = SwapRow(
    time: Time, agentId: string, decisionId: string, chain: string, dex: string,
    inToken: string, outToken: string, inAmount: real, outAmount: real, slippageBps: int,
    gasPaid: real, txHash: Option<string>, status: SwapStatus, paper: bool, clientId: Option<string>)

  datatype OrderRow = OrderRow(
    time: Time, agentId: string, decisionId: string, venue: string, symbol: string, side: Side,
    price: real, size: real, reduceOnly: bool, clientId: string, venueId: Option<string>,
    status: OrderStatus, paper: bool)

  /** The conflict target of a swap insert: NULL client ids never conflict. */
  predicate SameSwapClient(a: SwapRow, b: SwapRow) {
    a.clientId.Some? && a.clientId == b.clientId && a.agentId == b.agentId && a.time == b.time
  }

  /** The primary key the swap ledger was created with; no migration drops it. */
  predicate SameSwapPrimaryKey(a: SwapRow, b: SwapRow) {
    a.agentId == b.agentId && a.time == b.time && a.inToken == b.inToken && a.outToken == b.outToken
  }

  /** Insert; a row with the same client id makes it a no-op, any other primary-key clash is an error. */
  function PersistSwap(rows: seq<SwapRow>, r: SwapRow): Result<seq<SwapRow>, StoreError> {
    if exists i | 0 <= i < |rows| :: SameSwapClient(rows[i], r) then Ok(rows)
    else if exists i | 0 <= i < |rows| :: SameSwapPrimaryKey(rows[i], r) then Err(UniqueViolation)
    else Ok(rows + [r])
  }

  predicate SameOrderKey(a: OrderRow, b: OrderRow) {
    a.agentId == b.agentId && a.time == b.time && a.clientId == b.clientId
  }

  function PersistOrder(rows: seq<OrderRow>, r: OrderRow): seq<OrderRow> {
    if exists i | 0 <= i < |rows| :: SameOrderKey(rows[i], r) then rows else rows + [r]
  }
}
