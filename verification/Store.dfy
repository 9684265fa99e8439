/** The database tables as an object whose statements update them in place. */
module AgentStore {
  import opened Wrappers
  import opened Types
  import opened Tables

  class Store {
    var positions: Positions
    var swapLedger: seq<SwapRow>
    var orderLedger: seq<OrderRow>

    constructor ()
      ensures positions == map[] && swapLedger == [] && orderLedger == []
    {
      positions, swapLedger, orderLedger := map[], [], [];
    }

    /** `reachable` is false when the statement fails for reasons outside the tables. */
    method UpsertOpenBasis(p: BasisPosition, reachable: bool) returns (r: Result<(), StoreError>)
      modifies this`positions
      ensures r.Ok? <==> reachable && Tables.UpsertOpenBasis(old(positions), p).Ok?
      ensures positions == if r.Ok? then Tables.UpsertOpenBasis(old(positions), p).value else old(positions)
      ensures old(OneLivePerUnderlying(positions)) ==> OneLivePerUnderlying(positions)
    {
      if !reachable { return Err(Unreachable); }
      var row;
      if p.id in positions {
        row := positions[p.id].(state := p.state, legs := p.legs);
      } else {
        row := p.(openedAt := Stamp(p.openedAt), closedAt := None);
      }
      if Collides(positions, p.id, row) { return Err(UniqueViolation); }
      if OneLivePerUnderlying(positions) { TableOpsKeepIndex(positions, p, "", "", 0); }
      positions := positions[p.id := row];
      r := Ok(());
    }

    method CloseBasis(agent: string, underlying: string, wall: Time, reachable: bool)
      returns (r: Result<(), StoreError>)
      modifies this`positions
      ensures positions == if reachable then Tables.CloseBasis(old(positions), agent, underlying, wall)
                else old(positions)
      ensures r == if !reachable then Err(Unreachable)
                   else if exists id :: id in old(positions) && LiveFor(old(positions)[id], agent, underlying)
                     then Ok(())
                   else Err(NoOpenBasis)
      ensures old(OneLivePerUnderlying(positions)) ==> OneLivePerUnderlying(positions)
    {
      if !reachable { return Err(Unreachable); }
      var affected := set id | id in positions && LiveFor(positions[id], agent, underlying);
      positions := map id | id in positions ::
        if id in affected then positions[id].(state := Closed, closedAt := Some(wall)) else positions[id];
      if affected == {} {
        assert forall id | id in old(positions) :: id !in affected;
        return Err(NoOpenBasis);
      }
      ghost var id :| id in affected;
      assert LiveFor(old(positions)[id], agent, underlying);
      r := Ok(());
    }

    method PersistSwap(row: SwapRow, reachable: bool)
      modifies this`swapLedger
      ensures swapLedger == if reachable && Tables.PersistSwap(old(swapLedger), row).Ok?
                            then Tables.PersistSwap(old(swapLedger), row).value else old(swapLedger)
    {
      if !reachable { return; }
      if exists i | 0 <= i < |swapLedger| :: SameSwapClient(swapLedger[i], row) { return; }
      if exists i | 0 <= i < |swapLedger| :: SameSwapPrimaryKey(swapLedger[i], row) { return; }
      swapLedger := swapLedger + [row];
    }

    method PersistOrder(row: OrderRow, reachable: bool)
      modifies this`orderLedger
      ensures orderLedger == if reachable then Tables.PersistOrder(old(orderLedger), row) else old(orderLedger)
    {
      if !reachable { return; }
      if exists i | 0 <= i < |orderLedger| :: SameOrderKey(orderLedger[i], row) { return; }
      orderLedger := orderLedger + [row];
    }

    /** The agent's live rows, each once, oldest first. */
    method LoadOpenBasis(agent: string) returns (rows: seq<BasisPosition>)
      ensures forall p <- rows :: exists id :: id in LiveIds(positions, agent) && positions[id] == p
      ensures forall id <- LiveIds(positions, agent) :: positions[id] in rows
      ensures forall i, j | 0 <= i < j < |rows| :: rows[i].openedAt <= rows[j].openedAt
    {
      rows := [];
      var rest := LiveIds(positions, agent);
      while rest != {}
        invariant rest <= LiveIds(positions, agent)
        invariant forall p <- rows :: exists id :: id in LiveIds(positions, agent) && positions[id] == p
        invariant forall id <- LiveIds(positions, agent) - rest :: positions[id] in rows
        invariant forall i, j | 0 <= i < j < |rows| :: rows[i].openedAt <= rows[j].openedAt
        invariant forall p <- rows, id <- rest :: p.openedAt <= positions[id].openedAt
        decreases rest
      {
        var first := Oldest(rest);
        assert positions[first] in rows + [positions[first]];
        rows := rows + [positions[first]];
        rest := rest - {first};
      }
    }

    /** A row with the least opening time among the given ids. */
    method Oldest(ids: set<string>) returns (first: string)
      requires ids != {} && ids <= positions.Keys
      ensures first in ids && forall id <- ids :: positions[first].openedAt <= positions[id].openedAt
    {
      first :| first in ids;
      var rest := ids - {first};
      while rest != {}
        invariant rest <= ids && first in ids
        invariant forall id <- ids - rest :: positions[first].openedAt <= positions[id].openedAt
        decreases rest
      {
        var id :| id in rest;
        if positions[id].openedAt < positions[first].openedAt { first := id; }
        rest := rest - {id};
      }
    }
  }
}
