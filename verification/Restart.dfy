/** The open set in memory against the table it is written through to, tick by tick and across restarts. */
module Restart {
  import opened Wrappers
  import opened Texts
  import opened Types
  import opened Tables
  import opened TickSpec
  import opened TickFacts

  /** Entry and key belong together, and the entry is one the agent itself opened. */
  ghost predicate OwnEntry(agent: string, k: string, bp: BasisPosition) {
    bp.agentId == agent && ToUpper(bp.underlying) == k && bp.state.IsLive() && bp.closedAt == None
  }

  ghost predicate OwnEntries(agent: string, open: OpenBasis) {
    forall k <- open :: OwnEntry(agent, k, open[k])
  }

  /** Every entry is stored, up to the precision of the timestamp column. */
  ghost predicate AllStored(open: OpenBasis, t: Positions) {
    forall k <- open :: open[k].id in t && t[open[k].id] == Stamped(open[k])
  }

  ghost predicate Backed(open: OpenBasis, id: string) {
    exists k :: k in open && open[k].id == id
  }

  /** The table's live rows of the agent are exactly the entries of the open set. */
  ghost predicate RowsMatch(agent: string, b: Book) {
    && AllStored(b.open, b.positions)
    && forall id <- LiveIds(b.positions, agent) :: Backed(b.open, id)
  }

  lemma RowKey(agent: string, b: Book, id: string) returns (k: string)
    requires OwnEntries(agent, b.open) && RowsMatch(agent, b) && id in LiveIds(b.positions, agent)
    ensures k in b.open && b.open[k].id == id && b.positions[id] == Stamped(b.open[k])
    ensures ToUpper(b.positions[id].underlying) == k
  {
    assert Backed(b.open, id);
    k :| k in b.open && b.open[k].id == id;
  }

  /* ----- hydration ----- */

  /**
   What a freshly built runtime holds: under each upper-cased underlying, a live row of the agent
   with the latest opening time among those that share the key.
   */
  ghost predicate IsHydration(m: OpenBasis, t: Positions, agent: string) {
    && (forall id <- LiveIds(t, agent) :: ToUpper(t[id].underlying) in m
          && t[id].openedAt <= m[ToUpper(t[id].underlying)].openedAt)
    && (forall k <- m :: exists id :: id in LiveIds(t, agent) && m[k] == t[id] && ToUpper(t[id].underlying) == k)
  }

  ghost function StampedAll(open: OpenBasis): OpenBasis {
    map k <- open :: Stamped(open[k])
  }

  /** While the rows match, hydrating gives back the running open set, whatever order rows are read in. */
  lemma HydrationIsExact(agent: string, b: Book, m: OpenBasis)
    requires OwnEntries(agent, b.open) && RowsMatch(agent, b) && IsHydration(m, b.positions, agent)
    ensures m == StampedAll(b.open)
  {
    forall k | k in b.open ensures k in m {
      assert b.open[k].id in LiveIds(b.positions, agent);
    }
    forall k | k in m ensures k in b.open && m[k] == Stamped(b.open[k]) {
      var id :| id in LiveIds(b.positions, agent) && m[k] == b.positions[id]
          && ToUpper(b.positions[id].underlying) == k;
      var key := RowKey(agent, b, id);
    }
  }

  /* ----- one write-through step ----- */

  lemma CloseTouchesOneRow(agent: string, b: Book, k: string, wall: Time)
    requires OwnEntries(agent, b.open) && RowsMatch(agent, b) && k in b.open
    ensures var t := CloseBasis(b.positions, agent, b.open[k].underlying, wall);
            && t.Keys == b.positions.Keys
            && !t[b.open[k].id].state.IsLive()
            && forall id | id in t && id != b.open[k].id :: t[id] == b.positions[id]
  {
    var u := b.open[k].underlying;
    forall id | id in b.positions && id != b.open[k].id
      ensures !LiveFor(b.positions[id], agent, u)
    {
      if LiveFor(b.positions[id], agent, u) {
        var key := RowKey(agent, b, id);
      }
    }
  }

  lemma CloseKeepsMatch(agent: string, b: Book, k: string, wall: Time)
    requires OwnEntries(agent, b.open) && RowsMatch(agent, b) && k in b.open
    ensures RowsMatch(agent, Book(b.open - {k}, CloseBasis(b.positions, agent, b.open[k].underlying, wall)))
  {
    var c := Book(b.open - {k}, CloseBasis(b.positions, agent, b.open[k].underlying, wall));
    CloseTouchesOneRow(agent, b, k, wall);
    forall m | m in c.open ensures c.open[m].id in c.positions && c.positions[c.open[m].id] == Stamped(c.open[m]) {
      assert b.open[m].id != b.open[k].id;
    }
    forall id | id in LiveIds(c.positions, agent) ensures Backed(c.open, id) {
      var key := RowKey(agent, b, id);
      assert key in c.open;
    }
  }

  /** An opening under a fresh id and an unused key never meets another live row and is stored as it is. */
  lemma OpenKeepsMatch(agent: string, b: Book, k: string, bp: BasisPosition)
    requires OwnEntries(agent, b.open) && RowsMatch(agent, b)
    requires k !in b.open && OwnEntry(agent, k, bp) && bp.id !in b.positions
    ensures UpsertOpenBasis(b.positions, bp) == Ok(b.positions[bp.id := Stamped(bp)])
    ensures RowsMatch(agent, Book(b.open[k := bp], b.positions[bp.id := Stamped(bp)]))
  {
    forall id | id in b.positions ensures !LiveFor(b.positions[id], agent, bp.underlying) {
      if LiveFor(b.positions[id], agent, bp.underlying) {
        var key := RowKey(agent, b, id);
      }
    }
    var c := Book(b.open[k := bp], b.positions[bp.id := Stamped(bp)]);
    assert k in c.open;
    forall id | id in LiveIds(c.positions, agent) ensures Backed(c.open, id) {
      if id != bp.id {
        var key := RowKey(agent, b, id);
        assert key in c.open;
      }
    }
  }

  /* ----- a whole tick ----- */

  /** The id a tick gives to the position it opens under key k. */
  function MintedId(cfg: Config, inp: TickInput, k: string): string {
    BasisId(cfg.agentId, k, ShortId(inp.decisionId))
  }

  /** No row yet carries an id this tick could mint; only keys of pairs can be opened. */
  ghost predicate FreshIds(cfg: Config, t: Positions, inp: TickInput) {
    forall k | Pairable(inp.decision, k) :: MintedId(cfg, inp, k) !in t
  }

  lemma OpensOnlyPairs(inp: TickInput, o: OrderIntent, swapOk: set<string>, orderOk: set<string>, open: OpenBasis)
    requires o in inp.decision.orders && OpensNow(o, OpeningSwaps(inp.decision.swaps), swapOk, orderOk, open)
    ensures Pairable(inp.decision, OrderKey(o))
  {
    var j: nat :| j < |inp.decision.orders| && inp.decision.orders[j] == o;
    assert HedgeAt(inp.decision, j, OrderKey(o));
    PairedSwap(inp.decision, OrderKey(o));
    var i: nat :| LastOpeningAt(inp.decision, i, OrderKey(o));
    assert OpeningAt(inp.decision, i, OrderKey(o));
  }

  /** The write that order j causes, if any, does not reach the database. */
  ghost predicate CloseLost(cfg: Config, inp: TickInput, orderOk: set<string>, b: Book, j: nat)
    requires inp.Valid() && j < |inp.decision.orders|
  {
    ClosesNow(inp.decision.orders[j], AfterCloses(cfg, inp, orderOk, b, j).open, orderOk)
        && !inp.orderAnswers[j].closeWritten
  }

  ghost predicate OpenLost(cfg: Config, inp: TickInput, swapOk: set<string>, orderOk: set<string>, b: Book, j: nat)
    requires inp.Valid() && j < |inp.decision.orders|
  {
    && OpensNow(inp.decision.orders[j], OpeningSwaps(inp.decision.swaps), swapOk, orderOk,
                AfterOpens(cfg, inp, swapOk, orderOk, b, j).open)
    && !inp.orderAnswers[j].openWritten
  }

  lemma {:induction false} ClosesKeepOwn(cfg: Config, inp: TickInput, orderOk: set<string>, b: Book, n: nat)
    requires inp.Valid() && n <= |inp.decision.orders| && OwnEntries(cfg.agentId, b.open)
    ensures OwnEntries(cfg.agentId, AfterCloses(cfg, inp, orderOk, b, n).open)
    ensures AfterCloses(cfg, inp, orderOk, b, n).positions.Keys == b.positions.Keys
  {
    if n > 0 { ClosesKeepOwn(cfg, inp, orderOk, b, n - 1); }
  }

  lemma {:induction false} OpensKeepOwn(cfg: Config, inp: TickInput, swapOk: set<string>, orderOk: set<string>, b: Book,
                                        n: nat)
    requires inp.Valid() && n <= |inp.decision.orders| && OwnEntries(cfg.agentId, b.open)
    ensures OwnEntries(cfg.agentId, AfterOpens(cfg, inp, swapOk, orderOk, b, n).open)
  {
    if n > 0 { OpensKeepOwn(cfg, inp, swapOk, orderOk, b, n - 1); }
  }

  /* ----- the close phase ----- */

  /** A live row the open set has forgotten, under a key that is not open either. */
  ghost predicate Stray(agent: string, b: Book, id: string) {
    id in LiveIds(b.positions, agent) && !Backed(b.open, id) && ToUpper(b.positions[id].underlying) !in b.open
  }

  lemma StraySurvivesClose(cfg: Config, inp: TickInput, o: OrderIntent, written: bool, orderOk: set<string>, b: Book,
                           id: string)
    requires OwnEntries(cfg.agentId, b.open) && Stray(cfg.agentId, b, id)
    ensures Stray(cfg.agentId, CloseStep(cfg, inp, o, written, orderOk, b), id)
  {
    if ClosesNow(o, b.open, orderOk) {
      var key := OrderKey(o);
      assert !LiveFor(b.positions[id], cfg.agentId, b.open[key].underlying);
      assert forall k | k in b.open - {key} :: k in b.open && (b.open - {key})[k] == b.open[k];
    }
  }

  lemma LostCloseLeavesStray(cfg: Config, inp: TickInput, o: OrderIntent, orderOk: set<string>, b: Book)
    requires OwnEntries(cfg.agentId, b.open) && RowsMatch(cfg.agentId, b) && ClosesNow(o, b.open, orderOk)
    ensures Stray(cfg.agentId, CloseStep(cfg, inp, o, false, orderOk, b), b.open[OrderKey(o)].id)
  {
    var key := OrderKey(o);
    var id := b.open[key].id;
    forall k | k in b.open - {key} ensures (b.open - {key})[k].id != id {
      assert b.positions[b.open[k].id] == Stamped(b.open[k]);
    }
  }

  lemma CloseStepKeepsMatch(cfg: Config, inp: TickInput, o: OrderIntent, written: bool, orderOk: set<string>, b: Book)
    requires OwnEntries(cfg.agentId, b.open) && RowsMatch(cfg.agentId, b)
    requires ClosesNow(o, b.open, orderOk) ==> written
    ensures RowsMatch(cfg.agentId, CloseStep(cfg, inp, o, written, orderOk, b))
  {
    if ClosesNow(o, b.open, orderOk) {
      CloseKeepsMatch(cfg.agentId, b, OrderKey(o), inp.wall);
    }
  }

  lemma {:induction false} LandedClosesKeepMatch(cfg: Config, inp: TickInput, orderOk: set<string>, b: Book, n: nat)
    requires inp.Valid() && n <= |inp.decision.orders|
    requires OwnEntries(cfg.agentId, b.open) && RowsMatch(cfg.agentId, b)
    requires forall j: nat | j < n :: !CloseLost(cfg, inp, orderOk, b, j)
    ensures RowsMatch(cfg.agentId, AfterCloses(cfg, inp, orderOk, b, n))
  {
    if n > 0 {
      LandedClosesKeepMatch(cfg, inp, orderOk, b, n - 1);
      ClosesKeepOwn(cfg, inp, orderOk, b, n - 1);
      assert !CloseLost(cfg, inp, orderOk, b, n - 1);
      CloseStepKeepsMatch(cfg, inp, inp.decision.orders[n - 1], inp.orderAnswers[n - 1].closeWritten, orderOk,
                          AfterCloses(cfg, inp, orderOk, b, n - 1));
    }
  }

  /** Of the lost closes up to j, the first. */
  lemma {:induction false} FirstLostClose(cfg: Config, inp: TickInput, orderOk: set<string>, b: Book, j: nat)
    returns (first: nat)
    requires inp.Valid() && j < |inp.decision.orders| && CloseLost(cfg, inp, orderOk, b, j)
    ensures first <= j && CloseLost(cfg, inp, orderOk, b, first)
    ensures forall i: nat | i < first :: !CloseLost(cfg, inp, orderOk, b, i)
  {
    if i: nat :| i < j && CloseLost(cfg, inp, orderOk, b, i) {
      first := FirstLostClose(cfg, inp, orderOk, b, i);
    } else {
      first := j;
    }
  }

  /** The row of the first lost close stays live and forgotten, whatever the later orders do. */
  lemma {:induction false} LostCloseStaysStray(cfg: Config, inp: TickInput, orderOk: set<string>, b: Book, first: nat,
                                               n: nat) returns (id: string)
    requires inp.Valid() && first < n <= |inp.decision.orders|
    requires OwnEntries(cfg.agentId, b.open) && RowsMatch(cfg.agentId, b)
    requires CloseLost(cfg, inp, orderOk, b, first) && forall i: nat | i < first :: !CloseLost(cfg, inp, orderOk, b, i)
    ensures Stray(cfg.agentId, AfterCloses(cfg, inp, orderOk, b, n), id)
  {
    var before, o := AfterCloses(cfg, inp, orderOk, b, n - 1), inp.decision.orders[n - 1];
    ClosesKeepOwn(cfg, inp, orderOk, b, n - 1);
    if first < n - 1 {
      id := LostCloseStaysStray(cfg, inp, orderOk, b, first, n - 1);
      StraySurvivesClose(cfg, inp, o, inp.orderAnswers[n - 1].closeWritten, orderOk, before, id);
    } else {
      LandedClosesKeepMatch(cfg, inp, orderOk, b, first);
      LostCloseLeavesStray(cfg, inp, o, orderOk, before);
      id := before.open[OrderKey(o)].id;
    }
  }

  /* ----- the open phase ----- */

  /** Ids minted in this tick belong to keys that are open by now. */
  ghost predicate MintedAreOpen(cfg: Config, inp: TickInput, b: Book) {
    forall k | Pairable(inp.decision, k) :: MintedId(cfg, inp, k) in b.positions ==> k in b.open
  }

  lemma BasisIdInjective(agent: string, k: string, m: string, short: string)
    requires BasisId(agent, k, short) == BasisId(agent, m, short)
    ensures k == m
  {
    var head := "bp:" + agent + ":";
    var id := BasisId(agent, k, short);
    assert id == head + k + (":" + short) == head + m + (":" + short);
    assert k == id[|head|..|id| - |short| - 1] == m;
  }

  lemma OpenStepMints(cfg: Config, inp: TickInput, o: OrderIntent, written: bool,
                      swapOk: set<string>, orderOk: set<string>, b: Book)
    requires MintedAreOpen(cfg, inp, b)
    ensures MintedAreOpen(cfg, inp, OpenStep(cfg, inp, o, written, swapOk, orderOk, b))
  {
    var c := OpenStep(cfg, inp, o, written, swapOk, orderOk, b);
    forall k | Pairable(inp.decision, k) && MintedId(cfg, inp, k) in c.positions ensures k in c.open {
      if MintedId(cfg, inp, k) !in b.positions {
        BasisIdInjective(cfg.agentId, k, OrderKey(o), ShortId(inp.decisionId));
      }
    }
  }

  lemma {:induction false} OpensMint(cfg: Config, inp: TickInput, swapOk: set<string>, orderOk: set<string>, b: Book,
                                     n: nat)
    requires inp.Valid() && n <= |inp.decision.orders| && MintedAreOpen(cfg, inp, b)
    ensures MintedAreOpen(cfg, inp, AfterOpens(cfg, inp, swapOk, orderOk, b, n))
  {
    if n > 0 {
      OpensMint(cfg, inp, swapOk, orderOk, b, n - 1);
      OpenStepMints(cfg, inp, inp.decision.orders[n - 1], inp.orderAnswers[n - 1].openWritten, swapOk, orderOk,
                    AfterOpens(cfg, inp, swapOk, orderOk, b, n - 1));
    }
  }

  /** A live row from before the tick that no entry stands for. */
  ghost predicate Orphan(cfg: Config, inp: TickInput, b: Book, id: string) {
    && id in LiveIds(b.positions, cfg.agentId) && !Backed(b.open, id)
    && forall k | Pairable(inp.decision, k) :: id != MintedId(cfg, inp, k)
  }

  lemma OrphanSurvivesOpen(cfg: Config, inp: TickInput, o: OrderIntent, written: bool,
                           swapOk: set<string>, orderOk: set<string>, b: Book, id: string)
    requires Orphan(cfg, inp, b, id) && o in inp.decision.orders
    ensures Orphan(cfg, inp, OpenStep(cfg, inp, o, written, swapOk, orderOk, b), id)
  {
    var c := OpenStep(cfg, inp, o, written, swapOk, orderOk, b);
    if OpensNow(o, OpeningSwaps(inp.decision.swaps), swapOk, orderOk, b.open) {
      OpensOnlyPairs(inp, o, swapOk, orderOk, b.open);
      assert id != MintedId(cfg, inp, OrderKey(o));
    }
    forall k | k in c.open ensures c.open[k].id != id {
      assert k in b.open ==> c.open[k] == b.open[k];
    }
  }

  lemma {:induction false} OrphanSurvives(cfg: Config, inp: TickInput, swapOk: set<string>, orderOk: set<string>,
                                          b: Book, id: string, n: nat)
    requires inp.Valid() && n <= |inp.decision.orders| && Orphan(cfg, inp, b, id)
    ensures Orphan(cfg, inp, AfterOpens(cfg, inp, swapOk, orderOk, b, n), id)
  {
    if n > 0 {
      OrphanSurvives(cfg, inp, swapOk, orderOk, b, id, n - 1);
      OrphanSurvivesOpen(cfg, inp, inp.decision.orders[n - 1], inp.orderAnswers[n - 1].openWritten, swapOk, orderOk,
                         AfterOpens(cfg, inp, swapOk, orderOk, b, n - 1), id);
    }
  }

  /** An entry whose row is missing. */
  ghost predicate Unstored(cfg: Config, inp: TickInput, b: Book, k: string) {
    k in b.open && b.open[k].id == MintedId(cfg, inp, k) && b.open[k].id !in b.positions
  }

  lemma UnstoredSurvivesOpen(cfg: Config, inp: TickInput, o: OrderIntent, written: bool,
                             swapOk: set<string>, orderOk: set<string>, b: Book, k: string)
    requires Unstored(cfg, inp, b, k)
    ensures Unstored(cfg, inp, OpenStep(cfg, inp, o, written, swapOk, orderOk, b), k)
  {
    if OpensNow(o, OpeningSwaps(inp.decision.swaps), swapOk, orderOk, b.open)
       && MintedId(cfg, inp, OrderKey(o)) == b.open[k].id {
      BasisIdInjective(cfg.agentId, k, OrderKey(o), ShortId(inp.decisionId));
    }
  }

  lemma {:induction false} LandedOpensKeepMatch(cfg: Config, inp: TickInput, swapOk: set<string>, orderOk: set<string>,
                                                b: Book, n: nat)
    requires inp.Valid() && n <= |inp.decision.orders|
    requires OwnEntries(cfg.agentId, b.open) && RowsMatch(cfg.agentId, b) && MintedAreOpen(cfg, inp, b)
    requires forall j: nat | j < n :: !OpenLost(cfg, inp, swapOk, orderOk, b, j)
    ensures RowsMatch(cfg.agentId, AfterOpens(cfg, inp, swapOk, orderOk, b, n))
  {
    if n > 0 {
      LandedOpensKeepMatch(cfg, inp, swapOk, orderOk, b, n - 1);
      OpensKeepOwn(cfg, inp, swapOk, orderOk, b, n - 1);
      OpensMint(cfg, inp, swapOk, orderOk, b, n - 1);
      assert !OpenLost(cfg, inp, swapOk, orderOk, b, n - 1);
      OpenStepKeepsMatch(cfg, inp, inp.decision.orders[n - 1], swapOk, orderOk,
                         AfterOpens(cfg, inp, swapOk, orderOk, b, n - 1), inp.orderAnswers[n - 1].openWritten);
    }
  }

  lemma LostOpenIsUnstored(cfg: Config, inp: TickInput, swapOk: set<string>, orderOk: set<string>, b: Book, j: nat)
    requires inp.Valid() && j < |inp.decision.orders| && MintedAreOpen(cfg, inp, b)
    requires OpenLost(cfg, inp, swapOk, orderOk, b, j)
    ensures Unstored(cfg, inp, AfterOpens(cfg, inp, swapOk, orderOk, b, j + 1), OrderKey(inp.decision.orders[j]))
  {
    OpensMint(cfg, inp, swapOk, orderOk, b, j);
    OpensOnlyPairs(inp, inp.decision.orders[j], swapOk, orderOk, AfterOpens(cfg, inp, swapOk, orderOk, b, j).open);
  }

  lemma {:induction false} LostOpenStaysUnstored(cfg: Config, inp: TickInput, swapOk: set<string>,
                                                 orderOk: set<string>, b: Book, j: nat, n: nat)
    requires inp.Valid() && j < n <= |inp.decision.orders| && MintedAreOpen(cfg, inp, b)
    requires OpenLost(cfg, inp, swapOk, orderOk, b, j)
    ensures Unstored(cfg, inp, AfterOpens(cfg, inp, swapOk, orderOk, b, n), OrderKey(inp.decision.orders[j]))
  {
    if j < n - 1 {
      LostOpenStaysUnstored(cfg, inp, swapOk, orderOk, b, j, n - 1);
      UnstoredSurvivesOpen(cfg, inp, inp.decision.orders[n - 1], inp.orderAnswers[n - 1].openWritten, swapOk, orderOk,
                           AfterOpens(cfg, inp, swapOk, orderOk, b, n - 1), OrderKey(inp.decision.orders[j]));
    } else {
      LostOpenIsUnstored(cfg, inp, swapOk, orderOk, b, j);
    }
  }

  lemma OpenStepKeepsMatch(cfg: Config, inp: TickInput, o: OrderIntent, swapOk: set<string>, orderOk: set<string>,
                           b: Book, written: bool)
    requires OwnEntries(cfg.agentId, b.open) && RowsMatch(cfg.agentId, b) && MintedAreOpen(cfg, inp, b)
    requires o in inp.decision.orders
    requires OpensNow(o, OpeningSwaps(inp.decision.swaps), swapOk, orderOk, b.open) ==> written
    ensures RowsMatch(cfg.agentId, OpenStep(cfg, inp, o, written, swapOk, orderOk, b))
  {
    var swaps := OpeningSwaps(inp.decision.swaps);
    if OpensNow(o, swaps, swapOk, orderOk, b.open) {
      OpensOnlyPairs(inp, o, swapOk, orderOk, b.open);
      var bp := NewBasis(cfg, inp, swaps[OrderKey(o)], o);
      assert bp.id == MintedId(cfg, inp, OrderKey(o));
      OpenKeepsMatch(cfg.agentId, b, OrderKey(o), bp);
    }
  }

  /* ----- the theorem for one tick ----- */

  /** Every position write the tick attempts reaches the database. */
  ghost predicate AllWritesLand(cfg: Config, d: Desk, inp: TickInput)
    requires inp.Valid()
  {
    var p, b := Legs(cfg, d, inp), Book(d.open, d.positions);
    var closed := AfterCloses(cfg, inp, p.orderOk, b, |inp.decision.orders|);
    && (forall j: nat | j < |inp.decision.orders| :: !CloseLost(cfg, inp, p.orderOk, b, j))
    && (forall j: nat | j < |inp.decision.orders| :: !OpenLost(cfg, inp, p.swapOk, p.orderOk, closed, j))
  }

  lemma TickKeepsOwn(cfg: Config, d: Desk, inp: TickInput)
    requires inp.Valid() && OwnEntries(cfg.agentId, d.open)
    ensures OwnEntries(cfg.agentId, Tick(cfg, d, inp).open)
  {
    var p, b, n := Legs(cfg, d, inp), Book(d.open, d.positions), |inp.decision.orders|;
    ClosesKeepOwn(cfg, inp, p.orderOk, b, n);
    OpensKeepOwn(cfg, inp, p.swapOk, p.orderOk, AfterCloses(cfg, inp, p.orderOk, b, n), n);
  }

  /** Table and memory still agree after a tick exactly when no position write was lost. */
  lemma TickKeepsRowsExactly(cfg: Config, d: Desk, inp: TickInput)
    requires inp.Valid() && OwnEntries(cfg.agentId, d.open) && RowsMatch(cfg.agentId, Book(d.open, d.positions))
    requires FreshIds(cfg, d.positions, inp)
    ensures RowsMatch(cfg.agentId, Book(Tick(cfg, d, inp).open, Tick(cfg, d, inp).positions))
            <==> AllWritesLand(cfg, d, inp)
  {
    var p, b, n := Legs(cfg, d, inp), Book(d.open, d.positions), |inp.decision.orders|;
    var closed := AfterCloses(cfg, inp, p.orderOk, b, n);
    ClosesKeepOwn(cfg, inp, p.orderOk, b, n);
    assert MintedAreOpen(cfg, inp, closed);
    if j: nat :| j < n && CloseLost(cfg, inp, p.orderOk, b, j) {
      var first := FirstLostClose(cfg, inp, p.orderOk, b, j);
      var id := LostCloseStaysStray(cfg, inp, p.orderOk, b, first, n);
      assert Orphan(cfg, inp, closed, id);
      OrphanSurvives(cfg, inp, p.swapOk, p.orderOk, closed, id, n);
    } else {
      LandedClosesKeepMatch(cfg, inp, p.orderOk, b, n);
      if j: nat :| j < n && OpenLost(cfg, inp, p.swapOk, p.orderOk, closed, j) {
        LostOpenStaysUnstored(cfg, inp, p.swapOk, p.orderOk, closed, j, n);
      } else {
        LandedOpensKeepMatch(cfg, inp, p.swapOk, p.orderOk, closed, n);
      }
    }
  }

  /* ----- when rows end ----- */

  /** A row of the table either keeps its closing time or has this one. */
  ghost predicate EndsAt(t: Positions, after: Positions, id: string, wall: Time) {
    id in t ==> id in after && (after[id].closedAt == t[id].closedAt || after[id].closedAt == Some(wall))
  }

  lemma {:induction false} ClosesEndAt(cfg: Config, inp: TickInput, orderOk: set<string>, b: Book, n: nat, id: string)
    requires inp.Valid() && n <= |inp.decision.orders|
    ensures EndsAt(b.positions, AfterCloses(cfg, inp, orderOk, b, n).positions, id, inp.wall)
  {
    if n > 0 { ClosesEndAt(cfg, inp, orderOk, b, n - 1, id); }
  }

  lemma {:induction false} OpensEndNothing(cfg: Config, inp: TickInput, swapOk: set<string>, orderOk: set<string>,
                                           b: Book, n: nat, id: string)
    requires inp.Valid() && n <= |inp.decision.orders| && id in b.positions
    ensures var t := AfterOpens(cfg, inp, swapOk, orderOk, b, n).positions;
            id in t && t[id].closedAt == b.positions[id].closedAt
  {
    if n > 0 { OpensEndNothing(cfg, inp, swapOk, orderOk, b, n - 1, id); }
  }

  /** The rows a tick closes are closed at the time of the database's clock, not of the tick. */
  lemma TickEndsRowsAt(cfg: Config, d: Desk, inp: TickInput, id: string)
    requires inp.Valid()
    ensures EndsAt(d.positions, Tick(cfg, d, inp).positions, id, inp.wall)
  {
    var p, b, n := Legs(cfg, d, inp), Book(d.open, d.positions), |inp.decision.orders|;
    var closed := AfterCloses(cfg, inp, p.orderOk, b, n);
    ClosesEndAt(cfg, inp, p.orderOk, b, n, id);
    if id in d.positions {
      OpensEndNothing(cfg, inp, p.swapOk, p.orderOk, closed, n, id);
    }
  }
}
