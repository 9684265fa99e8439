# Permafrost, modelled and proved in Dafny

Permafrost runs trading agents. A strategy returns a decision (swaps, orders, cancels) on every tick;
the runtime passes each leg through a risk gate, executes it against a swap venue or a perpetuals
venue, and folds the legs that succeeded into a set of open basis positions that is written through to
a table and read back on restart. The same strategies can be replayed over a funding series by a
backtest engine. This project models both, and the arithmetic around them, and proves what they keep
over every decision, every venue answer and every run.

`dafny verify dfyconfig.toml` checks the whole project.

## How it is organised

Every stateful component is a class or a method with loops, in the shape of the code it models, proved
equal to a function of the old state; the theorems are lemmas about those functions.

- The agent. `Types`, `Texts`, `RiskPolicy` and `Tables` are the values, the gate and the tables.
  `TickSpec` is one tick as a function of the desk (open set, tables, log of venue calls) and of the
  answers the venues give. `AgentRuntime.Runtime` and `AgentStore.Store` are the objects. `TickFacts`
  characterises the open set after a tick; `TickSafety` (position cap), `Starvation` (hedges refused by
  the cap), `PairedLegs` (half-open pairs, order of venue calls), `PaperMode`, `Restart`, `RestartRuns` and
  `CapAcrossRestarts`, and `Ledgers`, `LedgerRows` and `Replays` hold the theorems; `RecordedBooks` says what
  the book of a run is worth and what the limits make of it. `Staging` builds the adversarial venue answers
  that refute what is false.
- The backtest. `MarketData`, `SimulatedPortfolio`, `Drawdown` and `Backtest` are the components;
  `BacktestLaws` (conservation), `HoldingWindows` (what a trade earns), `FundingRates` (what that comes
  to), `BacktestTrades` (which trades, at what cost), `Causality` (no look-ahead) and `TickOrder` (ticks of
  one instant) hold the theorems. The strategy is an arbitrary state-passing function.
- The smaller cores: `Momentum`, `MomentumRuns` and `MomentumPrices` (rotation), `Allocator`, `Reconcile` and
  `ReconcileCases`, `DcaBuy` and `Rao`.
  Beneath them all, `Decimals` (division to 16 places, half away from zero; the other operations are exact),
  `Integers` (64-bit wrap-around) and `Collections`.

Venues, the clock, decision ids and the reachability of the database are inputs, universally
quantified, so every theorem holds against adversarial ones. A tick is atomic.

## Where the code does less than it or its documentation says

Each of these is a lemma, with the exact condition under which the promise holds.

- Spot first. README.md:232, apps/docs/docs/introduction/architecture.md:76, apps/docs/docs/strategies/sapi.md:25
  and apps/docs/docs/concepts/agent-runtime.md:31 say the perp order waits for its swap to confirm, or is
  dropped when the swap fails. internal/agent/runtime.go:437-447 sends every order. A hedge never precedes
  a failed swap exactly when the decision pairs nothing at all (`PairedLegs.SpotFirstExact`); what does hold
  is the order of calls (`PairedLegs.TickCallOrder`): all swap calls, then all placements, then cancels,
  where agent-runtime.md:30 puts cancels first.
- Half-open pairs. Success is remembered per key, not per intent, and an entry records the last opening swap
  and the first hedge of its key whether or not those two succeeded, so another leg with the same key can vouch
  for one that failed. An entry never records a failed leg exactly when the key of every pair is carried by one
  swap and one order (`PairedLegs.HalfOpenExact`, and `TwoPurchasesRecordedHalfOpen` for a failing input).
- Position cap. The same effect lets a decision end above the cap; `TickSafety.CapExact` says, for every
  decision, whether it can. Distinct swap keys suffice when no key is empty or order keys are distinct too.
- Hedge starvation. An empty basis key means "leave nothing out" to the snapshot, so a leg under it goes
  uncounted at first and is counted against a later hedge. A hedge can be refused although its swap was let
  through exactly when such a key is put in flight and followed by another one (`Starvation.StarvationExact`).
- Swap ledger. migration 0008 says its key replaces the old one, but the primary key (agent, time, in token,
  out token) of internal/store/migrations/0004_agents_and_decisions.sql:94 is never dropped: a second swap of
  one token pair in a tick executes and its row is refused (`Ledgers.SwapLedgerCompleteExactly`).
- Restart. The table agrees with the open set after a tick exactly when every write the tick needed landed
  (`Restart.TickKeepsRowsExactly`); failures are only logged by the code. A runtime that cannot read the table
  starts empty, and the positions it does not know of no longer count against the cap
  (`CapAcrossRestarts.BlindRestartOverbooks`). A position id repeats when one key is opened under decision ids that
  share their first eight characters; then the upsert half refreshes a closed row (`RestartRuns.RepeatedIdBreaksMatch`).
- Replays. Row keys make repeated inserts harmless, but a replay is judged against what is open by then: one that
  follows a close can execute a swap that the cap refused before (`Replays.ReplayAfterCloseAddsRow`).
- Ties in a backtest. The sort is not stable, so ticks of one symbol and instant may change places; the strategy is
  shown the same in every order exactly when such ticks carry the same quote (`TickOrder.ShownOrderFreeExactly`).

## Model

| member | source | states |
|---|---|---|
| RiskPolicy.TotalBasisExposure | pkg/types/risk.go:54-67 | exposure is never negative, whatever the signs of prices and quantities |
| RiskPolicy.ExposureOrderFree | pkg/types/risk.go:54-67 | exposure is the same for every listing of the same positions |
| RiskPolicy.VerdictOrderFree | internal/risk/policy.go:41-103 | the gate's verdict does not depend on the order in which the map of open positions is walked |
| RiskPolicy.UnwindIgnoresBook | internal/risk/policy.go:57-61 | reduce-only orders and swaps that open nothing get the same verdict whatever is open: unwinding is always possible |
| RiskPolicy.MorePositionsNeverUnblock | internal/risk/policy.go:51-103 | adding positions to the snapshot never turns a block into an approval |
| RecordedBooks.ExposureIsFirstPerp | pkg/types/risk.go:54-67 | a position is exposed by price times quantity of its first perp leg, and not at all without one |
| RecordedBooks.SnapshotExposure | internal/agent/runtime.go:483-503 | the exposure the gate sees is the sum of price times size over the recorded hedges; keys in flight add nothing |
| RecordedBooks.OrderPassesExactly | internal/risk/policy.go:51-84 | over a book of hedges: an order passes if and only if its worth is within the leg limit and, unless it only reduces, the hedges with it are within the exposure limit and the count with it within the cap; and which limit refuses it otherwise |
| RecordedBooks.SwapPassesExactly | internal/risk/policy.go:86-110 | a swap passes if and only if slippage and amount are within their limits and, if it buys with dollars, the count with it is within the cap |
| RecordedBooks.LimitsOverRuns | internal/agent/runtime.go:422-461 | after any run from an empty book those hedges are orders that its ticks sent, and every order is judged by them |
| RecordedBooks.NotionalIsWorth | pkg/types/order.go:73-75 | an order is worth price times size, whichever sign they have |
| Texts.NumeralInjective | pkg/types/order.go:114-119 | the decimal numeral of a slot determines the slot |
| Texts.BarTerminatesNumeral | pkg/types/order.go:114-119 | a numeral followed by a bar can be read back, whatever follows |
| Texts.NumeralReadsBack | pkg/types/order.go:114-119 | a numeral reads back as the number it prints |
| Texts.UpperFolds | internal/agent/runtime.go:466-481 | upper-casing leaves no small letter, changes nothing else, and is idempotent |
| Texts.ShortIdIsPrefix | internal/agent/runtime.go:786-791 | the first eight characters, or all of a shorter id |
| Texts.BlankIsNothing | internal/agent/store.go:613-618 | a client id or hash of spaces alone is stored as NULL, any visible text as it is |
| Tables.TableOpsKeepIndex | internal/store/migrations/0005_strategy_positions.sql:24-28 | upserts and closes keep at most one live row per agent and underlying |
| Tables.UpsertAcceptedExactly | internal/store/migrations/0005_strategy_positions.sql:24-28 | an upsert is accepted if and only if the table with its row still has one live row per agent and underlying |
| Tables.UpsertStoresExactly | internal/agent/store.go:322-355 | an accepted upsert stores the position it was given exactly when the id is new or left by the same opening |
| Tables.CloseEndsLiveRows | internal/agent/store.go:359-364 | a close ends exactly the rows of the agent and underlying that are opening, open or closing, and leaves legs, ids and opening times |
| Tables.StampIsLastMicrosecond | internal/store/migrations/0005_strategy_positions.sql:7-22 | a stored time is the last microsecond not after it |
| AgentStore.Store.UpsertOpenBasis | internal/agent/store.go:319-355 | the row table after an upsert, and that it succeeds exactly when the database is reachable and the index allows it |
| AgentStore.Store.CloseBasis | internal/agent/store.go:357-372 | every live row of the agent and underlying becomes closed, no other row changes, and no such row is reported as an error |
| AgentStore.Store.PersistSwap | internal/agent/store.go:272-287 | a swap row is appended unless its client id is present or the primary key refuses it |
| AgentStore.Store.PersistOrder | internal/agent/store.go:231-244 | an order row is appended unless its key is present |
| AgentStore.Store.LoadOpenBasis | internal/agent/store.go:519-553 | exactly the agent's live rows, oldest first |
| TickSpec.SnapshotSize | internal/agent/runtime.go:483-503 | the snapshot counts the open positions and every key in flight but the excluded one |
| AgentRuntime.Runtime.constructor | internal/agent/runtime.go:97-125 | the open set after construction is a hydration of the table's live rows under upper-cased keys, or empty when the table cannot be read |
| AgentRuntime.PolicyRuntimeIsValid | internal/agent/runtime.go:483-503 | the hard-limit policy may be shown its snapshot in any map order, as the runtime assumes of its risk engine |
| AgentRuntime.Runtime.BuildRiskSnapshot | internal/agent/runtime.go:483-503 | lists, in any map order, the open positions and one phantom for every key in flight but the excluded one |
| AgentRuntime.Runtime.ExecuteSwap | internal/agent/runtime.go:619-670 | gate, paper booking, quote, submit and confirm: the result, the venue calls made and the ledger row of every path |
| AgentRuntime.Runtime.ExecuteOrder | internal/agent/runtime.go:672-704 | the same for an order: blocked, booked on paper, failed, rejected or accepted |
| AgentRuntime.Runtime.RunLegs | internal/agent/runtime.go:422-456 | both loops together give the success maps, calls and ledgers of the specification |
| AgentRuntime.Runtime.DropClosed | internal/agent/runtime.go:527-555 | the first half of the fold: succeeded reduce-only orders drop their key and close its row |
| AgentRuntime.Runtime.RecordOpened | internal/agent/runtime.go:557-616 | the second half: hedges whose key has both successes and is not open are recorded and upserted |
| AgentRuntime.Runtime.Tick | internal/agent/runtime.go:422-461 | the object's whole state after a tick is the specified function of its state before, the decision and the venue answers |
| TickFacts.OpenSetAfterTick | internal/agent/runtime.go:523-617 | which keys are open after a tick of any decision; every new entry holds, field by field, the purchase of the last opening swap and the short of the first hedge of its key, at the size and price sent |
| TickFacts.OpeningSwapsHoldLast | internal/agent/runtime.go:561-566 | the swap a key is paired with is the last opening swap of that key |
| TickFacts.SwapsShow | internal/agent/runtime.go:427-436 | a swap that succeeded was accepted by its venue and had passed the gate at its turn, and an opening one left its key in flight |
| TickFacts.OrdersKeepSwaps | internal/agent/runtime.go:437-456 | orders leave the swap successes alone and put in flight only keys without a succeeded swap |
| Starvation.StarvationExact | internal/agent/runtime.go:427-456 | no limits, book or venue answers can starve a hedge of a decision if and only if no empty key is put in flight and followed by another key before the hedge of some pair |
| Starvation.NonEmptyKeysNeverStarve | internal/agent/runtime.go:437-447 | without empty keys no hedge is ever starved |
| Starvation.HedgeNeverStarved | internal/agent/runtime.go:437-447 | spelled out: once an opening swap is accepted, a hedge with its key is never refused for the position count, whatever ran in between |
| TickSafety.OrdersFit | internal/agent/runtime.go:427-456 | open positions plus non-empty keys in flight never exceed the cap while anything is in flight |
| TickSafety.CapKept | internal/agent/runtime.go:422-461 | a tick of an overbook-proof decision ends with no more than the cap, or than it started with |
| TickSafety.CapKeptOverRuns | internal/agent/runtime.go:422-461 | the same over every run |
| TickSafety.DistinctKeysAreOverbookProof | internal/agent/runtime.go:427-436 | distinct swap keys make a decision overbook-proof, if no key is empty or order keys are distinct as well |
| TickSafety.CapExact | internal/agent/runtime.go:422-461 | any decision at all: it can never be driven above the cap if and only if it is overbook-proof |
| TickSafety.TwoUncountedKeysOverbook | internal/agent/runtime.go:427-456 | two pairs whose swap legs can succeed uncounted, by another swap of the key or by an empty key, overbook |
| TickSafety.TwoMixedKeysOverbook | internal/agent/runtime.go:561-616 | two pairs whose keys are shared by other swaps overbook |
| TickSafety.MixedKeyWithReduceOnlyOverbooks | internal/agent/runtime.go:531-616 | so does one such pair whose key also has a reduce-only order |
| TickSafety.UnwoundAfterEmptyOverbooks | internal/agent/runtime.go:488-503 | an empty key and a later one, both also unwound by reduce-only orders, overbook |
| TickSafety.TwoVouchedPairsOverbook | internal/agent/runtime.go:561-616 | a decision of two bought, sold and hedged tokens that can exceed a cap of one |
| TickSafety.UnwoundPairOverbooks | internal/agent/runtime.go:531-616 | a decision that unwinds and reopens one token and can exceed a cap of one |
| TickSafety.EmptyKeyOverbooks | internal/agent/runtime.go:488-503 | a decision with an empty key that can exceed a cap of one |
| Starvation.EmptyKeyStarvesHedge | internal/agent/runtime.go:488-503 | a decision with an empty key whose hedge can be refused although its swap was accepted |
| PairedLegs.ExactTransition | internal/agent/runtime.go:523-617 | with distinct keys: after = before, less the keys of accepted reduce-only orders, plus the keys not open before whose swap confirmed and whose hedge was accepted; survivors are unchanged, and each new entry pairs two legs that both succeeded |
| PairedLegs.DistinctKeysNeverReopen | internal/agent/runtime.go:527-616 | with distinct order keys a key closed in a tick is not reopened in it |
| PairedLegs.HalfOpenExact | internal/agent/runtime.go:561-616 | no venue can get an entry of a decision to record a swap or an order that failed if and only if the key of every pair is carried by one swap and one order |
| PairedLegs.RecordedEntry | internal/agent/runtime.go:579-609 | under such a decision every new entry is made of an opening swap and a hedge that both succeeded |
| RecordedBooks.EveryEntryWasRecorded | internal/agent/runtime.go:579-609 | every entry of a run was there at first or is, field by field, what one of its ticks bought and shorted |
| RecordedBooks.RunIsHedged | internal/agent/runtime.go:579-609 | the book of a run from nothing is one of hedges that its ticks sent |
| RecordedBooks.EntryReconciles | internal/reconcile/reconcile.go:139-244 | a recorded entry shows no drift against a venue that is short the hedge and a wallet that holds as much |
| PairedLegs.TwoPurchasesRecordedHalfOpen | internal/agent/runtime.go:561-566 | a decision whose entry can record a purchase that failed, because an earlier one of its key succeeded |
| PairedLegs.HedgeSentUnpaired | internal/agent/runtime.go:437-447 | for any decision with a pair there are venue answers under which the hedge is sent after its swap failed |
| PairedLegs.SpotFirstExact | internal/agent/runtime.go:402-403 | hedges always wait for their spot leg if and only if the decision pairs nothing |
| PairedLegs.HedgeSentAfterFailedSwap | internal/agent/runtime.go:437-447 | a two-leg decision that shows it |
| PairedLegs.TickCallOrder | internal/agent/runtime.go:427-459 | a tick only appends venue calls: first those of swaps, then placements, then cancels |
| PaperMode.PaperTickMatchesIdealLive | internal/agent/runtime.go:639-713 | a paper tick leaves the same open set as a live tick whose swaps confirm and whose orders are not rejected, whatever the two databases hold or lose |
| PaperMode.PaperRunMatchesIdealLive | internal/agent/runtime.go:639-713 | so does every run, tick by tick, and the paper run calls no venue |
| PaperMode.PaperTickWritesIdealLive | internal/agent/runtime.go:523-617 | if the two databases also begin alike and do alike, the position rows end alike |
| PaperMode.PaperRunWritesIdealLive | internal/agent/runtime.go:523-617 | so they do after every run |
| PaperMode.PaperTickIsSilent | internal/agent/runtime.go:639-713 | a paper tick makes no venue call at all, cancels included |
| Restart.HydrationIsExact | internal/agent/runtime.go:112-123 | when the live rows match the open set, every hydration of the table is the open set itself, opening times cut to microseconds |
| Restart.CloseKeepsMatch | internal/agent/runtime.go:548-554 | a close that lands touches one row and keeps rows and open set matched |
| Restart.OpenKeepsMatch | internal/agent/runtime.go:609-614 | an open under a fresh id is never refused by the live-row index and keeps them matched |
| Restart.TickKeepsRowsExactly | internal/agent/runtime.go:523-617 | if no row yet carries an id the tick could mint for one of its pairs: rows and open set match after it if and only if every write it attempted landed |
| Restart.TickEndsRowsAt | internal/agent/store.go:359-364 | a tick leaves closing times alone, but for rows it closes, which get the time of the database |
| RestartRuns.RunStaysInStep | internal/agent/runtime.go:102-125 | with a reachable store they match after every run in which no two ticks can mint the same position id |
| RestartRuns.PrefixesMintApart | internal/agent/runtime.go:598-600 | two ticks cannot mint the same id if their decision ids have eight characters and differ in them, or if no key is a pair in both |
| RestartRuns.RepeatedIdBreaksMatch | internal/agent/store.go:322-355 | a token opened, closed and opened again under one decision id leaves a live row that is not the running entry |
| RestartRuns.RestartRebuildsOpenSet | internal/agent/runtime.go:102-125 | a fresh runtime at any tick boundary of any run rebuilds exactly the running open set |
| RestartRuns.PolicyIgnoresOpeningTimes | internal/risk/policy.go:51-103 | the gate cannot tell a rebuilt open set from the running one |
| RestartRuns.TickKeepsAlike | internal/agent/runtime.go:422-461 | from states that differ only by cut opening times every tick does the same |
| RestartRuns.RestartsAreInvisible | internal/agent/runtime.go:102-125 | a history with restarts anywhere reaches the state of the uninterrupted run: same keys, legs, rows, ledgers and calls |
| CapAcrossRestarts.CapKeptAcrossRestarts | internal/agent/runtime.go:97-125 | over histories with restarts that read the table, open positions and live rows are equally many and within the cap, or within what was open at first |
| CapAcrossRestarts.CapKeptInMemory | internal/agent/runtime.go:97-125 | whatever restarts load and whatever writes are lost, the open set stays within the cap, or within the most that was ever loaded |
| CapAcrossRestarts.BlindRestartOverbooks | internal/agent/runtime.go:112-115 | after a restart that cannot read the table a cap of one leaves two live rows |
| Ledgers.SwapPreimagesDiffer | internal/agent/runtime.go:793-799 | the hash inputs of two slots of one decision differ, whatever the swaps |
| Ledgers.OrderPreimagesDiffer | pkg/types/order.go:109-119 | the same for orders |
| Ledgers.SideChangesPreimage | pkg/types/order.go:109-119 | an order and its reverse have different hash inputs |
| Ledgers.StampedIdsDiffer | internal/agent/runtime.go:623-626 | with a digest that does not collide on them, all stamped client ids of a decision differ |
| Ledgers.OrderLedgerComplete | internal/agent/runtime.go:675-703 | every order the gate lets through gets exactly one row, in slot order, and no other row appears |
| Ledgers.SwapLedgerUpToPairs | internal/agent/runtime.go:648-669 | every swap the gate lets through gets exactly one row unless an earlier one of the tick had its token pair |
| Ledgers.RunLedgersComplete | internal/agent/store.go:231-287 | in every run no two ticks of which fall in one microsecond, whichever way the clock goes, each tick adds exactly these rows to both ledgers |
| Ledgers.SwapLedgerCompleteExactly | internal/store/migrations/0004_agents_and_decisions.sql:79-95 | no executed swap of a decision ever lacks a row if and only if its token pairs are distinct |
| Ledgers.SecondPurchaseUnrecorded | internal/store/migrations/0004_agents_and_decisions.sql:79-95 | a decision that buys one token twice and can lose the second row |
| LedgerRows.OrderLedgerTells | internal/agent/runtime.go:672-704 | the rows a tick adds are those of the orders let through, at their own price and size, and rejected if and only if the order did not succeed |
| LedgerRows.SwapLedgerTells | internal/agent/runtime.go:619-670 | the rows of swaps say what was asked for, and are confirmed if and only if the swap succeeded, with the amounts and the hash of the settlement |
| LedgerRows.SwapStages | internal/agent/runtime.go:643-669 | a live swap calls its venue stage by stage, as far as it gets, and confirms the transaction it submitted |
| LedgerRows.TickPlacesAndCancels | internal/agent/runtime.go:437-461 | a live tick places each order let through once, in order, and then cancels what the decision names |
| LedgerRows.SentAsDecided | internal/agent/runtime.go:619-681 | what is sent is the intent decided on, with a client id where it had none |
| Ledgers.ReplayAddsNothing | internal/agent/store.go:231-287 | replaying a recorded tick, with any venue answers, adds no row as long as the gate lets nothing new through |
| Ledgers.ExactReplayAddsNothing | internal/agent/store.go:231-287 | replaying it from the open set it started from adds no row |
| Replays.ReplayAfterNoRefusal | internal/agent/store.go:231-287 | if the gate refused nothing the first time, no replay adds a row, whatever is open by then and whatever the venues answer |
| Replays.ReplayOverMoreAddsNothing | internal/agent/runtime.go:422-456 | under a policy without an exposure limit, a replay that finds no fewer positions open and gets the same answers lets no slot through that was refused before, and adds no row |
| Replays.PaperReplayAddsNothing | internal/agent/runtime.go:422-461 | on paper, a decision with no reduce-only order and no empty key can be replayed from the state its tick left without adding a row |
| Replays.ReplayAfterCloseAddsRow | internal/agent/runtime.go:427-456 | a decision that buys one token and closes another, refused its purchase at the cap, makes it when replayed |
| MarketData.MarketSnapshotAt | internal/backtest/types.go:91-120 | for each symbol the last listed of the newest ticks not after t, a zero mark shown as one |
| MarketData.SnapshotIsUnique | internal/backtest/types.go:91-120 | that description fixes the snapshot |
| MarketData.ShownMarkIsUsable | internal/backtest/types.go:104-117 | what is shown of a tick is the tick, its mark never zero |
| MarketData.FutureIsInvisible | internal/backtest/types.go:97-100 | ticks after t never show in the snapshot at t |
| SimulatedPortfolio.Portfolio.AccrueFunding | internal/backtest/runner.go:184-209 | each open position is credited what its window [t-step, t) of the series pays, and the sum of credits is returned |
| SimulatedPortfolio.Portfolio.Open | internal/backtest/runner.go:211-236 | opens exactly when the symbol is free, the notional non-zero and the cash covers notional and fees |
| SimulatedPortfolio.Portfolio.Close | internal/backtest/runner.go:238-254 | releases notional and funding less the closing fee; the trade row carries both fees |
| SimulatedPortfolio.Portfolio.ComputeNav | internal/backtest/runner.go:158-164 | cash plus notional and funding of every position, whatever the map order |
| SimulatedPortfolio.AccrualConserves | internal/backtest/runner.go:184-209 | the funding credited to all positions is the step's total |
| SimulatedPortfolio.WindowsAddUp | internal/backtest/runner.go:192-197 | earnings over adjacent half-open windows add up: no tick twice, none lost |
| Backtest.SortTicks | internal/backtest/runner.go:55 | some ordering by time of the same ticks |
| TickOrder.OutcomeOrderFree | internal/backtest/runner.go:55-110 | if ticks of one symbol and instant show the same quote, the whole outcome is the same in every time-ordering of the ticks |
| TickOrder.ShownOrderFreeExactly | internal/backtest/runner.go:55 | every time-ordering shows the strategy the same at every instant if and only if such ticks agree |
| TickOrder.TieShows | internal/backtest/types.go:97-100 | two that differ can be ordered so that the other one is shown |
| Backtest.RunStep | internal/backtest/runner.go:68-109 | one step: accrue, show the market, decide, close, open, mark |
| Backtest.StepCountExact | internal/backtest/runner.go:63 | the number of steps is fixed by start, end and step: the last one is not after end and the next would be |
| Backtest.StepThrough | internal/backtest/runner.go:63-110 | the loop runs exactly those steps, or stops for good at a cancellation or the first error |
| Backtest.Run | internal/backtest/runner.go:48-118 | the report is that of all the steps over the ticks, sorted in place, with its start, end, return and maximum drawdown; no ticks, a cancelled context and a failing strategy are errors that keep the partial report |
| BacktestLaws.RunConserved | internal/backtest/runner.go:63-110 | after any steps of any run: gain = net of closed trades + carry of open ones = funding - fees + the opening fees the closes charged again; all opening fees belong to a closed or an open position; opens - closes = open positions |
| BacktestLaws.StepConserved | internal/backtest/runner.go:68-109 | one step keeps all of these |
| BacktestLaws.EndingNavIsBookValue | internal/backtest/runner.go:107-109 | the reported ending value is the portfolio's value after the last step |
| HoldingWindows.TradesEarnTheirWindows | internal/backtest/runner.go:187-254 | every close in every run ends a round trip and reports exactly the funding of its symbol's ticks from its open to its close, open end excluded |
| HoldingWindows.RunAccounted | internal/backtest/runner.go:187-254 | after any steps every open position has earned exactly its window so far |
| HoldingWindows.StepsTileTheSeries | internal/backtest/runner.go:57-71 | every tick of the series falls in exactly one step's window, and that step is run |
| FundingRates.OneTickPays | internal/backtest/runner.go:200-206 | a short receives notional times rate times step over interval, to within half a last place |
| FundingRates.ShortsReceive | internal/backtest/runner.go:181-183 | on positive rates a short never loses, on negative ones it never gains |
| FundingRates.EarnedIsTold | internal/backtest/runner.go:184-206 | what a window pays is the notional times the plain sum of its rates, exactly so when intervals are one step |
| FundingRates.ClosesReportRates | internal/backtest/runner.go:184-254 | the funding of every close of every run is told that way by the rates between its open and itself |
| BacktestTrades.ClosesExactly | internal/backtest/runner.go:83-91 | a decision closes exactly the held symbols a reduce-only order names |
| BacktestTrades.OpensExactly | internal/backtest/runner.go:92-105 | a swap opens exactly when it buys an unheld symbol other than dollars, for some amount that the cash covers with its fees |
| BacktestTrades.OpensNeverOverdraw | internal/backtest/runner.go:221-223 | opening never leaves the cash below zero |
| BacktestTrades.StepTradesAreAsked | internal/backtest/runner.go:82-105 | every trade of a step is one its decision asks for, in symbol and amount |
| BacktestTrades.TradesAreCharged | internal/backtest/runner.go:256-264 | in every run an open is charged its basis points plus gas once and a close twice, to within half a last place each, and nets them off its funding |
| Causality.RunIgnoresFuture | internal/backtest/runner.go:63-110 | ticks after the horizon change nothing in the steps up to it, for any strategy |
| Causality.NoLookAhead | internal/backtest/runner.go:48-118 | two full runs over series that agree up to the horizon show the strategy the same in every step up to it, and report the same trades and curve points of those steps |
| Causality.DecidesOnShown | internal/backtest/runner.go:68-81 | what a step decides on is the latest ticks as of it and the positions with their funding so far; a refusal ends the run there |
| Causality.RunExtends | internal/backtest/runner.go:63-110 | later steps only append to trades and curve |
| Causality.CurveFollowsSteps | internal/backtest/runner.go:107-108 | one curve point a step, at the step's time |
| BacktestTrades.DecisionsCountSteps | internal/backtest/runner.go:81 | one decision counted a step |
| BacktestTrades.RunEndsExactly | internal/backtest/runner.go:63-118 | a run ends without an error if and only if the strategy never refuses and no step finds the context cancelled; with a cancellation if and only if one comes before a refusal |
| Drawdown.ComputeMaxDrawdown | internal/backtest/runner.go:120-138 | the one pass computes the largest fall from a running peak on any curve, and on non-negative curves the maximum over all pairs, within [0, 1] |
| Drawdown.MaxDrawdownIsUnique | internal/backtest/runner.go:120-138 | the quadratic definition fixes the value |
| Drawdown.FallIsPartLost | internal/backtest/runner.go:129-133 | a fall is the part of the higher value that is lost |
| Drawdown.PeaksAreEnough | internal/backtest/runner.go:125-136 | on non-negative curves measuring from running peaks loses no pair |
| Drawdown.NegativeNavBreaksPairs | internal/backtest/runner.go:125-136 | on a curve that goes negative it can lose one |
| Drawdown.PeaksSufficeExactly | internal/backtest/runner.go:125-136 | running peaks give the maximum over all pairs on every curve drawn from a set of values if and only if, among those values, falling from higher up is never shallower |
| Momentum.Strategy.Decide | strategies/alpha_momentum/alpha_momentum.go:113-249 | windows, target, held map and intents after a decision, in any map order and any order of equal scores |
| Momentum.Strategy.RecordPrices | strategies/alpha_momentum/alpha_momentum.go:121-137 | usable mids are appended and windows cut to length |
| Momentum.Strategy.ComputeScores | strategies/alpha_momentum/alpha_momentum.go:140-153 | exactly the subnets with two prices and a non-zero first are scored |
| Momentum.TopIsWithinTarget | strategies/alpha_momentum/alpha_momentum.go:163-169 | the target has at most TopK members, all scored above the threshold |
| Momentum.TopLeavesNothingBetter | strategies/alpha_momentum/alpha_momentum.go:155-169 | whatever is left out is at the threshold or below, or the target is full and nothing in it is worse |
| Momentum.RecordedOnce | strategies/alpha_momentum/alpha_momentum.go:121-137 | with a distinct universe each subnet gains at most one price a tick |
| MomentumRuns.WindowsHoldLatestPrices | strategies/alpha_momentum/alpha_momentum.go:121-137 | in every run the window of a subnet is exactly the latest usable prices seen, as many as fit |
| MomentumRuns.HeldIsTopSet | strategies/alpha_momentum/alpha_momentum.go:159-239 | after every tick the held subnets are a top-K set of the current scores |
| MomentumPrices.MembersRose | strategies/alpha_momentum/alpha_momentum.go:140-169 | whatever is in the target rose over its window by more than the threshold asks |
| MomentumPrices.FallersAreOut | strategies/alpha_momentum/alpha_momentum.go:140-169 | with a threshold of zero or more nothing that fell is in it |
| MomentumPrices.RisersAreHeld | strategies/alpha_momentum/alpha_momentum.go:155-169 | a subnet that rose clearly past the threshold is held unless the target is full |
| MomentumPrices.BiggerRiseIsPreferred | strategies/alpha_momentum/alpha_momentum.go:155-169 | a subnet that rose more, as far as floats can tell, is not left out for one that rose less |
| MomentumPrices.RatioDecides | strategies/alpha_momentum/alpha_momentum.go:155-169 | where floats tell all decimals apart, no member has a worse price ratio than one left out, but for the rounding |
| MomentumPrices.RunsHoldRisers | strategies/alpha_momentum/alpha_momentum.go:113-249 | all of that after every tick of every run |
| MomentumPrices.MidIsHalfWay | pkg/types/market.go:20-26 | a two-sided book is priced half way, any other at its last trade |
| MomentumPrices.BookedIsWorthStake | strategies/alpha_momentum/alpha_momentum.go:211-218 | the size an entry books is worth the stake at its price |
| MomentumPrices.EntriesRecordPrice | strategies/alpha_momentum/alpha_momentum.go:211-226 | in every run a new position is booked at the price its window ends with and the size for it; a kept one is untouched |
| MomentumRuns.OneIntentPerSubnet | strategies/alpha_momentum/alpha_momentum.go:174-239 | a decision says at most one thing about a subnet: sell what is held, or buy what joined |
| MomentumRuns.IntentsFormChain | strategies/alpha_momentum/alpha_momentum.go:174-239 | in every run a subnet is entered first, and an entry that booked something is followed by a sale of exactly the stake divided by the price at that entry |
| MomentumRuns.SizeIsZeroExactly | strategies/alpha_momentum/alpha_momentum.go:211-218 | a size rounds to zero if and only if the stake is less than half a sixteenth place times the price, or the price is zero |
| MomentumRuns.AlternationExact | strategies/alpha_momentum/alpha_momentum.go:179-182 | enter and exit alternate strictly if and only if no entry but the last was made at such a price |
| MomentumRuns.AffordableAlternates | strategies/alpha_momentum/alpha_momentum.go:174-239 | in every run whose quotes of a subnet are never that dear its intents alternate |
| MomentumRuns.EntriesBalance | strategies/alpha_momentum/alpha_momentum.go:174-239 | entries less exits count the held positions and those dropped without a sale |
| MomentumRuns.StakeIsBounded | strategies/alpha_momentum/alpha_momentum.go:163-239 | while no size rounds to zero, the stake at work lies between zero and TopK stakes after every tick |
| MomentumRuns.AffordableStakeIsBounded | strategies/alpha_momentum/alpha_momentum.go:163-239 | so it does in every run whose quotes are never too dear for the stake |
| Allocator.Allocate | internal/vault/allocator.go:26-56 | refuses negative capital or weights; otherwise every agent once, in name order, with its share |
| Allocator.AllocationIsUnique | internal/vault/allocator.go:33-45 | the result does not depend on the order in which the map is walked |
| Allocator.CapitalIsConserved | internal/vault/allocator.go:50-55 | with positive total weight the amounts add up to the capital within half a sixteenth place an agent |
| Allocator.AmountsAreProportional | internal/vault/allocator.go:50-55 | an amount is to the capital as its weight is to all weights |
| Allocator.LargerWeightNeverLess | internal/vault/allocator.go:50-55 | amounts are non-negative and grow with the weight |
| Allocator.NoWeightNoAmount | internal/vault/allocator.go:47-49 | without capital or weight nothing is allotted |
| Reconcile.SplitLegs | internal/reconcile/reconcile.go:259-272 | the last leg of each kind |
| Reconcile.BySymbol | internal/reconcile/reconcile.go:105-117 | the last listed quantity of each symbol |
| Reconcile.ReconcileOne | internal/reconcile/reconcile.go:139-244 | the drifts of one position, leg by leg and case by case |
| Reconcile.Reconcile | internal/reconcile/reconcile.go:97-128 | counts and drifts of a whole pass |
| Reconcile.IssuesIffNotAllOk | internal/reconcile/reconcile.go:66-75 | a report has issues if and only if fewer positions are fine than are open |
| ReconcileCases.PositionExactly | internal/reconcile/reconcile.go:139-244 | for any size and whatever the venues answer or fail to: fine if and only if no answer speaks against the position, critical if and only if one does beyond the critical line; a missing venue never does, a failed balance query is an issue but not critical |
| ReconcileCases.MissingShortIsCritical | internal/reconcile/reconcile.go:160-167 | a short the venue does not list is critical, reported as the booked size against nothing |
| ReconcileCases.LeglessIsCritical | internal/reconcile/reconcile.go:141-148 | a position without one of its legs is critical |
| ReconcileCases.NoVenuesNoIssue | internal/reconcile/reconcile.go:151-196 | without venues a position is only noted |
| ReconcileCases.ReportedFigures | internal/reconcile/reconcile.go:153-241 | every drift sets the booked figure against that of the venue |
| ReconcileCases.OkCountsFine | internal/reconcile/reconcile.go:118-128 | the report counts exactly the positions that are fine |
| ReconcileCases.ReportListsDrifts | internal/reconcile/reconcile.go:118-128 | and lists exactly their drifts |
| Reconcile.BandExact | internal/reconcile/reconcile.go:274-284 | rounding to sixteen places and then to whole points amounts to one strict bound on the drift |
| Reconcile.OkExact | internal/reconcile/reconcile.go:139-244 | for any tolerance, zero and below included: with both venues readable a position is fine if and only if the venue is not long, the wallet not empty, and each has the booked size to within the tolerance, a surplus in the wallet aside |
| Reconcile.OkInBand | internal/reconcile/reconcile.go:139-244 | with a tolerance between nothing and the whole size, fine positions really are short and really are held |
| Reconcile.PerpCriticalExact | internal/reconcile/reconcile.go:286-304 | the short leg is critical if and only if the venue is long or, with a tolerance set, outside the wider of it and one per cent |
| Reconcile.SpotCriticalExact | internal/reconcile/reconcile.go:205-241 | the wallet is critical if and only if it is empty or, with a tolerance set, lacks the wider of it and one per cent; a surplus never counts |
| Reconcile.CutExactly | internal/reconcile/reconcile.go:277-284 | the reported drift is the measured one if and only if that fits 64 bits |
| Reconcile.HugeDriftReadsAsNone | internal/reconcile/reconcile.go:277-284 | a drift of 2^64 basis points is cut to zero |
| DcaBuy.NewFromTypedConfig | strategies/dca_buy/dca_buy.go:53-115 | a strategy exists exactly for configurations that are valid once completed |
| DcaBuy.DefaultsFillBlanks | strategies/dca_buy/dca_buy.go:52-70 | completing a configuration keeps what is set; the blank one buys fifty dollars of SOL on solana every four hours |
| DcaBuy.ValidExactly | strategies/dca_buy/dca_buy.go:71-83 | a configuration is valid if and only if its purchases sell something, slip by ten per cent at most, and its interval is not negative |
| DcaBuy.Strategy.Decide | strategies/dca_buy/dca_buy.go:123-158 | at most one purchase, none while cooling down or without a dollar token, and the time remembered |
| DcaBuy.BuysKeepCooldown | strategies/dca_buy/dca_buy.go:125-129 | in every run, from clocks that may jump either way, purchases are a cooldown apart |
| DcaBuy.BuysExactly | strategies/dca_buy/dca_buy.go:125-134 | a tick buys if and only if the chain has a dollar token and nothing was bought yet or a cooldown has passed, however long ago |
| DcaBuy.IntervalKeptExactly | strategies/dca_buy/dca_buy.go:126 | the configured interval is kept in every run if and only if its nanoseconds fit 64 bits |
| DcaBuy.ZeroReadingDefeatsCooldown | strategies/dca_buy/dca_buy.go:126 | a clock reading of the zero time lets the next tick buy at once |
| DcaBuy.SafeReadingsExactly | strategies/dca_buy/dca_buy.go:125-129 | clocks that take their readings from a set always keep purchases a cooldown apart if and only if the zero time is not in it |
| DcaBuy.BuysSomethingExactly | strategies/dca_buy/dca_buy.go:131-134 | a run buys anything if and only if it ticks and the chain has a dollar token |
| DcaBuy.ReturnedArePurchases | strategies/dca_buy/dca_buy.go:131-152 | every purchase of a run is one swap of the configured amount of the chain's dollar token for the configured asset |
| DcaBuy.WindowIsThrottled | strategies/dca_buy/dca_buy.go:125-158 | a window of length L sees at most L / interval + 1 purchases |
| DcaBuy.SpendIsBounded | strategies/dca_buy/dca_buy.go:125-158 | and the swaps returned in it sell at most that many times the configured amount |
| Rao.RoundTrip | internal/chain/bittensor/client.go:360-376 | every 64-bit chain amount survives conversion to a decimal and back |
| Rao.LargestAffordable | internal/chain/bittensor/client.go:365-376 | the RAO of a non-negative amount is the largest one it covers, saturation included |
| Rao.DustExact | internal/chain/bittensor/client.go:365-376 | the trip back loses less than one RAO if and only if the amount is one the chain can hold |
| Rao.Monotone | internal/chain/bittensor/client.go:365-376 | more TAO never converts to less RAO, negative and saturated amounts included |

## Left out

- Starvation.HedgeNeverStarved: requires non-empty keys, which `StarvationExact` shows to be more than needed and `EmptyKeyStarvesHedge` shows to be needed for some decisions.
- TickSafety.CapExact: covers the count cap only; the exposure cap is not accumulated within a tick by the code, since phantoms carry no legs.
- Ledgers.OrderLedgerComplete: the truncated SHA-256 is a parameter, assumed not to collide on the inputs of one decision; every ledger write of the tick is assumed to reach the database.
- RestartRuns.RunStaysInStep: no two ticks may mint the same position id, that is open one key under ids with the same first eight characters; `RepeatedIdBreaksMatch` shows why.
- Replays.PaperReplayAddsNothing: covers policies whose exposure limit is off; with one, a hedge without a swap that the limit refuses only the second time leaves fewer keys counted for the orders after it.
- CapAcrossRestarts.BlindRestartOverbooks: shows one unreadable restart; how rows add up over several is not stated.
- Reconcile.OkExact: requires a drift below 2^63 basis points; beyond that the code cuts it (`HugeDriftReadsAsNone`).
- MomentumRuns.StakeIsBounded: requires that no booked size rounds to zero, which `AffordableStakeIsBounded` derives from the quotes; `EntriesBalance` counts what happens otherwise.
- Backtest.Run: the defaults of NewRunner and Costs.Defaults, a missing strategy, non-positive steps and ticks with a zero interval are not modelled.
- A runtime without a store (Deps.Store nil), and the nil success maps that only tests pass to the fold.
- Upper-casing and blank tests are ASCII; identifiers are sequences of characters, not bytes.
- Columns that no decision path reads back: order type, time in force, tag, position id, realised amounts (always zero), verdict detail strings; the agents foreign key; the fallbacks for an empty state or a zero opening time in an upsert, which the runtime never sends.
- Boolean maps are sets of the keys mapped to true.
- The backtest strategy is handed the open positions as a map rather than as a list in map order.
- Floating-point momentum is the decimal quotient under an arbitrary conversion to a real; a conversion that overflows to infinity is not modelled.
- Circuit breakers at portfolio level, net-asset-value snapshots, the kill switch (which does not update the open set), LLM vetoes, logging, scheduling and concurrency.
- RPC, HTTP and WebSocket clients, SQL text, key storage and signing, configuration and CSV parsing, the command line, the API and the web interface.
- The alpha_yield strategy: the same rotation with a volatility score.
