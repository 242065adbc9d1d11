# Paper-trading and evidence core: a verified model

The repository runs crypto trading ideas on paper and keeps evidence about them. This project models the
part that does the bookkeeping and proves what it promises: the paper account, the backtest kernel, the
execution cost model, the durable files (event log, memory store, research table, run lock, artifacts), the
continuity check on time series, and the aggregation of paper outcomes.

How it is laid out:

- `PaperAccount.dfy` and `PaperLaws.dfy` hold the account with its three per-symbol tables and the accounting laws
  over every sequence of orders; `TableSums.dfy` sums tables over any set of symbols.
- `Backtest.dfy` has the trade-extracting loop, the compounding loop, the drawdown and the summary.
- `CostModel.dfy` sizes, gates and prices one execution estimate; `CostLaws.dfy` says what the estimate comes to,
  from the fields of the trade and the assumptions alone.
- `EventLog.dfy`, `MemoryStore.dfy` (with `RecordLists.dfy`), `ResearchStore.dfy` (with `IsoTime.dfy` and
  `TextOrder.dfy`), `RunLock.dfy` and `Artifacts.dfy` are the durable state; crashes and interleavings are steps of a run.
- `StoppedFamilies.dfy` follows degraded strategy families through loads and rewrites of a memory store;
  `FamilyRecords.dfy` says what marks, overrides and candidates record there and how long it stays.
- `DataQuality.dfy` and `PaperEvidence.dfy` are the evidence arithmetic.
- `TextLines.dfy`, `Dedupe.dfy`, `RealFacts.dfy` and `Common.dfy` are shared helpers.

Money, prices and rates are exact reals, timestamps are integers of microseconds, files are strings of
characters. What the program updates in place is a class whose methods are proved against functions on values; the
laws are proved about those functions. Every text format is a parameter: printing and parsing enter as a `Codec`
with the assumptions written out in its `Lawful` predicate: on all events of the log (`EventLog.LawfulCodecExists`
shows that they can be met), and on the records a memory store writes.

Five things the code does that its own description does not say:

- A memory record whose JSON text contains U+0085, U+2028 or U+2029 is cut by `splitlines` and lost at the next
  load (`SeparatorLosesRecord`). The reload gives back exactly the records that print on one line, and a family's
  degraded mark is held after a run exactly when the last one written does (`ReloadRoundTrip`, `LastMarkDecides`):
  marking a stopped family again can lift the stop (`RemarkLosesStop`).
- Windows on the research table compare text. `WindowIsHalfOpen` says for which offsets of rows and bounds that is
  the order of time: for whole seconds, one and the same offset, or UTC rows with naive bounds
  (`WholeSecondWindows`); both directions only for one offset (`OnlyOneOffsetBothWays`). `MixedOffsetsDisagree` is a
  pair that goes wrong, and `IsoOrder` says what text order is for any offsets.
- A partial fill is not checked against the minimum quantity again, so volume below the worth of that minimum
  trades less (`MinQuantityAfterPartialFill`, `PartialFillUndercutsMinQuantity`), and a short whose reference price
  is below one tick divides by zero (`FailsOnlyBelowOneTick`, `ShortBelowOneTickFails`).
- A short write of the lock payload still counts as acquired, and then the exit leaves the file in place for good
  (`ReleaseNeedsWholePayload`, `ShortWriteAbandons`, `AbandonedForever`).
- Override records are kept under command, run id and family joined by colons, so a colon in a command or run id
  can give two of them one id (`OverrideIdExactly`); paper trades are dropped when the empty family is asked for
  (`KeptOne`).

## Model

| member | source | states |
|---|---|---|
| PaperAccounts.PaperAccount.ExecuteOrder | src/crypto_alpha_agent/execution/paper.py:123-152 | an order is refused with its reason and nothing changed, or it fills at the reference price moved against it by the slippage asked for, moves in cash its quantity at that price with the fee, changes the holding of its symbol by its quantity, and leaves the specified account |
| PaperAccounts.PaperAccount.ExecuteBuy | src/crypto_alpha_agent/execution/paper.py:180-205 | buying re-averages the price, adds fee and capital, takes the cost from cash; refused above the cash |
| PaperAccounts.PaperAccount.ExecuteSell | src/crypto_alpha_agent/execution/paper.py:207-253 | selling releases its share of fees and capital and drops the entries on a full close; a sale that would leave negative cash is refused before anything changes |
| PaperAccounts.PaperAccount.Mark | src/crypto_alpha_agent/execution/paper.py:154-178 | marking succeeds exactly when every open symbol has a positive mark and a cost basis, and then sums value and unrealized gain over the open symbols; otherwise it names an open symbol and the reason |
| PaperAccounts.FillIsSlipped | src/crypto_alpha_agent/execution/paper.py:255-263 | the fill price is the reference price times one plus or minus the slippage rate, given directly or in basis points |
| PaperAccounts.OrderSettles | src/crypto_alpha_agent/execution/paper.py:196-226 | an accepted buy pays quantity times fill price with the fee on top, a sale earns it less the fee, and only the holding of the symbol changes, by the quantity |
| PaperLaws.RunKeepsBooks | src/crypto_alpha_agent/execution/paper.py:180-253 | after any orders the three tables have the open symbols as keys, each capital is average times quantity plus entry fees, cash plus capital is initial cash plus realized net profit, and gross less net profit is fees paid less fees outstanding |
| PaperLaws.RunResumes | src/crypto_alpha_agent/execution/paper.py:123-152 | a run can be stopped and taken up again; one order is executed or leaves the account alone |
| PaperLaws.CostBasisIdentity | src/crypto_alpha_agent/execution/paper.py:180-253 | cash plus cost basis plus outstanding entry fees equals initial cash plus realized net profit, over all symbols and runs |
| PaperLaws.EquityIdentity | src/crypto_alpha_agent/execution/paper.py:154-178 | in every reachable state and for any positive marks, equity is initial cash plus realized net plus unrealized gross less outstanding entry fees, and marking cannot fail |
| PaperLaws.FlatAccount | src/crypto_alpha_agent/execution/paper.py:231-247 | without open positions cash is initial cash plus realized net profit, and gross and net differ by all fees paid |
| PaperLaws.RefusalReasons | src/crypto_alpha_agent/execution/paper.py:187-222 | when each refusal occurs on a reachable account; a missing cost basis never does, and negative cash only with a fee rate above one |
| PaperLaws.ReportsAreValid | src/crypto_alpha_agent/execution/paper.py:41-73 | fill and result of an accepted order pass every numeric validator, so no order that changed the account is reported as failed |
| PaperLaws.CapitalMoves | src/crypto_alpha_agent/execution/paper.py:196-252 | a buy commits the cash it costs; a sale brings in the capital it releases plus its net profit; totals move by the reported outcome |
| PaperLaws.SplitBuy | src/crypto_alpha_agent/execution/paper.py:180-205 | buying in two pieces is accepted exactly when buying at once is, and leaves the identical account |
| PaperLaws.SplitSell | src/crypto_alpha_agent/execution/paper.py:207-253 | selling in two pieces is accepted exactly when selling at once is, and leaves the identical account, also on a full close |
| PaperLaws.RoundTripReturn | src/crypto_alpha_agent/execution/paper.py:266-299 | the net return of a round trip times the capital of its buy is the net profit the account realizes on the sell, and one plus it is the ratio of the two net prices; the expectancies are the reference return less both fee rates and less both slippages, and the win rate tells whether the reference price rose |
| PaperLaws.RoundTripRefusals | src/crypto_alpha_agent/execution/paper.py:271-278 | a round trip is refused for wrong sides, symbols, quantities or holding time, the first that is wrong |
| Backtest.ValidateSignals | src/crypto_alpha_agent/backtest/vectorbt_runner.py:53-67 | accepts exactly two or more prices, equal lengths and non-negative costs, and names what is wrong otherwise |
| Backtest.ExtractTrades | src/crypto_alpha_agent/backtest/vectorbt_runner.py:70-81 | the loop returns the one list of trades the signals call for, each at the prices of its two bars: signal trades in order and then, exactly when an entry is left open, one trade closed at the last bar |
| Backtest.ExtractedExactly | src/crypto_alpha_agent/backtest/vectorbt_runner.py:70-81 | no other list, forced close included, is one the signals call for |
| Backtest.HistoryIsScan | src/crypto_alpha_agent/backtest/vectorbt_runner.py:70-79 | the automaton's trades are the only list in which each trade opens at the first entry after the last exit and closes at the first later exit |
| Backtest.HoldingTimesFit | src/crypto_alpha_agent/backtest/vectorbt_runner.py:45-47 | holding times plus the number of trades fit in the number of bars |
| Backtest.EquityCurve | src/crypto_alpha_agent/backtest/vectorbt_runner.py:84-100 | every point of the curve is the product of slipped ratios and fees of the trades closed so far, times one entry fee while a position is open; it fails exactly when a closed trade was entered at zero |
| Backtest.GrowthExactly | src/crypto_alpha_agent/backtest/vectorbt_runner.py:88-97 | what a closed trade multiplies equity by: slipped exit over slipped entry price, less two fees |
| Backtest.FinalEquity | src/crypto_alpha_agent/backtest/vectorbt_runner.py:70-100 | final equity is that product over the signal-closed trades of the extracted list; the list is ordered, disjoint and in range |
| Backtest.EquityStaysPositive | src/crypto_alpha_agent/backtest/vectorbt_runner.py:84-100 | with costs up to one and positive prices equity is never negative, with costs below one it stays positive |
| Backtest.DrawdownIsPairwise | src/crypto_alpha_agent/backtest/vectorbt_runner.py:103-106 | the running-peak drawdown is the least relative fall over all pairs of bars that start above zero |
| Backtest.DrawdownRange | src/crypto_alpha_agent/backtest/vectorbt_runner.py:103-106 | it lies between minus one and zero, is zero exactly when the curve never falls and minus one exactly when the curve reaches zero |
| Backtest.SummaryRange | src/crypto_alpha_agent/backtest/vectorbt_runner.py:109-146 | on extracted trades and their curve the summary is always drawn, the win rate is a proportion and average holding time leaves room for every trade; with costs up to one, net return and drawdown are in range, or those the caller hands in |
| Backtest.SummaryFigures | src/crypto_alpha_agent/backtest/vectorbt_runner.py:117-146 | average holding, win rate and expectancy before costs are the averages of bars held, gaining trades and relative gains; net return and drawdown are those of the curve unless handed in |
| Backtest.SummaryAverages | src/crypto_alpha_agent/backtest/vectorbt_runner.py:131-146 | expectancies lie between worst and best trade less two costs; the win rate is one or zero exactly when all or no trades rose |
| CostModel.EstimateExecutionCost | src/crypto_alpha_agent/execution/cost_model.py:158-293 | the step-by-step estimate is the specified one, whose size, reasons, fill and figures the laws in `CostLaws` give from the inputs |
| CostModel.DecideGates | src/crypto_alpha_agent/execution/cost_model.py:179-236 | size, fill and the collected reasons are the specified ones, gate by gate |
| CostModel.SizeOrder | src/crypto_alpha_agent/execution/cost_model.py:183-210 | the rounded order and the reasons collected against its size and age, in order |
| CostModel.FillOrder | src/crypto_alpha_agent/execution/cost_model.py:212-236 | an order above the volume capacity is cut to it, blocked or missed; any other is left as sized |
| CostModel.RoundedToMultiple | src/crypto_alpha_agent/execution/cost_model.py:396-403 | rounding lands on a multiple of the step, less than one step away on the side asked for |
| CostModel.FailsOnlyBelowOneTick | src/crypto_alpha_agent/execution/cost_model.py:191-194 | estimation divides by zero exactly for a short whose reference is below one tick |
| CostModel.ShortBelowOneTickFails | src/crypto_alpha_agent/execution/cost_model.py:191-194 | a valid short at half a tick for which estimation divides by zero |
| CostModel.PricesAreAdverse | src/crypto_alpha_agent/execution/cost_model.py:380-389 | entry and exit are on the tick grid, on the adverse side, within one tick |
| CostModel.TradeableEstimate | src/crypto_alpha_agent/execution/cost_model.py:195-263 | a tradeable estimate is on the quantity step, between minimum notional and the smaller of request and cap, within volume capacity; net is gross less fees and slippage and stays positive when gross is |
| CostModel.RoundedNeverExceedsMax | src/crypto_alpha_agent/execution/cost_model.py:198-200 | the reason for exceeding the cap after rounding is never given |
| CostModel.EstimatesAreValid | src/crypto_alpha_agent/execution/cost_model.py:113-140 | every estimate passes its validators and is tradeable exactly when it has no failure reason |
| CostModel.RoomyOrderFills | src/crypto_alpha_agent/execution/cost_model.py:185-236 | a fresh order with one quantity step of room above both minimums is filled in full when volume covers it, missed when it does not and partial fills are off, and filled in part when what volume allows leaves room too |
| CostModel.ReturnCoversCosts | src/crypto_alpha_agent/execution/cost_model.py:252-263 | an order through the gates is tradeable exactly when its return exceeds two fee rates and two slippages, or was no gain |
| CostModel.StaleExactly | src/crypto_alpha_agent/execution/cost_model.py:204-210 | a stale signal is a reason exactly when the entry comes later than the age allowed |
| CostModel.MinQuantityAfterPartialFill | src/crypto_alpha_agent/execution/cost_model.py:220-228 | a tradeable estimate meets the minimum quantity exactly when the volume capacity, if known, reaches the worth of the minimum rounded up to the quantity step |
| CostModel.RoundDownReaches | src/crypto_alpha_agent/execution/cost_model.py:396-403 | rounding down reaches a minimum exactly when the value reaches the minimum rounded up |
| CostModel.PartialFillUndercutsMinQuantity | src/crypto_alpha_agent/execution/cost_model.py:222-228 | an input whose partial fill trades less than the minimum quantity |
| CostModel.PessimisticNeverBeatsBase | src/crypto_alpha_agent/execution/cost_model.py:371-377 | pessimistic decides the gates alike, never has a higher profit or smaller drawdown, and lets nothing through that base blocks |
| CostLaws.CapacityIsLeast | src/crypto_alpha_agent/execution/cost_model.py:418-434 | the capacity is what every known volume covers and no more; none without a known volume |
| CostLaws.TradeableWithinVolumes | src/crypto_alpha_agent/execution/cost_model.py:212-233 | a tradeable estimate is within entry volume and within exit volume, each at its price and cut to the participation |
| CostLaws.SizedExactly | src/crypto_alpha_agent/execution/cost_model.py:191-195 | the rounded quantity is the largest one on the step that the notional buys |
| CostLaws.OutcomeExactly | src/crypto_alpha_agent/execution/cost_model.py:183-255 | every reason of the estimate exactly, and full fill exactly when size and age speak for the order and each known volume covers it |
| CostLaws.PartialExactly | src/crypto_alpha_agent/execution/cost_model.py:220-233 | an order cut to volume trades the largest quantity on the step that the smallest known volume buys, with its share as fill ratio, unless that is below the minimum notional |
| CostLaws.FiguresExactly | src/crypto_alpha_agent/execution/cost_model.py:243-293 | rates, gross, fees, slippage, net and drawdown of every estimate from its notional, return and fee schedule; the signal age; tradeable means no reason |
| EventLog.EventLogger.Open | src/crypto_alpha_agent/observability/logging.py:66-71 | opening ends an unfinished last line and is idempotent |
| EventLog.EventLogger.EnsureTrailingNewline | src/crypto_alpha_agent/observability/logging.py:88-94 | adds a newline exactly when the file has a last line without one |
| EventLog.EventLogger.Record | src/crypto_alpha_agent/observability/logging.py:79-86 | opens if needed and appends the printed event and a newline |
| EventLog.EventLogger.Close | src/crypto_alpha_agent/observability/logging.py:73-77 | leaves the file alone |
| EventLog.LoadEvents | src/crypto_alpha_agent/observability/logging.py:97-115 | events of the readable lines in order, and the count of unreadable ones |
| TextLines.BoundariesAreSpaces | src/crypto_alpha_agent/memory/store.py:121-123 | the characters that end a line for `splitlines` and those that `strip` removes; the former are among the latter |
| EventLog.NoEventIsLost | src/crypto_alpha_agent/observability/logging.py:66-115 | after any run of open, record, close and crash half way through an event, on any earlier file, loading gives the earlier events followed by exactly the completely written ones, and one skip per torn event |
| IsoTime.IsoOrder | src/crypto_alpha_agent/data/store.py:25 | text order of ISO timestamps is local time first and offset text last, for any offsets and fractions |
| IsoTime.SameOffsetOrder | src/crypto_alpha_agent/data/store.py:71-79 | with one offset, text order is the order of time |
| IsoTime.TextIsTimeExactly | src/crypto_alpha_agent/data/store.py:71-79 | for all timestamps at two offsets, the text of the first comes before the second exactly when its time does, if and only if the offsets differ by one microsecond when the first offset text comes first and by nothing when it does not |
| IsoTime.OnlyOneOffsetBothWays | src/crypto_alpha_agent/data/store.py:71-79 | text order between two offsets is time order in both directions exactly when the offsets are the same |
| IsoTime.WholeSecondOffsetsAgree | src/crypto_alpha_agent/data/store.py:71-79 | offsets of whole seconds agree exactly when they are the same, or the first is UTC and the second naive |
| IsoTime.MixedOffsetsDisagree | src/crypto_alpha_agent/data/store.py:71-79 | two timestamps whose text order and time order differ |
| IsoTime.IsoReadBack | src/crypto_alpha_agent/data/store.py:25-89 | reading the printed text gives the timestamp back, with its offset |
| IsoTime.IsoDetermines | src/crypto_alpha_agent/data/store.py:89 | two timestamps with one text are the same |
| ResearchStore.ResearchDataStore.UpsertRecords | src/crypto_alpha_agent/data/store.py:18-49 | rows are replaced by id in batch order |
| ResearchStore.UpsertedHolds | src/crypto_alpha_agent/data/store.py:34-48 | an id then holds the last record of the batch with it, or what it held before |
| ResearchStore.ResearchDataStore.LoadRecords | src/crypto_alpha_agent/data/store.py:51-93 | exactly the rows that match every filter given, ordered by time text and id |
| ResearchStore.SelectionUnique | src/crypto_alpha_agent/data/store.py:79 | a query has one possible answer |
| ResearchStore.TypeFilterPicks | src/crypto_alpha_agent/data/store.py:65-67 | loading with a record type gives the rows of that type of what loading without one gives, in the same order |
| ResearchStore.SourceFilterPicks | src/crypto_alpha_agent/data/store.py:68-70 | loading with a source gives the rows of that source of what loading without one gives, in the same order |
| ResearchStore.NoFilterLoadsAll | src/crypto_alpha_agent/data/store.py:51-93 | without filters every stored row is loaded, and nothing else |
| ResearchStore.WindowIsHalfOpen | src/crypto_alpha_agent/data/store.py:71-76 | for rows at one offset and bounds at any two, every window holds exactly the rows from its start up to, not including, its end, if and only if the offset of the rows agrees with that of each bound |
| ResearchStore.WholeSecondWindows | src/crypto_alpha_agent/data/store.py:71-76 | for offsets of whole seconds, windows hold the rows of their time exactly when rows and bounds share the offset, or UTC rows are cut by naive bounds |
| ResearchStore.WindowsConcatenate | src/crypto_alpha_agent/data/store.py:71-79 | loading [a, c) is loading [a, b) followed by loading [b, c) whenever the texts of the bounds ascend, whatever offsets rows and bounds have |
| RecordLists.IndexIsLast | src/crypto_alpha_agent/memory/store.py:162-163 | the index maps an id to its last position |
| RecordLists.PutRefinesMap | src/crypto_alpha_agent/memory/store.py:177-187 | a put keeps every id in place or adds a new one at the end, changes what exactly one id shows, and keeps a list free of duplicates |
| RecordLists.ReplacedRefinesMap | src/crypto_alpha_agent/memory/store.py:192-211 | replacing is the old map without the matching records, overridden by the new; no duplicates arise even when the batch repeats ids; the kept ids stay in front in order |
| RecordLists.KeptPieces | src/crypto_alpha_agent/memory/store.py:198 | dropping the matching records keeps the order of the others |
| MemoryStores.MemoryStore.Reload | src/crypto_alpha_agent/memory/store.py:115-131 | records, skip count and index are those of the file |
| MemoryStores.MemoryStore.Persist | src/crypto_alpha_agent/memory/store.py:133-155 | the file holds the new list, or is unchanged on failure |
| MemoryStores.MemoryStore.Append | src/crypto_alpha_agent/memory/store.py:177-187 | puts the prepared record, with times that were given kept and missing ones filled in, and rewrites the file, or changes nothing on failure |
| MemoryStores.MemoryStore.ReplaceMatching | src/crypto_alpha_agent/memory/store.py:192-211 | replaces in one rewrite by the records as stored, or changes nothing on failure; the index stays in step |
| MemoryStores.PutEach | src/crypto_alpha_agent/memory/store.py:201-206 | the loop with its growing index puts the records one after the other |
| MemoryStores.MemoryStore.Lookup | src/crypto_alpha_agent/memory/store.py:216-220 | looking up by id agrees with the list |
| MemoryStores.ReloadKeepsClean | src/crypto_alpha_agent/memory/store.py:121-131 | reloading a persisted list gives exactly the records that print on one line |
| MemoryStores.ReloadReembeds | src/crypto_alpha_agent/memory/store.py:115-165 | reloading at any dimensions gives the records that print on one line, embedded anew where the length differs |
| MemoryStores.ReembeddedAt | src/crypto_alpha_agent/memory/store.py:157-160 | embedding anew changes nothing else, and leaves an embedding of the right length |
| MemoryStores.ReloadRoundTrip | src/crypto_alpha_agent/memory/store.py:121-155 | the reload gives the same records exactly when all print on one line, and then skips none |
| MemoryStores.SeparatorLosesRecord | src/crypto_alpha_agent/memory/store.py:121-155 | a record with U+2028 in it that parses back by itself and is lost by the store that wrote it |
| StoppedFamilies.MarkFamilyDegraded | src/crypto_alpha_agent/pipeline/evidence_reports.py:331-359 | a blank family is an error; without a memory path the mark is only built; otherwise it is stored under the id of the family |
| StoppedFamilies.RecordStoppedFamilyOverrideUsed | src/crypto_alpha_agent/pipeline/evidence_reports.py:384-414 | a blank family is an error; otherwise the override is stored under its own id |
| StoppedFamilies.LoadStoppedStrategyFamilies | src/crypto_alpha_agent/pipeline/evidence_reports.py:417-430 | the families named by records with a degraded marker, sorted; none without a memory path or a file |
| StoppedFamilies.PersistCandidateStateMemory | src/crypto_alpha_agent/pipeline/candidate_state_memory.py:59-85 | replaces exactly the candidate-state records, nothing when there are no entries |
| StoppedFamilies.DegradedFamilyStaysStopped | src/crypto_alpha_agent/pipeline/evidence_reports.py:331-430 | on any store, a family with a mark that prints on one line stays stopped through any later marks, overrides and candidate replacements whose own marks of it print on one line |
| StoppedFamilies.MarkHeld | src/crypto_alpha_agent/pipeline/evidence_reports.py:331-359 | after marking, the mark is held exactly when it prints on one line, whatever the store held for the family before |
| StoppedFamilies.LastMarkDecides | src/crypto_alpha_agent/pipeline/evidence_reports.py:331-430 | from any store without duplicate ids, a run ends with the mark of the family held exactly when the last mark of it in the run printed on one line, or, without one, when it was held before |
| StoppedFamilies.NoDuplicatesAlongRun | src/crypto_alpha_agent/pipeline/evidence_reports.py:331-430 | no run of marks, overrides and candidate replacements brings duplicate ids into a store |
| StoppedFamilies.MarkTakesEffect | src/crypto_alpha_agent/pipeline/evidence_reports.py:331-359 | on any store without duplicate ids, marking leaves the family stopped exactly when the mark prints on one line or a clean record under another id stops it |
| StoppedFamilies.RemarkLosesStop | src/crypto_alpha_agent/pipeline/evidence_reports.py:331-359 | a stopped family is no longer stopped after it is marked again with a reason that holds U+2028 |
| FamilyRecords.FamilyPrecedence | src/crypto_alpha_agent/pipeline/evidence_reports.py:498-510 | opportunity, hypothesis, score, backtest artifacts and paper outcome name the family in this order of precedence |
| FamilyRecords.MarkedByAny | src/crypto_alpha_agent/pipeline/evidence_reports.py:544-550 | a tag or a rejected reason will do as a degraded marker |
| FamilyRecords.MarkSays | src/crypto_alpha_agent/pipeline/evidence_reports.py:336-356 | a mark gives the reasons asked for, stripped, without blanks and each once, or the word degraded; its tags are the family, that word and the reasons |
| FamilyRecords.MarkPayloads | src/crypto_alpha_agent/pipeline/evidence_reports.py:343-356 | the payloads of a mark name family, decision and reasons |
| FamilyRecords.OverrideStopsOnly | src/crypto_alpha_agent/pipeline/evidence_reports.py:384-414 | recording an override stops no family but one whose own name is a degraded marker |
| FamilyRecords.OverridePayloads | src/crypto_alpha_agent/pipeline/evidence_reports.py:394-413 | the payloads of an override name family, run and command, and neither real capital nor live orders |
| FamilyRecords.OverrideIdsApart | src/crypto_alpha_agent/pipeline/evidence_reports.py:395 | overrides of different commands, runs or families have different ids as long as commands and run ids hold no colon |
| FamilyRecords.OverrideIdExactly | src/crypto_alpha_agent/pipeline/evidence_reports.py:395 | the id of an override is its own, among those with plain commands and run ids, exactly when its command and run id hold no colon |
| FamilyRecords.OverrideStaysOnRecord | src/crypto_alpha_agent/pipeline/evidence_reports.py:384-414 | an override recorded on one line stays on record through any later run without the same override |
| FamilyRecords.CandidatesExactly | src/crypto_alpha_agent/pipeline/candidate_state_memory.py:72-85 | after a replacement the store holds, of the clean records, the others it held and the last stored candidate of every id |
| FamilyRecords.CreationTimeStays | src/crypto_alpha_agent/pipeline/candidate_state_memory.py:73-81 | a candidate keeps the time it was created at through any run whose replacements name it and print it on one line |
| RunLock.EvidenceRunLock.Enter | src/crypto_alpha_agent/pipeline/evidence_run_ops.py:43-61 | refused when the file exists; otherwise a create step and a write step, acquired unless the write raises |
| RunLock.EvidenceRunLock.Exit | src/crypto_alpha_agent/pipeline/evidence_run_ops.py:63-76 | a read step and, for the own run id, an unlink step |
| RunLock.MutualExclusion | src/crypto_alpha_agent/pipeline/evidence_run_ops.py:43-76 | over any interleaving of any number of processes, equal run ids and failed steps included, at most one is between its create and its unlink |
| RunLock.LeavingWithoutUnlink | src/crypto_alpha_agent/pipeline/evidence_run_ops.py:52-76 | a crash, a failed write or a failed read back of the process inside abandons the lock |
| RunLock.AbandonedForever | src/crypto_alpha_agent/pipeline/evidence_run_ops.py:52-55 | after that no acquire ever succeeds and the file never changes |
| RunLock.ReleaseNeedsWholePayload | src/crypto_alpha_agent/pipeline/evidence_run_ops.py:56-75 | leaving releases the lock exactly when the payload was written whole, and then the next process gets in |
| RunLock.ShortWriteAbandons | src/crypto_alpha_agent/pipeline/evidence_run_ops.py:56-75 | a create, a short write and an undisturbed exit leave the lock file in place for good |
| Artifacts.ArtifactDirectory.WriteTextArtifact | src/crypto_alpha_agent/pipeline/evidence_run_ops.py:123-139 | the undisturbed write ends where its sequence of system calls ends |
| Artifacts.ArtifactDirectory.WriteAndMove | src/crypto_alpha_agent/pipeline/evidence_run_ops.py:131-139 | the destination holds the text, its temporary file is gone, nothing else has changed |
| Artifacts.JobCompletes | src/crypto_alpha_agent/pipeline/evidence_run_ops.py:123-139 | both names then hold the text, nothing else has changed and no temporary file is left, exactly when the target is not the temporary name of the latest pointer |
| Artifacts.OldOrNew | src/crypto_alpha_agent/pipeline/evidence_run_ops.py:131-139 | wherever a write stops, every path but its temporary names holds its old content or the complete new text |
| Artifacts.LatestFollowsTarget | src/crypto_alpha_agent/pipeline/evidence_run_ops.py:133-139 | wherever a write stops the latest pointer has changed only if the target holds the new text, exactly when neither has the temporary name of the other |
| Artifacts.NeverTornWhenApart | src/crypto_alpha_agent/pipeline/evidence_run_ops.py:131-137 | neither artifact is ever torn exactly when neither has the other's temporary name |
| Artifacts.AlwaysComplete | src/crypto_alpha_agent/pipeline/evidence_run_ops.py:123-139 | after any serialized writes, each stopping anywhere, a path holds its first content or the complete text of a write that names it |
| DataQuality.SeriesContinuityIssues | src/crypto_alpha_agent/data/quality.py:160-207 | under every key exactly the gaps between neighbouring times of its group, and its latest record if more than two intervals old; on a grid the gaps fill the span; nothing without a known timeframe or outside the groups; keys in order |
| DataQuality.KeyOrderUnique | src/crypto_alpha_agent/data/quality.py:168 | the groups have one order of keys |
| DataQuality.OneGroup | src/crypto_alpha_agent/data/quality.py:169-205 | the gaps of a group before its staleness, nothing for a group without a known timeframe |
| DataQuality.GroupAnswers | src/crypto_alpha_agent/data/quality.py:168-205 | the issues of one group, from its records: which gaps, with which source and time, in which order, and when the stale one |
| DataQuality.TimeframeUnits | src/crypto_alpha_agent/data/quality.py:437-453 | a timeframe is a positive number and one of three units; an hour is sixty minutes and a day twenty-four hours |
| DataQuality.SortSorts | src/crypto_alpha_agent/data/quality.py:169 | sorting gives the same records in ascending order of time and keeps the order of records of one time |
| DataQuality.MissingBarsFillSpan | src/crypto_alpha_agent/data/quality.py:168-191 | on a grid, in any input order, the missing bars reported are those the span has room for less the distinct times |
| DataQuality.StaleExactly | src/crypto_alpha_agent/data/quality.py:193-205 | a series is reported stale exactly when its latest record is more than two intervals old |
| DataQuality.OrderDoesNotMatter | src/crypto_alpha_agent/data/quality.py:168-191 | series of one timeframe with the same times report the same number of missing bars, on a grid or not |
| PaperEvidence.AggregatePaperEvidence | src/crypto_alpha_agent/evidence/paper.py:65-135 | one package per family that occurs among the kept inputs, in text order, each reporting its family: counts of positions, sums, hit rate as wins among closed, worst drawdown, modes and reasons; a refused item refuses the whole call |
| PaperEvidence.PackageFamily | src/crypto_alpha_agent/evidence/paper.py:83-133 | the loop over the items of a family reports their counts, sums, hit rate, worst drawdown and deduplicated lists |
| PaperEvidence.AggregateReports | src/crypto_alpha_agent/evidence/paper.py:76-133 | every package of an aggregate reports on all inputs: each count is a number of positions, each figure a sum over the family |
| PaperEvidence.AggregationConserves | src/crypto_alpha_agent/evidence/paper.py:76-135 | sample sizes, counts, profit, notional, fees and slippage of the packages sum to those of the kept inputs |
| PaperEvidence.PackageCounts | src/crypto_alpha_agent/evidence/paper.py:79-81 | closed plus failed is the sample size, blocked at most failed, wins at most closed, hit rate between zero and one |
| PaperEvidence.DrawdownIsWorst | src/crypto_alpha_agent/evidence/paper.py:108-111 | the drawdown covers every reported drawdown and realized loss, and is zero or one of them |
| PaperEvidence.KeptConcat | src/crypto_alpha_agent/evidence/paper.py:71-73 | the inputs kept of two batches together are those kept of each, refused if either is |
| PaperEvidence.KeptOne | src/crypto_alpha_agent/evidence/paper.py:138-156 | what one item adds: an input of the family asked for, a trade as one closed outcome under it, a mapping as it reads |
| PaperEvidence.AggregationMerges | src/crypto_alpha_agent/evidence/paper.py:65-135 | aggregating two batches of items at once is merging their packages family by family |
| PaperEvidence.EvidenceOfAccount | src/crypto_alpha_agent/evidence/paper.py:145-151 | the trade results of any run of the paper account are kept as one closed input per accepted order, under one family, summing to the account's realized net profit |
| PaperEvidence.PackageOfAccount | src/crypto_alpha_agent/evidence/paper.py:65-156 | so they aggregate to one package with that sample and that net profit, or to none |
| Dedupes.DedupeLoop | src/crypto_alpha_agent/evidence/paper.py:266-273 | the loop with a set of seen values computes the specified list |
| Dedupes.DedupeContents | src/crypto_alpha_agent/evidence/paper.py:266-273 | the same values, each once |
| Dedupes.DedupeOrder | src/crypto_alpha_agent/evidence/paper.py:266-273 | in the order of first occurrence |
| Dedupes.DedupeMerge | src/crypto_alpha_agent/evidence/paper.py:266-273 | parts may be deduplicated before they are joined |

## Left out

- Binary floating point and decimal precision: all arithmetic is exact, so a close is full when the quantities are equal as numbers.
- The vectorbt library: `run_vectorbt_backtest` takes its curve from it; the compounding loop modelled here is the reference curve in the same file.
- Backtest.SummaryRange: does not say what net return and drawdown are at fee or slippage rates above one, which the validator lets through and which can turn equity negative; nor is there a drawdown of a curve that starts at zero or below, as none of this kernel does.
- Order of dictionaries: inventory is a map, so which of several unmarkable symbols `Mark` names is not fixed.
- JSON, pydantic and SQLite: printing and parsing are parameters with stated assumptions, validated fields are preconditions or guards, the table is a map with ordering, and a missing record field other than those modelled does not appear.
- DataQuality.TimeframeUnits: does not model which texts `int` accepts, because reading the number is a parameter; nor the overflow of very long intervals.
- EventLog.LoadEvents: does not model torn multi-byte characters or two loggers writing at once.
- MemoryStores.MemoryStore.Append: does not model the text embedding beyond its length, which comes from a parameter; similarity search is not part of this model.
- RunLock.EvidenceRunLock.Enter: does not model a file removed by hand, or errors of `open` other than the file being there.
- PaperEvidence.AggregatePaperEvidence: does not model how a free-form mapping is normalised and validated; it enters as the input it reads as, or as refused.
- IsoTime.IsoReadBack: does not model the other text forms that `fromisoformat` accepts; a naive timestamp counts as UTC.
- The default fee schedules and symbol constraints of the cost model, and its names of venues and fee models: the estimate takes the schedule and constraints it is to use.
- The lower-casing of tags is a parameter: only the word `degraded` has to come out unchanged.
- The builders of candidate-state entries: the replacement step takes the entries as they are.
- Live readiness, redaction, prompts, rendering, command line, collectors and the modules `risk/`, `strategy/`, `pipeline/memory.py` and `pipeline/research_loop.py`.
