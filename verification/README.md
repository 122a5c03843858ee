# auto-trader: a model and its proofs

A Dafny model of the parts of auto-trader whose correctness is hard to see by
reading: the strategy simulator (`crates/sim`) and the money and alarm loops of
the live system. `dafny verify dfyconfig.toml` checks all of it.

## What is modelled

| file | source | in short |
|---|---|---|
| `SweepProtocol.dfy` | `crates/sim/src/sweep.rs` | the worker threads, the mutex queue, the bounded channel and the drain as interleaved steps |
| `SweepRejection.dfy` | `crates/sim/src/sweep.rs` | exactly when nothing is started after a rejection |
| `SweepGrid.dfy` | `crates/sim/src/sweep.rs` | the mixed-radix parameter grid and the choice of indices |
| `Market.dfy`, `Benchmark.dfy` | `crates/sim/src/types.rs`, `benchmark.rs` | bars, the zigzag automaton, legs and labels |
| `Engine.dfy`, `EngineRuns.dfy`, `EngineTheorems.dfy`, `EngineFills.dfy` | `crates/sim/src/engine.rs` | the bar-by-bar engine, its invariant, what holds of whole runs and of pairs of runs, and the fills in terms of the bars |
| `BenchmarkRun.dfy` | `engine.rs` with `benchmark.rs` | trading the labels earns the benchmark |
| `Evaluation.dfy`, `Drawdown.dfy` | `crates/sim/src/eval.rs`, `crates/db/src/summary.rs`, `crates/backtest/src/report.rs` | quantities that are computed in more than one way |
| `Series.dfy`, `LookAhead.dfy`, `DatasetRuns.dfy` | `crates/sim/src/series.rs` with `engine.rs` | aggregation, exactly when it does not look ahead, and runs over a dataset |
| `Fetch.dfy` | `crates/sim/src/fetch.rs` | the join that makes bars valid and ordered |
| `Sizing.dfy` | `position_sizer.rs`, `margin.rs`, `fx_new.rs` | a sized position is not liquidated before its stop |
| `SfdAccrual.dfy`, `SfdCharges.dfy` | `crates/app/src/runtime/sfd_accrual.rs`, `crates/core/src/sfd.rs` | every hour has one fate, which trades it charges, and how much |
| `Watchdog.dfy`, `WatchdogRounds.dfy`, `NotifyRetry.dfy` | `feed_watchdog.rs`, `lib.rs`, `crates/core/src/config.rs` | stale feeds, reminders, suspends, and retries that end in time |
| `Candles.dfy` | `crates/market/src/candle_builder.rs` | candles as sums of runs of ticks |
| `M15.dfy` | `crates/strategy/src/fx_new.rs` | quarter-hour candles from M5 candles in any order, and which quarters give one |
| `Reconcile.dfy`, `ReconcileSides.dfy` | `crates/app/src/startup_reconcile.rs` | the account after a start agrees with the exchange, and starting again after a failure |
| `Indicators.dfy`, `Smoothing.dfy` | `crates/market/src/indicators.rs` | EMA, RSI, ATR and ADX, their bounds and their closed forms |
| `Backtest.dfy` | `crates/backtest/src/runner.rs`, `report.rs` | the backtest's books |
| `IntArith.dfy`, `RealArith.dfy`, `Sorted.dfy`, `Wrappers.dfy` | | order facts of numbers, sorted insertion, and the option type |

Milli prices, times and indices are integers and decimals are exact reals. A
64-bit limit is written out where a property names it: the grid counts, the
saturating swing size, the conversions of the watchdog, the volume of a candle. A
decider, a strategy, a script run, a clock reading, an exchange answer or a
database answer is an arbitrary input. A loop or an object that the source updates
in place is a method or a class here, proved against a function of its inputs or
of its old state; the main results are lemmas about those functions.

## Where the code and its promises differ

- `run_sweep` documents that after the first error of `on_result` the remaining
  combinations are not started. The drain sets `cancelled` only after it has the
  error, so a worker can still claim in between. `PromiseIsKeptExactlyWhen` says
  for which runs and sinks this cannot happen, `PromiseOfOneThread` what that means
  for one thread, and `PromiseOfSize` that only a sweep of at most one combination
  is safe whatever they do. Nothing is claimed after the cancellation, and the
  workers are never more than twice the channel's capacity ahead of the drain.
- The completed bars of a dataset do not look ahead exactly when no two successive
  bars open in one slot of five minutes (`NoLookAheadExactlyWhenOnePerSlot`). The
  dataset asks for ascending open times only; the exchange's M5 klines have their
  slots. `TwoBarsInOneSlot` is an input that looks ahead.
- A tick of the SFD accrual that waits is tried again, but the trades are those of
  the tick that gets through: one that has closed in between is not charged for the
  hours it was open (`AWaitingHourCanBeLost`), and an account whose trades cannot be
  read then loses the hour (`UnreadableAccountLosesItsHours`). `ChargedExactlyWhen`
  says which trades are charged for which hours.
- The watchdog converts its unsigned settings with `as i64`. A re-alert interval of
  2^63 seconds or more, which `FeedWatchdogConfig::validate` accepts, becomes
  negative and no longer holds reminders back (`HugeIntervalIsNoInterval`). The
  interval is kept exactly below 2^63 (`IntervalIsKeptExactlyWhen`), as in every
  configuration file, whose integers are signed.
- The sizer's margin guarantee is for one position. A second one, sized from the
  balance that the first one left, can put both below the liquidation level at
  their stops (`TwoPositionsCanBeLiquidated`); `AllAtTheirStops` gives the exact
  condition for several positions.
- A position is sized at the last price and filled at whatever price comes back
  (`execute.rs` and `order_executor.rs`). Up to the sized price the guarantee holds
  (`NoLiquidationBeforeTheStop`); above it, it may fail or hold
  (`AFillAboveTheSizedPrice`). `LevelUpToTheStopExactlyWhen` is the exact condition
  for any fill: margin at the level plus loss at the stop fit into the balance.
- A start that fails between adding the commission of an executed stop and closing
  its trade is not repeatable: the next start adds the commission again. Every other
  failed start is (`StartingAgain`).
- A quarter of an hour whose M5 candles are delivered a second time gives a second
  M15 candle (`AReplayedQuarter`). A quarter gives a candle exactly when its three
  come at some place with none of another quarter in between (`CompletedExactlyWhen`).

## Model

| member | source | states |
|---|---|---|
| `SweepProtocol.WorkQueue.ClaimNextUnlessCancelled` | crates/sim/src/sweep.rs:24-33 | a claim hands out the next position exactly once, and none once the queue is cancelled or exhausted |
| `SweepProtocol.InvReachable` | crates/sim/src/sweep.rs:361-445 | in every interleaving every claimed combination is in exactly one place (a worker, the channel, received, failed) and nothing else is anywhere; the channel keeps to its capacity; errors stored, cancellation and the drain agree |
| `SweepProtocol.SomeStepIsEnabled` | crates/sim/src/sweep.rs:377-444 | no deadlock: until the call has returned some thread can move, although senders block on a full channel |
| `SweepProtocol.SchedulesAreBounded` | crates/sim/src/sweep.rs:377-444 | every run ends: no schedule is longer than 5n + capacity + 7 steps |
| `SweepProtocol.ReturnedResult` | crates/sim/src/sweep.rs:277-285 | Ok means that `on_result` got every record exactly once and accepted it; a rejection names the first rejected record, before which all were accepted; a fatal or panic result names the first such run, with fatal before panic |
| `SweepProtocol.NoFaultWhenOk` | crates/sim/src/sweep.rs:351-358 | no fatal error and no panic is lost behind an Ok |
| `SweepProtocol.OkWhenNothingFails` | crates/sim/src/sweep.rs:361-445 | when no run fails and everything is accepted, every schedule ends in Ok |
| `SweepProtocol.SendNeverFails` | crates/sim/src/sweep.rs:401-415 | the receiver outlives every send |
| `SweepProtocol.WorkersStayClose` | crates/sim/src/sweep.rs:274-276 | the workers are never more than twice the capacity ahead of the drain |
| `SweepProtocol.WorkersAndChannel` | crates/sim/src/sweep.rs:361-392 | there are as many workers as threads asked for, at least one, and the channel never holds more records than that |
| `SweepProtocol.RejectionAndCancellationAreFinal` | crates/sim/src/sweep.rs:335-341 | after the first rejection `on_result` is not called again, and after the cancellation nothing more is claimed |
| `SweepProtocol.RejectionIsReturned` | crates/sim/src/sweep.rs:281 | a rejected record is what the call returns in the end |
| `SweepRejection.PromiseIsKeptExactlyWhen` | crates/sim/src/sweep.rs:281 | for every sweep: no schedule starts a combination after a rejection exactly when every order in which records can reach the sink, and that the sink rejects at its last record, contains the last combination |
| `SweepRejection.WindowedReachable` | crates/sim/src/sweep.rs:377-416 | in every schedule the k-th record sent is one of the first k + capacity combinations |
| `SweepRejection.StartMeansEarlyRejection` | crates/sim/src/sweep.rs:335-341 | a combination started after a rejection means such an order of records, all before the last combination |
| `SweepRejection.Deliver` | crates/sim/src/sweep.rs:377-416 | every order that keeps the window is delivered by some schedule |
| `SweepRejection.AClaimCanFollowTheRejection` | crates/sim/src/sweep.rs:281 | for every sweep with such an order, a schedule that starts a combination after the rejection |
| `SweepRejection.PromiseOfOneThread` | crates/sim/src/sweep.rs:281 | with one thread the promise is kept exactly when no record but the last one is rejected in order |
| `SweepRejection.PromiseOfSize` | crates/sim/src/sweep.rs:281 | for all runs and sinks it is kept exactly for at most one combination |
| `SweepGrid.CandidateCount` | crates/sim/src/sweep.rs:47-55 | the count is the grid size, and saturates only for the one size that exceeds 64 bits |
| `SweepGrid.TotalCombinations` | crates/sim/src/sweep.rs:93-103 | fails exactly when the true product exceeds 2^63, else it is the product and no count was saturated; the 128-bit product never overflows |
| `SweepGrid.DefaultIndex` | crates/sim/src/sweep.rs:138-146 | the number of the default digits, in range |
| `SweepGrid.NumberDefaults` | crates/sim/src/sweep.rs:138-146 | the loop numbers the digits of the defaults in the mixed radix |
| `SweepGrid.DigitsAt` | crates/sim/src/sweep.rs:153-166 | the loop of remainders and quotients gives the mixed-radix digits of an index |
| `SweepGrid.CollectParams` | crates/sim/src/sweep.rs:153-166 | the parameter set assigns every spec the value of its digit |
| `SweepGrid.CombinationAt` | crates/sim/src/sweep.rs:153-166 | the parameter set of an index |
| `SweepGrid.NumberOfDigits` | crates/sim/src/sweep.rs:153-166 | decoding an index gives digits in range that number the index |
| `SweepGrid.DigitsOfNumber` | crates/sim/src/sweep.rs:138-166 | digits in range are decoded again from their number, which is in range |
| `SweepGrid.IndexOrderIsLexicographic` | crates/sim/src/sweep.rs:148-152 | index order is the lexicographic order of the digits, the last parameter fastest |
| `SweepGrid.IndexRoundTrip` | crates/sim/src/sweep.rs:153-166 | index to parameter set and back; the set is on the grid |
| `SweepGrid.CombinationRoundTrip` | crates/sim/src/sweep.rs:153-166 | every parameter set on the grid has an index in range that decodes to it, so decoding is one-to-one onto the grid |
| `SweepGrid.DefaultIndexDecodesToTheDefaults` | crates/sim/src/sweep.rs:129-146 | the default index decodes to the default of a parameter exactly when that default lies on its grid |
| `SweepGrid.SelectAll` | crates/sim/src/sweep.rs:178-221 | when all fit, the indices are a permutation with the default first |
| `SweepGrid.SelectSample` | crates/sim/src/sweep.rs:178-221 | else they are distinct, in range, with the default first: the remap that skips the default is injective |
| `SweepGrid.SelectIndices` | crates/sim/src/sweep.rs:178-221 | exactly min(max_runs, total) distinct indices in range with the default first, or the error of the total |
| `Benchmark.ExtractTurns` | crates/sim/src/benchmark.rs:62-139 | the automaton's turns are a zigzag: they alternate, each pair holds the extremes of its span and is at least theta apart, no opposite move of theta lies inside a span or after the last turn, the first turn is the earliest extreme before the first move, and no turns means no move of theta |
| `Benchmark.ZigzagIsUnique` | crates/sim/src/benchmark.rs:62-139 | a path has exactly one zigzag, so the property determines the result of the automaton |
| `Benchmark.Reversal` | crates/sim/src/benchmark.rs:84-137 | every turn is followed by a move of theta away from it that it is the extreme of |
| `Benchmark.LastBarExclusionNeverFires` | crates/sim/src/benchmark.rs:141-143 | for theta >= 1 a turn is never on the last bar |
| `Benchmark.BuildLegs` | crates/sim/src/benchmark.rs:145-184 | the legs of consecutive turns, and labels that are the leg's direction on (a, b] and 0 elsewhere |
| `Benchmark.LegPerSwing` | crates/sim/src/benchmark.rs:145-184 | leg k is the move from turn k to turn k+1 |
| `Benchmark.LegsOfZigzag` | crates/sim/src/benchmark.rs:145-184 | legs chain end to start and alternate; each is a move of at least theta whose next bar exists, and twice its ideal profit is the move in mid prices less both end spreads |
| `Benchmark.Compute` | crates/sim/src/benchmark.rs:186-207 | the benchmark of a swing size: legs, labels and the sums of their profits, with the swing size saturating |
| `Benchmark.SaturationFindsTheSame` | crates/sim/src/benchmark.rs:186-190 | with saturation the turns are those of the exact swing size, as long as no two mid prices are 2^63 apart |
| `Benchmark.SumsOverLegs` | crates/sim/src/benchmark.rs:198-199 | the ideal and the realizable profit are sums over the legs |
| `Engine.ApplySignalPendingFromPreviousBar` | crates/sim/src/engine.rs:97-130 | a changed signal closes the position and opens the new one at the opens of the bar, an equal one changes nothing |
| `Engine.ApplyProtectiveStop` | crates/sim/src/engine.rs:132-171 | a touched stop closes the position at the stop or, beyond it, at the open |
| `Engine.CloseAtPeriodEnd` | crates/sim/src/engine.rs:193-218 | a position held at the end is closed at the last bar's close |
| `Engine.Simulate` | crates/sim/src/engine.rs:225-302 | the loop computes the run that is defined bar by bar, for every decider, and stops at the first script error or fatal error |
| `EngineRuns.RunsAreGood` | crates/sim/src/engine.rs:225-302 | after every bar of every run the account, the trades, the positions and the signals tell one history, and the held position has not been touched by its stop |
| `EngineRuns.SignalStep` | crates/sim/src/engine.rs:97-130 | applying the pending signal keeps the trades well formed and ordered |
| `EngineRuns.StopStep` | crates/sim/src/engine.rs:132-171 | applying the stop keeps the history and leaves no held position that its stop was touched by |
| `EngineTheorems.TradesAndPositionsAgree` | crates/sim/src/engine.rs:244-302 | in an Ok run every entry fills at the open of the bar after its signal, trades are ordered and do not overlap, positions[i] = d exactly where one trade of direction d covers i, the bars in the market are the sum of the durations, and positions follow the signals unless stopped |
| `EngineTheorems.OneTradeAtATime` | crates/sim/src/engine.rs:97-218 | no bar is covered by two trades |
| `EngineTheorems.StoppedRun` | crates/sim/src/engine.rs:280-296 | a run ended by the script keeps well-formed, ordered trades, none closed by the end of the data |
| `EngineTheorems.StopDiscipline` | crates/sim/src/engine.rs:132-218 | a protective stop loses at least the offset; over valid bars it fills inside its bar's range, and a trade closed by the end of the data lost less than the offset |
| `EngineTheorems.NoLookAhead` | crates/sim/src/engine.rs:225-302 | two runs whose bars agree on the first k agree on the first k positions, on what the decider was shown, and on every trade closed before k other than by the end of the data |
| `EngineFills.FillsOfRuns` | crates/sim/src/engine.rs:225-302 | every trade of every run is filled at prices of its bars: a long enters at the ask open of its first bar, and leaves at the bid open of the bar after its signal, at its stop or at the bid open beyond that, or at the last bid close; its stop, the offset below its entry, is reached by no bar before; a short is the mirror image |
| `EngineFills.StopLosesItsDistanceExactlyWhen` | crates/sim/src/engine.rs:132-171 | a protective stop loses exactly its offset when the bar does not open beyond it, and more otherwise |
| `EngineFills.HowARunEnds` | crates/sim/src/engine.rs:225-302 | the signals are the decider's answers to the bars and states so far; the run is Ok when all bars have one, a script error at the first bar with a failure or another answer, and fatal as the decider says |
| `EngineFills.StatesShowTheTrades` | crates/sim/src/engine.rs:173-191 | every state shown has the number of its bar in the dataset and the position after the stop, and in a trade its entry price and the bars since its entry |
| `EngineFills.FlatStatesShowTheLastEntry` | crates/sim/src/engine.rs:173-191 | without a position the state still shows the entry price of the last trade that had begun, or nothing before the first |
| `BenchmarkRun.TradingTheLabelsEarnsTheBenchmark` | crates/sim/src/benchmark.rs:9-16 | the engine that is told the next bar's label and is not stopped out makes one trade per leg, holds exactly the labels, and earns exactly the realizable profit |
| `BenchmarkRun.LegsFit` | crates/sim/src/benchmark.rs:145-184 | the realizable profit of a leg is the profit of the engine's trade from the open after its start to the open after its end |
| `BenchmarkRun.RunFollowsLegs` | crates/sim/src/engine.rs:244-300 | after every bar of such a run the legs passed are its trades and the current leg is its position |
| `Evaluation.EvaluateLeg` | crates/sim/src/eval.rs:170-197 | matched, flat and opposite bars of (a, b] add up to b - a, and the first match is the first bar on the leg's side |
| `Evaluation.CountIsTheNumber` | crates/sim/src/eval.rs:170-197 | a count is the number of bars on the side |
| `Evaluation.FirstIsWhereTheCountBegins` | crates/sim/src/eval.rs:170-197 | the first match is the bar at which the count becomes one |
| `Evaluation.MissedIsLessThanHalf` | crates/sim/src/eval.rs:266-281 | a leg is missed exactly when the run was on its side at less than half of its bars |
| `Evaluation.LabelsAndLegsAgree` | crates/sim/src/eval.rs:213-227 | counting the correct side over the labels equals summing it over the legs, and the labelled bars are the bars from the first leg's start to the last leg's end |
| `Evaluation.OutsideTheLegs` | crates/sim/src/benchmark.rs:166-181 | labels are 0 before the first leg and after the last one |
| `Evaluation.SegmentIndex` | crates/sim/src/eval.rs:152-159 | the segment that an exit bar belongs to, the last one for an index past the end |
| `Evaluation.SegmentsPartition` | crates/sim/src/eval.rs:136-143 | every bar belongs to exactly one of the six segments |
| `Evaluation.ProfitsInParts` | crates/sim/src/eval.rs:136-159 | the profit of a segment is the sum over the trades that end in its sixth of the bars, the last one with the rest |
| `Evaluation.ComputeSegments` | crates/sim/src/eval.rs:136-150 | each segment holds the profit of the trades closed in it, and the six add up to the total |
| `Evaluation.MissedLegs` | crates/sim/src/eval.rs:266-281 | the list is ranked by realizable profit and then by start; it holds every missed leg unless it is full, and then only lower ranks are left out |
| `Drawdown.TotalsAddUp` | crates/sim/src/eval.rs:124-134 | the running totals begin with nothing, and each adds its value |
| `Drawdown.OfSimulation` | crates/sim/src/eval.rs:124-134 | the largest fall from an earlier running total to a later one |
| `Drawdown.OfDay` | crates/db/src/summary.rs:43-58 | the same value from the daily summary's loop |
| `Drawdown.OfBacktest` | crates/backtest/src/report.rs:57-69 | the same value from the backtest's loop, whatever the initial balance |
| `Drawdown.DrawdownIsUnique` | crates/sim/src/eval.rs:124-134 | the property determines the value, so the three loops agree; it is not negative |
| `Series.Aggregate` | crates/sim/src/series.rs:70-111 | the two cursors compute the series defined one bar at a time |
| `Series.AggregationCuts` | crates/sim/src/series.rs:70-111 | the aggregated bars summarise the maximal runs of bars in one bucket: first open, extremes, last close, bucket end |
| `Series.BucketBounds` | crates/sim/src/series.rs:76-107 | a bucket ends at the next multiple of its length after its bars |
| `Series.CompletedCounts` | crates/sim/src/series.rs:113-135 | at every M5 bar the cursor is the number of aggregated bars that have ended by the end of that bar |
| `LookAhead.CountsNeedNoLaterBar` | crates/sim/src/series.rs:113-135 | for every ascending dataset the number of completed bars is the same from the bars up to t, and counts exactly those that have ended |
| `LookAhead.CompletedBarsNeedNoLaterBar` | crates/sim/src/series.rs:113-135 | the completed bars at t are the same from the bars up to t as from all bars, unless the bucket of bar t is complete and still filling |
| `LookAhead.NoLookAheadAtBar` | crates/sim/src/series.rs:113-135 | for given open times, a bar and a timeframe: they are the same for all prices, valid or not, exactly when the bucket is not both complete and still filling |
| `LookAhead.ALaterBarShows` | crates/sim/src/series.rs:263-276 | else there are valid bars at the same times whose completed bars show a later close |
| `LookAhead.NoLookAheadExactlyWhenOnePerSlot` | crates/sim/src/series.rs:70-135 | a dataset never looks ahead, at any bar and timeframe and for any prices, exactly when no two successive bars open in one slot of five minutes |
| `LookAhead.TwoBarsInOneSlot` | crates/sim/src/series.rs:263-276 | bars at 0 and 100 seconds: the completed M5 bar at the first one has the close of the second |
| `DatasetRuns.SameRun` | crates/sim/src/series.rs:225-243 | with one bar per slot, a script over the series of the whole dataset runs as over the series of the bars up to each bar |
| `DatasetRuns.NoLookAheadOnDatasets` | crates/sim/src/engine.rs:225-302 | two such datasets that agree on the first k evaluation bars give the same positions on them, show the same states and settle the same trades before k |
| `LookAhead.GridBarsHaveTheirSlots` | crates/sim/src/series.rs:70-135 | ascending open times on the 300-second grid have one bar per slot |
| `Series.AggregatedEndsIncrease` | crates/sim/src/series.rs:120-135 | end times strictly increase, as the cursor needs |
| `LookAhead.M5CompletesAtOnce` | crates/sim/src/series.rs:263-276 | at M5 the count at t is t + 1 for every t exactly when there is one bar per slot |
| `Series.SelectWindow` | crates/sim/src/series.rs:183-243 | the window holds the requested bars and exactly the warm-up bars before them, or the error says which of the two is missing |
| `Series.EarliestFromIsEarliest` | crates/sim/src/series.rs:137-161 | the start named in the error is the earliest midnight with enough warm-up bars, and none is named exactly when there are too few bars |
| `Series.EarliestFromWithoutWarmup` | crates/sim/src/series.rs:148-161 | without warmup bars the start is the midnight at or before the first bar, and there is none exactly without bars |
| `Fetch.IndexByOpenTime` | crates/sim/src/fetch.rs:262-270 | a slot holds the only kline of a time and is emptied when the time repeats |
| `Fetch.ValidPairsMakeValidBars` | crates/sim/src/fetch.rs:316-329 | a pair is accepted exactly when its bar is valid |
| `Fetch.JoinAndValidate` | crates/sim/src/fetch.rs:259-314 | every open time is kept, one-sided or invalid by how often each side has it and by its prices; bars are valid and strictly ascending; the three numbers add up to the distinct times |
| `Fetch.BarsAreTheKept` | crates/sim/src/fetch.rs:259-314 | the bars are those of the kept fates, in order |
| `Fetch.CountsAreOfFates` | crates/sim/src/fetch.rs:259-314 | the two counts are the numbers of one-sided and of invalid times |
| `Fetch.SortedTimes` | crates/sim/src/fetch.rs:275-277 | the distinct open times in order |
| `Sizing.QuantityIsTheLargest` | crates/executor/src/position_sizer.rs:54-98 | the quantity is the largest one, among the multiples of the minimum size if there is one, whose value at leverage is within the allocation and whose margin at the level with the buffer and loss at the stop fit into the balance; there is none exactly when an input is out of range or the minimum size itself does not fit |
| `Sizing.TriggerIsNotBeyondTheStop` | crates/executor/src/position_sizer.rs:32-50 | the rounded trigger is the nearest price step on the entry's side of the stop |
| `Sizing.NoLiquidationBeforeTheStop` | crates/executor/src/position_sizer.rs:74-79 | with its margin taken from the balance, a sized position keeps a maintenance ratio of at least the level plus the buffer at every price that is not beyond its stop, for any fill up to the sized price and for partial fills |
| `Sizing.LevelUpToTheStopExactlyWhen` | crates/core/src/margin.rs:48-58 | a position filled at any price and for any quantity is never below a level up to its stop exactly when its margin at that level and its loss at the stop fit into the balance, or its margin is truncated to nothing |
| `Sizing.AFillAboveTheSizedPrice` | crates/executor/src/trader/order_executor/execute.rs:30-47 | a fill ten percent above the sized price goes below the level at the stop for a whole allocation, and not for a tenth |
| `Sizing.MarginAtStop` | crates/executor/src/position_sizer.rs:74-79 | the bound behind it: margin at the level plus the loss at the stop fit into the balance |
| `Sizing.TruncatedMargin` | crates/core/src/margin.rs:35-38 | the required margin is the whole part of the exact one |
| `Sizing.ResultFollowsThePrice` | crates/core/src/margin.rs:22-28 | the unrealized result is nothing at the entry and follows the price in the direction of the position |
| `Sizing.LossBeforeStop` | crates/core/src/margin.rs:22-28 | the unrealized loss at a price not beyond the stop is at most the stop distance times the quantity |
| `Sizing.AllocationFor` | crates/strategy/src/fx_new.rs:147-149 | the allocation is in (0, 1], as the sizer asks |
| `Sizing.AllocationIsTheLargest` | crates/strategy/src/fx_new.rs:147-149 | it is the largest one at which the loss up to the stop is within 1% of the balance |
| `Sizing.RiskIsOnePercent` | crates/strategy/src/fx_new.rs:147-149 | with this allocation and leverage 10 a position loses at most 1% of the balance up to its stop, for any fill up to the sized price |
| `Sizing.AllAtTheirStops` | crates/core/src/margin.rs:48-58 | several positions at their stops keep a ratio exactly when their reserves fit together into the balance |
| `Sizing.TwoPositionsCanBeLiquidated` | crates/app/src/liquidation.rs:27-29 | two positions sized one after the other, each within the sizer's bound, are below the level when both are at their stops |
| `SfdAccrual.ApplyToAccount` | crates/app/src/runtime/sfd_accrual.rs:135-216 | the charges of one account for one hour, from the trades read for that hour; a fee that cannot be written, or whose trade is not open any more, is no charge |
| `SfdAccrual.ApplyPendingHours` | crates/app/src/runtime/sfd_accrual.rs:118-133 | the charges of every pending hour, in order |
| `SfdAccrual.ProcessTick` | crates/app/src/runtime/sfd_accrual.rs:24-76 | a tick waits, moves on without charging, or charges, by what can be read and by the clock |
| `SfdAccrual.Run` | crates/app/src/runtime/sfd_accrual.rs:15-22 | the loop over ticks computes the last hour and the charges of the run |
| `SfdAccrual.EveryHourHasOneFate` | crates/app/src/runtime/sfd_accrual.rs:24-76 | over any run the ledger holds every hour after the first, up to the last one, exactly once and in order |
| `SfdAccrual.FateIsThatOfTheResolvingTick` | crates/app/src/runtime/sfd_accrual.rs:24-76 | the fate of an hour is decided by the tick that resolves it: without target if nothing is open, dropped if 24 hours old, else charged |
| `SfdAccrual.ResolvedOnce` | crates/app/src/runtime/sfd_accrual.rs:24-76 | no two ticks resolve one hour |
| `SfdAccrual.ChargedExactlyWhen` | crates/app/src/runtime/sfd_accrual.rs:24-76 | over any run a trade is charged for an hour exactly when the tick that resolves the hour has targets, finds it among the 24 hours up to the current one, reads the trade as open and due, and can write the fee |
| `SfdAccrual.ChargedHourHasItsCharges` | crates/app/src/runtime/sfd_accrual.rs:118-133 | an hour marked as charged has exactly the charges its tick could make, none left out |
| `SfdAccrual.PendingChargesAre` | crates/app/src/runtime/sfd_accrual.rs:118-133 | the charges of a tick are those of its pending hours |
| `SfdAccrual.TickMovesToNowOrNowhere` | crates/app/src/runtime/sfd_accrual.rs:40-76 | a tick leaves the last hour alone and charges nothing, or moves it forward to the current hour; its charges are for the last 24 hours |
| `SfdAccrual.DroppedOnlyWhenLate` | crates/app/src/runtime/sfd_accrual.rs:249-266 | an hour is dropped only by a tick that finds it 24 hours old or older |
| `SfdAccrual.AWaitingHourCanBeLost` | crates/app/src/runtime/sfd_accrual.rs:64-74 | a trade due during a tick that waits and closed before the next one is never charged for the hour, which is one hour old and marked as without target |
| `SfdAccrual.HourChargesAre` | crates/app/src/runtime/sfd_accrual.rs:135-216 | an hour charges exactly the FX_BTC_JPY trades of paper bitFlyer accounts that are read as open, were entered by then, have a fee, and whose fee can be written |
| `SfdAccrual.NoTradeIsChargedTwice` | crates/app/src/runtime/sfd_accrual.rs:118-133 | over any run no trade is charged twice for an hour, hours come in order, none after the last hour, and each is one that the ledger calls charged |
| `SfdAccrual.UnreadableAccountLosesItsHours` | crates/app/src/runtime/sfd_accrual.rs:150-161 | an account whose trades cannot be read is skipped and its hour is not tried again |
| `SfdCharges.HourlyFeeIs` | crates/core/src/sfd.rs:20-69 | the hourly fee is a 24th of the daily rate of the notional without its fraction, with the sign of the gap for a long and the other one for a short; the rate goes by the gap in shares of the spot price, and is nothing below a twentieth |
| `SfdCharges.WhoPays` | crates/core/src/sfd.rs:48-69 | with a positive notional a long pays only above the spot price and is paid only below it, and a short the opposite |
| `SfdCharges.LastIsTheLatest` | crates/app/src/runtime/sfd_accrual.rs:24-76 | the last hour of a run is the latest of its first hour and the hours of the later ticks whose reads all succeed |
| `SfdCharges.ChargesAreThoseOfTheReads` | crates/app/src/runtime/sfd_accrual.rs:24-216 | a charge is made exactly when the first tick that gets through at or after its hour comes less than 24 hours later, reads an open FX_BTC_JPY trade of a paper account that was open by then, with fresh prices that make this fee, and can write it |
| `Watchdog.FeedFreshnessTracker.Evaluate` | crates/app/src/feed_watchdog.rs:158-215 | one check updates the state of its own feed and no other, and says what the change is |
| `Watchdog.WhatACheckSays` | crates/app/src/feed_watchdog.rs:158-215 | an unsuppressed check of an open market says newly stale, still stale once the interval has passed since the last alert, or recovered; a feed is stale when nothing has come for the limit since its last tick or, before the first one, since the start |
| `Watchdog.SuspendGraceTracker.NoteSuspendResumed` | crates/app/src/feed_watchdog.rs:83-85 | the grace period ends the stale limit after the resume |
| `Watchdog.OnlyOwnChecksMatter` | crates/app/src/feed_watchdog.rs:158-215 | over any run the history of a feed depends only on its own unsuppressed checks |
| `Watchdog.HistoryIsWellFormed` | crates/app/src/feed_watchdog.rs:158-215 | the history of a feed is episodes of newly stale, reminders, and recovered or cleared; `since` stays constant within an episode |
| `Watchdog.RemindersAreSpaced` | crates/app/src/feed_watchdog.rs:193-207 | reminders are at least the re-alert interval apart when it is below 2^63 seconds |
| `Watchdog.HugeIntervalIsNoInterval` | crates/app/src/feed_watchdog.rs:193-207 | from 2^63 seconds on, after any history, every unsuppressed check that finds the feed still stale is a reminder, unless the clock is back before the last alert |
| `Watchdog.IntervalIsKeptExactlyWhen` | crates/app/src/feed_watchdog.rs:193-207 | over all runs and feeds reminders keep the interval exactly when it is below 2^63 seconds |
| `Watchdog.GraceIsQuiet` | crates/app/src/feed_watchdog.rs:87-91 | the grace period is the time up to the stale limit after the latest suspend found |
| `WatchdogRounds.GapsAreFound` | crates/app/src/feed_watchdog.rs:358-395 | an alert of a suspend is raised for exactly the rounds at which the clock has moved on by the limit since the round before, in order, with the whole seconds of the gap |
| `WatchdogRounds.QuietExactlyWhen` | crates/app/src/feed_watchdog.rs:358-420 | the feeds are not spoken of exactly when less than the stale limit has passed since the latest round that found a suspend |
| `WatchdogRounds.WhatARoundChecks` | crates/app/src/feed_watchdog.rs:358-420 | a round whose clock is behind that of the round before checks nothing, any other checks each feed once |
| `Watchdog.Run` | crates/app/src/feed_watchdog.rs:357-397 | over any series of rounds each feed gets exactly the alerts of its history, rounds with a backward clock are skipped, and the checks in a grace period are suppressed |
| `Watchdog.CheckFeeds` | crates/app/src/feed_watchdog.rs:433-484 | the round checks the feeds one after the other |
| `NotifyRetry.RetrySend` | crates/app/src/lib.rs:95-137 | sends until the first success or until the retries are used up, waiting the delays in between, and returns that outcome |
| `NotifyRetry.DelaysAddUp` | crates/app/src/lib.rs:58-61 | unsaturated, the delays double and add up to (2^attempts - 1) times the first one |
| `NotifyRetry.WaitsDouble` | crates/app/src/lib.rs:58-61 | the first wait is the initial one, and each later one doubles until 64 bits cannot hold it |
| `NotifyRetry.WaitsStay` | crates/app/src/lib.rs:58-61 | from the 64th retry on the wait stays the same |
| `NotifyRetry.AcceptedExactlyWhen` | crates/core/src/config.rs:117-167 | the settings are accepted exactly when no interval is zero, suspend and stale limits fit the check interval, the exchanges are known, there are at most ten retries, and the longest alert, with the waits as they are made, is over before the re-alert interval is |
| `NotifyRetry.RefusalNamesTheFault` | crates/core/src/config.rs:117-167 | the option that is named in a refusal is at fault |
| `NotifyRetry.AlertIsOverInTime` | crates/core/src/config.rs:150-165 | with accepted settings no delay saturates and one alert ends before the re-alert interval does |
| `NotifyRetry.SendsEndBeforeTheNextReminder` | crates/core/src/config.rs:150-165 | the sends of an alert end before the next reminder of its feed |
| `Candles.CandleBuilder.constructor` | crates/market/src/candle_builder.rs:29-50 | an empty builder of one of the three periods |
| `Candles.CandleBuilder.OnTick` | crates/market/src/candle_builder.rs:66-111 | a tick of the open period joins its run, any other starts a new run and emits the candle of the old one with the bid and ask kept before |
| `Candles.CandleBuilder.CompleteCurrent` | crates/market/src/candle_builder.rs:113-131 | emits the sum of the open run and empties the builder |
| `Candles.CandleBuilder.TryComplete` | crates/market/src/candle_builder.rs:136-154 | emits the open candle exactly when its period has ended, with the newer bid and ask |
| `Candles.FoldIsTheSummary` | crates/market/src/candle_builder.rs:85-110 | a candle has the first and last price of its run, its extremes and its whole volume |
| `Candles.Build` | crates/market/src/candle_builder.rs:66-154 | over any stream a builder emits one candle for each finished run and holds the open one |
| `Candles.CandlesSumUp` | crates/market/src/candle_builder.rs:113-131 | every candle has the period, the first and last price, the extremes and the rounded volume of its run |
| `Candles.WhenACandleIsFinished` | crates/market/src/candle_builder.rs:66-154 | a poll finishes the open candle exactly when its period is over, a tick exactly when it is of another period |
| `Candles.PeriodStartIs` | crates/market/src/candle_builder.rs:52-61 | a period starts at a multiple of its length, at or before its times, and after them before 1970 |
| `Candles.RoundIsNearest` | crates/market/src/candle_builder.rs:123 | a volume is rounded to the nearest whole number, from the middle upwards, and is at most the largest of 64 bits |
| `Candles.KeptQuotesAreTheLatest` | crates/market/src/candle_builder.rs:81-84 | the kept quotes are the last ones that a tick, or a poll that finished a candle, has brought |
| `Candles.FinishedWithTheLatest` | crates/market/src/candle_builder.rs:66-154 | a candle has the quotes kept before the tick that finishes it, or with those of the poll that does |
| `Candles.EveryTickIsInOneRun` | crates/market/src/candle_builder.rs:66-154 | no tick is lost, doubled or moved |
| `Candles.VolumeIsConserved` | crates/market/src/candle_builder.rs:66-154 | the volumes of the runs add up to those of the ticks, before rounding |
| `Candles.TimestampsIncrease` | crates/market/src/candle_builder.rs:66-154 | for events in time order the candle times strictly increase |
| `Candles.TicksAloneAreCutIntoRuns` | crates/market/src/candle_builder.rs:66-111 | without polls the runs are the maximal ones of one period |
| `Candles.HourIsMadeOfItsCandles` | crates/market/src/gmo_fx.rs:219-243 | on the same ticks the prices, and the volume before rounding, of the hourly candle are the merge of those of the M1 or M5 candles of the hour; bid and ask are not part of it |
| `M15.Aggregator.AggregateM15` | crates/strategy/src/fx_new.rs:91-132 | a candle of a new quarter drops what was pending, a repeated one is ignored, and the third completes the quarter |
| `M15.Run` | crates/strategy/src/fx_new.rs:91-132 | over any stream the completed candles combine the parts that the stream completes |
| `M15.CombinedSumsUp` | crates/strategy/src/fx_new.rs:115-131 | a quarter opens with its first and closes with its last candle, reaches as far as the three, adds up their volumes and has the last quotes |
| `M15.EveryM15IsAWholeQuarter` | crates/strategy/src/fx_new.rs:91-132 | for M5 candles on the five-minute grid, in any order, with gaps and repetitions, every M15 candle is made of the three of its quarter |
| `M15.CompletedExactlyWhen` | crates/strategy/src/fx_new.rs:91-132 | for every stream on the grid, whatever its order, gaps and repetitions: a quarter gives a candle exactly when its three candles come at some place with none of another quarter in between |
| `M15.QuartersAreCompletedOnce` | crates/strategy/src/fx_new.rs:91-132 | while no candle comes twice, no quarter gives two candles |
| `M15.CompletedInOrder` | crates/strategy/src/fx_new.rs:91-132 | a stream in time order gives exactly one candle for every quarter that it holds whole, and no other |
| `M15.AReplayedQuarter` | crates/strategy/src/fx_new.rs:91-132 | a quarter that comes again after it was completed gives a second candle |
| `Reconcile.SumMatchingExchangeSize` | crates/app/src/startup_reconcile.rs:180-204 | the total on the side of a direction, and whether a position is on the other or an unknown side |
| `Reconcile.GroupTrades` | crates/app/src/startup_reconcile.rs:337-351 | each group has the total and the rows of its pair and direction |
| `Reconcile.Store.CloseReconciled` | crates/app/src/startup_reconcile.rs:434-456 | a close gives margin and result back to the balance; a failed write stops where it fails |
| `Reconcile.Store.ReconcileTrade` | crates/app/src/startup_reconcile.rs:231-246 | the four cases, and what each failed write leaves behind |
| `Reconcile.Store.ReconcileGroup` | crates/app/src/startup_reconcile.rs:129-147 | every trade of the group becomes final, or the write of one failed, which is named, and the others are untouched or final |
| `Reconcile.Store.ReconcileAccount` | crates/app/src/startup_reconcile.rs:104-148 | succeeds exactly when the positions can be read, every group passes and the writes succeed; then every trade is final, for every order of the groups; else it stops at a group that does not pass or at the trade whose write fails, every other trade is untouched or final, and only trades of groups that pass have changed; the capital is kept in any case |
| `Reconcile.StartingAgain` | crates/app/src/startup_reconcile.rs:434-456 | a failed start followed by a successful one ends as one successful start does, exactly when no write failed between adding a non-zero commission and closing the trade; else that one trade is charged its commission twice |
| `Reconcile.StartingAgainSucceedsExactlyWhen` | crates/app/src/startup_reconcile.rs:104-148 | with the same answers and working writes, a start after a failed one succeeds exactly when it would have succeeded on the first trades |
| `Reconcile.OpenQuantitiesMatchTheExchange` | crates/app/src/startup_reconcile.rs:21-27 | after a success no trade is closing, and on each side of each pair with an active trade the open quantity is the exchange's size |
| `Reconcile.NoOtherSide` | crates/app/src/startup_reconcile.rs:206-229 | a group that passes leaves no position on the other side of its pair |
| `ReconcileSides.SideIsWhatItReads` | crates/app/src/startup_reconcile.rs:492-498 | a side counts for longs exactly when it reads BUY without surrounding white space and in any letter case, for shorts exactly when it reads SELL, and otherwise for none |
| `ReconcileSides.PassesExactlyWhen` | crates/app/src/startup_reconcile.rs:180-229 | a group passes exactly when all positions of its pair are on its side, and of its total size or none |
| `ReconcileSides.ReconciledExactlyWhen` | crates/app/src/startup_reconcile.rs:104-148 | an account is reconciled exactly when, for each trade that is not closed, the positions of its pair are read, are all on its side and of its group's size or none, and its write succeeds if it changes |
| `ReconcileSides.WritesAreForChanges` | crates/app/src/startup_reconcile.rs:231-335 | a trade needs a write exactly when it changes |
| `ReconcileSides.HeldAccountIsUnchanged` | crates/app/src/startup_reconcile.rs:104-148 | an account whose active trades are open in one direction of a pair, with positions of just their size on just their side, is reconciled and left as it is |
| `ReconcileSides.AnotherSideIsRefused` | crates/app/src/startup_reconcile.rs:206-229 | a position on another or an unknown side of the pair of an active trade refuses the account |
| `ReconcileSides.ClosedAsTheAnswersSay` | crates/app/src/startup_reconcile.rs:261-456 | a trade without a position is closed at the price of its executed stop with its commission, else in the middle of the quote, else at its entry; its result is the whole part of the move times the quantity |
| `ReconcileSides.ClosingReleasesTheMargin` | crates/app/src/startup_reconcile.rs:434-456 | a close releases the margin of the trade and its result, and nothing else releases anything |
| `ReconcileSides.WhatAFailureLeaves` | crates/app/src/startup_reconcile.rs:305-456 | a failed write leaves a trade as it was, with the commission of its executed stop only, or closed |
| `Indicators.Ema` | crates/market/src/indicators.rs:76-86 | the average lies within any bounds of the prices |
| `Indicators.Rsi` | crates/market/src/indicators.rs:93-115 | the share of the rises in all movement of the last changes, in percent, so within [0, 100]; 100 when nothing falls |
| `Indicators.Atr` | crates/market/src/indicators.rs:149-175 | the Wilder average of the true ranges, between the smallest and the largest one |
| `Indicators.WilderAverage` | crates/market/src/indicators.rs:273-277 | Wilder smoothing stays within any bounds of its values |
| `Indicators.Adx` | crates/market/src/indicators.rs:208-278 | the index stays in [0, 100] through both smoothing loops |
| `Indicators.SmoothedIndices` | crates/market/src/indicators.rs:247-269 | the directional index of a candle is 100 abs(plus - minus) / (plus + minus) of the smoothed movements |
| `Indicators.RangeCancels` | crates/market/src/indicators.rs:258-267 | the smoothed true range cancels out of the directional index |
| `Indicators.Movements` | crates/market/src/indicators.rs:220-243 | the movements and true ranges of all candles |
| `Indicators.AdxIgnoresTheDirection` | crates/market/src/indicators.rs:208-278 | a market turned upside down has the same index |
| `Smoothing.EmaIs` | crates/market/src/indicators.rs:76-86 | the EMA in closed form: the mean of the first prices and each later one with weight 2 / (period + 1), aged by the ones after it |
| `Smoothing.WilderIs` | crates/market/src/indicators.rs:169-173 | a Wilder average in closed form: the mean of the first values and each later one with weight 1 / period, aged by (period - 1) / period for each one after it |
| `Smoothing.SmoothedIs` | crates/market/src/indicators.rs:247-255 | a Wilder sum in closed form: the sum of the first values and each later one, aged in the same way |
| `Smoothing.AdxIs` | crates/market/src/indicators.rs:208-278 | the ADX is the Wilder average of the directional indices, each from the Wilder sums of movements and ranges; None exactly when there are too few candles or indices |
| `Smoothing.LargerReachMoves` | crates/market/src/indicators.rs:224-236 | of the reaches of a candle beyond the one before, above and below, the larger one is the movement, and of two equal ones none |
| `Smoothing.TrueRangeReachesTheClose` | crates/market/src/indicators.rs:237-240 | the true range reaches from low to high and to the close before |
| `Smoothing.RisesAndFalls` | crates/market/src/indicators.rs:97-108 | rises and falls make up the whole movement, and their difference is the change of the price |
| `Backtest.SimTrader.constructor` | crates/backtest/src/runner.rs:26-39 | a trader with the initial balance and no position |
| `Backtest.SimTrader.Open` | crates/backtest/src/runner.rs:49-102 | the new trade is under the next id, and nothing changes when the sizer gives no quantity |
| `Backtest.SimTrader.OpenPositions` | crates/backtest/src/runner.rs:104-106 | every open trade once, in any order |
| `Backtest.FixedExitsCloseTheHit` | crates/backtest/src/runner.rs:198-215 | whatever the order, exactly the trades of the pair whose stop or target the candle reaches are closed |
| `Backtest.SimTrader.Close` | crates/backtest/src/runner.rs:108-135 | the result is the truncated price difference after the spread; it goes to the balance and the position is gone; an unknown id changes nothing |
| `Backtest.SimTrader.CloseHitFixedExits` | crates/backtest/src/runner.rs:198-215 | closes exactly the trades that the candle hits, at their stop or target, and cannot fail |
| `Backtest.SimTrader.TryOpenNewEntry` | crates/backtest/src/runner.rs:217-246 | opens the signal's trade, counts a failure when there is no quantity, and does nothing for a strategy and pair that has a trade |
| `Backtest.SimTrader.CloseStrategyDrivenExits` | crates/backtest/src/runner.rs:248-270 | closes in order and fails exactly when an exit names a trade that is not open any more |
| `Backtest.SpreadIsPaid` | crates/backtest/src/runner.rs:41-47 | opening and closing at one price never gains |
| `Backtest.ResultOfARoundTrip` | crates/backtest/src/runner.rs:41-135 | the result of a trade is the whole part of the move between the two raw prices less the spread of both, times the quantity |
| `Backtest.WhatASignalOpens` | crates/backtest/src/runner.rs:49-102 | the trade of a signal: the raw price moved by the spread against it, the sizer's quantity at that price, stop and target; none exactly when the sizer gives none |
| `Backtest.WhereACandleCloses` | crates/backtest/src/runner.rs:171-196 | a candle closes a trade of its pair at the stop exactly when it reaches that, else at the target exactly when it reaches that |
| `Backtest.WhatACloseRecords` | crates/backtest/src/runner.rs:108-135 | a closed trade records the raw price moved by the spread against it, its truncated result there, and the reason |
| `Backtest.FixedExitsRecordTheHit` | crates/backtest/src/runner.rs:198-215 | the closes recorded at a candle are those of the hit trades, each once, at stop or target, in the order of the list |
| `Backtest.WhatASignalDoes` | crates/backtest/src/runner.rs:217-246 | a signal opens its trade under the next id exactly when the strategy has none of the pair and the sizer gives a quantity, and counts a failure exactly when it gives none |
| `Backtest.ExitsCloseEach` | crates/backtest/src/runner.rs:248-270 | the strategy's exits fail exactly when one names a trade that is not open or was closed by an earlier one; otherwise each closes its trade at its price, in order |
| `Backtest.TargetMirrorsTheStop` | crates/backtest/src/runner.rs:69-76 | stop and target are the given shares of the entry away, on opposite sides |
| `Backtest.ProfitAndLossAre` | crates/backtest/src/report.rs:44-80 | wins are the positive results, and gross profit and gross loss together the sizes of all of them |
| `Backtest.Run` | crates/backtest/src/runner.rs:320-370 | every candle is fixed exits, then an entry, then the strategy's exits, and the run ends at the first that fails; every trade is listed once when it opens and at most once when it closes, no strategy holds two positions of a pair, and the final balance is the initial one plus the total profit |
| `Backtest.FromTrades` | crates/backtest/src/report.rs:32-103 | wins and losses count the closed trades, the total is gross profit less gross loss, and the drawdown is that of the closed results |
| `Backtest.BooksAfterClose` | crates/backtest/src/runner.rs:108-135 | a close keeps the books of a run |
| `Backtest.BooksAfterOpen` | crates/backtest/src/runner.rs:217-246 | an opening keeps the books of a run |

## Left out

- Database access, SQL and transactions: reads and writes of trades are inputs with outcomes; a close or a reset of a trade is the change that the source describes.
- HTTP, WebSocket, gRPC, Slack, the dashboard and the API handlers: transport and user interface.
- Tokio tasks and shutdown; the sweep's threads are modelled as steps, and a mutex as an atomic one.
- A panic inside `on_result`, and poisoned locks, in the sweep.
- The Rhai host, the indicator cache and `on_init`: the decider is any function of what it is shown.
- Floating point: the float branch of `candidate_count` and the values of float parameters, conversions to pips, ratios and rates of the metrics, Bollinger bands, the `f64` step of a candle's volume.
- Overflow of 64-bit integers and of decimals, and the range of dates, except where a property names a bound.
- The parsing of klines and of exchange names, time zones, throttling and the retries of a fetch.
- The text of alerts, reports and errors.
- `mean_lag`, `win_rate`, `capture_rate` and the time in the market as quotients: their numerators are covered by `EvaluateLeg`, `TotalPnl` and `OneHistory`.
- `push_limited`, the check for positive prices and the entry rules of the strategies: threshold tests without an invariant over runs.
- `sma`, `donchian_channel` and `keltner_channels`: slices and sums with nothing to keep.
- The conversion of profits of non-yen pairs, swaps and the trader's fee modules.
- The notification that a stop order is gone, and the daily summary that a reconciled close adds to.
- NotifyRetry.SendsEndBeforeTheNextReminder: the sends start when the alert is raised and a wait lasts exactly its seconds, since the scheduler's delays are not part of the model.
- Reconcile.Store.ReconcileAccount: the three attempts to read positions are one answer, and side names are trimmed of ASCII white space only.
- SfdAccrual.NoTradeIsChargedTwice: trade ids are unique over the accounts of a tick as they are read for one hour, as the primary key of the trades makes them.
- Sizing.NoLiquidationBeforeTheStop: one position without other positions in the account, filled up to the sized price; `AllAtTheirStops` and `LevelUpToTheStopExactlyWhen` are the conditions for the other cases.
