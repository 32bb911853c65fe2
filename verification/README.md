# Brecha: verified model

Brecha watches several crypto exchanges, detects arbitrage opportunities, ranks
them, executes the best ones against simulated wallets, guards itself with a
circuit breaker, replays recordings, and shows all of it on a dashboard. This
project models its core in Dafny and proves what that core is for; `dfyconfig.toml` lists its
files.

| files | what they model |
|---|---|
| `Types.dfy` | price updates, opportunities, trades, the append-only trade store |
| `Depth.dfy`, `Wallet.dfy`, `Execution.dfy`, `ExecutionRuns.dfy` | the greedy book walk, the balances, the two-leg transaction with its exits and rollbacks, and whole runs of it |
| `Ring.dfy`, `Welford.dfy`, `Spread.dfy`, `Kelly.dfy` | ring indexing, one-pass statistics, the sliding-window spread model, Kelly sizing |
| `OppHeap.dfy`, `Engine.dfy`, `TradeLog.dfy`, `Metrics.dfy`, `Tallies.dfy`, `Replay.dfy` | the opportunity heap, the engine's queue, the per-strategy metrics, what a replay should report, and the replay loop that joins them |
| `Risk.dfy` | the circuit breaker |
| `RecentTrades.dfy`, `SpatialCosts.dfy`, `Spatial.dfy` | the spatial strategy: costs, adaptive threshold, sizing, and its admission by the risk manager |
| `FundingPair.dfy`, `Cooldown.dfy`, `FundingReplay.dfy`, `ModelTable.dfy`, `Funding.dfy`, `Triangular.dfy` | the two rate strategies, the replay of recorded funding rates, and what they share |
| `Hub.dfy` | the WebSocket hub |
| `PairColors.dfy`, `FeaturedPairs.dfy` | the dashboard's colour assignment and its selection of featured pairs |

Conventions. Prices, quantities and `float64` values are exact reals; times and
durations are integer nanoseconds. Objects whose methods update fields are classes;
ghost fields hold their histories, and each class invariant ties the real fields to
them. The clock, random draws, generated identifiers, the price snapshot and the
answers of strategies are parameters, and results hold for all of them. `sqrt` and
`sigmoid` are any functions that satisfy `Spread.MathFns.Valid`. Where the code
iterates over a map, the model takes the keys in any order.

Main results, each for every input, run or interleaving:

- **Execution.** The walk is an optimal way to fill an order, on either side of the
  book. `Execute` succeeds exactly when the order is executable, and then exactly
  four balances move; otherwise none does. No trade exceeds the opportunity's limit or
  what the buyer can afford, and it uses the tighter of the two. Over every run BTC is
  conserved and USDT grows by the net profit of the trades saved.
- **Statistics.** The ring and its O(1) forward and reverse updates hold exactly
  the batch mean and squared deviations of the last W samples. The z-score and the score
  of every opportunity are those of these samples, so the z-score is at most the square
  root of n - 1 in size. The Kelly fraction maximises second-order growth under its
  cap, and where it is positive the position emitted is that fraction of the limit,
  less the correlation penalty.
- **Queue and replay.** The heap with back-pointers always serves a best unexpired
  entry and accounts for everything else. In a replay every answer of every strategy
  becomes exactly one trade, and each strategy is reported with the number and the
  total profit of the answers under its name.
- **Breaker.** The lazily evaluated breaker shows what an automaton that watches
  every instant shows.
- **Hub.** In every interleaving no channel is closed twice or sent on after closing,
  and a registered client has been sent every broadcast since its registration, in
  order, without gaps. What is broadcast follows from what was taken from the queue:
  each tick sends, per throttled type, the last event since the tick before.
- **Admission.** What the spatial strategy emits is acceptable to the risk manager,
  whatever returns were recorded.
- **Dashboard.** Six or fewer featured pairs never share a colour, however they
  are arranged; the automatic choice is good whenever enough pairs are eligible, and
  selecting again is a fixpoint.

Where the documentation and the code disagree the model follows the code:

- docs/configuracion.md:74 says that the breaker pauses when the sum of the last N
  results falls below the threshold. The code counts consecutive results that are each
  below it. `Risk.LossSumDoesNotTrip` and `Risk.GainsBelowThresholdTrip` show, for every
  N, histories on which the two differ, and `Risk.RulesAgreeIff` says exactly when they
  agree.
- docs/configuracion.md:21 says that, once there are samples, Kelly's fraction caps the
  position. A fraction of zero, which is what a losing pair gets, is replaced by the
  whole limit: `Spatial.LosingPairUsesWholeLimit` is such a pair, and
  `Spatial.KellyReducesSizeIff` says exactly when the position is reduced.
- docs/realismo.md:145 says that the BTC/ETH cross drifts on its own. The branch that
  would drift it (internal/strategy/triangular/triangular.go:146) tests a refresh time
  that the same call has just brought up to date, so it is never taken:
  `Triangular.TriangularStrategy.SeedCross` proves the branch unreachable.
- docs/realismo.md:95 says that the sell leg credits USDT after fees. `Execute`
  credits the full proceeds and records zero fees (`Execution.IsRecordOf`).

## Model

| member | source | states |
|---|---|---|
| Depth.AskLevels | internal/depth/depth.go:26-38 | level i of the synthetic ask book is i steps above the best ask, with a quantity that grows linearly with the draw |
| Depth.BidLevels | internal/depth/depth.go:42-54 | level i of the synthetic bid book is i steps below the best bid, with a quantity that grows linearly with the draw |
| Depth.SyntheticAsksShape | internal/depth/depth.go:26-38 | synthetic asks ascend from the best ask and every quantity lies in the configured range |
| Depth.SyntheticBidsShape | internal/depth/depth.go:42-54 | synthetic bids descend from the best bid and every quantity lies in the configured range |
| Depth.Walk | internal/depth/depth.go:58-77 | the loop returns the size, average price and partial flag of the greedy allocation, on any book |
| Depth.WalkFillsMinimum | internal/depth/depth.go:58-77 | exactly min(target, liquidity) is filled, and the fill is partial exactly when the book is too thin |
| Depth.GreedyIsFeasible | internal/depth/depth.go:63-71 | the walk never takes more than a level offers, nor a negative amount |
| Depth.GreedyBuysCheapest | internal/depth/depth.go:58-77 | on an ascending book no allocation of the same size costs less |
| Depth.GreedySellsDearest | internal/depth/depth.go:58-77 | on a descending book no allocation of the same size earns more |
| Depth.VwapWithinConsumedPrices | internal/depth/depth.go:72-76 | the average price lies within any bounds on the prices of the levels consumed |
| Depth.VwapMonotone | internal/depth/depth.go:58-77 | a larger buy order never gets a better average price |
| Depth.BidVwapMonotone | internal/depth/depth.go:58-77 | a larger sell order never gets a better average price |
| Wallet.MultiWallet.constructor | internal/wallet/wallet.go:20-31 | every listed exchange starts with exactly the initial balances, and no other exchange exists |
| Wallet.MultiWallet.Credit | internal/wallet/wallet.go:34-39 | one balance grows by the amount and no other changes |
| Wallet.MultiWallet.Debit | internal/wallet/wallet.go:43-52 | fails exactly when the amount exceeds the balance, and then changes nothing; otherwise only that balance falls |
| Wallet.MultiWallet.Balance | internal/wallet/wallet.go:56-63 | a balance never touched reads as zero |
| Execution.Executor.GetAskLevels | internal/executor/executor.go:258-264 | the real book is used exactly when it is not empty |
| Execution.Executor.GetBidLevels | internal/executor/executor.go:268-274 | the real book is used exactly when it is not empty |
| Execution.Executor.Execute | internal/executor/executor.go:120-254 | atomic: no error exactly when the order is executable, and then the four movements and one record happen, of a size within the limits; otherwise no balance and no trade changes; the status, the saved opportunity and the report follow the outcome |
| Execution.Executor.PlaceOrder | internal/executor/executor.go:143-254 | the same from the point where both prices are known to be fresh |
| Execution.TradeWithinLimits | internal/executor/executor.go:144-149 | for a positive ask the trade asks for no more than the maximum volume and no more than the buyer's USDT affords, one of the two exactly, and is for no more than it asks for |
| Execution.BooksUsed | internal/executor/executor.go:258-274 | orders are filled from the listed book when there is one, else from the synthetic book at the best price |
| Execution.ExecutableMeans | internal/executor/executor.go:166-204 | an order is executable exactly when something is filled and affordable, the bid book takes all of it, and the seller holds it |
| Execution.ReportIsRealisedReturn | internal/executor/executor.go:246-251 | the return reported is price difference over buy price, positive exactly when the trade has a net profit |
| Execution.Executor.SellLeg | internal/executor/executor.go:182-253 | entered with the buy leg done, ends with the whole transaction or with the state before the buy leg |
| Execution.Executor.Abandon | internal/executor/executor.go:188-195 | giving up after the buy leg restores every balance, saves no trade and skips the opportunity |
| Execution.Executor.Complete | internal/executor/executor.go:206-253 | after both debits: the whole transaction is settled and its one record is saved |
| Execution.Executor.Reverse | internal/executor/executor.go:189-191 | the ignored debit of the rollback cannot fail, and the rollback restores every balance |
| Execution.Executor.RecordTrade | internal/executor/executor.go:222-251 | one trade appended, status executed, and a report exactly for spatial trades when there is a reporter |
| Execution.RecordIsRight | internal/executor/executor.go:206-239 | volume times average price is what each leg moved, and net profit is what was earned minus what was paid |
| ExecutionRuns.StepConserves | internal/executor/executor.go:174-240 | one call, successful or not, keeps total BTC and changes total USDT by the net profit it logs |
| ExecutionRuns.MoneyIsConserved | internal/executor/executor.go:120-254 | over every run total BTC is unchanged and total USDT grows by the net profit of the trades saved |
| ExecutionRuns.WalletTotalsFollowTheLog | internal/executor/executor.go:120-254 | the same for the wallet's own totals and the trades logged in between |
| ExecutionRuns.EveryTradeWithinLimits | internal/executor/executor.go:144-149 | every trade that a run saves is of one of its calls and keeps to that call's limits at that moment |
| ExecutionRuns.StepKeepsNonNegative | internal/executor/executor.go:174-208 | one call on non-negative balances leaves them non-negative |
| ExecutionRuns.StepKeepsBtc | internal/executor/executor.go:174-208 | no call makes a BTC balance negative, whatever the prices |
| ExecutionRuns.NoBalanceGoesNegative | internal/executor/executor.go:120-254 | no balance is negative anywhere in a run that starts without one |
| ExecutionRuns.SyntheticBidsNonNegIff | internal/depth/depth.go:42-54 | a synthetic bid book quotes only non-negative prices exactly when its last level is at most 100% below the best bid |
| ExecutionRuns.TradeIsBestExecution | internal/executor/executor.go:159-212 | no other way of filling both legs from the same books would have earned more |
| ExecutionRuns.SyntheticSlippageNonNeg | internal/executor/executor.go:214-216 | on synthetic books the recorded slippage is never negative |
| ExecutionRuns.ExecuteAll | internal/executor/executor.go:120-254 | a loop of executor calls, on any books, is a run in the sense of the theorems above: money is conserved, and no balance goes negative unless a bid is |
| Welford.AddIsBatch | internal/model/spread.go:67-72 | adding one sample to the batch statistics of the others gives the batch statistics of all |
| Welford.RemoveUndoesAdd | internal/model/spread.go:53-63 | the reverse step is the exact inverse of the forward step, down to the empty state |
| Welford.RemoveRepresents | internal/model/spread.go:53-63 | evicting any sample leaves the batch statistics of the rest |
| Welford.SlideRepresents | internal/model/spread.go:52-72 | evict the oldest, add the newest: exact statistics of the moved window |
| Welford.Samuelson | internal/model/spread.go:115-123 | no sample lies further than sqrt(n - 1) deviations from its own mean |
| Spread.SpreadModel.Update | internal/model/spread.go:49-84 | the invariant that ring, mean and squared deviations are those of the last W samples survives every update, for every W >= 1 |
| Spread.SpreadModel.ReverseStep | internal/model/spread.go:53-63 | the eviction in place is the reverse step |
| Spread.SpreadModel.ForwardStep | internal/model/spread.go:67-72 | the insertion in place is the forward step |
| Spread.SpreadModel.Overwrite | internal/model/spread.go:64-66 | overwriting the oldest slot of a full ring slides the window by one |
| Spread.SpreadModel.Append | internal/model/spread.go:74-76 | filling a free slot extends the window |
| Spread.SlidingWindowIsBatch | internal/model/spread.go:49-84 | count, mean and squared deviations are the batch ones of the last min(k, W) samples, and squared deviations are never negative |
| Spread.StdIsPopulationDeviation | internal/model/spread.go:103-112 | the deviation squared is the population variance of the window |
| Spread.WindowIsStandardised | internal/model/spread.go:115-123 | the z-scores of the window's own samples have mean zero and deviation one |
| Spread.ZScoreBound | internal/model/spread.go:115-123 | a sample of the window has a squared z-score of at most n - 1 <= W - 1 |
| Spread.ScoreSignalIsRight | internal/model/spread.go:150-164 | the z-score times the population deviation of the window is the distance from its mean, zero before 30 samples or without deviation; the score is half the profit, scaled to one percent, and half the sigmoid of z, before 30 samples the profit alone |
| Spread.ScoreWithoutModel | internal/model/spread.go:158-160 | without a model the z-score is zero and only the profit counts |
| Spread.JustInsertedScore | internal/model/spread.go:150-164 | the score of a signal just inserted is that of the batch statistics of the window, in [0, 1], with a squared z-score of at most n - 1 |
| Spread.ScoreIsMonotone | internal/model/spread.go:150-164 | a stronger signal with more profit never ranks lower |
| Kelly.KellyEstimator.Record | internal/sizing/kelly.go:27-34 | the running mean and squared deviations are the batch ones of everything recorded |
| Kelly.FractionIsConstrainedOptimum | internal/sizing/kelly.go:44-63 | once warmed up with positive variance, the fraction is mean over variance, cut off at zero and the cap, and no other fraction between them has more second-order growth |
| Kelly.FractionPositiveIff | internal/sizing/kelly.go:44-63 | positive exactly when warmed up with positive variance and positive mean, and always within [0, cap] |
| OppHeap.OppHeap.Swap | internal/engine/heap.go:19-23 | swaps two elements and keeps every back-pointer equal to its position |
| OppHeap.OppHeap.Push | internal/engine/heap.go:24-28 | appends with the right back-pointer |
| OppHeap.OppHeap.Pop | internal/engine/heap.go:29-37 | removes the last element and marks it as outside the heap |
| OppHeap.RootIsMaximum | internal/engine/heap.go:15-18 | in heap order nothing scores higher than the root |
| OppHeap.OppHeap.HeapPush | internal/engine/engine.go:75-75 | keeps heap order and back-pointers and adds exactly the new element |
| OppHeap.OppHeap.HeapPop | internal/engine/engine.go:95-95 | removes exactly the root and keeps heap order and back-pointers |
| Engine.QueuedOfPermutation | internal/engine/engine.go:91-105 | what is queued does not depend on how the heap arranges it |
| Engine.RootBeatsAllQueued | internal/engine/engine.go:91-105 | the root of the heap scores at least as much as everything queued |
| Engine.Engine.ProcessUpdate | internal/engine/engine.go:67-81 | each opportunity joins the queue as many times as it occurs in the answers of all strategies together |
| Engine.DetectionsCount | internal/engine/engine.go:73-77 | an opportunity is detected as many times as it occurs in the answers of all strategies together |
| Engine.DetectionsSplit | internal/engine/engine.go:73-77 | leaving any one strategy out takes away exactly what it returned |
| Engine.Engine.DequeueTop | internal/engine/engine.go:91-105 | returns an unexpired opportunity of maximum score among the unexpired; everything else removed is expired; nothing else is lost; empty-handed only when everything was expired |
| Metrics.SumNetProfit | internal/backtest/metrics.go:48-55 | the sum of the net profits |
| Metrics.MaxDrawdown | internal/backtest/metrics.go:59-76 | the one-pass result is the largest fall of the equity curve over all pairs i <= j |
| Metrics.NoDrawdownIffNoLoss | internal/backtest/metrics.go:59-76 | zero exactly when no trade loses |
| Metrics.HitRate | internal/backtest/metrics.go:118-129 | the share of trades with positive net profit, as a count of positions in the log; zero without trades |
| Metrics.ProfitFactor | internal/backtest/metrics.go:134-151 | times the losses it gives the gains; the cap 999 without losses, zero without trades |
| Metrics.GainsConcat | internal/backtest/metrics.go:138-146 | gains and losses add up over any way of cutting the log |
| Metrics.GainsOfOne | internal/backtest/metrics.go:138-146 | one trade counts in full on the side of its sign |
| Metrics.GainsAndLosses | internal/backtest/metrics.go:134-151 | gains and losses add up to the total profit, and there are gains exactly when there are hits |
| Metrics.ProfitFactorAboveOneIff | internal/backtest/metrics.go:134-151 | above one exactly when there is a total profit, or there are trades and none loses |
| Metrics.BreakEvenFactor | internal/backtest/metrics.go:147-149 | a single break-even trade has the factor 999 and no profit |
| Metrics.GroupByStrategy | internal/backtest/metrics.go:28-31 | the groups are the subsequences of the log by strategy, and only strategies with trades have one |
| Metrics.OfKeepsExactly | internal/backtest/metrics.go:28-31 | a strategy's group has exactly the trades of that strategy, as often as they occur |
| Metrics.OfConcat | internal/backtest/metrics.go:28-31 | and in their order |
| Metrics.ComputeMetrics | internal/backtest/metrics.go:23-45 | every strategy with a trade gets the metrics of exactly its own trades |
| Replay.Runner.Dispatch | internal/backtest/runner.go:201-215 | one trade of the target for the opportunity's strategy, and the opportunity saved as executed |
| Replay.TradeKeepsProfit | internal/backtest/runner.go:252-270 | every target keeps strategy, venues and net profit; only a spatial trade has prices and the opportunity's volume, only a triangular one pays fees, of three legs |
| Replay.Runner.DispatchNext | internal/backtest/runner.go:201-215 | one turn of the drain loop takes a best entry, never loses one, and stops only when the queue is empty |
| Replay.Runner.Drain | internal/backtest/runner.go:200-215 | the queue is empty afterwards and everything in it was traded exactly once, best score first; nothing expires |
| Replay.Runner.PlayFrame | internal/backtest/runner.go:198-215 | one frame trades each opportunity as many times as it occurs in the answers of all strategies, best score first, and leaves the queue empty |
| Tallies.TallyOfPermutation | internal/backtest/runner.go:171-228 | profit and count per strategy do not depend on the order of dispatch |
| Tallies.TallyIsOverPlaces | internal/backtest/runner.go:171-228 | the tally of all detections counts each answer of that strategy once: frame, strategy and position |
| Tallies.ProfitSplit | internal/backtest/runner.go:171-228 | the total over a set of answers counts each of them once |
| Replay.LogMatchesDetections | internal/backtest/runner.go:171-228 | per strategy, the log's profit and length are those of everything detected |
| Replay.MetricsMatchDetections | internal/backtest/runner.go:230-246 | a strategy is reported exactly when some answer carries its name, with the number and the total net profit of those answers |
| Replay.Runner.RunLocked | internal/backtest/runner.go:119-247 | end to end: the log splits into frames that trade exactly what was detected; a strategy is reported exactly when some answer on some frame carries its name, with the number and the total net profit of those answers |
| Risk.ElapseIsLastTick | internal/risk/risk.go:155-160 | looking at every instant and looking only at the last one give the same state |
| Risk.RiskManager.CheckPauseExpiry | internal/risk/risk.go:155-160 | afterwards the object shows the eager automaton's state at this instant |
| Risk.RiskManager.CurrentState | internal/risk/risk.go:69-74 | the state shown is a function of the timed trade results and the time, whatever other calls came between; paused and active mean what the automaton means |
| Risk.RiskManager.Evaluate | internal/risk/risk.go:78-102 | approves exactly when the eager automaton is not paused and both limits hold; leaves the history alone |
| Risk.RiskManager.RecordTradeResult | internal/risk/risk.go:106-130 | the lazy state keeps matching the automaton after one more result |
| Risk.PausedIffRecentTrip | internal/risk/risk.go:106-160 | paused until u at time t exactly when some result tripped it until u and t is before u |
| Risk.StreakIsTrailingLosses | internal/risk/risk.go:117-129 | the loss count is the length of the current run of losses since the last pause, and below N |
| Risk.StreakBeforeResult | internal/risk/risk.go:106-129 | the same at any later instant, an expired pause counting from zero |
| Risk.TripsOnNthLoss | internal/risk/risk.go:117-125 | a running breaker trips exactly on the N-th consecutive loss, for exactly the pause duration |
| Risk.TripsIffLastAreLosses | internal/risk/risk.go:117-125 | a running breaker trips exactly when each of the last N results counted is a loss |
| Risk.SmallLossesNeverTrip | internal/risk/risk.go:117-129 | results that are acceptable one by one never trip, whatever they add up to |
| Risk.RulesAgreeIff | internal/risk/risk.go:117-125 | when the code and the documented sum rule agree on a result: for a threshold of zero or less, exactly when no acceptable result is among the last N counted or the sum is not below the threshold; and then a trip always meets the documented rule |
| Risk.TripMeetsDocumentedRule | internal/risk/risk.go:117-125 | a trip also meets the documented rule on the whole history, for a threshold of zero or less |
| Risk.LossSumDoesNotTrip | internal/risk/risk.go:117-129 | for every N of at least two, N acceptable results that meet the documented rule and do not trip |
| Risk.GainsBelowThresholdTrip | internal/risk/risk.go:117-129 | for a threshold above zero, N results that trip and do not meet the documented rule |
| Risk.NothingApprovedDuringPause | internal/risk/risk.go:78-85 | from a trip until its pause is over the automaton stays paused, whatever is reported meanwhile |
| Hub.Hub.Send | internal/server/ws.go:128-129 | needs an open channel with room; appends one message |
| Hub.Hub.Close | internal/server/ws.go:132-133 | needs an open channel; closes it and keeps what is buffered |
| Hub.Hub.Connects | internal/server/ws.go:147-169 | a new open channel and a registration request |
| Hub.Hub.Disconnects | internal/server/ws.go:172-184 | an unregistration request, at any time |
| Hub.Hub.Consumes | internal/server/ws.go:187-196 | the writer receives the oldest buffered message, also after a close |
| Hub.Hub.Publishes | internal/server/ws.go:70-76 | queues the event, or drops it when the queue is full |
| Hub.Hub.OnRegister | internal/server/ws.go:88-89 | the client joins; what it is owed starts at the present length of the broadcast log |
| Hub.Hub.OnUnregister | internal/server/ws.go:91-95 | only a client still present leaves, and only its channel is closed |
| Hub.Hub.OnPublish | internal/server/ws.go:97-105 | a price, spread, latency or uptime event only replaces the pending one of its type; any other is broadcast at once |
| Hub.Hub.OnTick | internal/server/ws.go:107-113 | broadcasts for each throttled type published since the previous tick exactly its latest value, once |
| Hub.Hub.Broadcast | internal/server/ws.go:120-136 | an event that cannot be serialised goes to nobody; any other to every client with room, the others being dropped |
| Hub.Hub.SendToAll | internal/server/ws.go:127-135 | each client gets the message or is removed with its channel closed, and nobody else is touched |
| Hub.BroadcastIsSafe | internal/server/ws.go:120-136 | a broadcast keeps channels, registrations and delivery order safe |
| Hub.LatestIsLast | internal/server/ws.go:98-101 | the pending map holds, per type, the last event of that type |
| Hub.SinceTickIsThrottledPart | internal/server/ws.go:97-113 | what is pending stems from exactly the throttled events taken since the last tick |
| Hub.Hub.Perform | internal/server/ws.go:80-116 | any enabled step keeps the hub safe and takes nothing back; a publish arm takes one event and broadcasts it exactly when it is neither throttled nor unserialisable, a tick arm broadcasts the latest of each throttled type since the last tick, and no other step broadcasts |
| Hub.Hub.Run | internal/server/ws.go:80-116 | so does any schedule; its log is that of its actions, every tick among them is right, and every client still registered has been sent everything broadcast since its registration, in order |
| Hub.Hub.ThrottledDelivery | internal/server/ws.go:97-113 | in any reachable state and for any tick of its history: what the tick added to the broadcasts is, for each throttled type taken since the tick before and for no other, the last event of that type, once |
| RecentTrades.RecentTradeRing.Push | internal/strategy/spatial/correlation.go:30-39 | the ring holds the last capacity trades after every push |
| RecentTrades.RecentTradeRing.CountSameExchange | internal/strategy/spatial/correlation.go:43-54 | counts the stored trades that share an exchange with the pair, although it reads them in storage order |
| RecentTrades.MatchesCountsCommon | internal/strategy/spatial/correlation.go:43-54 | the count is of the trades whose exchanges have one in common with the pair |
| Spatial.SpatialStrategy.constructor | internal/strategy/spatial/spatial.go:62-86 | defaults for fields left at zero, and an empty ring of the window size |
| Spatial.SpatialStrategy.TrainPair | internal/strategy/spatial/spatial.go:121-127 | the pair's model learns the current spread, also when nothing is emitted |
| Spatial.SpatialStrategy.DecidePair | internal/strategy/spatial/spatial.go:129-226 | emits exactly when gross spread, net profit and adaptive threshold all allow it, with the profit by leg, the position and the score that the quotes, samples, returns and recent trades call for |
| Spatial.SpatialStrategy.DetectionIsRight | internal/strategy/spatial/spatial.go:129-226 | prices, profit, z-score, score and position of the opportunity in terms of the quotes, the batch statistics of the samples, the Kelly fraction and the recent trades |
| Spatial.EmittedIff | internal/strategy/spatial/spatial.go:129-170 | an opportunity is emitted exactly for a positive gross spread, a positive profit by leg, and a share of the price of at least the base plus the coefficient times the population deviation of the pair's samples |
| Spatial.SpatialStrategy.DetectPair | internal/strategy/spatial/spatial.go:108-227 | trains on the spread, then decides on the model just trained |
| Spatial.SpatialStrategy.Detect | internal/strategy/spatial/spatial.go:97-231 | every fresh counterparty is decided once on its own freshly trained model, exactly the positive decisions are returned, and no other model is trained |
| Spatial.SpatialStrategy.RecordTradeReturn | internal/strategy/spatial/spatial.go:260-281 | exactly the pair's estimator gets the return, created on first use, and the pair joins the ring |
| SpatialCosts.StaleQuotesNeverLookBetter | internal/strategy/spatial/spatial.go:143-154 | the older a counterparty's quote, the less net profit it shows |
| SpatialCosts.NetProfitByLeg | internal/strategy/spatial/spatial.go:129-158 | net profit is the sell price less its fees, minus the buy price plus its fees, with the default fees of an exchange that has none |
| SpatialCosts.AgeFactorIs | internal/strategy/spatial/spatial.go:143-154 | latency weighs once for a fresh quote, and more by one for each second of age, up to three |
| SpatialCosts.ImbalancePenaltyRange | internal/strategy/spatial/spatial.go:198-208 | positive exactly on a sell side with more asks than bids, and the full weight exactly without bids |
| SpatialCosts.ImbalancePenaltyIs | internal/strategy/spatial/spatial.go:198-208 | it is the weight times the share by which the asks outweigh the bids |
| SpatialCosts.PairKeyInjective | internal/strategy/spatial/spatial.go:325-327 | two counterparties of one buy exchange never share a key |
| Spatial.KellyReducesSizeIff | internal/strategy/spatial/spatial.go:172-182 | with no recent match the position emitted is below the limit exactly for a warmed-up pair with varying returns of positive mean |
| Spatial.PositionWithoutMatches | internal/strategy/spatial/spatial.go:172-194 | with no recent match the position emitted is the limit times the Kelly fraction when that is positive, and the whole limit otherwise |
| SpatialCosts.SizeIsPosition | internal/strategy/spatial/spatial.go:182-194 | volume times price is the fraction of the limit, times one minus the weight times the share of recent matches, but at least a tenth |
| SpatialCosts.PositionNeverGrows | internal/strategy/spatial/spatial.go:184-194 | more recent matches never make the position larger |
| Spatial.LosingPairUsesWholeLimit | internal/strategy/spatial/spatial.go:172-182 | a warmed-up pair whose every return was a loss is sized at the whole limit |
| SpatialCosts.PositionWithinLimit | internal/strategy/spatial/spatial.go:182-194 | maximum volume times buy price never exceeds the position limit |
| Spatial.EmittedIsAcceptable | internal/strategy/spatial/spatial.go:160-194 | a qualifying opportunity meets both limits of a risk manager that is no stricter |
| Spatial.DetectionIsAdmitted | internal/risk/risk.go:78-102 | so the risk manager accepts every opportunity emitted, unless its breaker is paused, for every history of returns and trades |
| Spatial.EveryDetectionIsAdmitted | internal/strategy/spatial/spatial.go:97-231 | the same for all that one call of Detect returns |
| Spatial.DetectionZScoreBound | internal/strategy/spatial/spatial.go:196-196 | the attached z-score, which is that of the samples, obeys the bound of their number, because the signal scored has just been inserted |
| FundingReplay.BuildIndex | internal/backtest/factories.go:44-64 | per exchange exactly its recorded rates, in time order |
| FundingReplay.RatesOfKeepsExactly | internal/backtest/factories.go:44-64 | an exchange's rates are exactly those recorded for it, as often as they were |
| FundingReplay.NewFundingReplay | internal/backtest/factories.go:44-64 | a new strategy searches an index of exactly the rates it was given |
| FundingReplay.LatestAtOrBefore | internal/backtest/factories.go:151-159 | the binary search finds what a scan would: the latest rate at or before the time, none when all are later |
| FundingPair.ScanMaxMin | internal/backtest/factories.go:101-121 | the scan finds venues with the smallest and the largest rate |
| FundingPair.PairKeyInjective | internal/backtest/factories.go:127-127 | two pairs of venues without `>` in their names never share a cooldown |
| FundingReplay.FundingReplayStrategy.CurrentRates | internal/backtest/factories.go:89-95 | every exchange with a rate at or before now has its latest one, the others have none |
| FundingReplay.CurrentRatesAreUnique | internal/backtest/factories.go:89-95 | with distinct timestamps per exchange the current rates are determined by the recording and the time |
| Cooldown.LastEmissionIsLatest | internal/backtest/factories.go:128-134 | the remembered emission of a key is its latest one |
| Cooldown.CoolingDownIff | internal/backtest/factories.go:128-134 | a key is held back exactly while one of its emissions is less than a cooldown ago |
| Cooldown.EmittingKeepsSpacing | internal/backtest/factories.go:128-134 | checking only the last emission of a key keeps all its emissions a cooldown apart |
| FundingReplay.FundingReplayStrategy.Detect | internal/backtest/factories.go:81-147 | emits for a widest current pair, exactly with its differential, when it is wide enough and not cooling down; over any run two emissions of one pair are a cooldown apart |
| ModelTable.Train | internal/strategy/funding/funding.go:153-160 | exactly the key's model learns the sample, created on first use |
| Funding.FundingStrategy.Detect | internal/strategy/funding/funding.go:113-191 | trains on the widest differential on every call with rates, emits it exactly above the threshold and out of cooldown, with a bounded score |
| Funding.FundingStrategy.TryEmit | internal/strategy/funding/funding.go:162-172 | emits exactly above the threshold and out of cooldown, and keeps emissions of a key a cooldown apart |
| Funding.FundingStrategy.MakeOpportunity | internal/strategy/funding/funding.go:174-190 | venues, times and profit as found, the z-score and score of the differential among the last 500 samples, a squared z-score of at most 499 and a score in [0, 1] |
| Triangular.RoundTripLosesSpread | internal/strategy/triangular/triangular.go:166-173 | the two cycle ratios multiply to bid over ask, so never both gain |
| Triangular.CycleGainIsBest | internal/strategy/triangular/triangular.go:166-173 | the gain and one is at least each of the two cycle ratios, and one of them |
| Triangular.GainCoversBothWays | internal/strategy/triangular/triangular.go:166-173 | the same without a division, among positive prices |
| Triangular.GainIffPaysOff | internal/strategy/triangular/triangular.go:166-173 | among positive prices there is a gain exactly when one way round costs less than it brings in |
| Triangular.NoDivergenceNoGain | internal/strategy/triangular/triangular.go:152-173 | when the market cross equals the implied one neither cycle gains |
| Triangular.TriangularStrategy.RefreshReference | internal/strategy/triangular/triangular.go:112-126 | seeds the reference on first use, drifts it exactly when it is due, and it is not due afterwards; for any configuration |
| Triangular.TriangularStrategy.SeedCross | internal/strategy/triangular/triangular.go:137-150 | seeds the cross on first use; an existing cross never changes, as the drift branch is unreachable; for any configuration |
| Triangular.TriangularStrategy.AlwaysFinite | internal/strategy/triangular/triangular.go:112-150 | with noise below 100% and a positive seed price every price used is positive, so no cycle divides by zero |
| Triangular.TriangularStrategy.Reprice | internal/strategy/triangular/triangular.go:110-173 | the gain is the better cycle's at the update's prices and the current references, and positive exactly when one way round costs less than it brings in |
| Triangular.TriangularStrategy.TryEmit | internal/strategy/triangular/triangular.go:187-198 | emits exactly above the minimum profit and out of cooldown, and keeps emissions of an exchange a cooldown apart |
| Triangular.TriangularStrategy.MakeOpportunity | internal/strategy/triangular/triangular.go:200-215 | venue, time and profit after three fees as found, the z-score and score of the gain among the last 500 samples, a squared z-score of at most 499 and a score in [0, 1] |
| Triangular.TriangularStrategy.Detect | internal/strategy/triangular/triangular.go:102-216 | trains on every usable update, scores the gain just trained on, emits exactly above the minimum profit and out of cooldown, with the gain of the better cycle less three fees |
| PairColors.HashPair | web/src/store/marketStore.ts:24-30 | on any string of 16-bit code units the signed 32-bit steps, read as unsigned at the end, are the exact hash reduced once |
| PairColors.Djb2Concat | web/src/store/marketStore.ts:24-30 | the hash is a polynomial in 33: an initial part counts 33 times for every unit that follows |
| PairColors.Djb2OfOne | web/src/store/marketStore.ts:24-30 | it starts at 5381 |
| PairColors.LexLeIff | web/src/store/marketStore.ts:53-53 | names are ordered by the first unit that differs, and a prefix comes first |
| PairColors.OrderedIsUnique | web/src/store/marketStore.ts:53-53 | a list has one sorted arrangement, so any sort gives the same |
| PairColors.ProbeIsFirstFree | web/src/store/marketStore.ts:57-62 | with a slot free, probing ends on the first free one clockwise from the preferred |
| PairColors.ClaimsFirstFree | web/src/store/marketStore.ts:56-65 | each pair in turn gets the first slot that those before it left free |
| PairColors.NoCollisions | web/src/store/marketStore.ts:50-67 | with at most six entries, repeats included, no slot goes to two pairs |
| PairColors.CollisionFreeIff | web/src/store/marketStore.ts:50-67 | distinct pairs get distinct slots exactly when there are at most six, and exactly the featured ones get one |
| PairColors.OrderDoesNotMatter | web/src/store/marketStore.ts:50-67 | any arrangement of the same featured pairs gives every pair the same colour |
| PairColors.AssignedColorIndex | web/src/store/marketStore.ts:50-67 | the imperative assignment computes that slot, and -1 for a pair that is not featured |
| PairColors.PairColor | web/src/store/marketStore.ts:39-48 | the assigned colour, or that of the pair's own hash when it is not featured or nothing is |
| PairColors.FeaturedColorsDiffer | web/src/store/marketStore.ts:39-48 | up to six featured pairs have pairwise different colours |
| FeaturedPairs.StickyKeeps | web/src/store/marketStore.ts:190-190 | kept are exactly the previous pairs that are still eligible, without new repeats, and all of them when all are |
| FeaturedPairs.StickyConcat | web/src/store/marketStore.ts:190-190 | and they keep their order |
| FeaturedPairs.EligibleMeans | web/src/store/marketStore.ts:185-185 | eligible are exactly the pairs with enough samples and a positive deviation |
| FeaturedPairs.SortMeans | web/src/store/marketStore.ts:195-195 | the candidates in descending deviation, none added or lost |
| FeaturedPairs.SortIsStable | web/src/store/marketStore.ts:195-195 | candidates of equal deviation stay in their order |
| FeaturedPairs.SelectionIsRight | web/src/store/marketStore.ts:179-200 | with enough eligible pairs: exactly n different eligible ones, the kept ones first and in order, and those added deviate most among the rest |
| FeaturedPairs.TooFewFallBack | web/src/store/marketStore.ts:179-200 | with some eligible pairs but too few the defaults are shown |
| FeaturedPairs.NoneEligible | web/src/store/marketStore.ts:186-188 | with no eligible pair the previous ones stay when there are n of them, else the defaults are shown |
| FeaturedPairs.SelectionIsDistinct | web/src/store/marketStore.ts:179-200 | however many are eligible, no pair is picked twice |
| FeaturedPairs.SelectionPossibleIff | web/src/store/marketStore.ts:179-200 | the choice is n different eligible pairs exactly when there are that many |
| FeaturedPairs.ReselectionIsStable | web/src/store/marketStore.ts:179-200 | selecting again on the same statistics changes nothing, whatever was featured before |
| FeaturedPairs.PickFeaturedPairs | web/src/store/marketStore.ts:179-200 | never more than n pairs |
| FeaturedPairs.MarketStore.SetSpreads | web/src/store/marketStore.ts:285-300 | reselects only while the choice is automatic, and keeps at most six featured; while users choose no pair twice, the choice is n different eligible pairs, sticky and of largest deviation, whenever that many are eligible |
| FeaturedPairs.MarketStore.SetSelectedPairs | web/src/store/marketStore.ts:309-317 | a user's list is cut to six and shown; none goes back to the automatic choice, with the same guarantee |
| FeaturedPairs.MarketStore.FeaturedAreToldApart | web/src/store/marketStore.ts:39-48 | in every reachable state no two featured pairs share a colour |

## Left out

- Rounding, overflow, NaN and infinities of `float64`, and the division precision of decimals: all arithmetic is on exact reals. Where the code would divide by zero, the model requires a non-zero divisor, except in the two places named next.
- Kelly.KellyEstimator.Fraction: with no sample and a sample minimum of zero or less the code computes 0/0, which fails every comparison, so the model returns the cap as the code does.
- Execution.ReportOf: after buying at an average price of zero the code reports a non-finite return; the model reports `None`.
- Execution.Executor.Execute: requires a non-zero ask and non-negative listed quantities, and a BTC balance on the buy side that is not negative, which every call keeps. The trade's own random identifier is not modelled.
- Metrics.ComputeMetrics: does not compute the Sharpe ratio, which annualises by the replay window and needs a square root; every other metric of a strategy is there.
- Spatial.SpatialStrategy.Detect: requires a non-zero ask, because the code's division by it would produce an infinity that the decimal conversion rejects. Live changes of the configuration are not modelled, so the order of the position limits stays a hypothesis of the admission results.
- Triangular.TriangularStrategy.Reprice: requires that neither the reference nor the cross in use is zero, because the code's cycle ratios would be infinite.
- Triangular.TriangularStrategy.Detect: requires the same; the hook that plants references is not modelled.
- Funding.FundingStrategy.Detect: rates come from outside through `SetRates`; the sine generator and its random source are not modelled.
- FundingReplay.FundingReplayStrategy.Detect: which of several tied venues is named depends on map order, so the result speaks of the differential.
- Engine.Engine.ProcessUpdate: strategies are given by what they return for an update; price snapshots and the latency tracker are not modelled.
- Replay.Runner.RunLocked: only uncancelled runs without a store error; the try-lock, the asynchronous start, the replay speed and the Sharpe ratio are not modelled, and the answers of the strategies are arbitrary except for their timestamp.
- OppHeap.OppHeap.Up, OppHeap.OppHeap.Down: container/heap is not part of the repository; its sift-up and sift-down are written out.
- FundingReplay.SortByTime: sort.Slice is not part of the repository; an insertion sort stands for it, and only order and permutation are used.
- PairColors.SortNames: an insertion sort stands for the built-in array sort, whose order by code unit it has.
- Hub.Hub.Run: clients are identities rather than connections, ticks come at any time rather than every 250 ms, and requests wait outside the schedule while their channel is full. A disconnected client need not be removed: its unregistration may be taken before its registration.
- Risk.RiskManager: mutexes and live changes of the thresholds; the configuration is fixed and the clock does not run backwards.
- Concurrency inside one component: every method is one atomic step, as the mutexes make it.
- FeaturedPairs.MarketStore: prices, series, trade marks and the other slices of the dashboard state, which do not influence what is featured.
- The ten exchange connectors, the aggregator, the recorder, the SQL store, the REST handlers, the React components and the wiring in cmd/server.
