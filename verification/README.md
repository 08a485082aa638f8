# Trading runtime: verified model

A Dafny 4.11 model of the stateful and arithmetic core of an XRPL trading runtime, with proofs about
whole runs of it. Check it with `dafny verify dfyconfig.toml`.

The modules follow the source files.

- `Basics`, `Sorting`: optional values, real arithmetic, and the stable sort and filter that the
  sources use on arrays.
- `DepthPricing`, `DepthCheck`, `RetryPolicy`, `RetryRuns`: walking an order book, choosing a limit price
  under a VWAP cap, the independent depth preflight, the schedule of slippage budgets for retries, and the
  executor's loop over attempts with the amount it carries from one to the next.
- `Trades`, `FifoLots`, `TradeStore`: trade records, realised profit by first-in-first-out lots, and
  the trade history with its replacement by hash, eviction, traces and markouts.
- `MarkoutScheduler`, `MarkoutRuns`: the class with its pending jobs, timers and file, each method
  proved to take one step of a state machine, and what every run of that machine keeps.
- `SpreadDistribution`: the ring buffer on two arrays, the sampler with its cached snapshot, and the
  refinement of both by the unbounded history of accepted samples.
- `Drawdown`, `SnapshotLookup`: the one-pass and the bucketed drawdown, the nearest-snapshot lookup and
  the widening search over it.
- `FeedStallRecovery`, `Regimes`, `RegimePolicy`, `AdaptiveLearner`, `MidPriceTrend`,
  `ThrottledLogger`: the controllers, as classes, with their properties over every sequence of steps.
- `OfferPricing`: from an intent to an offer in drops and issued values, and back to its price.

Code that works by loops and assignments is a method proved against a specification function; objects
are classes. Prices, sizes and scores are `real`, clocks are `int`, and the tolerances are the source's
own (1e-12, 1.000001, 1e-6). Clocks, generated ids, performance rows, heatmaps, pair-key
canonicalisation and the decay weight of the moving averages are parameters.

## Where the code and its promises part

Some properties one would expect hold only under a condition. The code is modelled as it is, and the
condition is proved to be exact.

- The slippage schedule narrows the budget when it starts above the configured maximum, and can then lose
  executable size (`RetryKeepsSizeIff`); the executor's loop stops instead, so the budgets of its attempts only
  widen (`RetryLoopIsBounded`).
- A retry with a wider budget can nevertheless submit less on an unchanged book, because an amount cut to
  the depth becomes the next demand, and a smaller demand has a tighter cap (`DefaultScheduleLosesSize`). Depth
  allows this on some book exactly for configurations with a possible second attempt, partial sizing and a
  fill ratio below 1 (`NeverLosesSizeIff`); a given run is free of it exactly when its first amount was not cut
  or its first limit lies within the second budget's cap around its expected VWAP (`RunKeepsAmountIff`).
- `LOG_MAX_PER_SEC` is documented as the maximum per key and second, but a burst across two windows
  admits up to 2 * LOG_MAX_PER_SEC - 1 (`RateBoundIsTight`, `LimitPerSecondIff`).
- The 24-hour spread window is pruned by the baseline, so a baseline under a day shortens it
  (`LookbackIsADayIff`).
- Scheduling markouts before the scheduler has been started overwrites the file of a previous process
  (`ScheduleKeepsJobsIff`); a job whose fill price is not finite does not survive a restart
  (`RestartKeepsIff`, `RestartLosesJob`).
- A trace that brings in another record's hash makes two records share it (`UpsertKeepsStoreIff`,
  `UpsertMayShareHash`).
- With negative equity the one-pass drawdown can exceed 100 percent (`OnePassRange`) and miss a larger fall
  (`LargestFallIff`, `FirstLossLargestFallIff`); the bucketed series can report more than it exactly on the
  curves on which it misses a fall from above 0 (`NeverReportsMoreIff`, `PointAgainstTruePeak`).
- The widening search is one lookup only if equally near snapshots agree (`WideningIsOneLookupIff`).
- The comment above the feed reset calls a quiet tape beside a live book normal; `evaluate` nevertheless
  escalates on the larger silence, and only the next event undoes it (`MaxSilenceIsLarger`,
  `OneSilentFeedEscalates`, `AnyEventResets`). A reset during a recovery allows a second one beside it
  (`ResetIsSafeIff`), and any reset forgets the cooldown (`ResetKeepsSpacingIff`).
- The markout reason `no_liquidity` is never recorded (`OutcomeIsComplete`).
- Smoothed regime scores start at 0, so a regime can be disabled before any bad score
  (`FirstDisableNeedsBadScoreIff`); one update without trades re-enables it
  (`NeverReEnabledIffAlwaysTrades`, `SilentReEnable`), and so does one heatmap that does not list the strategy
  (`StrategyStaysDisabledIff`). The comment on re-enabling asks for a score that exceeds the
  threshold, the code accepts one that equals it. Size multipliers are rounded after clamping and may
  leave their bounds (`SizeWithinBoundsIff`, `RoundingExceedsMaximum`).
- The documented bounds of the tunings are never met: sizes stay in [0.55, 1.1], the maximum slippage
  never leaves 50 bps, and nothing ever clears a disabled regime (`ReachableTunings`,
  `DisabledExactlyAfterDanger`). A cooldown is rounded to whole milliseconds and can stop shrinking
  above 0 (`CoolDownStallsIff`, `CoolDownStallsAtTwo`).
- Drop rounding alone can trip the 2 bps price check below 5000 drops of XRP base, or below 4999 drops of
  XRP value (`SafeBaseAmountIff`, `SafeQuoteValueIff`).

## Model

| member | source | states |
|---|---|---|
| `DepthPricing.NormalizeLevelsMeaning` | src/execution/depthPricing.ts:35-41 | Normalised levels are the valid ones, each as often as it occurred, best price first; none are left exactly when no level was valid |
| `DepthPricing.ComputeFill` | src/execution/depthPricing.ts:46-78 | The loop with its running totals returns the fill that the recursive walk defines, for every level list (sorted or not) and every demand |
| `DepthPricing.FillMeetsDemand` | src/execution/depthPricing.ts:46-78 | The base filled is the smaller of the demand and the total valid depth, short of it by at most 1e-12; a VWAP is reported exactly when something was filled |
| `DepthPricing.GreedyTakeIsAllocation` | src/execution/depthPricing.ts:56-67 | The walk is one of the allocations it is compared with: within level sizes, with the base and the quote total it reports |
| `DepthPricing.GreedyIsBestAllocation` | src/execution/depthPricing.ts:46-78 | Optimality: over normalised levels no allocation of the same base within the level sizes pays less (BUY) or receives more (SELL) |
| `DepthPricing.CappedVwapNoWorse` | src/execution/depthPricing.ts:102-120 | The average over any non-empty leading part of the sorted side is no worse for the side than the average over all of it, nor than its own worst price |
| `DepthPricing.CapKeepsPrefix` | src/execution/depthPricing.ts:115-119 | On a sorted side the cap filter keeps exactly a leading part |
| `DepthPricing.LimitChoiceUsesPrefix` | src/execution/depthPricing.ts:83-131 | With a demand above 1e-12 and one valid level the capped levels are a non-empty prefix of the sorted side and the choice is the fill of that prefix, never null |
| `DepthPricing.LimitChoiceMeaning` | src/execution/depthPricing.ts:108-131 | With v the uncapped quote over base and s the budget in bps (0 if negative), the second pass uses exactly the levels priced up to v*(1 + s/10000) for a BUY, down to v*(1 - s/10000) for a SELL, to within 1e-12, and the choice is the fill of exactly those |
| `DepthPricing.LimitExistsIff` | src/execution/depthPricing.ts:83-131 | A limit price comes back if and only if the demand exceeds 1e-12 and the side holds a valid level, whatever the slippage budget |
| `DepthPricing.LimitChoiceRespectsCap` | src/execution/depthPricing.ts:108-131 | The limit lies within the cap of LimitChoiceMeaning up to 1e-12; the expected VWAP is no worse than the uncapped one and no worse than the limit; no more is filled than without the cap |
| `DepthPricing.WiderBudgetFillsMore` | src/execution/depthPricing.ts:108-131 | A wider slippage budget never lowers the fillable base, never makes the limit less aggressive and never decides whether there is one |
| `DepthCheck.EvaluateDepthAvailability` | src/execution/depthCheck.ts:29-80 | The preflight loop reports a missing book exactly when no valid level exists; otherwise the base filled on the best levels, how many were needed, and whether the minimum is met up to 1e-12 |
| `DepthCheck.TouchedIsLeast` | src/execution/depthCheck.ts:65-72 | The number of levels walked is the least that covers the demand: no shorter leading part of the side does |
| `DepthCheck.WalkersAgree` | src/execution/depthCheck.ts:18-80 | The two independent walkers report the same base if and only if the level limit of the preflight cuts off no level the demand needs; otherwise the preflight reports less |
| `RetryPolicy.RetryWidensIff` | src/execution/retryPolicy.ts:103-107 | A retry widens the slippage budget if and only if the current budget is not above the configured maximum |
| `RetryPolicy.SlippageRunWidens` | src/execution/retryPolicy.ts:103-107 | From a start at or below the maximum, the budgets of all later attempts only widen and stay at or below the maximum |
| `RetryPolicy.BudgetOfAttempt` | src/execution/retryPolicy.ts:103-107 | Closed form: the n-th retry has the start (0 if negative) plus n steps, or the maximum if that is less |
| `RetryPolicy.OutcomeMeaning` | src/execution/retryPolicy.ts:68-81 | An answer is filled when accepted, else no fill for tecKILLED and NO_FILL, else fatal for the codes beginning tec, tef or tem, else not retryable |
| `RetryPolicy.RetriesKeepSize` | src/execution/retryPolicy.ts:103-107 | Of one fixed demand on an unchanged book, any later budget of such a sequence executes at least as much base as any earlier one |
| `RetryPolicy.RetryKeepsSizeIff` | src/execution/retryPolicy.ts:103-107 | Exact condition on the schedule alone: the next budget keeps the executable size of every fixed demand on every book if and only if the starting budget does not exceed the maximum |
| `RetryPolicy.RetryAboveMaximumLosesSize` | src/execution/retryPolicy.ts:103-107 | For every start above the maximum there is a two-level book on which the next budget of the schedule executes less |
| `RetryPolicy.RetryAmountIsExecutable` | src/execution/retryPolicy.ts:123-176 | An amount offered again is within the fillable base, within the demand and not below the minimum, each up to 1e-12; it is marked shrunk exactly when depth fell short |
| `RetryPolicy.RetryAmountMeaning` | src/execution/retryPolicy.ts:123-176 | Exactly when each reason is given, the amount offered (the fillable base when that falls short, else the demand), and when it is marked shrunk |
| `RetryPolicy.MoreDepthKeepsAmount` | src/execution/retryPolicy.ts:123-176 | More fillable base never turns an amount into a refusal nor shrinks it |
| `RetryRuns.ExecuteWithRetries` | src/execution/offerExecutor.ts:1463-1911 | The loop over attempts submits exactly the recursive schedule of budgets, demands, limits and amounts, for any books read, refusals and engine answers; a cut amount is the demand of the next attempt |
| `RetryRuns.RetriesIff` | src/execution/retryPolicy.ts:68-101 | An answer is retried if and only if it is an unaccepted no-fill of an IOC order with attempts left and a budget that still widens |
| `RetryRuns.RetryLoopIsBounded` | src/execution/offerExecutor.ts:1463-1911 | At most the configured attempts are submitted, each with the limit and amount its book allows; each but the first follows a no-fill, has a wider budget than the one before and wants the amount submitted before |
| `RetryRuns.AmountsOnlyShrink` | src/execution/offerExecutor.ts:1901-1908 | Whatever the books, no attempt submits more than an earlier one: an amount once cut is never restored |
| `RetryRuns.FixedDemandKeepsSize` | src/execution/offerExecutor.ts:1879-1882 | Of one fixed demand, the budgets of any run would execute at least as much at later attempts as at earlier ones, from every starting budget |
| `RetryRuns.CarriedDemandFillsIff` | src/execution/depthPricing.ts:108-131 | Asking again for a fill that fell short gets all of it if and only if the first limit lies within the cap of the new budget around the VWAP expected with it; otherwise it gets less by more than 1e-12 |
| `RetryRuns.RetryKeepsAmountIff` | src/execution/offerExecutor.ts:1488-1570 | For levels above 1e-12: a retry at a wider budget on an unchanged book offers the amount of the attempt before it if and only if that amount was not cut or its limit lies within the new cap around its expected VWAP; otherwise it is cut again or refused |
| `RetryRuns.RunKeepsAmountIff` | src/execution/offerExecutor.ts:1463-1911 | Over a whole run on an unchanged book all amounts are equal if and only if that condition holds after the first attempt |
| `RetryRuns.SecondAttemptIff` | src/execution/offerExecutor.ts:1463-1911 | There is a second attempt if and only if the first is allowed and met a no-fill, the order is IOC, two attempts are configured, the budget can widen, and the amount submitted is allowed again at the wider budget |
| `RetryRuns.WholeAmounts` | src/execution/offerExecutor.ts:1551-1570 | With partial sizing off, or the whole amount required to be fillable, every attempt submits the whole amount, whatever the books |
| `RetryRuns.NeverLosesSizeIff` | src/execution/offerExecutor.ts:1463-1911 | Exact condition on the configuration, for all loaded ones: on unchanged books no attempt executes or submits less than an earlier one if and only if no second attempt is possible, partial sizing is off, or the fill ratio is 1 |
| `RetryRuns.ShrinkableLosesSize` | src/execution/offerExecutor.ts:1463-1911 | For every other configuration there is a three-level book and a demand on which the second attempt submits less than the first |
| `RetryRuns.DefaultScheduleLosesSize` | src/execution/offerExecutor.ts:1463-1911 | With the default schedule and fill ratio, on asks 10 at 1000, 1 at 1002 and 2 at 1010, an order for 13 is cut to 11 and its retry, allowed more slippage, to 10; with a minimum between 10 and 11 the retry is refused |
| `FifoLots.SellFromLots` | src/analytics/tradeHistory.ts:244-258 | The inner loop consumes lots from the front: it ends for every input and leaves the lots and realises the profit that the recursive matching defines |
| `FifoLots.ComputeFallbackRealizedPnl` | src/analytics/tradeHistory.ts:223-267 | Filter, sort and one pass with a map of open lots return the profit, in total and for today, of the specification whose answers FillsMeaning, BuyThenSell, TodayIsAdded and CashConservation state |
| `FifoLots.FillsMeaning` | src/analytics/tradeHistory.ts:218-226 | Exactly the filled and partially filled trades with a positive quantity count, each as often as it was given, in order of their timestamps and, at one timestamp, in the order given |
| `FifoLots.BuyThenSell` | src/analytics/tradeHistory.ts:223-267 | When one BUY of q at p (fee f) and one SELL of s at r (fee g) of a pair were executed: with m the smaller quantity, the profit is r*m - g*m/s - (p*q + f)*m/q when the BUY is the earlier, whatever the order of the list, and 0 otherwise; for q = s it is q*(r - p) - f - g; it is today's exactly when the SELL is at or after midnight |
| `FifoLots.TodayIsAdded` | src/analytics/tradeHistory.ts:257-262 | For any trades, today's profit is the total less the total of the trades before midnight alone |
| `FifoLots.SaleMatchesInventory` | src/analytics/tradeHistory.ts:245-258 | A SELL matches the smaller of its quantity and the inventory up to 1e-12; every remainder dropped is at most 1e-12 |
| `FifoLots.SaleConserves` | src/analytics/tradeHistory.ts:245-258 | Units and cost before a SELL equal those matched, those still open and those dropped |
| `FifoLots.SaleIsFirstInFirstOut` | src/analytics/tradeHistory.ts:245-258 | The lots left after a SELL are the inventory with its earliest units gone |
| `FifoLots.Conservation` | src/analytics/tradeHistory.ts:223-267 | Over every sequence of fills and every pair: units and cost bought equal matched plus open plus dropped, the open lots are the purchases without their earliest units, and the cost bought is price times quantity plus fee summed over the BUYs |
| `FifoLots.RunSplits` | src/analytics/tradeHistory.ts:228-262 | Disjoint groups of pairs processed together or apart leave the same open lots and profits that add up |
| `FifoLots.PairIndependence` | src/analytics/tradeHistory.ts:223-267 | Pair independence: for every interleaving, the profit in total and today is the sum of what each pair's trades give alone |
| `FifoLots.ProfitOfPair` | src/analytics/tradeHistory.ts:223-267 | A pair's realised profit is the proceeds of its SELLs less the cost charged to them |
| `FifoLots.CashConservation` | src/analytics/tradeHistory.ts:223-267 | A pair's realised profit equals sale proceeds less everything its BUYs paid, plus the cost of open lots and of dropped remainders |
| `TradeStore.NormalizeTradeUnits` | src/analytics/tradeHistory.ts:704-744 | The method with its two reassigned locals returns the normalised trade whose fields NormalizedTradeMeaning states |
| `TradeStore.NormalizedTradeMeaning` | src/analytics/tradeHistory.ts:704-744 | In the reported numbers: a reported quote is kept; without one it is base times price; a SELL without a quote whose base exceeds the amount by the factor 1.000001 has its quote there, and base*price equals it unless the base is cut; a base is cut to the amount exactly when it exceeds it by that factor; pair, price and the remaining fields as stated |
| `TradeStore.RepairedFillMeaning` | src/analytics/tradeHistory.ts:711-725 | After the repairs the base filled never exceeds the amount beyond the factor 1.000001, a quote leg is present whenever one can be derived, and a reported quote leg is kept |
| `TradeStore.NormalizeIsIdempotent` | src/analytics/tradeHistory.ts:704-744 | Normalising twice is normalising once, for every trade and every idempotent pair canonicaliser |
| `TradeStore.DedupeTradesByHash` | src/analytics/tradeHistory.ts:687-702 | The loop over the list, replacing in place, returns the deduplicated list of the specification |
| `TradeStore.DedupeKeepsBest` | src/analytics/tradeHistory.ts:687-702 | After deduplication each hash occurs once, with the highest status priority seen for it, and no hash is lost |
| `TradeStore.DedupeFixesUnique` | src/analytics/tradeHistory.ts:687-702 | A list whose hashes are unique already is returned unchanged |
| `TradeStore.DedupeIsIdempotent` | src/analytics/tradeHistory.ts:687-702 | Deduplicating twice is deduplicating once |
| `TradeStore.DedupeKeepsHashless` | src/analytics/tradeHistory.ts:689-693 | Trades without a hash are all kept, in their order |
| `TradeStore.TradeHistoryService.constructor` | src/analytics/tradeHistory.ts:750-759 | A new service holds no trades |
| `TradeStore.TradeHistoryService.RecordTrade` | src/analytics/tradeHistory.ts:948-1000 | Recording changes the store and answers exactly as the specification of one recording says |
| `TradeStore.RecordShape` | src/analytics/tradeHistory.ts:948-1000 | A known hash is answered and kept at its place; anything else goes to the back, and when 1000 are stored the oldest is evicted |
| `TradeStore.ReplacesIff` | src/analytics/tradeHistory.ts:665-685 | A report replaces the stored one if and only if its status is further on (filled, partial, rejected, pending), or equal and it adds a missing base or quote or corrects a base that was too much |
| `TradeStore.RecordedTradeMeaning` | src/analytics/tradeHistory.ts:948-1000 | For a known hash the answer is the stored trade with its own id and time, its fields taken from the report where it has them when the report replaces it; otherwise a new trade with the generated id and time; the source is the bot unless reported as manual |
| `TradeStore.RecordKeepsStore` | src/analytics/tradeHistory.ts:948-1000 | Recording keeps hashes unique and the store within 1000 records |
| `TradeStore.RecordKeepsPriority` | src/analytics/tradeHistory.ts:953-969 | The status priority of a hash that stays in the store never falls by recording |
| `TradeStore.RerecordIsNoOp` | src/analytics/tradeHistory.ts:948-1000 | Recording the same hashed trade again, with any clock and generated id, changes nothing and answers with the stored record |
| `TradeStore.MergedTraceMeaning` | src/analytics/tradeHistory.ts:600-663 | An acknowledgement and a submit response stand in for each other when only one is reported; merging nothing into a merged trace adds at most a missing hash |
| `TradeStore.PatchedTradeMeaning` | src/analytics/tradeHistory.ts:600-663 | Patching leaves everything but hash, trace and profit alone; trace fields come from the patch where it speaks, else from the trace, or from a fresh one at the trade's own time; a hash is never changed; a profit is stored only for an executed trade without one |
| `TradeStore.FindTradeMeaning` | src/analytics/tradeHistory.ts:1002-1029 | The trade looked up is the earliest with the hash, when the hash is not empty and some trade has it; else the earliest with the id, likewise; else none |
| `TradeStore.TradeHistoryService.UpsertTradeTrace` | src/analytics/tradeHistory.ts:1012-1062 | The trade found by hash, else by id, gets the merged trace, its hash if it had none, and the derived profit; it is returned, and nothing changes when none is found |
| `TradeStore.UpsertKeepsStoreIff` | src/analytics/tradeHistory.ts:1012-1062 | Exact condition: merging a trace keeps the store valid if and only if the hash it brings is held by no other record |
| `TradeStore.UpsertMayShareHash` | src/analytics/tradeHistory.ts:1012-1062 | A hashless record patched with another record's hash: the two then share it |
| `TradeStore.TradeHistoryService.AppendTradeMarkout` | src/analytics/tradeHistory.ts:1064-1106 | The trade found by hash, else by id, gets the markout; it is returned, and nothing changes when none is found |
| `TradeStore.PutMarkoutMeaning` | src/analytics/tradeHistory.ts:1086-1093 | The markout is the only one left for its horizon, all others stay, and the list is sorted by horizon |
| `TradeStore.MarkoutKeepsStore` | src/analytics/tradeHistory.ts:1064-1106 | Appending a markout touches only the markouts of the one trade found and keeps the store valid |
| `TradeStore.RunsKeepStore` | src/analytics/tradeHistory.ts:948-1106 | Over every sequence of recordings, markouts and admissible trace merges: hashes stay unique, at most 1000 records are stored, and the status priority of a hash that stays never falls |
| `TradeStore.StatusNeverGoesBack` | src/analytics/tradeHistory.ts:948-1062 | Over such a run the status of a trade that stays stored never goes back from filled to partial to rejected to pending |
| `MarkoutScheduler.DiskRoundTrip` | src/analytics/tradeMarkoutScheduler.ts:83-121 | A job written to the file and read back is unchanged if its fill price is finite, and dropped otherwise |
| `MarkoutScheduler.ReadJobMeaning` | src/analytics/tradeMarkoutScheduler.ts:83-121 | A record is usable exactly with its names, fill price, fill time, due time and horizon; the job read has them, whole seconds of horizon (at least 1), 0 attempts, the present time and an expiry three minutes after the due time where those are missing |
| `MarkoutScheduler.MirrorIsByDueTime` | src/analytics/tradeMarkoutScheduler.ts:367-375 | A saved file lists the jobs in order of their due times |
| `MarkoutScheduler.LoadMirror` | src/analytics/tradeMarkoutScheduler.ts:349-365 | Reading the file of a set of jobs gives back exactly those with a finite fill price; reading it over the same jobs changes nothing |
| `MarkoutScheduler.TradeMarkoutScheduler.constructor` | src/analytics/tradeMarkoutScheduler.ts:138-142 | A new process starts with no jobs and no timers in memory, next to the file as it was left |
| `MarkoutScheduler.TradeMarkoutScheduler.Start` | src/analytics/tradeMarkoutScheduler.ts:148-155 | Starting takes the start step of the state machine: file read, one timer per pending job; a second start does nothing |
| `MarkoutScheduler.TradeMarkoutScheduler.Stop` | src/analytics/tradeMarkoutScheduler.ts:157-163 | Stopping cancels every timer and keeps the pending jobs |
| `MarkoutScheduler.TradeMarkoutScheduler.Schedule` | src/analytics/tradeMarkoutScheduler.ts:165-208 | Scheduling takes the schedule step, announcing and arming each new job and rewriting the file; MarkoutRuns.ScheduledJobsAreDue states which jobs that adds |
| `MarkoutScheduler.TradeMarkoutScheduler.ScheduleTimer` | src/analytics/tradeMarkoutScheduler.ts:224-236 | The job's one timer is set to its due time, or to now when that has passed |
| `MarkoutScheduler.TradeMarkoutScheduler.ProcessJob` | src/analytics/tradeMarkoutScheduler.ts:238-347 | A firing takes the fire step: the attempt counted, then retried, recorded with its markout, given up with its reason, or dropped on a storage error |
| `MarkoutScheduler.MarkoutSides` | src/analytics/tradeMarkoutScheduler.ts:73-81 | A buy and a sell at the same prices have opposite markouts up to 0.01 bps, the buy gaining when the price rose |
| `MarkoutScheduler.MarkoutIsFavourableMove` | src/analytics/tradeMarkoutScheduler.ts:73-81 | The markout is the move of the mark price in the fill's favour in bps of the fill price, to within half a hundredth |
| `MarkoutScheduler.OutcomeIsComplete` | src/analytics/tradeMarkoutScheduler.ts:123-136 | An outcome has a price and a markout, or a reason, never both; the reason no_liquidity is never given, because a job leaves without a price only once it has timed out |
| `MarkoutScheduler.MissingReasonMeaning` | src/analytics/tradeMarkoutScheduler.ts:123-136 | The trade is unknown exactly when none is stored under the job's hash; otherwise the reason is the one that fits it: not executed, not validated, snapshot source down, timed out, else no liquidity |
| `MarkoutScheduler.TradeMarkoutScheduler.LoadPendingFromDisk` | src/analytics/tradeMarkoutScheduler.ts:349-365 | The loop over the records loads the usable ones, later records over earlier ones |
| `MarkoutScheduler.TradeMarkoutScheduler.SavePendingToDisk` | src/analytics/tradeMarkoutScheduler.ts:367-375 | The file lists every pending job once, in order of due time |
| `MarkoutRuns.StepKeepsTimers` | src/analytics/tradeMarkoutScheduler.ts:148-375 | Every step keeps the armed timers equal to the pending jobs while started, and empty before, whatever is scheduled and whatever is on file |
| `MarkoutRuns.StepKeepsInv` | src/analytics/tradeMarkoutScheduler.ts:148-375 | After every step of a started scheduler the armed timers are exactly the pending jobs and the file lists exactly the pending jobs |
| `MarkoutRuns.RunKeepsInv` | src/analytics/tradeMarkoutScheduler.ts:148-375 | The same after every event of every sequence of starts, stops, schedules, firings and restarts |
| `MarkoutRuns.StepTracksJobs` | src/analytics/tradeMarkoutScheduler.ts:148-375 | No step loses, duplicates or alters a job: only its own timer changes it, by one attempt, or removes it |
| `MarkoutRuns.RestartKeepsIff` | src/analytics/tradeMarkoutScheduler.ts:349-375 | Exact condition: a new process finds every pending job again if and only if all fill prices are finite |
| `MarkoutRuns.RestartLosesJob` | src/analytics/tradeMarkoutScheduler.ts:83-121 | A job whose fill price is not finite is on file, yet gone after a restart and start |
| `MarkoutRuns.ScheduleKeepsJobsIff` | src/analytics/tradeMarkoutScheduler.ts:165-208 | Exact condition: scheduling a new trade keeps every outstanding job if and only if the jobs on file have been read; before the first start they are overwritten |
| `MarkoutRuns.ScheduledJobsAreDue` | src/analytics/tradeMarkoutScheduler.ts:165-208 | A schedule step keeps pending jobs and adds exactly one for each requested horizon (whole seconds, at least 1) that has none, with the fill's fields, due fill time + 1000 * horizon, expiring the larger of two minutes and half the horizon later |
| `MarkoutRuns.StepKeepsPunctual` | src/analytics/tradeMarkoutScheduler.ts:148-347 | Each step keeps: every outstanding job is due 1000 * horizon after its fill, and no armed timer is set before that |
| `MarkoutRuns.RunIsPunctual` | src/analytics/tradeMarkoutScheduler.ts:148-347 | So after every event of every run, restarts and retries included |
| `MarkoutRuns.FiringEndsIff` | src/analytics/tradeMarkoutScheduler.ts:238-347 | A firing ends its job if and only if there is a positive mid price, the job has expired or it was the fifth attempt; otherwise only its count grows and it is tried again 15 s later |
| `MarkoutRuns.StoredMarkoutIsTimely` | src/analytics/tradeMarkoutScheduler.ts:238-347 | In every state of a punctual run, the markout stored for a job that ends is due fill time + 1000 * horizon, was not taken before, and carries the mid price and the favourable move in bps, or no price, the reason that fits the trade and the error met |
| `MarkoutRuns.UnreadFile` | src/analytics/tradeMarkoutScheduler.ts:148-208 | A new process next to a file with a job is a state in which that condition fails |
| `MarkoutRuns.AttemptsAreFirings` | src/analytics/tradeMarkoutScheduler.ts:238-306 | While a job is outstanding its attempt count is the number of firings of its timer and stays below 5, across any number of stops, reloads and starts |
| `MarkoutRuns.FreshJobLeaves` | src/analytics/tradeMarkoutScheduler.ts:298-341 | A job not yet tried is gone by its fifth firing, whatever restarts lie in between |
| `MarkoutRuns.OneOutcomeWhenLeaving` | src/analytics/tradeMarkoutScheduler.ts:259-341 | Without storage errors a job is announced as recorded or missing in exactly the step in which it leaves, once |
| `MarkoutRuns.OutcomesAreDepartures` | src/analytics/tradeMarkoutScheduler.ts:259-341 | Over a whole run without storage errors the outcomes announced for a job are as many as its departures |
| `MarkoutRuns.LeavingStoresMarkout` | src/analytics/tradeMarkoutScheduler.ts:273-325 | When a job leaves, its stored trade holds exactly one markout for the horizon, in sorted order, and every other trade is untouched |
| `SpreadDistribution.ComputeSpreadBps` | src/analytics/spreadDistribution.ts:85-92 | A spread is computed exactly for a positive, uncrossed book; times the sum of bid and ask it is 20000 times their difference, and it lies in [0, 20000) bps |
| `SpreadDistribution.PercentileIsNearestRank` | src/analytics/spreadDistribution.ts:94-98 | The value chosen is a nearest-rank percentile by counting: at least p percent of the values are at most it and fewer than p percent are below it |
| `SpreadDistribution.StatsMeaning` | src/analytics/spreadDistribution.ts:100-117 | Median, p75 and p90 are nearest ranks with median at most p75 at most p90; they are missing exactly when there is no value |
| `SpreadDistribution.TimeSeriesRingBuffer.constructor` | src/analytics/spreadDistribution.ts:33-37 | A new buffer is empty and holds at least one sample |
| `SpreadDistribution.TimeSeriesRingBuffer.Push` | src/analytics/spreadDistribution.ts:39-51 | The sample joins at the end of the abstract list, and a full buffer loses its first |
| `SpreadDistribution.TimeSeriesRingBuffer.Prune` | src/analytics/spreadDistribution.ts:53-60 | The loop drops the leading samples older than the cutoff and no other |
| `SpreadDistribution.TimeSeriesRingBuffer.ValuesSince` | src/analytics/spreadDistribution.ts:62-73 | The values returned are those of all held samples not older than the cutoff, in order, wherever the ring wraps |
| `SpreadDistribution.TimeSeriesRingBuffer.Clear` | src/analytics/spreadDistribution.ts:75-78 | The buffer is empty afterwards |
| `SpreadDistribution.SpreadDistributionSampler.constructor` | src/analytics/spreadDistribution.ts:128-133 | A new sampler holds no samples and no snapshot |
| `SpreadDistribution.SpreadDistributionSampler.Ingest` | src/analytics/spreadDistribution.ts:139-144 | A usable book adds one sample and prunes by the baseline; any other book changes nothing |
| `SpreadDistribution.SpreadDistributionSampler.Compute` | src/analytics/spreadDistribution.ts:171-192 | The snapshot carries the statistics of both windows over what pruning leaves and becomes the cached one |
| `SpreadDistribution.SpreadDistributionSampler.MaybeCompute` | src/analytics/spreadDistribution.ts:146-151 | The cached snapshot is answered while younger than the interval; otherwise a new one is computed |
| `SpreadDistribution.SpreadDistributionSampler.GetSnapshot` | src/analytics/spreadDistribution.ts:153-159 | The cached snapshot is answered up to twice the interval; otherwise a new one is computed |
| `SpreadDistribution.SpreadDistributionSampler.Reset` | src/analytics/spreadDistribution.ts:161-165 | Samples and snapshot are gone |
| `SpreadDistribution.SamplerRefines` | src/analytics/spreadDistribution.ts:26-78 | For every sequence of ingests and computes under a clock that does not go back, the samples behind a snapshot are the last maxSamples accepted ones filtered by the cutoff: wrap-around, overwriting and earlier pruning are unobservable |
| `SpreadDistribution.SnapshotsAreExact` | src/analytics/spreadDistribution.ts:139-196 | Every snapshot carries the statistics of the windows of the unbounded history |
| `SpreadDistribution.AcceptedAreSpreads` | src/analytics/spreadDistribution.ts:85-160 | The history behind every run holds one sample for each usable book ingested, at its time, whose value times (bid + ask) is 20000 * (ask - bid) |
| `SpreadDistribution.SnapshotFigures` | src/analytics/spreadDistribution.ts:85-197 | Every median, p75 and p90 of every snapshot of every run is the spread of a book ingested within the last 24 hours, or within the baseline |
| `SpreadDistribution.LookbackIsADayIff` | src/analytics/spreadDistribution.ts:171-177 | Exact condition: the 24-hour window holds the kept samples of the last 24 hours on every run if and only if the baseline covers at least a day |
| `SpreadDistribution.ShortBaselineLosesSample` | src/analytics/spreadDistribution.ts:171-177 | With any shorter baseline a sample exactly a day old is missing from the 24-hour window |
| `Drawdown.ComputeRollingDrawdownMetricsFromPnl` | src/analytics/feedbackEngine.ts:609-648 | The one pass returns final equity, running peak, whether the peak counts, and the largest fall seen from a counting peak |
| `Drawdown.PeakIsMaximum` | src/analytics/feedbackEngine.ts:621-626 | The peak is the largest equity reached, the starting 0 included, and it is reached |
| `Drawdown.OnePassIsMaximum` | src/analytics/feedbackEngine.ts:621-640 | The drawdown is the maximum over all steps of the fall from the running peak in percent, over steps whose peak exceeds epsilon |
| `Drawdown.OnePassIsLargestFall` | src/analytics/feedbackEngine.ts:609-648 | If equity never goes negative, it is the largest fall between any two steps that starts above epsilon, and lies in [0, 100] |
| `Drawdown.MaxFallIsReached` | src/analytics/feedbackEngine.ts:621-640 | The result, unless 0, is the fall between some two steps |
| `Drawdown.LowestStartIsMinimum` | src/analytics/feedbackEngine.ts:621-640 | The smallest equity above epsilon met so far, as one pass finds it, is the minimum over all starts and is one of them |
| `Drawdown.LargestFallIff` | src/analytics/feedbackEngine.ts:609-648 | Exact condition, for every curve: the result is the largest fall between any two steps if and only if at no step below zero the fall from the smallest start so far exceeds it |
| `Drawdown.FirstLossLargestFallIff` | src/analytics/feedbackEngine.ts:609-648 | Exact condition when only the last step can go below zero: the result is the largest fall if and only if it does not, or every equity above epsilon before it was the peak itself |
| `Drawdown.OnePassRange` | src/analytics/feedbackEngine.ts:609-648 | Exact condition: the result is at most 100 if and only if equity is not negative at any step whose peak counts |
| `Drawdown.NegativeEquityHidesLargerFall` | src/analytics/feedbackEngine.ts:609-648 | With equity 1, 2, -1 the result is 150 although the fall from the first step is 200 |
| `Drawdown.GetRollingDrawdown` | src/analytics/feedbackEngine.ts:1490-1541 | The bucketing loop emits the series of the specification for every order of events |
| `Drawdown.PointsAreCumulative` | src/analytics/feedbackEngine.ts:1499-1534 | Each point holds all profit of its bucket and of earlier ones, points ascend in time, and the last holds the sum of all profit |
| `Drawdown.PointsAreBuckets` | src/analytics/feedbackEngine.ts:1508-1534 | There is a point for exactly the buckets in which something was booked |
| `Drawdown.SeriesMeaning` | src/analytics/feedbackEngine.ts:1490-1541 | On the clock: each point stands at a multiple of the bucket length within one bucket of some event, every event has such a point, and a point's equity is the profit of all events before the end of its bucket |
| `Drawdown.PointDrawdownMeaning` | src/analytics/feedbackEngine.ts:1499-1541 | A point's drawdown times the highest equity among the points so far is what its own equity lacks of it; it is 0 when that is not positive |
| `Drawdown.PointAgainstTruePeak` | src/analytics/feedbackEngine.ts:1490-1541 | Exact condition for every point of the series whose peak counts: it reports no more than the fall from the true peak of all equities up to the end of its bucket if and only if its equity is not negative or a point has that peak |
| `Drawdown.BucketsNeverReportMore` | src/analytics/feedbackEngine.ts:1490-1541 | For a given series: when every positive equity exceeds epsilon and equity is not negative at bucket ends, no point reports more than the one-pass drawdown |
| `Drawdown.NeverReportsMoreIff` | src/analytics/feedbackEngine.ts:1490-1541 | For every curve: on no cutting of the curve into buckets does the series report more than the one pass, if and only if the one pass covers every fall of the curve that starts above 0 |
| `Drawdown.NeverReportsMoreThanLargestIff` | src/analytics/feedbackEngine.ts:1490-1541 | On a curve without equities in (0, epsilon], if and only if the one pass finds the largest fall between any two steps |
| `Drawdown.NegativeBucketReportsMore` | src/analytics/feedbackEngine.ts:1490-1541 | With a negative bucket end the series can report 200 percent where the one pass reports 150 |
| `SnapshotLookup.Latest` | src/analytics/feedbackDb.ts:1629-1634 | The row chosen by descending time is a latest row of the pair in the interval, and none exactly when there is none |
| `SnapshotLookup.Earliest` | src/analytics/feedbackDb.ts:1636-1641 | The row chosen by ascending time is an earliest row of the pair in the interval, and none exactly when there is none |
| `SnapshotLookup.LookupMayAnswer` | src/analytics/feedbackDb.ts:1621-1653 | The modelled lookup is one of the answers the database may give |
| `SnapshotLookup.LookupMeaning` | src/analytics/feedbackDb.ts:1621-1653 | A row may be answered if and only if it is a nearest one within tolerance, the earlier of two equally near; nothing is answered if and only if no row lies within tolerance |
| `SnapshotLookup.WideningMid` | src/analytics/feedbackEngine.ts:1110-1128 | The widening loop returns the first usable mid price among successively wider lookups |
| `SnapshotLookup.FirstUsableMeaning` | src/analytics/feedbackEngine.ts:1104-1128 | The answer is the mid price of the first snapshot that has a positive one and lies within an hour of the target; there is none exactly when no lookup gives such a snapshot |
| `SnapshotLookup.WideningIsOneLookupIff` | src/analytics/feedbackEngine.ts:1099-1128 | Exact condition: whatever the database picks among equal timestamps, the loop equals one lookup at the widest tolerance if and only if equally near rows agree on the usable mid price |
| `SnapshotLookup.BackfillIsOneLookup` | src/analytics/feedbackEngine.ts:1101-1128 | With one snapshot per timestamp and pair, both three-tolerance loops equal one lookup within an hour |
| `SnapshotLookup.EqualTimestampsMayDisagree` | src/analytics/feedbackEngine.ts:1099-1128 | Two rows at one timestamp, one without a price, make the loop and the single lookup disagree |
| `FeedStallRecovery.FeedStallRecovery.constructor` | src/market/feedStallRecovery.ts:82-95 | A new machine is healthy, idle and has seen no event |
| `FeedStallRecovery.FeedStallRecovery.RecordTapeEvent` | src/market/feedStallRecovery.ts:100-103 | A tape event takes the tape step of the machine |
| `FeedStallRecovery.FeedStallRecovery.RecordBookEvent` | src/market/feedStallRecovery.ts:106-109 | A book event takes the book step of the machine |
| `FeedStallRecovery.FeedStallRecovery.TryResetToHealthy` | src/market/feedStallRecovery.ts:112-129 | One live feed is enough to return to healthy with the attempts cleared |
| `FeedStallRecovery.FeedStallRecovery.Evaluate` | src/market/feedStallRecovery.ts:139-164 | An evaluation escalates and then begins a recovery exactly when unhealthy, idle and past the cooldown |
| `FeedStallRecovery.FeedStallRecovery.BeginRecovery` | src/market/feedStallRecovery.ts:211-214 | Beginning a recovery marks it in flight, stamps and counts it |
| `FeedStallRecovery.FeedStallRecovery.FinishRecovery` | src/market/feedStallRecovery.ts:231-237 | Completion, in success or failure, clears only the in-flight mark |
| `FeedStallRecovery.FeedStallRecovery.Reset` | src/market/feedStallRecovery.ts:184-191 | Everything returns to the initial state |
| `FeedStallRecovery.MaxSilenceIsLarger` | src/market/feedStallRecovery.ts:141-145 | The ternary always yields the larger of the two silences, counting a feed without events as infinitely silent |
| `FeedStallRecovery.EvaluateTakesMaximum` | src/market/feedStallRecovery.ts:139-153 | An evaluation sets the stage to the maximum of its old value and the class of the larger silence |
| `FeedStallRecovery.StageMeaning` | src/market/feedStallRecovery.ts:139-200 | The stage after an evaluation in the feeds' silences in milliseconds: the third exactly when it was or a feed has been silent for the third threshold, else the second, else the first, likewise |
| `FeedStallRecovery.HealthyNeedsBothFeeds` | src/market/feedStallRecovery.ts:139-153 | An evaluation leaves the machine healthy if and only if it was and both feeds are live against every threshold |
| `FeedStallRecovery.OneSilentFeedEscalates` | src/market/feedStallRecovery.ts:139-153 | While one feed has never spoken every evaluation goes to the last stage, however live the other is |
| `FeedStallRecovery.AnyEventResets` | src/market/feedStallRecovery.ts:100-129 | Yet any event of either feed returns the machine to healthy |
| `FeedStallRecovery.HealthyMeansNoAttempts` | src/market/feedStallRecovery.ts:100-238 | Over every interleaving, resets included: healthy implies no recovery attempts on the count |
| `FeedStallRecovery.RecoveriesAreSingleAndSpaced` | src/market/feedStallRecovery.ts:155-238 | Without a reset, over every interleaving of events, ticks and completions: at most one recovery is in flight and successive attempts are at least the cooldown apart |
| `FeedStallRecovery.AttemptsPerWindow` | src/market/feedStallRecovery.ts:155-161 | Attempts inside an interval of length L span fewer than L / cooldown cooldowns |
| `FeedStallRecovery.IdleResetsAreSafe` | src/market/feedStallRecovery.ts:100-238 | Over every run whose resets come while nothing is in flight, at most one recovery is in flight |
| `FeedStallRecovery.ResetAllowsAttempt` | src/market/feedStallRecovery.ts:139-191 | After a reset, busy or idle, an evaluation past the cooldown adds a recovery to those in flight |
| `FeedStallRecovery.ResetIsSafeIff` | src/market/feedStallRecovery.ts:139-191 | Exact condition over runs: after a reset no continuation ever has two recoveries in flight if and only if nothing was in flight when it came |
| `FeedStallRecovery.ResetKeepsSpacingIff` | src/market/feedStallRecovery.ts:155-191 | Exact condition over runs: attempts stay a cooldown apart on every continuation after a reset if and only if there was none yet or the last one is a cooldown ago |
| `FeedStallRecovery.ResetDuringRecovery` | src/market/feedStallRecovery.ts:184-238 | A reset during a recovery lets a second one begin a millisecond later beside it |
| `RegimePolicy.RegimePolicyEngine.constructor` | src/analytics/regimePolicy.ts:144-152 | A new engine remembers nothing: every score is 0 and no regime is disabled |
| `RegimePolicy.RegimePolicyEngine.ComputeStrategyPolicy` | src/analytics/regimePolicy.ts:324-392 | The loop over regimes disables exactly those whose update says so and records score and size of every regime |
| `RegimePolicy.RegimePolicyEngine.SmoothedOf` | src/analytics/regimePolicy.ts:181-184 | The loop copies the smoothed score of every regime out of the policy |
| `RegimePolicy.RegimePolicyEngine.TradesOf` | src/analytics/regimePolicy.ts:165-171 | The loop counts the trades of every regime, 0 where the heatmap has none |
| `RegimePolicy.RegimePolicyEngine.RecomputeGlobal` | src/analytics/regimePolicy.ts:173-184 | The global entry moves on by one update in every regime; the policy sizes every regime from the newly smoothed score |
| `RegimePolicy.RegimePolicyEngine.RecomputeStrategy` | src/analytics/regimePolicy.ts:189-205 | One strategy moves on by one update in every regime; no other strategy's scores change; the policy sizes every regime from the newly smoothed score |
| `RegimePolicy.RegimePolicyEngine.RecomputeStrategies` | src/analytics/regimePolicy.ts:186-206 | Every strategy of the heatmap moves on by one update, whatever the order; the others keep their scores, and each new policy sizes every regime from the newly smoothed score |
| `RegimePolicy.RegimePolicyEngine.Recompute` | src/analytics/regimePolicy.ts:158-239 | The global entry and every strategy of the heatmap move on by one update; a strategy missing from the heatmap keeps its scores but loses its disabled regimes; a strategy named "global" takes its hysteresis from the global policy; the stored policy holds the sizes of all of them and the trades per regime |
| `RegimePolicy.SmoothedStaysInRange` | src/analytics/regimePolicy.ts:346-349 | Smoothed scores that start at 0 stay in [-100, 100], the range of the raw ones |
| `RegimePolicy.UpdateMeaning` | src/analytics/regimePolicy.ts:338-374 | One update in the heatmap's numbers: the smoothed score moves by alpha times the gap; with enough trades it disables below the lower threshold, enables from the upper on and changes nothing between; fewer trades change nothing; none enable; an unlisted regime counts as score 0 without trades |
| `RegimePolicy.FewTradesChangeNothing` | src/analytics/regimePolicy.ts:368-373 | While every update has trades but fewer than the minimum, a regime stays enabled or disabled, whatever the scores |
| `RegimePolicy.ReEnableNeedsGoodScore` | src/analytics/regimePolicy.ts:351-373 | With trades at every update, between a disable and any later moment at which the regime is enabled some raw score reached the enable score |
| `RegimePolicy.DisableAfterReEnableNeedsBadScore` | src/analytics/regimePolicy.ts:351-373 | Between a re-enable and any later moment at which the regime is disabled some raw score was below the disable score |
| `RegimePolicy.FirstDisableNeedsBadScoreIff` | src/analytics/regimePolicy.ts:346-373 | Exact condition for the first disable: it needs a raw score below the disable score on every run if and only if the disable score is at most 0, or above 100, or nothing is smoothed |
| `RegimePolicy.WarmUpDisables` | src/analytics/regimePolicy.ts:346-373 | Otherwise one update at the disable score itself disables the regime, because smoothing starts at 0 |
| `RegimePolicy.NeverReEnabledIffAlwaysTrades` | src/analytics/regimePolicy.ts:355-374 | While raw scores stay below the enable score, a disabled regime is disabled after every update if and only if every update has trades |
| `RegimePolicy.StrategyStaysDisabledIff` | src/analytics/regimePolicy.ts:186-374 | Below the enable score, a disabled regime of a strategy is disabled after every update if and only if every heatmap lists the strategy, with trades there |
| `RegimePolicy.SilentReEnable` | src/analytics/regimePolicy.ts:355-374 | With the default settings and a score of -50, one update without trades re-enables a disabled regime |
| `RegimePolicy.SizeFollowsScore` | src/analytics/regimePolicy.ts:397-411 | A better score never means a smaller size, and the size is within half a step of the clamped value |
| `RegimePolicy.SizeWithinBoundsIff` | src/analytics/regimePolicy.ts:397-411 | Exact condition: since rounding follows clamping, sizes stay within the bounds for every score if and only if both bounds survive the rounding |
| `RegimePolicy.RoundingExceedsMaximum` | src/analytics/regimePolicy.ts:397-411 | With a maximum of 1.25 and steps of 0.1 the best score gets a size of 1.3 |
| `AdaptiveLearner.SmoothMovesTowardsTarget` | src/analytics/adaptiveLearner.ts:495-500 | A smoothing step goes towards its target, never past it, and no further than the step limit |
| `AdaptiveLearner.NeverOvershootsIff` | src/analytics/adaptiveLearner.ts:495-500 | Exact condition: no step overshoots if and only if the smoothing factor lies in [0, 1] |
| `AdaptiveLearner.TargetsAreNarrow` | src/analytics/adaptiveLearner.ts:389-436 | Whatever the performance figures, the heuristics ask for a size in [0.55, 1.1], a minimum edge in [0, 10] and a cooldown in [0, 10000] |
| `AdaptiveLearner.TargetsMeaning` | src/analytics/adaptiveLearner.ts:405-436 | The targets in the row's figures: size 1, less a fortieth per bps of negative edge up to a quarter, less half the partial-fill rate beyond 0.3 up to a fifth, plus a tenth for a strong row; minimum edge half the loss in bps up to 10; cooldown 200 ms per bps up to 10 s |
| `AdaptiveLearner.RecommendationOnAnyTuning` | src/analytics/adaptiveLearner.ts:383-490 | On any tuning, even out of bounds, one recommendation ends in the documented bounds and changes nothing else without smoothing; it disables its regime, on top of those disabled, exactly for a chaotic or illiquid row with negative score |
| `AdaptiveLearner.SizeRangeIsTight` | src/analytics/adaptiveLearner.ts:389-436 | Both ends of the size range are asked for by some row |
| `AdaptiveLearner.RecommendationIsBounded` | src/analytics/adaptiveLearner.ts:383-490 | One recommendation keeps every figure in reach, moves the size between its old value and its target by at most one step, and drops no disabled regime |
| `AdaptiveLearner.CoolDownStallsIff` | src/analytics/adaptiveLearner.ts:455-457 | Exact condition: with nothing to slow down for, a cooldown stops shrinking if and only if the smoothing factor times it is at most half a millisecond |
| `AdaptiveLearner.CoolDownStallsAtTwo` | src/analytics/adaptiveLearner.ts:455-457 | Witness: with the default smoothing factor a cooldown of 2 ms that should go to 0 stays at 2 |
| `AdaptiveLearner.Learner.constructor` | src/analytics/adaptiveLearner.ts:516-523 | A learner without a state file has no tunings |
| `AdaptiveLearner.Learner.UpdateOnce` | src/analytics/adaptiveLearner.ts:547-635 | The three nested loops visit every pair, strategy and regime in order, each visit recommending, initialising or keeping; afterwards every combination listed has a tuning |
| `AdaptiveLearner.CycleMeaning` | src/analytics/adaptiveLearner.ts:556-628 | For lists without repetition: each listed combination gets one recommendation from its own row, or the default, or stays; every other tuning is untouched |
| `AdaptiveLearner.ListedArePresent` | src/analytics/adaptiveLearner.ts:613-622 | After a cycle every combination listed has a tuning, data or no data |
| `AdaptiveLearner.ReachableTunings` | src/analytics/adaptiveLearner.ts:383-635 | Every tuning reachable by any sequence of cycles has size in [0.55, 1.1], maximum slippage exactly 50, minimum edge in [0, 10], cooldown in [0, 10000] and no skew |
| `AdaptiveLearner.DisabledExactlyAfterDanger` | src/analytics/adaptiveLearner.ts:401-403 | A tuning disables its own regime if and only if some earlier row of its key was chaotic or illiquid with a negative score |
| `AdaptiveLearner.DisabledNeverShrinks` | src/analytics/adaptiveLearner.ts:459-460 | No later cycle removes a disabled regime |
| `MidPriceTrend.AlphaFacts` | src/market/midPriceTrend.ts:110-113 | The weight of a sample lies in (0, 1] and does not grow with the half-life |
| `MidPriceTrend.MidPriceTrendTracker.constructor` | src/market/midPriceTrend.ts:115-131 | A new tracker holds no samples |
| `MidPriceTrend.MidPriceTrendTracker.Update` | src/market/midPriceTrend.ts:137-171 | An observation takes the update step; a non-positive price or a clock that has not advanced changes nothing |
| `MidPriceTrend.MidPriceTrendTracker.GetSignal` | src/market/midPriceTrend.ts:176-223 | Unknown and not ready exactly when there are too few samples, the last is stale or the slow average is not positive; otherwise up or down exactly when the gap of the averages exceeds the threshold share of the slow one |
| `MidPriceTrend.MidPriceTrendTracker.Reset` | src/market/midPriceTrend.ts:228-236 | All state is cleared |
| `MidPriceTrend.AveragesStayInRange` | src/market/midPriceTrend.ts:137-171 | All averages stay within the range of the accepted prices |
| `MidPriceTrend.UpdateMeaning` | src/market/midPriceTrend.ts:137-171 | An accepted sample leaves of each average's gap to the price what the decay over the elapsed time leaves, at the fast, the slow and twice the fast half-life; without a half-life nothing |
| `MidPriceTrend.SteadyPrice` | src/market/midPriceTrend.ts:137-171 | While the price is steady the sampling rate does not matter: after any number of samples each average has kept the part of its gap that the decay over the whole time leaves |
| `MidPriceTrend.UpdateKeepsOrder` | src/market/midPriceTrend.ts:156-169 | One update keeps slow at most fast at most latest price when prices do not fall, and the reverse when they do not rise |
| `MidPriceTrend.MonotoneRunIsOrdered` | src/market/midPriceTrend.ts:137-171 | After every monotone sequence of prices the averages are in that order |
| `MidPriceTrend.TrendFollowsPrices` | src/market/midPriceTrend.ts:137-223 | While prices do not fall the signal is never down, while they do not rise never up, and trend and velocity carry the same sign |
| `OfferPricing.NormalizeIntent` | src/execution/offerBuilder.ts:73-95 | An intent is accepted if and only if amount and price are positive; amount and side stay; without inversion nothing changes, with it the currencies swap and the two prices multiply to 1 |
| `OfferPricing.InvertingTwiceRestores` | src/execution/offerBuilder.ts:81-94 | Inverting an accepted intent and inverting it back gives the intent again |
| `OfferPricing.OnLedgerRange` | src/execution/offerBuilder.ts:97-104 | Cutting XRP to whole drops loses less than one drop and leaves something if and only if the value is at least one drop |
| `OfferPricing.OfferMeaning` | src/execution/offerBuilder.ts:97-158 | For every intent a BUY gives the quote and receives the base, a SELL the reverse: XRP as the largest whole number of drops within the value, an issued currency as the value; there is no offer exactly when an issued leg is not positive |
| `OfferPricing.ComputeImpliedOfferPriceQuotePerBase` | src/analytics/offerOutcomeExplainer.ts:190-209 | A price is read from an offer if and only if both amounts are usable, and it is positive |
| `OfferPricing.RecoveredIsLegRatio` | src/execution/offerBuilder.ts:134-158 | For either side the offer of an accepted intent can be built and its price is the ratio of what the two legs keep; none comes back if and only if an XRP leg is worth less than a drop |
| `OfferPricing.PriceRoundTrip` | src/analytics/offerOutcomeExplainer.ts:190-209 | Build then read back: exact between issued currencies; with XRP base at least the price and below price * amount / (amount - 1e-6); with XRP quote at most the price and above price - 1e-6 / amount |
| `OfferPricing.OtherSideInverts` | src/analytics/offerOutcomeExplainer.ts:202-208 | Reading an offer with the other side gives the inverse price |
| `OfferPricing.XrpBaseWithinIff` | src/analytics/offerOutcomeExplainer.ts:127-132 | With XRP base the 2 bps check passes if and only if drop rounding lost at most 1/5000 of the kept base, whatever the price |
| `OfferPricing.XrpQuoteWithinIff` | src/analytics/offerOutcomeExplainer.ts:127-132 | With XRP quote, if and only if it lost at most 1/5000 of the value |
| `OfferPricing.SafeBaseAmountIff` | src/analytics/offerOutcomeExplainer.ts:247-251 | Drop rounding alone never trips the check for XRP-base offers of at least T if and only if T is at least 0.005 |
| `OfferPricing.SafeQuoteValueIff` | src/analytics/offerOutcomeExplainer.ts:247-251 | For XRP-quote offers worth at least T, if and only if T is at least 0.004999 |
| `ThrottledLogger.LogThrottle.constructor` | src/analytics/throttledLogger.ts:9-12 | The limit is at least 1 and no key is known |
| `ThrottledLogger.LogThrottle.ShouldLog` | src/analytics/throttledLogger.ts:56-83 | A call takes the call step of the table and answers whether the message is admitted |
| `ThrottledLogger.LogThrottle.Flush` | src/analytics/throttledLogger.ts:31-46 | The loop clears suppressed counts and removes exactly the entries older than 30 seconds |
| `ThrottledLogger.FlushMeaning` | src/analytics/throttledLogger.ts:31-46 | A flush forgets exactly the keys whose window began more than 30000 ms ago, and changes nothing of the others but their suppressed count, which becomes 0 |
| `ThrottledLogger.SuppressedAreRefused` | src/analytics/throttledLogger.ts:29-83 | On every run a key's suppressed count is the number of its calls refused since the last flush: no refused message goes unreported |
| `ThrottledLogger.CleanUpsAreUnobservable` | src/analytics/throttledLogger.ts:29-83 | Under a clock that does not go back, a run admits exactly the calls, at exactly the times, that it admits without its clean-ups (CallsAreKept: the same events, none left out but the clean-ups) |
| `ThrottledLogger.NotesChain` | src/analytics/throttledLogger.ts:29-83 | The admitted calls of a key fall into windows at least 1000 ms apart, each holding at most the limit, and the table remembers the last |
| `ThrottledLogger.RateBound` | src/analytics/throttledLogger.ts:29-83 | Under a clock that does not go back, with any clean-ups, the calls admitted for a key in an interval of length L number at most limit * (ceil(L / 1000) + 1) - 1 |
| `ThrottledLogger.RateBoundPerSecond` | src/analytics/throttledLogger.ts:29-83 | In any second at most 2 * limit - 1 |
| `ThrottledLogger.RateBoundIsTight` | src/analytics/throttledLogger.ts:67-78 | That many are admitted by a burst across two windows, for every limit |
| `ThrottledLogger.LimitPerSecondIff` | src/analytics/throttledLogger.ts:8-12 | Exact condition: the documented maximum per second holds on every run if and only if the limit is 1 |

## Left out

- Floating point: quantities are exact reals, so rounding, overflow, NaN and infinities do not occur, except a fill price that is not finite and a silence that is infinite, which are modelled.
- File, SQLite, S3, Secrets Manager, Redis and WebSocket access: writes of the pending file succeed, and no read or query throws; the file is a list of records and the snapshot table a list of rows.
- TradeStore.TradeHistoryService.constructor: starts empty; loading the trade file and the S3 copy, and saving after each change, are not modelled.
- TradeStore.TradeHistoryService.UpsertTradeTrace: the profit derived by `resolveEffectivePnl` is a parameter, and trace fields that no other modelled code reads are absent.
- TradeStore.MergedTraceMeaning: the merging of submit result, fill snapshot and retry attempts, which no other modelled code reads, is absent.
- TradeStore.NormalizeTradeUnits: the fields entry price, exit price, slippage and paper flag, which pass through unchanged, are absent, as is the difference between an absent field and one set to `undefined`.
- TradeStore.RunsKeepStore: asks of each trace merge the condition that UpsertKeepsStoreIff proves exact.
- MarkoutRuns.AttemptsAreFirings: asks that scheduling waits until the file has been read, and that fill prices are finite; ScheduleKeepsJobsIff and RestartKeepsIff prove what happens otherwise.
- MarkoutRuns.FreshJobLeaves: the same conditions; a job leaves only if its timer keeps firing, which the host's timers provide.
- MarkoutRuns.OneOutcomeWhenLeaving: on a storage error the job leaves without an outcome, as in the code.
- MarkoutScheduler.TradeMarkoutScheduler.ProcessJob: the constant source of a markout record is absent, whether an error message names the snapshot source is an input, and a job id is the pair of trade id and horizon rather than its text.
- MarkoutScheduler.TradeMarkoutScheduler.Schedule: a horizon that is not a finite number, and the default horizons from the environment, which arrive as a parameter.
- SpreadDistribution: the buffer capacity is an integer, and timestamps are whole milliseconds.
- SpreadDistribution.SamplerRefines: asks for a clock that does not go back, as does ThrottledLogger.RateBound.
- Drawdown.NeverReportsMoreThanLargestIff: asks that every positive equity exceeds epsilon; NeverReportsMoreIff does not.
- Drawdown.GetRollingDrawdown: event queries and the profit of one event are inputs; a bucket length that is not positive is not modelled.
- SnapshotLookup: the aliases of a pair key are a set of names; the choice among equal timestamps is left open to the database; fills without timestamp, price or side, and the writing back of horizons, are not modelled.
- FeedStallRecovery: the recovery actions themselves and event logging; a recovery is a begin and a finish.
- RegimePolicy.RegimePolicyEngine.constructor: starts without saved state; the policy and score files are not modelled, and the heatmap is an input.
- RegimePolicy.RegimePolicyEngine.Recompute: the reasons, the total of trades and the time stamps of the policy are absent.
- RegimePolicy.SmoothedStaysInRange: takes raw scores in [-100, 100], where the heatmap clamps them (feedbackEngine.ts line 1726).
- RegimePolicy.ReEnableNeedsGoodScore: asks for trades at every update; NeverReEnabledIffAlwaysTrades says why.
- AdaptiveLearner.Learner.constructor: starts without a state file; the performance matrix is an input, tunings are keyed by (pair, strategy, regime) in one map, disabled regimes are a set, and reasons and timestamps are absent.
- AdaptiveLearner.CycleMeaning: asks for lists without repetition; with repetitions a combination is updated once per listing, as Learner.UpdateOnce states.
- MidPriceTrend: the exponential is a parameter with the two facts stated in ValidDecay, and in SteadyPrice its product law.
- MarkoutRuns.RunIsPunctual: asks that the host fires no timer before its time (OnTime), and that fill prices are finite, as RunKeepsInv does.
- FifoLots.BuyThenSell: asks for a SELL quantity above 1e-12; what is below matches nothing.
- OfferPricing: issued values are exact rather than cut to 15 digits; currency codes, issuers and amounts that are not numbers are absent; the ladder that chooses an outcome category, maker quotes and pair resolution are not modelled.
- RetryPolicy: trimming and upper-casing of engine results, back-off with jitter and configuration loading; the loader's guarantees are the predicate Loaded.
- RetryRuns.ExecuteWithRetries: the checks before submission other than depth, fill ratio and amount (mid-price guard, limit too far from the intended price, minimum order value, slippage gate) are one possible refusal, an input of each attempt; depth repricing (FEATURE_EXECUTION_DEPTH_REPRICE, off by default), which sends an order below the fill ratio at another price, is not modelled.
- RetryRuns.NeverLosesSizeIff: on the books that lose size those other checks are taken to pass.
- RetryRuns.RetryKeepsAmountIff: asks for level sizes above 1e-12, as does RunKeepsAmountIff; smaller levels at the end of a walk count as nothing.
- RetryRuns.FixedDemandKeepsSize: says what the budgets would do to one demand; the attempts themselves carry the cut amount, which RetryKeepsAmountIff and NeverLosesSizeIff are about.
- DepthPricing: the mid-price slippage guard, one comparison.
- ThrottledLogger: the logger calls.
- Guard ladders, counters and one-line metrics (execution gate, quality gate, reprice policy, order sizing, log buffer, decision funnel, cost realism): not modelled.
- The S3 store, report and backfill scripts, server, configuration schemas and account ingestion.
