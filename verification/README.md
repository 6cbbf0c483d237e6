# A verified model of the Mento monitoring services

The indexer keeps derived tables up to date one chain event at a time, and each of those
tables has a much simpler from-scratch meaning. The metrics bridge, the integration probes
and Aegis watch the same protocol with small state machines, worker pools, a semaphore and
decimal-string arithmetic. This project models that logic in Dafny and proves that what is
kept incrementally is what it means.

Run `dafny verify dfyconfig.toml` to check everything. The project has no dependency outside
this directory.

## How the model is laid out

Code that overwrites rows is a class whose fields are the tables (`VolumeStore`, `BreakerStore`,
`BreachTable`, `StrategyStore`, `PoolTable`, `AlertTracker`, `AsyncSemaphore`), with one method
for each function of the source. Each method is proved equal to a function of the old state, and
the theorems are about runs of that function. A `Replay` method ties both ends together: it feeds
a whole list of events to a fresh store and ends in the state the theorems describe. Loops of the
source are loops here; expressions are functions. String row ids are tuples. Concurrency is a
sequence of atomic steps, one for each stretch between two awaits, in any order.

| subject | modules |
|---|---|
| volume rollups | `VolumeHistory`, `VolumeRollups`, `VolumeRollupProofs`, `VolumeRuns` |
| window flush | `VolumeWindow`, `VolumeFlush`, `VolumeFlushProofs`, `VolumeFlushRuns`, `VolumeListings`, `VolumeStore`, `VolumeReplay` |
| oracle feed and expiry | `LogPositions`, `AtLeastOnce`, `OracleExpiry`, `OracleFeed`, `OracleFeedRuns` |
| health score | `SecondCounting`, `TradingCalendar`, `HealthScore`, `HealthRuns` |
| breakers | `Breakers`, `BreakerHydration`, `BreakerEvents`, `BreakerMeanings`, `BreakerRuns`, `BreakerStore`, `BreakerHandlers` |
| breach ledger | `DeviationBreach`, `BreachRuns`, `BreachAnchors`, `BreachReplay` |
| fee snapshots | `FeeSnapshot`, `FeeTransfers` |
| strategies | `LiquidityStrategies` |
| alerts, concurrency, retries | `DeviationThresholds`, `AlertState`, `AlertRuns`, `Semaphore`, `WorkerPool`, `RebalanceProbe`, `QuoteRunner` |
| decimals and prices | `DecimalStrings`, `PriceDifference` |
| shared | `Arithmetic`, `Ordering`, `Outcomes`, `Sums` |

## Where the code and its promise part

These are properties the code does not have for all inputs. The code is modelled as it is; each
comes with the exact condition under which the property holds and, where the condition is not
plain, a concrete input that breaks it.

* Applying a swap to the volume tables again changes nothing if and only if the swap is refused,
  although the comment above the update calls it idempotent
  (`VolumeRuns.RepeatedSwapCountsAgain`).
* The handlers of cooldowns, thresholds, smoothing factors, average resets and reference values read
  missing rows from the chain and never sync pools. They keep all halt flags right if and only if the
  config was there, or is not answered as enabled and tripped by a breaker other than a trading-hours
  one, or every non-virtual pool on the feed or a direct dependent is halted already
  (`BreakerEvents.ConfigChangeIsRightExactly`, `BreakerRuns.CooldownLeavesStale`). Later oracle events
  do not repair the flag (`BreakerRuns.NoRepairOnceConfigured`).
* Loading a feed's dependencies restores all halt flags if and only if no pool outside the feed and
  its dependents, not halted already, reads a dependency for which the load is about to find a halt
  (`BreakerHydration.LoadKeepsFlagsExactly`, `BreakerRuns.LoadingLeavesStale`).
* A pool whose feed is reassigned keeps its flag, which is right if and only if both feeds are
  halted alike (`Breakers.AssignmentIsRight`).
* After a run under the anchor rule the breach ledger is right if and only if the rule never moved the
  anchor of a breach: one that a reserves update held open and that rises again at another time. From
  then on a row stays open that no anchor names (`BreachAnchors.LedgerRightExactly`,
  `BreachAnchors.AfterTheMove`, `BreachRuns.MovedAnchorLeavesTwoOpen`).
* Pricing is additive, and the time at which a symbol arrives never matters, if and only if no pegged
  token has more than 18 decimals (`FeeSnapshot.PricingIsAdditive`, `FeeSnapshot.ConfluenceExactly`,
  `FeeSnapshot.TruncationBreaksConfluence`).
* Scaling both reserves leaves price difference, active threshold and degeneracy alone if and only if
  both tokens have at most 18 decimals (`PriceDifference.ScaleInvariantExactly`,
  `PriceDifference.ScaleMattersAbove18`).
* A warning's entry time is taken for the time since which its alert was pending. It is the start of
  the warning itself if and only if the warning did not take over from a critical state whose signal
  stayed (or inherited that very second); otherwise it is inherited, and a recovery can be reported
  from a warning too young to have fired (`AlertRuns.WarningEntryExactly`, `AlertRuns.InheritedEntry`).
* Multiplying a decimal string is right if and only if the value has no fraction, or no space
  after it, or the product is zero: trailing spaces are counted as decimal places
  (`DecimalStrings.MultiplyIsRightExactly`, `DecimalStrings.SpaceShiftsPoint`).

## Model

| member | source | states |
|---|---|---|
| `VolumeRuns.TablesAgree` | indexer-envio/src/volumeSnapshots.ts:141-213 | after any history of swaps all seven rollup tables equal their recomputation from the accepted swaps: primary counts, volumes, fees and unique traders are those of exactly the traders not flagged on that day, however late the flag came |
| `VolumeHistory.GroupsMean` | indexer-envio/src/volumeSnapshots.ts:141-168 | the swaps a row of each table is about: those with a caller and a value, of its chain and UTC day, and of its trader, pool or aggregator |
| `VolumeHistory.FeesMean` | indexer-envio/src/volumeSnapshots.ts:237-261 | the fees of a swap are the whole number of its volume times both fee rates in basis points, unknown (negative) rates counting nothing |
| `VolumeHistory.FlowsMean` | indexer-envio/src/volumeSnapshots.ts:265-272 | a token that leaves the pool counts the whole volume as inflow, one that enters it as outflow; in a plain swap the four add up to twice the volume |
| `VolumeRollupProofs.PoolCorrectionIsExact` | indexer-envio/src/volumeSnapshots.ts:475-530 | what a newly flagged trader's correction takes out of any pool-day is exactly what that trader had put in that day |
| `VolumeRollupProofs.AggCorrectionIsExact` | indexer-envio/src/volumeSnapshots.ts:622-682 | the same for aggregator-days, unique traders included, even where the marker's own flag lags behind |
| `VolumeRuns.ClampsNeverBite` | indexer-envio/src/volumeSnapshots.ts:82-88 | the subtractions clamped at zero never subtract more than the row holds |
| `VolumeRuns.OrderDoesNotMatter` | indexer-envio/src/volumeSnapshots.ts:431-709 | two orders of the same swaps give the same totals on every pool-day and aggregator-day |
| `VolumeRuns.RepeatedSwapCountsAgain` | indexer-envio/src/volumeSnapshots.ts:133-140 | whatever came before, applying a swap again leaves the tables as they are if and only if the swap is refused |
| `VolumeRuns.GroupingsAgree` | indexer-envio/src/volumeSnapshots.ts:327-682 | the primary volume of a day is the same summed over pools, over aggregators or over unflagged traders |
| `VolumeWindow.AggregateWindow` | indexer-envio/src/volumeWindowSnapshot.ts:112-178 | the scan for one window gives each trader with a row in it once, with the sums, the flag and the first-day slice of exactly that trader's rows of the window |
| `VolumeWindow.AggregatePerWindow` | indexer-envio/src/volumeWindowSnapshot.ts:112-178 | the same for every rolling window at once |
| `VolumeFlushProofs.WindowRangeMeans` | indexer-envio/src/volumeWindowSnapshot.ts:50-58 | in days: a 7, 30 or 90 day row of a closed day counts exactly the days at most 5, 28 or 88 days before it, its first day is the one at that bound, 24h counts none and the unbounded window all; and the start the row shows |
| `VolumeWindow.AllTimeToWindowAggregates` | indexer-envio/src/volumeWindowSnapshot.ts:184-199 | exactly the lifetime rows of the chain, each as an aggregate without a first-day slice |
| `VolumeWindow.BuildVolumeWindowSnapshot` | indexer-envio/src/volumeWindowSnapshot.ts:227-302 | the row's figures are sums and sets over the traders (all, and unflagged), its lists sorted, whatever the order of the aggregates |
| `VolumeListings.ListedAggs` | indexer-envio/src/volumeWindowFlush.ts:63-99 | the window figures depend only on the table: the bounded fetch covers every rolling window, and its row order does not matter |
| `VolumeListings.LifetimeListed` | indexer-envio/src/volumeWindowFlush.ts:63-99 | the unbounded window's figures are those of the lifetime rollup, in whatever order it is listed |
| `VolumeFlushProofs.EveryClosedDayOnce` | indexer-envio/src/volumeWindowFlush.ts:105-139 | on every run the days flushed for a chain are all days from the one before its first event (past day one) to the latest closed one, each exactly once, and the cursor is that latest day, for either venue on the shared row |
| `VolumeFlushProofs.DailyAggsAgree` | indexer-envio/src/volumeWindowSnapshot.ts:112-178 | per-trader figures taken from the daily rows equal those taken from the swaps of the window |
| `VolumeFlushProofs.LifetimeAggsAgree` | indexer-envio/src/volumeSnapshots.ts:207-212 | as long as the lifetime rollup holds nothing later than the closed day its figures equal those taken from all swaps, which is why it is written after the flush |
| `VolumeFlushProofs.ExpectedRowStays` | indexer-envio/src/volumeWindowSnapshot.ts:50-68 | a later event, or one of another chain, never changes what a closed day's snapshot should be |
| `VolumeFlushRuns.FlushingKeepsTables` | indexer-envio/src/volumeWindowFlush.ts:63-139 | flushing never changes the rollup tables |
| `VolumeFlushRuns.WindowsAreRecomputed` | indexer-envio/src/volumeWindowFlush.ts:63-139 | in every run with a clock that does not run backwards the window rows are one per window and flushed day, and each equals, then and ever after, its recomputation from all accepted swaps at most 5, 28 or 88 days before the closed day (none for 24h, all for the unbounded window), first-day slice and shown start included |
| `VolumeStore.VolumeStore.DailyRowsWhere` | indexer-envio/src/volumeWindowFlush.ts:63-80 | the bounded fetch: each daily row of the chain from a day on, once, in some order |
| `VolumeStore.VolumeStore.AllTimeRowsWhere` | indexer-envio/src/volumeWindowFlush.ts:63-80 | each lifetime row of the chain, once, in some order |
| `VolumeStore.VolumeStore.FlushV3VolumeWindowSnapshots` | indexer-envio/src/volumeWindowFlush.ts:63-99 | writes one row per window for the day and touches no other row |
| `VolumeStore.VolumeStore.MaybeHeartbeatFlushV3` | indexer-envio/src/volumeWindowFlush.ts:105-139 | flushes every day closed since the cursor, moves the cursor, leaves the other venue's cursor alone |
| `VolumeStore.VolumeStore.MoveBrokerCursor` | indexer-envio/src/volumeWindowFlush.ts:227-261 | the broker heartbeat moves its own cursor on the shared row and keeps the pools' |
| `VolumeStore.VolumeStore.UpsertTraderDailySnapshot` | indexer-envio/src/volumeSnapshots.ts:327-367 | the trader-day row and whether this swap flags a trader seen earlier in the day |
| `VolumeStore.VolumeStore.UpsertPoolDailyVolumeSnapshot` | indexer-envio/src/volumeSnapshots.ts:431-473 | the whole pool-day table after the swap, corrections of other pools included |
| `VolumeStore.VolumeStore.CollectPoolPrimaryCorrections` | indexer-envio/src/volumeSnapshots.ts:475-530 | the corrections of all touched pools, with exactly the other pools' rows rewritten |
| `VolumeStore.VolumeStore.UpsertAggregatorDailySnapshot` | indexer-envio/src/volumeSnapshots.ts:564-620 | the whole aggregator-day table after the swap |
| `VolumeStore.VolumeStore.CollectAggregatorPrimaryCorrections` | indexer-envio/src/volumeSnapshots.ts:622-682 | the corrections of all touched aggregators, markers already flagged left out |
| `VolumeStore.VolumeStore.UpsertDailyRollups` | indexer-envio/src/volumeSnapshots.ts:169-205 | the six daily tables after one accepted swap |
| `VolumeStore.VolumeStore.ApplyVolumeSnapshots` | indexer-envio/src/volumeSnapshots.ts:141-213 | the whole store after one swap: daily tables, then the flush, then the lifetime rollup; blank-caller and zero-value swaps still run the heartbeat |
| `VolumeReplay.Replay` | indexer-envio/src/volumeSnapshots.ts:141-213 | feeding any events to a fresh store leaves tables, and in chronological runs window rows, equal to their recomputation |
| `AtLeastOnce.RepeatsChangeNothing` | indexer-envio/src/oracleFeedState.ts:80-127 | if no entry changes the state once it is in, a delivery with rewinds is at every moment in the state of the longest prefix reached |
| `AtLeastOnce.ExactlyOnce` | indexer-envio/src/oracleFeedState.ts:80-127 | such a delivery of the whole log ends in the state of delivering it once, and never fails |
| `OracleExpiry.BootstrapIsValid` | indexer-envio/src/oracleExpiryState.ts:67-100 | bootstrap fails exactly on a non-positive global or negative token value; else it stores both, the token value in force unless it is 0, and counts as new exactly what comes after the bootstrap block |
| `OracleExpiry.ApplyMeans` | indexer-envio/src/oracleExpiryState.ts:102-174 | a change is accepted exactly when it is valid and after both watermark and bootstrap, or repeats at the watermark what is stored; then the row is the one with that change made, or unchanged |
| `OracleExpiry.SameAgain` | indexer-envio/src/oracleExpiryState.ts:33-65 | a change just made is recognised when it comes again |
| `OracleExpiry.ConflictIsRefused` | indexer-envio/src/oracleExpiryState.ts:102-174 | a different change at the position of the watermark is refused as a conflict, not dropped as a repeat |
| `OracleExpiry.ExpiryExactlyOnce` | indexer-envio/src/oracleExpiryState.ts:57-65 | any delivery with rewinds of an increasing log never throws and ends in the row with exactly the changes past the starting row made, each once and in order, the effective expiry right and positive |
| `OracleFeed.CanonicalReports` | indexer-envio/src/oracleFeedState.ts:25-59 | fails exactly on unequal lengths, a non-positive timestamp or a repeated reporter, the first offending entry deciding the error; else lists the map of reports in reporter order |
| `OracleFeed.RebuildFeedState` | indexer-envio/src/oracleFeedState.ts:61-78 | the row rebuilt from the canonical lists, with their median and the new watermark |
| `OracleFeed.BootstrapOracleFeedState` | indexer-envio/src/oracleFeedState.ts:129-158 | a valid row that holds exactly the given reports, from the bootstrap block on |
| `OracleFeed.RebuiltIs` | indexer-envio/src/oracleFeedState.ts:61-78 | a row rebuilt from a map of positive reports is valid and holds exactly that map |
| `OracleFeed.ApplyOracleReport` | indexer-envio/src/oracleFeedState.ts:160-201 | equals the report transition on the map of reports, errors included |
| `OracleFeed.ApplyOracleReportRemoval` | indexer-envio/src/oracleFeedState.ts:203-232 | equals the removal transition on the map of reports, errors included |
| `OracleFeedRuns.ReportIsUpdate` | indexer-envio/src/oracleFeedState.ts:160-201 | a report is accepted exactly when it is new and positive, or an exact repeat at the watermark, and then is a map update |
| `OracleFeedRuns.RemovalIsRemoval` | indexer-envio/src/oracleFeedState.ts:203-232 | a removal is accepted exactly for an active reporter, and removes that one only |
| `OracleFeedRuns.ListsFollowFromMap` | indexer-envio/src/oracleFeedState.ts:25-78 | the stored lists and the median depend on the map of reports alone |
| `OracleFeedRuns.MedianIs` | indexer-envio/src/oracleFeedState.ts:19-23 | the median is the element at index floor(n/2) of any sorted arrangement, 0 for none |
| `OracleFeedRuns.NewestReportNeverLowersMedian` | indexer-envio/src/oracleFeedState.ts:160-201 | a report at least as recent as all current ones never lowers the median |
| `OracleFeedRuns.FeedExactlyOnce` | indexer-envio/src/oracleFeedState.ts:80-257 | any delivery with rewinds of reports, removals, expiries and median logs never throws and ends in the state of delivering the log once: the reports, the expiry and the watermark are those of the starting row with every entry new to it taken in, once and in order |
| `OracleFeedRuns.MedianClaimedOnce` | indexer-envio/src/handlers/oracleFeedState.ts:289-323 | a median log is claimed on its first delivery and refused on every later one |
| `OracleFeedRuns.ConflictIsRefused` | indexer-envio/src/oracleFeedState.ts:160-257 | a different report or expiry at the position of the watermark is refused as a conflict, not dropped as a repeat |
| `LogPositions.PositionMeans` | indexer-envio/src/oracleFeedState.ts:80-84 | a log is behind the watermark exactly if its block is earlier, or its index within the same block; at it exactly if both are equal |
| `Ordering.AddressIsLower` | indexer-envio/src/helpers.ts:18 | each capital letter of an address becomes its own small one, everything else stays |
| `TradingCalendar.WeekendOverlapSeconds` | indexer-envio/src/healthScore.ts:52-72 | the loop over weeks terminates and gives exactly the number of weekend seconds of the range, starts before the anchor included |
| `TradingCalendar.TradingSecondsInRange` | indexer-envio/src/healthScore.ts:78-81 | the number of non-weekend seconds of the range |
| `TradingCalendar.TradingSecondsLaws` | indexer-envio/src/healthScore.ts:78-81 | additive over adjacent ranges, monotone, never more than the wall clock |
| `TradingCalendar.WeekendDefinitionsAgree` | metrics-bridge/src/fx-market.ts:24-29 | the bridge's calendar predicate and the indexer's weekend arithmetic agree on every second |
| `TradingCalendar.GraceIsFirstHour` | metrics-bridge/src/fx-market.ts:31-34 | the reopen grace is exactly the first hour after a weekend |
| `HealthScore.RatioKeepsDecision` | indexer-envio/src/healthScore.ts:122-167 | the six-decimal ratio reads back as healthy exactly when the deviation is within 1% of the threshold, and is within a millionth of the true ratio |
| `HealthScore.UpdateHealthAccumulators` | indexer-envio/src/healthScore.ts:206-300 | adds the trading seconds since the cursor and, if the stored ratio was healthy, those of them at which there was a report that had not reached its expiry |
| `HealthScore.FreshCount` | indexer-envio/src/healthScore.ts:244-257 | the trading seconds up to the carry end are exactly the trading seconds before report time plus expiry, none without either |
| `HealthScore.RecordHealthSample` | indexer-envio/src/healthScore.ts:341-396 | a sample without data resets the ratio without counting; one with data accumulates |
| `HealthScore.PoolTable.UpdatePoolsOracleExpiry` | indexer-envio/src/rpc.ts:148-194 | exactly the listed pools with another expiry close their open interval under the old one and take the new one |
| `HealthRuns.CountersCountSeconds` | indexer-envio/src/healthScore.ts:206-396 | over any run of samples and expiry changes the two counters equal per-second counts: seconds with data at both ends of their interval, and those that started healthy and came before report time plus expiry, both in force |
| `HealthRuns.CountersAreOrdered` | indexer-envio/src/healthScore.ts:206-300 | healthy seconds never exceed total seconds, nor those the trading seconds elapsed |
| `HealthRuns.PastIsFixed` | indexer-envio/src/rpc.ts:148-194 | no later step, an expiry change least of all, re-scores a past second |
| `HealthRuns.StateFollows` | indexer-envio/src/healthScore.ts:206-396 | cursor, ratio, report time and expiry of a row are those the history puts in force |
| `HealthScore.ExpiryEventRepeats` | indexer-envio/src/rpc.ts:148-194 | the same expiry event again, at whatever time, changes no pool; and an event changes no pool at any time if and only if every listed pool has that expiry already |
| `Breakers.SyncRestores` | indexer-envio/src/breakers.ts:696-747 | if all flags were right and then one feed's configs and edges changed, and breakers were added, syncing that feed makes the flags of all pools on all feeds right again, dependency cycles or not |
| `Breakers.SyncIsIdempotent` | indexer-envio/src/breakers.ts:729-747 | syncing again changes nothing |
| `Breakers.RemovalUnhalts` | indexer-envio/src/breakers.ts:827-849 | removing a feed keeps all flags right, leaves the feed unhalted and keeps the edges of its dependents |
| `Breakers.BreakerRemovalRestores` | indexer-envio/src/handlers/breakerBox.ts:64-93 | removing a breaker and syncing the feeds it was enabled on keeps all flags right |
| `BreakerHydration.QuietReadsExactly` | indexer-envio/src/breakers.ts:72-169 | reads of missing rows without a sync keep all flags right if and only if no pool, not halted already, reads a feed for which they find a halt, as is known before the reads |
| `BreakerHydration.LoadingRestoresExactly` | indexer-envio/src/breakers.ts:954-1051 | reads with new edges and a sync of one feed do so if and only if no such pool lies outside that feed and its dependents |
| `BreakerHydration.LoadKeepsFlagsExactly` | indexer-envio/src/breakers.ts:954-1051 | the same for the whole dependency load, over the graph, the caches and the chain's answers before it; a load that does not go ahead changes no row |
| `BreakerHydration.LoadingRestoresWhenConfigured` | indexer-envio/src/breakers.ts:954-1051 | in particular when every config asked for was there already |
| `BreakerRuns.LoadingLeavesStale` | indexer-envio/src/breakers.ts:954-1022 | a concrete graph in which a pool on a third feed keeps an outdated flag |
| `Breakers.AssignmentIsRight` | indexer-envio/src/breakers.ts:755-775 | a first assignment of a feed gives the right flag; a reassignment if and only if both feeds are halted alike |
| `BreakerEvents.ConfigChangeIsRightExactly` | indexer-envio/src/breakers.ts:599-684 | a per-feed config event keeps all flags right if and only if it does not read, unseen by a pool that would have to show it, that the feed is tripped |
| `BreakerEvents.EventIsRightExactly` | indexer-envio/src/handlers/breakerBox.ts:42-388 | every event of the breaker box, the breakers, the oracle and the pools keeps all flags right exactly unless it meets its breaking condition, which is known before it |
| `BreakerRuns.AlwaysRightExactly` | indexer-envio/src/handlers/breakerBox.ts:42-388 | a run of any such events keeps every pool's flag equal to its feed's halt at every moment if and only if no event meets its breaking condition when it comes |
| `BreakerRuns.RowsAlwaysSound` | indexer-envio/src/breakers.ts:459-494 | in every run each config has its breaker's row, and its cooldown end follows from its status time and the effective cooldown |
| `BreakerRuns.NoRepairOnceConfigured` | indexer-envio/src/handlers/sortedOracles.ts:496-511 | a feed that has a config is not cold-started again, so once its dependencies are done its oracle events repair nothing |
| `BreakerRuns.CooldownLeavesStale` | indexer-envio/src/breakers.ts:599-643 | a concrete run in which a cooldown event leaves a flag wrong and a later oracle event does not help |
| `BreakerHandlers.Replay` | indexer-envio/src/handlers/breakerBox.ts:42-388 | feeding any events to a fresh store leaves sound rows, and right flags if no event met its breaking condition |
| `BreakerHandlers.Handle` | indexer-envio/src/handlers/breakerBox.ts:42-388 | each handler does to the store what its event says, rows, flags and caches, and keeps names in lower case |
| `BreakerMeanings.TripMeans` | indexer-envio/src/handlers/breakerBox.ts:202-274 | with both rows there or read, a trip leaves the config tripped, in the breaker's mode, stamped with the block time and its cooldown, and nothing else of it changed; if it is enabled and of no trading-hours breaker, every non-virtual pool on the feed or a direct dependent is flagged; no other pool changes |
| `BreakerMeanings.ResetMeans` | indexer-envio/src/handlers/breakerBox.ts:279-325 | a reset leaves the config in mode 0 and not tripped; the pools on the feed and its dependents are flagged exactly if another enabled, tripped config that is not of a trading-hours breaker still halts them |
| `BreakerMeanings.StatusMeans` | indexer-envio/src/handlers/breakerBox.ts:99-143 | enabling or disabling changes nothing else of the config, and the flags follow from it and the other configs |
| `BreakerMeanings.UnknownMeans` | indexer-envio/src/handlers/breakerBox.ts:99-325 | if the rows are missing even after reading, such an event changes nothing but what was read |
| `BreakerMeanings.OverrideMeans` | indexer-envio/src/handlers/breakerBox.ts:333-388 | an override sets exactly the feed's enabled configs in another mode: tripped unless the mode is 0, stamped with the block time and its cooldown; the flags follow |
| `BreakerMeanings.DefaultMeans` | indexer-envio/src/breakers.ts:543-597 | a new default is stored on its breaker; a cooldown moves the ends of exactly the configs that inherit it, which follow from it; nothing else changes and no flag moves |
| `BreakerMeanings.SettingMeans` | indexer-envio/src/breakers.ts:599-690 | a feed's own cooldown or threshold is stored, the end of the cooldown follows from it, and nothing else changes |
| `BreakerMeanings.RemovalsMean` | indexer-envio/src/breakers.ts:827-868 | removing a breaker disables exactly its configs and marks its row; removing a feed disables exactly its configs and drops exactly its own dependencies |
| `BreakerMeanings.PoolsMean` | indexer-envio/src/breakers.ts:755-773 | a new pool has no feed and no flag; only the first feed of a non-virtual pool sets the flag, to whether a config of the feed or a direct dependency halts it |
| `BreakerMeanings.ReadMeans` | indexer-envio/src/breakers.ts:121-196 | a config read from the chain says what the chain answers, is tripped exactly in a mode other than 0 and ends its cooldown accordingly |
| `BreakerMeanings.OracleMeans` | indexer-envio/src/breakers.ts:790-825 | an oracle event changes nothing for a feed without pools; a feed with pools and without any config is bootstrapped and synced; then the dependencies load |
| `BreakerMeanings.LoadMeans` | indexer-envio/src/breakers.ts:921-1030 | a load goes ahead if forced, or neither done nor backing off, and if the chain answers; then the feed's dependencies are exactly those answered and its pools are synced |
| `BreakerHandlers.OnBreakerRemoved` | indexer-envio/src/handlers/breakerBox.ts:64-93 | marks the breaker, disables all its configs and syncs each feed it was enabled on |
| `BreakerHandlers.OnTradingModeUpdated` | indexer-envio/src/handlers/breakerBox.ts:333-388 | bootstraps the feed, overrides exactly its enabled configs in another mode, and syncs |
| `BreakerHandlers.OnOracleUpdated` | indexer-envio/src/handlers/sortedOracles.ts:449-511 | a feed with pools but no config is bootstrapped and synced, then its dependencies are loaded |
| `Breakers.EmaIsConvex` | indexer-envio/src/breakers.ts:501-511 | the average lies between the median and its old value |
| `Breakers.EmaIs` | indexer-envio/src/breakers.ts:501-511 | the new average is the median weighted with the smoothing factor plus the old one weighted with the rest, in 24 decimals, cut toward zero; unseeded it is the median |
| `Breakers.SeededStaysSeeded` | indexer-envio/src/breakers.ts:501-511 | once seeded by positive medians the average never returns to the unseeded 0 |
| `BreakerHandlers.BreakerTrippedOnFeedAssign` | indexer-envio/src/breakers.ts:755-775 | the feed's halt on a first assignment to a pool that is not virtual, else the flag as it was |
| `BreakerStore.BreakerStore.ComputeOwnFeedHalted` | indexer-envio/src/breakers.ts:870-887 | true exactly if some enabled, tripped config of a known breaker other than a trading-hours one belongs to the feed |
| `BreakerStore.BreakerStore.ComputeFeedHalted` | indexer-envio/src/breakers.ts:696-721 | own halt or that of some direct dependency on the chain |
| `BreakerStore.BreakerStore.RecomputeFeedPools` | indexer-envio/src/breakers.ts:893-907 | exactly the feed's non-virtual pools get the feed's halt |
| `BreakerStore.BreakerStore.SyncPoolsBreakerHalt` | indexer-envio/src/breakers.ts:729-747 | exactly the pools of the feed and of its dependents are recomputed |
| `BreakerStore.BreakerStore.ClearHaltOnFeedRemoved` | indexer-envio/src/breakers.ts:827-849 | disables the configs, drops the feed's own edges, and leaves all flags right and the feed unhalted |
| `BreakerStore.BreakerStore.ReconcileDependencyEdges` | indexer-envio/src/breakers.ts:921-946 | replaces the feed's edges by the wanted set and keeps all others, those of other chains included |
| `BreakerStore.BreakerStore.EnsureBreaker` | indexer-envio/src/breakers.ts:72-116 | keeps an existing row, else stores what the chain answers, else nothing |
| `BreakerStore.BreakerStore.EnsureBreakerConfig` | indexer-envio/src/breakers.ts:121-169 | the same for a feed's config, with its cooldown end derived |
| `BreakerStore.BreakerStore.BootstrapFeedBreakerConfigs` | indexer-envio/src/breakers.ts:214-286 | graph, caches and answer after a bootstrap, whatever the caches held and the chain answered |
| `BreakerHydration.BootstrapIsDoneExactly` | indexer-envio/src/breakers.ts:214-286 | a feed that is tried is done, and listed as done, exactly when every registered breaker then has its config; otherwise it may be tried again exactly from the end of the backoff on |
| `BreakerHydration.ReadList` | indexer-envio/src/breakers.ts:255-275 | reading a list of breakers only adds rows, each as the chain answers it, and configures every answered one |
| `BreakerHydration.ListConfigured` | indexer-envio/src/breakers.ts:255-275 | it configures all of them exactly if all were answered |
| `BreakerStore.BreakerStore.LoadFeedDependencies` | indexer-envio/src/breakers.ts:954-1022 | edges, rows, caches and answer after a load, forced or not, whatever the caches held and the chain answered |
| `BreakerHydration.LoadIsCachedExactly` | indexer-envio/src/breakers.ts:954-1022 | a load is listed as done exactly when every dependency was bootstrapped in its turn |
| `BreakerStore.BreakerStore.SyncDependencyHaltOnColdStart` | indexer-envio/src/breakers.ts:1032-1051 | loads and syncs only for a feed with pools; right flags stay right if and only if the load breaks none, as is known before it |
| `BreakerStore.BreakerStore.HandleDefaultCooldownTimeUpdated` | indexer-envio/src/breakers.ts:543-570 | with the breaker read if it is missing: its default changes, and exactly the inheriting configs get a new cooldown end |
| `BreakerStore.BreakerStore.HandleDefaultRateChangeThresholdUpdated` | indexer-envio/src/breakers.ts:572-597 | likewise for the default threshold, which no config copies |
| `BreakerStore.BreakerStore.RefreshAllInheritingCooldowns` | indexer-envio/src/breakers.ts:476-494 | exactly the inheriting configs of the breaker are refreshed |
| `BreakerStore.BreakerStore.HandleRateFeedCooldownTimeUpdated` | indexer-envio/src/breakers.ts:599-643 | with both rows read if they are missing: stores the override even where the effective cooldown does not move, derives the cooldown end, and keeps the flags right exactly unless it breaks one |
| `BreakerStore.BreakerStore.HandleRateChangeThresholdUpdated` | indexer-envio/src/breakers.ts:645-684 | likewise for the threshold |
| `BreakerStore.BreakerStore.RefreshCooldownEndsAt` | indexer-envio/src/breakers.ts:459-471 | the config's cooldown end becomes that of the effective cooldown |
| `BreakerStore.BootstrapCaches.MarkBootstrapAttempted` | indexer-envio/src/breakers.ts:310-325 | first in, first out at 1024 entries, the evicted entry losing its backoff too |
| `BreakerHydration.MarkedIsBounded` | indexer-envio/src/breakers.ts:310-325 | marking keeps the caches bounded, free of repetition and in step, and lists the key |
| `BreakerStore.BootstrapCaches.SetBootstrapBackoff` | indexer-envio/src/breakers.ts:291-304 | the backoff map stays within 1024 entries by dropping the oldest |
| `BreakerHydration.BackedIsBounded` | indexer-envio/src/breakers.ts:291-304 | backing off keeps the caches bounded and in step, and holds until the given time |
| `DeviationBreach.BreachTable.GetOpenBreach` | indexer-envio/src/deviationBreach.ts:110-123 | an open row of the pool with that start if there is one, else none |
| `DeviationBreach.BreachTable.RecordBreachTransition` | indexer-envio/src/deviationBreach.ts:175-371 | rows and pool counters after any transition: opened, continued, closed or nothing, missing rows included |
| `DeviationBreach.AnchorRuleIsDisciplined` | indexer-envio/src/pool/health.ts:268-307 | the anchor rule is disciplined if and only if no held breach rises again at another time |
| `DeviationBreach.AnchorRuleMeans` | indexer-envio/src/pool/health.ts:268-307 | an anchor is set exactly while the pool is more than 1% over its threshold, or back within it by a reserves update alone; it is the old anchor unless the pool has only now left tolerance |
| `DeviationBreach.ClassifyMeans` | indexer-envio/src/deviationBreach.ts:58-91 | which event sources make which cause; every other source is unknown |
| `BreachRuns.LedgerConserves` | indexer-envio/src/deviationBreach.ts:175-371 | after any disciplined run: one row per breach, at most one open and that exactly while the anchor is positive, and the pool's counters equal the sums and the number of closed rows |
| `BreachRuns.RowOfUpdates` | indexer-envio/src/deviationBreach.ts:125-173 | a row's peak is the first maximum of its updates, its rebalance count their number, its cause that of the first update with a known one |
| `BreachRuns.OpenBreachIsAnchor` | indexer-envio/src/deviationBreach.ts:110-123 | the open breach is the only one and began at the anchor |
| `BreachRuns.CriticalWithinBreach` | indexer-envio/src/deviationBreach.ts:219-299 | a closed row is never credited more critical seconds than seconds, nor more than elapsed |
| `DeviationBreach.CriticalSecondsAre` | indexer-envio/src/deviationBreach.ts:219-299 | the critical seconds of a closed row are the trading seconds from one hour after its start to its end if its peak was more than 5% over the entry threshold (100% if none was stored), else none |
| `BreachRuns.CriticalTotalWithinBreachTotal` | indexer-envio/src/deviationBreach.ts:219-299 | nor is the pool in total |
| `BreachRuns.RowIsAlwaysFound` | indexer-envio/src/deviationBreach.ts:219-326 | in a disciplined run the branches for a missing row are never reached |
| `BreachRuns.MovedAnchorLeavesTwoOpen` | indexer-envio/src/pool/health.ts:268-307 | a concrete run under the anchor rule itself that leaves two rows open |
| `BreachAnchors.LedgerRightExactly` | indexer-envio/src/pool/health.ts:268-307 | after any run under the anchor rule the ledger is right (one open row at most, exactly while the anchor is positive and starting at it, counters equal to the closed rows) if and only if no step moved the anchor |
| `BreachAnchors.MoveIsForever` | indexer-envio/src/pool/health.ts:268-307 | once the anchor has moved, in every continuation an open row is left that the anchor does not name |
| `BreachAnchors.AfterTheMove` | indexer-envio/src/deviationBreach.ts:219-326 | the event after the move: if the breach goes on a second row opens, if it ends it is counted although no row is closed |
| `BreachReplay.AnyPickIsPick` | indexer-envio/src/deviationBreach.ts:110-123 | whichever open row the lookup finds, it is the only one |
| `BreachReplay.Replay` | indexer-envio/src/deviationBreach.ts:175-371 | however the updates of many pools interleave, the one table holds exactly each pool's own ledger |
| `FeeSnapshot.MergeIsSound` | indexer-envio/src/protocolFeeSnapshot.ts:178-334 | every merge keeps the four lists parallel with distinct tokens, the unresolved count, the pegged flag and the value those of the slots |
| `FeeSnapshot.Confluence` | indexer-envio/src/protocolFeeSnapshot.ts:98-334 | once every slot has resolved, the row is exactly that of the run in which every symbol was known from the start |
| `FeeSnapshot.PricingIsAdditive` | indexer-envio/src/usd.ts:252-258 | pricing any sum is summing the prices if and only if the symbol is not pegged or has at most 18 decimals |
| `FeeSnapshot.PricesInDollars` | indexer-envio/src/usd.ts:252-351 | a pegged amount is worth its whole number of 10^-18 dollars, exactly so up to 18 decimals; any other token is worth 0 |
| `FeeSnapshot.ConfluenceExactly` | indexer-envio/src/protocolFeeSnapshot.ts:98-334 | the time of resolution never matters, in any run of adds and heals that resolves every slot, if and only if no pegged token has more than 18 decimals |
| `FeeSnapshot.TruncationBreaksConfluence` | indexer-envio/src/usd.ts:252-258 | for every pegged symbol and every number of decimals above 18: a run whose value is 1 if the symbol comes late and 0 if it was known |
| `FeeTransfers.SnapshotAddsUp` | indexer-envio/src/protocolFeeSnapshot.ts:178-334 | for any adds and heals at all: one slot for each token transferred, holding exactly all that was transferred of it, and a count of the transfers |
| `FeeTransfers.ValueIsDollars` | indexer-envio/src/protocolFeeSnapshot.ts:178-334 | at every moment the value is the sum over all transfers so far of the tokens resolved by now of amount * 10^18 / 10^decimals for pegged symbols, 0 for others |
| `LiquidityStrategies.FallbackIsUnique` | indexer-envio/src/liquidityStrategies.ts:34-51 | the fallback is determined by the rows |
| `LiquidityStrategies.RowsRemember` | indexer-envio/src/liquidityStrategies.ts:18-32 | no transition forgets a strategy, when it was added, or a kind once known |
| `LiquidityStrategies.RowOfChanges` | indexer-envio/src/liquidityStrategies.ts:62-120 | after any changes the row of a strategy says when its first and its last change came, the activity of the last, and the latest kind that a change named or the address book knew |
| `LiquidityStrategies.StrategyStore.FallbackLegacyRebalancer` | indexer-envio/src/liquidityStrategies.ts:34-51 | the remaining active strategy that was updated last, the lowest address among equals, or none |
| `LiquidityStrategies.StrategyStore.SyncPoolLiquidityStrategy` | indexer-envio/src/liquidityStrategies.ts:62-120 | the strategy row, the pool's pointer and its stamps after one transition; other pools untouched |
| `LiquidityStrategies.PointerStep` | indexer-envio/src/liquidityStrategies.ts:62-120 | one transition keeps the pointer invariant of every pool |
| `LiquidityStrategies.Replay` | indexer-envio/src/liquidityStrategies.ts:34-120 | after any transitions in block order the rows are those of the changes, and a pool's pointer is empty exactly when no strategy is active, and otherwise names an active one updated last |
| `AlertState.AlertTracker.ObserveDeviationAlertState` | metrics-bridge/src/deviation-alert-state.ts:399-444 | the tracker's maps and the transitions reported by one poll |
| `AlertRuns.ClassifiedMeans` | metrics-bridge/src/deviation-alert-state.ts:120-167 | in terms of the fields of a poll: there is a critical signal exactly outside the FX weekend, in an active breach whose ratio is missing, or above 1.01 with the ratio or the peak over the entry threshold above 1.05; and when exactly each unescalated state occurs |
| `AlertState.AlertTracker.PruneRecentTransitions` | metrics-bridge/src/deviation-alert-state.ts:370-376 | exactly the transitions past their display time go |
| `AlertState.AlertTracker.PruneDeviationAlertStates` | metrics-bridge/src/deviation-alert-state.ts:446-453 | exactly the inactive pools go, from both maps |
| `AlertRuns.LastReopenIsReopening` | metrics-bridge/src/deviation-alert-state.ts:266-279 | the last reopening is the first second after a weekend, not later than now and less than a week ago |
| `AlertRuns.Replay` | metrics-bridge/src/deviation-alert-state.ts:399-453 | polls and prunes fed to a fresh tracker leave the maps that the other results are about |
| `AlertRuns.SnapshotsAreOwn` | metrics-bridge/src/deviation-alert-state.ts:399-453 | a pool's stored state is that of its own polls since it was last pruned, whatever happens to other pools |
| `AlertRuns.PollsAreOrdered` | metrics-bridge/src/deviation-alert-state.ts:399-453 | under a clock that does not run backwards those polls are in order |
| `AlertRuns.CriticalMeans` | metrics-bridge/src/deviation-alert-state.ts:204-335 | a state is critical if and only if the breach is active and older than 3660 s and such a signal is present and was noted more than 60 s ago; it was then in every poll since; entry times never exceed now |
| `AlertRuns.CriticalPersists` | metrics-bridge/src/deviation-alert-state.ts:232-335 | once critical it stays so while a signal and the same breach start persist, even if the kind of signal changes |
| `AlertRuns.SteadySignalFires` | metrics-bridge/src/deviation-alert-state.ts:232-335 | a signal of one kind in every poll for more than 60 s fires once the breach is older than 3660 s |
| `AlertRuns.NoAlertOnWeekend` | metrics-bridge/src/deviation-alert-state.ts:120-167 | no alert of an FX pair is active while its market is closed |
| `AlertRuns.EntryMeans` | metrics-bridge/src/deviation-alert-state.ts:281-335 | for any polls of a pool, the entry time is that of a poll (for the first poll possibly the persisted start) since which the pool has stayed in one family of states: warning with critical, or the two unavailable ones, or a single other state |
| `AlertRuns.WarningEntryExactly` | metrics-bridge/src/deviation-alert-state.ts:296-335 | a warning's entry time is the start of its own stretch of polls if and only if it did not take over from a critical state whose signal stayed, or the time inherited from it is that very second |
| `AlertRuns.WarningEntryByClock` | metrics-bridge/src/deviation-alert-state.ts:296-335 | when the clock advances from poll to poll, if and only if it did not take over |
| `AlertRuns.InheritedEntry` | metrics-bridge/src/deviation-alert-state.ts:296-397 | polls after which the recovery from a warning of thirty seconds is recorded |
| `AlertRuns.RecordedTransitions` | metrics-bridge/src/deviation-alert-state.ts:204-397 | what a recorded transition says about the polls before it: the state left was critical, a critical signal noted more than 60 s earlier and in every poll since, or a warning whose family was entered at least 900 s ago, and the warning itself too unless it took over from a critical state; and its reason, start and duration |
| `AlertRuns.RecordedExactly` | metrics-bridge/src/deviation-alert-state.ts:337-368 | recorded is exactly every change out of a critical state or out of a warning entered at least 900 s ago, except into a state without data from one that had a ratio |
| `AlertRuns.FirstEntryMeans` | metrics-bridge/src/deviation-alert-state.ts:281-294 | a first poll that is a warning in an active breach is taken to have begun with the breach, for FX pairs no earlier than the last reopening; any other begins now |
| `AlertRuns.RecentMeans` | metrics-bridge/src/deviation-alert-state.ts:399-453 | every transition on display, after any polls and prunes of any pools, was recorded at a poll of its own pool and is explained in that way by the pool's polls before it |
| `AlertRuns.RecentAreRecent` | metrics-bridge/src/deviation-alert-state.ts:370-376 | after a poll every transition still shown ended at most 180 s ago |
| `Semaphore.NewSemaphore` | aegis/src/async-semaphore.ts:5-9 | a limit below one is refused; else a semaphore with all slots free |
| `Semaphore.AsyncSemaphore.Acquire` | aegis/src/async-semaphore.ts:20-27 | takes a free slot or joins the end of the queue |
| `Semaphore.AsyncSemaphore.Release` | aegis/src/async-semaphore.ts:29-37 | hands the slot to the first in the queue, or gives it back |
| `Semaphore.AlwaysSafe` | aegis/src/async-semaphore.ts:11-37 | under every interleaving the slot holders are as many as the active count, never above the limit, nobody waits while a slot is free, and slots are granted in the order of the calls |
| `Semaphore.NoSlotIsLost` | aegis/src/async-semaphore.ts:11-37 | when every task has settled, failed ones included, no slot is held and nobody waits |
| `Semaphore.SomebodyCanMove` | aegis/src/async-semaphore.ts:11-37 | as long as a task is unfinished some task can move |
| `WorkerPool.RunPool` | metrics-bridge/src/rebalance-probe.ts:225-251 | the pool's steps played one after another end in the state that the results below are about |
| `WorkerPool.AlwaysFaithful` | metrics-bridge/src/rebalance-probe.ts:225-251 | under every interleaving no index is claimed twice, none is lost unless a call throws, and a filled slot holds its own item's result |
| `WorkerPool.NeverTooManyCalls` | integration-probes/src/runner.ts:360-381 | indices are claimed in order and at most min(concurrency, n) calls are in flight |
| `WorkerPool.ResultsInOrder` | integration-probes/src/runner.ts:360-381 | when all workers have stopped slot i holds the result for item i |
| `WorkerPool.CounterMeans` | integration-probes/src/runner.ts:360-381 | the shared counter is the number of items taken, or in the variant that moves it first the number of attempts to take one |
| `WorkerPool.EveryStepCounts` | integration-probes/src/runner.ts:360-381 | every step lowers a bound, so the pool cannot run forever |
| `RebalanceProbe.StrategiesForPool` | metrics-bridge/src/rebalance-probe.ts:125-147 | one row per strategy address, the first one seen, in address order |
| `RebalanceProbe.StrategyListUnique` | metrics-bridge/src/rebalance-probe.ts:125-147 | that list is determined by the rows |
| `RebalanceProbe.EligibleForProbe` | metrics-bridge/src/rebalance-probe.ts:90-117 | exactly the pools deep in an open breach with some strategy, in order |
| `RebalanceProbe.EligibleMeans` | metrics-bridge/src/rebalance-probe.ts:90-147 | in terms of the fields of a pool: not virtual, an open breach with a ratio above 1.01, the ratio or the peak over the entry threshold above 1.05, and a strategy in the registry or, while that is unavailable, the legacy pointer |
| `RebalanceProbe.SomeStrategy` | metrics-bridge/src/rebalance-probe.ts:125-147 | the strategies to probe are those of the registry, even if it is empty; only while it is unavailable the legacy pointer |
| `RebalanceProbe.BuildTargets` | metrics-bridge/src/rebalance-probe.ts:292-294 | each eligible pool's strategies in order, pool after pool |
| `RebalanceProbe.PoolGivesResults` | metrics-bridge/src/rebalance-probe.ts:225-251 | a finished worker-pool run gives each target its own result |
| `RebalanceProbe.RunRebalanceProbes` | metrics-bridge/src/rebalance-probe.ts:265-324 | one whole cycle over all pools, whatever the order in which the workers take and finish probes: the gauge holds exactly the eligible pools whose every strategy is blocked, labelled by the lowest address |
| `RebalanceProbe.FlagBlockedPools` | metrics-bridge/src/rebalance-probe.ts:301-350 | the offset regrouping gives every pool its own strategies' results: the gauge holds exactly the eligible pools whose every strategy was blocked, labelled by the lowest address |
| `QuoteRunner.ConsumeQuoteAttempt` | integration-probes/src/adapterRunner.ts:339-346 | succeeds always without a budget, else exactly while something remains, and never goes below zero |
| `QuoteRunner.FetchAndEvaluateAttempt` | integration-probes/src/adapterRunner.ts:194-226 | follow-up requests draw on the same budget and stop at the first refusal; the last one covered decides |
| `QuoteRunner.FetchAndEvaluate` | integration-probes/src/adapterRunner.ts:85-153 | plays the queue in order, extended by failures, and ends with the exhausted budget, the attempt that ended the loop, or after a full queue the latest attempt of highest priority; with a budget it always ends |
| `QuoteRunner.PlaySpends` | integration-probes/src/adapterRunner.ts:85-153 | at every moment attempts, follow-ups and what is left add up to the budget, if there is one |
| `QuoteRunner.ResultIsDetermined` | integration-probes/src/adapterRunner.ts:85-153 | requests, service and budget determine when the loop stops and with what |
| `QuoteRunner.BestGrows` | integration-probes/src/adapterRunner.ts:296-325 | the running fallback is always the latest attempt of highest priority |
| `QuoteRunner.PriorityMeans` | integration-probes/src/adapterRunner.ts:306-325 | which failure outranks which |
| `QuoteRunner.ProbeAdapterPairs` | integration-probes/src/runner.ts:224-273 | the pairs of all chains run one after another on one budget, or on none, each with the result of its own run or its precheck |
| `QuoteRunner.BudgetIsConserved` | integration-probes/src/runner.ts:224-266 | what all pairs spend and what remains add up to the initial budget |
| `QuoteRunner.ResultsAreDetermined` | integration-probes/src/runner.ts:224-266 | pairs, services and budget determine all results and what remains |
| `QuoteRunner.ChainPasses` | integration-probes/src/adapterRunner.ts:49-60 | a chain passes exactly when it has pairs and all pass |
| `QuoteRunner.ChainStatusMeans` | integration-probes/src/adapterRunner.ts:49-60 | the status of a chain for every combination of its pairs' results |
| `QuoteRunner.PairOrderDoesNotMatter` | integration-probes/src/adapterRunner.ts:49-60 | the chain's status does not depend on the order of its pairs |
| `DecimalStrings.ParseMeans` | integration-probes/src/amounts.ts:1-15 | an accepted amount is parsed to the number its digits say, in the token's units, or refused for too many decimal places |
| `DecimalStrings.SpaceMeans` | integration-probes/src/amounts.ts:1-15 | which characters are trimmed |
| `DecimalStrings.RoundTrip` | integration-probes/src/squidLiquidity.ts:169-175 | printing raw units and parsing them again gives them back, for all units and decimals |
| `DecimalStrings.ProductParsed` | integration-probes/src/adapterRequests.ts:403-415 | a product's digits are exact, but read with as many decimal places as the fraction had characters, spaces included |
| `DecimalStrings.MultiplyIsRightExactly` | integration-probes/src/adapterRequests.ts:403-415 | parsing the product gives the multiple if and only if there is no fraction, or no trailing space, or the product is zero |
| `DecimalStrings.MultipliedStaysConsistent` | integration-probes/src/adapterRequests.ts:393-401 | the decimal and raw fields of a multiplied amount stay equal in value under exactly that condition |
| `DecimalStrings.PrintedAmountsScale` | integration-probes/src/adapterRequests.ts:393-415 | amounts the probes print themselves always scale correctly |
| `DecimalStrings.SpaceShiftsPoint` | integration-probes/src/adapterRequests.ts:403-415 | one and a half followed by a space does not survive times one |
| `PriceDifference.ScalingFactorToDecimals` | indexer-envio/src/priceDifference.ts:31-40 | d exactly on the d-th power of ten, nothing otherwise |
| `PriceDifference.WithinTwoBps` | indexer-envio/src/priceDifference.ts:170-178 | truncating twice costs less than two basis points once the reference is at least 10^4 |
| `PriceDifference.NormalizesTo18` | indexer-envio/src/priceDifference.ts:20-27 | an amount in 18 decimals is exact up to 18 decimals and cut to a whole number above |
| `PriceDifference.ComparisonMeans` | indexer-envio/src/priceDifference.ts:146-196 | there is a comparison exactly with a price and two reserves that normalise to something, else the difference is 0 and the threshold the one above; the reference is the price, or the whole part of its inverse |
| `PriceDifference.DifferenceIsAccurate` | indexer-envio/src/priceDifference.ts:146-178 | the computed difference is within two basis points of the exact rational |
| `PriceDifference.ReferenceBounds` | indexer-envio/src/priceDifference.ts:146-178 | which prices give such a reference, and that the division by zero happens exactly for inverted prices above 10^48 |
| `PriceDifference.ThresholdSide` | indexer-envio/src/priceDifference.ts:189-196 | the threshold is that of the side on which the exact reserve ratio lies above the reference by a whole unit of the scale; all else counts as below |
| `PriceDifference.DegenerateIsSymmetric` | indexer-envio/src/priceDifference.ts:112-144 | one-sided is exactly: one reserve empty and not the other, or one worth more than 10000 times the other; the order of the tokens does not matter |
| `PriceDifference.ScaleInvariant` | indexer-envio/src/priceDifference.ts:121-196 | with at most 18 decimals difference, active threshold and degeneracy do not change when both reserves scale alike |
| `PriceDifference.ScaleInvariantExactly` | indexer-envio/src/priceDifference.ts:121-196 | for each pair of decimals, difference, active threshold and degeneracy are each invariant for all reserves, prices and factors if and only if both are at most 18 |
| `PriceDifference.ScaleMattersAbove18` | indexer-envio/src/priceDifference.ts:20-27 | for every pair with one above 18: reserves, price and factor for which the difference and every pair of distinct thresholds change |
| `PriceDifference.DegeneracyMattersAbove18` | indexer-envio/src/priceDifference.ts:131-144 | likewise reserves and a factor for which degeneracy changes |

## Left out

Outside the model:

- RPC reads, Hasura, HTTP, gauges, webhooks and logging: answers of the chain and of quote services are arbitrary inputs that may be missing.
- Preload passes, string row ids (tuples here) and address-namespace lookups.
- The classification of aggregators and protocol actors, and the dollar value of a swap (`pickPeggedSide`, `computeSwapUsdWei`): each is an input per swap. Handlers lower-case the caller before a swap reaches the tables; the model requires it.
- The daily rollups and window rows of broker swaps: same code on other tables. Only what their heartbeat does to the shared cursor row is modelled.
- Floating point: ratios are exact integers in millionths.
- String order is code-point order; the original's is by UTF-16 unit, or by locale for strategy addresses. On lower-case hexadecimal addresses these agree.
- The first delivery of a feed event, which bootstraps the row from the chain: the bootstrap itself is modelled, its scheduling is not. After a report removal the handlers also close a health interval; as a step of the pool that is a sample of `HealthRuns`.
- Baselines and thresholds on oracle snapshots (`resolveBreakerSnapshotFields`), and the columns of configs and breakers that no halt or cooldown reads: of the events that set them only the rows they read are modelled. Replayed oracle reports, which the handlers drop, are not events of a run.
- `tryDeriveRebalanceState`, `scaleRpcRebalanceState`, `parseDecimalsPair` and effectiveness ratios: guards and pairings around the modelled arithmetic.
- `amountSeeds`, `dedupeAndSortSeeds`, `limitDiscoveryAmounts` and the request pacer: they choose which amounts are quoted and when; no result here depends on the choice.
- Skipping a probe cycle while another one runs, label formatting, and the sets of gauges other than the blocked one.
- Exceptions while quote requests are built.

Stated weaker, or under an assumption:

- BreachRuns.LedgerConserves: assumes the anchor discipline; `BreachAnchors.LedgerRightExactly` says exactly what runs under the anchor rule itself come to.
- VolumeFlushRuns.WindowsAreRecomputed: a row's block and time stamps are those of the event that closed its day, and days before the first event past day one are not flushed, because 0 means never flushed.
- VolumeRuns.TablesAgree: the block and time stamps of pool-days are not part of the recomputation, because a correction restamps other pools' rows.
- VolumeRuns.OrderDoesNotMatter: leaves out what names the latest swap (an aggregator's last seen address, stamps).
- OracleFeedRuns.FeedExactlyOnce: assumes what the chain guarantees of the entries the row does not reflect yet: positive report times, and removals of active reporters only.
- HealthRuns.CountersCountSeconds: an expiry change is an interval boundary that carries the ratio in force, so seconds before it count even if the next sample has no data.
- VolumeStore.VolumeStore.MoveBrokerCursor: does not model the window rows of broker swaps, which are flushed from tables of their own by the same steps.
- QuoteRunner.FetchAndEvaluate: without a budget the original may never end; the result then holds for services under which it does. The answers of the service are functions of the attempt's number and request, which leaves them arbitrary, as each number comes once.
- DecimalStrings.MultiplyIsRightExactly: only plain digits are read as integers; other notations the original's integer parser takes (hexadecimal, signs inside) are refused here.
- WorkerPool.AlwaysFaithful: after a call throws, the item it held stays unfilled and its worker is gone; nothing is claimed about the caller's rejected promise.
