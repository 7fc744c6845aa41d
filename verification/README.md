# Stream and batch engines, verified

This project models the stateful engines of the market-data backend in Dafny and proves what they
keep over whole runs. It covers the 1 Hz bid/ask sampler, the minute bars, the database sinks, the
index-contribution engine and its worker, the latest-state cache, the historical backfill, the rate
limiter, the k-bar statistics, the email outbox, the quote features, and the retention search over
heap snapshots.

`dafny verify dfyconfig.toml` checks everything.

## How it is built

Code that changes state step by step is a class or a loop here too. Each method is proved against a
function on plain values (`Apply`, `Flush`, `EmitUpTo`, `Handle`, ...); the theorems are about runs of
those functions. A class named after a class of the program has its fields; the records returned by
`State()` are their values.

Beside the theorems about runs, lemmas such as `HandlingReads`, `ChunkByTheClock` or `PointsAreWorth` say what
one step means in prices, clocks and rows, without the functions that compute it.

External calls never appear. Redis, the database, the provider and the vendor are maps, sequences and
parameters, and every failure is a parameter as well (`Fate`, `Outcome`, `Dispatching`, `persistOk`,
...), so a theorem over all runs is a theorem over all failure patterns. Times are integers, in
microseconds where the clock face matters; prices and volumes are reals; contribution points are reals
with the six-decimal rounding written out. Sessions behave as `app/db/session.py` configures them,
without autoflush: a query does not see rows that were added and not yet flushed.

| files | what they hold |
|---|---|
| `Wrappers`, `RealArithmetic`, `TextOrder`, `TaipeiTime` | shared values and arithmetic, string order, trade dates |
| `BidAskSampler`, `BidAskTheorems`, `BidAskDayStats` | the sampler; its output against the log of updates; day extremes and deltas |
| `TickBars`, `TickTheorems` | minute bars against batch grouping |
| `DbSink`, `Persistence`, `SinkTables` | the retry and dead-letter protocol; what a batch does to a table; both together over every run |
| `IndexContribution`, `ContributionTheorems`, `ContributionRanking`, `ContributionRunner` | sector totals, convergence, rankings, the worker |
| `LatestState`, `LatestStateTheorems`, `LatestStateDelivery`, `SpotDistribution` | the write-back cache, what it applies, stores and acknowledges, and the distribution it publishes |
| `Backfill`, `BackfillTheorems`, `BackfillMixed` | chunks, upserts, checkpoints; crash and resume; retries mixed with resumptions |
| `RateLimiter` | the sliding window |
| `KbarAnalytics`, `DailyFeatures` | percentiles, histograms, the daily rebuild |
| `EmailOutbox`, `EmailPipeline`, `EmailTheorems`, `EmailGuarantees` | the outbox protocol and what it guarantees for one mail |
| `QuoteFeatures`, `QuoteTheorems` | forces, strengths and the minute archive |
| `HeapPaths`, `HeapSearch` | reverse adjacency and bounded breadth-first search |

## What turned out not to hold

Each of these is a lemma, with the exact condition where there is one.

- Waiting exactly `retry_after` seconds is not always enough, because the window is closed at both ends
  (`RateLimiter.RetryExactly`); waiting any longer is, if nothing else was admitted.
- Of two valid events of one symbol at one instant the first to arrive wins
  (`ContributionTheorems.TiesDependOnOrder`). With distinct ids the order matters exactly when such events
  differ at a symbol's greatest time stamp (`ContributionTheorems.ConvergesExactly`).
- An index-contribution entry whose publication failed is acknowledged without being published when it
  is delivered again, however much later, unless a later date has reset the worker
  (`ContributionRunner.RedeliveryChangesNothing`); `ContributionRunner.LostPublications` and
  `ContributionRunner.AcknowledgedUnpublished` say exactly which entries are lost this way.
- A latest-state event without a sequence number is not safe to deliver twice when it set a new extreme
  (`LatestStateTheorems.UnsequencedRedelivery`); after other events it is safe exactly when it has nothing
  new to say (`LatestStateTheorems.UnsequencedLater`).
- Ticks written with different UTC offsets can make the day fields forget prices of their own trade date
  (`TickTheorems.MixedOffsetsForget`): exactly when an in-session tick of the date is followed by an
  accepted tick of another one (`TickTheorems.DayFieldsExactly`).
- Quote features lack what their trade date had before another date interrupted it
  (`QuoteTheorems.ForceLacksEarlier`); the quotes they are taken over are the whole date exactly when none
  did (`QuoteTheorems.WholeDateExactly`).
- A retry of the backfill from its original parameters keeps the old cursor until it has reported its first
  chunk. Mixed with resumptions it can leave bars of the first chunk where later ones belong, exactly when
  a minute of the first chunk that may be overwritten ends with a bar of a later one
  (`BackfillMixed.MixedExactly`).
- The Postgres upsert and the fallback loop differ on a batch that repeats a stored key
  (`Persistence.WritersAgree`); the sampler never produces one.
- The backfill and the stream worker disagree on the trade date of every minute between 05:00 and 15:00,
  which includes the whole day session (`BackfillTheorems.SessionDateAgrees`).
- Rebuilding daily features for one code or a range of dates resets the first gap of each code in it to 0
  (`DailyFeatures.PartialRebuildAgrees`).
- `max_retry` limits nothing: a rejected mail is retried as often as its entry is redelivered, and not at
  all once the entry is acknowledged (`EmailGuarantees.FailedIsFinal`, `EmailGuarantees.RetriesAreUnlimited`).
- An acceptance that is lost before the row is updated is sent again
  (`EmailGuarantees.LostAcceptanceIsRepeated`), and of overlapping handlings of one row the last
  committed update decides, so a rejection can undo a sent status (`EmailGuarantees.LastUpdateDecides`,
  `EmailGuarantees.OverlapUndoesSent`).
- Branches that no run reaches: the `continue` of the sampler, the "missing" verdict of the email worker,
  and the quote state without a current minute.
- The heap script takes `to_node` for a node number, where V8 writes an offset into the node table. On such
  a snapshot it reverses the graph exactly when nodes have one field or every edge leads to node 0
  (`HeapPaths.OffsetsReversedExactly`), and only then does the search follow its edges
  (`HeapSearch.FollowsGraphExactly`).
- An update for a second that was emitted before is held for ever (`BidAskTheorems.LateUpdatesStay`).

## Model

| member | source | states |
|---|---|---|
| `TaipeiTime.TradeDateIsShiftedFloor` | apps/backend/app/stream_processing/runner.py:51-55 | comparing hour, minute and second with 15:00:00 is floor division by a day that starts at 15:00 |
| `TaipeiTime.TradeDateMonotone` | apps/backend/app/stream_processing/runner.py:51-55 | later wall times never have earlier trade dates |
| `TaipeiTime.TradeDateConstantInMinute` | apps/backend/app/stream_processing/runner.py:51-55 | no minute straddles two trade dates |
| `BidAskSampler.BidAskStateMachine.Update` | apps/backend/app/stream_processing/runner.py:275-280 | records the metrics as the last update of their second and as the latest ones, and changes nothing else |
| `BidAskSampler.BidAskStateMachine.EmitSamplesUpTo` | apps/backend/app/stream_processing/runner.py:329-366 | the emission loop leaves the state and returns the samples of the specification `EmitUpTo`, for every state and bound |
| `BidAskSampler.BidAskStateMachine.EmitOne` | apps/backend/app/stream_processing/runner.py:344-364 | one pass of the loop: take the recorded update or carry the last full sample, or skip when there is neither |
| `BidAskSampler.BidAskStateMachine.ApplyMainForceFields` | apps/backend/app/stream_processing/runner.py:368-393 | day extremes restart on a new trade date, widen otherwise, and the four main-force fields are written; nothing without an imbalance |
| `BidAskSampler.BidAskStateMachine.ApplySeriesDeltas` | apps/backend/app/stream_processing/runner.py:395-421 | the configured deltas to the previous series sample, 0 where a value is missing, none on the first sample |
| `BidAskTheorems.RangeShape` | apps/backend/app/stream_processing/runner.py:344-364 | from any state that can emit its first second, a range yields one sample for every second: the `continue` of line 348 is not reached |
| `BidAskTheorems.EmitUpToCases` | apps/backend/app/stream_processing/runner.py:329-348 | emission starts at a second it can emit, or does nothing at all |
| `BidAskTheorems.EmitMerge` | apps/backend/app/stream_processing/runner.py:329-366 | emitting to a and then to b gives the samples (full and series) and the final state of one emission to the later bound |
| `BidAskTheorems.UpdateCommutes` | apps/backend/app/stream_processing/runner.py:275-366 | an update for a second after an emission's bound can be moved in front of that emission |
| `BidAskTheorems.OnlineEqualsBatch` | apps/backend/app/stream_processing/runner.py:275-366 | with no late update, any interleaving of updates and emissions equals recording the whole log first and emitting once |
| `BidAskTheorems.RunKeepsLog` | apps/backend/app/stream_processing/runner.py:275-366 | in every run, pending updates are the log's last updates of the seconds not yet emitted, and the output is consecutive seconds |
| `BidAskTheorems.LateUpdatesStay` | apps/backend/app/stream_processing/runner.py:275-366 | in every run the updates held are exactly the last ones of the seconds yet to be emitted and of the seconds whose updates came after their emission, which stay for ever |
| `BidAskTheorems.EmissionFollowsLog` | apps/backend/app/stream_processing/runner.py:329-366 | each call appends exactly the seconds after the last emitted one (or from the least recorded one) to its bound; each sample is the last recorded update of its second or a carry of the previous sample; earlier output is untouched |
| `BidAskTheorems.UpdatesEmitNothing` | apps/backend/app/stream_processing/runner.py:275-280 | updates, late ones included, never change or repeat emitted samples |
| `BidAskTheorems.MetricsInvert` | apps/backend/app/stream_processing/runner.py:217-260 | mid and spread, imbalance and sum, and ratio determine the quoted numbers they come from, and are present exactly when those are |
| `BidAskTheorems.MetricsAreStored` | apps/backend/app/stream_processing/runner.py:217-260 | each quoted number is stored under its own name exactly when it is there, and nothing else but the derived metrics is |
| `BidAskTheorems.SecondsAreDistinct` | apps/backend/app/stream_processing/runner.py:343-364 | no second is emitted twice in any run |
| `BidAskDayStats.StrengthInUnit` | apps/backend/app/stream_processing/runner.py:386-393 | a strength is in [0, 1] before it is clamped and says where the value lies in its day range: 0 at the low, 1 at the high, in proportion, one half when they are the same |
| `BidAskDayStats.MainForceOverEveryRun` | apps/backend/app/stream_processing/runner.py:368-393 | in every run, each sample's day high and low are the extreme imbalances over the emitted samples of its trade date up to itself, and its strength is where its imbalance lies between them |
| `BidAskDayStats.SeriesOverEveryRun` | apps/backend/app/stream_processing/runner.py:357-359 | in every run each series sample has its second, every configured field of its full sample with its value, the configured deltas to its predecessor, and nothing else |
| `BidAskDayStats.DeltasTelescope` | apps/backend/app/stream_processing/runner.py:395-421 | a configured delta adds up to last minus first when its field is configured and always present, and to 0 when the field is not configured |
| `HeapPaths.BuildIncoming` | analyze-heapsnapshot-paths.js:33-45 | incoming[t] lists, in order, the source of every edge to t; the running offset is the sum of the edge counts so far |
| `HeapPaths.RootNames` | analyze-heapsnapshot-paths.js:51-58 | root names begin with a parenthesis or Window, mention both global and Window, or mention Startup, Eternal or Global handles; the empty name is none |
| `HeapPaths.MentionsExactly` | analyze-heapsnapshot-paths.js:55-56 | a name mentions a text exactly when the text stands somewhere in it |
| `HeapPaths.PushEdges` | analyze-heapsnapshot-paths.js:38-43 | the inner loop adds node n to each target once per edge and skips targets that do not exist |
| `HeapPaths.SourcesCount` | analyze-heapsnapshot-paths.js:33-45 | incoming is the exact reverse adjacency, with multiplicities |
| `HeapPaths.EncodingIsReversed` | analyze-heapsnapshot-paths.js:33-45 | of a graph written into the flat tables with node t named scale * t, n is read back as a source of t once for each of its edges to a node named t; with node numbers every edge is reversed, with its multiplicity |
| `HeapPaths.OffsetsReversedExactly` | analyze-heapsnapshot-paths.js:40-42 | on snapshots whose to_node is an offset into the node table, incoming is the reverse of the graph if and only if there is one field per node or every edge leads to node 0 |
| `HeapPaths.LeastTargetMissed` | analyze-heapsnapshot-paths.js:41-42 | otherwise a node is missing among the sources of the least positive target it has |
| `HeapSearch.FindPath` | analyze-heapsnapshot-paths.js:60-76 | returns a chain of incoming edges from the target to a root other than the target, of minimum length and at most maxDepth edges; null exactly when every such chain is longer; it terminates |
| `HeapSearch.Expand` | analyze-heapsnapshot-paths.js:66-73 | the loop over one node's referrers keeps the breadth-first invariant or has found a root |
| `HeapSearch.RetainsIsRootChain` | analyze-heapsnapshot-paths.js:33-76 | chains over `incoming` are the chains of the edge table as the script reads it |
| `HeapSearch.TraceTarget` | analyze-heapsnapshot-paths.js:23-76 | reading, reversing and searching together answer about the edges as the script reads them from the snapshot: a shortest chain, or null exactly when all are longer |
| `HeapSearch.EdgesRead` | analyze-heapsnapshot-paths.js:33-45 | on a snapshot that names node t by scale * t, whether by number or by offset, an edge from n to t is read exactly when n has an edge to a node with that name |
| `HeapSearch.FollowsGraphExactly` | analyze-heapsnapshot-paths.js:38-76 | the search follows the edges of the graph if and only if nodes are named by their numbers or every edge leads to node 0; then the chains it answers about are the retaining chains of the graph |
| `IndexContribution.RoundToGrid` | apps/backend/app/index_contribution/engine.py:12-13 | rounding lands on millionths, moves a value by at most half of one, and fixes values already there |
| `IndexContribution.GridClosed` | apps/backend/app/index_contribution/engine.py:86-94 | sums and differences of rounded values are not changed by rounding again, and the 1e-12 test finds exactly zero |
| `IndexContribution.HalfAwayFromZero` | apps/backend/app/index_contribution/engine.py:12-13 | a value halfway between two millionths is rounded away from zero |
| `IndexContribution.IndexContributionEngine.ApplyUpdate` | apps/backend/app/index_contribution/engine.py:47-109 | drops duplicates, late events and invalid inputs without any effect; otherwise leaves the new symbol state, sector totals and event ids of `Apply` |
| `IndexContribution.IndexContributionEngine.Clear` | apps/backend/app/index_contribution/runner.py:560-562 | empties symbol states, sector totals and event ids, and keeps the index close |
| `ContributionTheorems.SumRemove` | apps/backend/app/index_contribution/engine.py:86-94 | the recomputed sector sum does not depend on the order of summation |
| `ContributionTheorems.StateOfValid` | apps/backend/app/index_contribution/engine.py:26-45 | an update leads to a state exactly when index close and previous close are above 0, the weight is from 0 to 1 and there is a sector; the sector is the mapping text if it has any, otherwise the table text, trimmed |
| `ContributionTheorems.DroppedExactly` | apps/backend/app/index_contribution/engine.py:60-109 | an update is dropped exactly when its id was processed, its symbol is as recent already, or it is not valid; one that is not changes its symbol alone |
| `ContributionTheorems.PointsAreWorth` | apps/backend/app/index_contribution/engine.py:26-38 | the points of a symbol are what its weighted move from the previous close is worth in index points, to half a millionth; a riser never has negative points and a faller never positive ones |
| `ContributionTheorems.ApplyKeepsExact` | apps/backend/app/index_contribution/engine.py:81-109 | every update, sector moves included, keeps each total exactly equal to recomputation and keeps no total for a sector without symbols |
| `ContributionTheorems.TotalsDoNotDrift` | apps/backend/app/index_contribution/engine.py:12-13 | a total is within 0.5e-6 times the number of its symbols of the sum of index close times weight times move over previous close, whatever the number of updates |
| `ContributionTheorems.RunSettles` | apps/backend/app/index_contribution/engine.py:60-67 | after any deliveries each symbol is at its valid event with the greatest time stamp |
| `ContributionTheorems.Convergence` | apps/backend/app/index_contribution/engine.py:47-109 | with distinct ids, and one state among the valid events at each symbol's greatest time stamp, symbol states and sector totals are the same for every order and any duplication of the events |
| `ContributionTheorems.ConvergesExactly` | apps/backend/app/index_contribution/engine.py:60-67 | with distinct ids, order and duplication are irrelevant if and only if the valid events at each symbol's greatest time stamp all lead to one state |
| `ContributionTheorems.FirstLatestWins` | apps/backend/app/index_contribution/engine.py:66-67 | any of those events, delivered first, determines the final state |
| `ContributionTheorems.TiesDependOnOrder` | apps/backend/app/index_contribution/engine.py:66-67 | of two valid events of one symbol at one instant, with ids or without, the first to arrive determines the final state |
| `ContributionRanking.RankedIsSorted` | apps/backend/app/index_contribution/engine.py:111-123 | a ranking lists every symbol once, by points and then by symbol |
| `ContributionRanking.RankingReads` | apps/backend/app/index_contribution/engine.py:111-123 | the top ranking lists falling points, the bottom one rising points, and equal points by symbol in code-point order; it has n entries, or all there are |
| `ContributionRanking.SliceReads` | apps/backend/app/index_contribution/engine.py:111-123 | the limit of a ranking is a Python slice: a prefix of that length, or short of the end by as much when negative |
| `ContributionRanking.RankingIsBest` | apps/backend/app/index_contribution/engine.py:111-123 | the first n are sorted and nothing left out precedes one of them |
| `ContributionRanking.RankingIsUnique` | apps/backend/app/index_contribution/engine.py:111-123 | those properties determine the ranking: no tie can be broken in two ways |
| `ContributionRanking.RankingsConverge` | apps/backend/app/index_contribution/engine.py:111-123 | under the same condition both rankings are the same for every order and duplication of the events |
| `ContributionRunner.IndexContributionRunner.InitializeDailyInputs` | apps/backend/app/index_contribution/runner.py:287-302 | replaces close, constituents and mapping, or changes nothing without a loader or when it raises |
| `ContributionRunner.IndexContributionRunner.ResetDay` | apps/backend/app/index_contribution/runner.py:559-567 | clears the engine and sequence numbers and sets the date before loading, so a failing load leaves an empty engine |
| `ContributionRunner.IndexContributionRunner.ProcessMarketUpdate` | apps/backend/app/index_contribution/runner.py:304-337 | rolls the date forward first, then drops symbols that are not constituents, then applies the update |
| `ContributionRunner.IndexContributionRunner.HandleSpotEntry` | apps/backend/app/index_contribution/runner.py:247-285 | sequence check, update, publication; the entry is acknowledged unless loading or publishing raises |
| `ContributionRunner.TotalsExactOverEveryRun` | apps/backend/app/index_contribution/runner.py:247-337 | over every run with date changes, failing loads and failing publications the totals stay exact and do not drift, and every symbol has the points its move is worth |
| `ContributionRunner.TaipeiDateReads` | apps/backend/app/index_contribution/runner.py:313-316 | the date of an entry is the Taipei day its time stamp is in |
| `ContributionRunner.HandlingReads` | apps/backend/app/index_contribution/runner.py:247-337 | for every state: an entry not above the last published sequence number of its symbol changes nothing; any other meets the worker of its own day, emptied for a later one; it is published exactly when its update is new and valid, its number is remembered once published, and it stays pending only when loading or publication failed |
| `ContributionRunner.RedeliveryChangesNothing` | apps/backend/app/index_contribution/runner.py:263-285 | an accepted entry delivered again, after any calls that did not reset the worker for a later date, changes nothing and is acknowledged unpublished |
| `ContributionRunner.AcknowledgedUnpublished` | apps/backend/app/index_contribution/runner.py:257-279 | an entry accepted before but not published, delivered again, is acknowledged and still not published if and only if it is not accepted now, which is so while no later date has reset the worker |
| `ContributionRunner.LostPublications` | apps/backend/app/index_contribution/runner.py:263-285 | over a run without a reset after its acceptance, an entry is acknowledged but never published exactly when its first publication failed and it was delivered again |
| `Backfill.TransformHistoricalRows` | apps/backend/app/modules/historical_backfill/transformer.py:47-77 | keeps exactly the valid rows in order and counts every other one; kept bars satisfy low <= open, close <= high |
| `Backfill.ChunkDateRange` | apps/backend/app/modules/historical_backfill/chunker.py:8-16 | one chunk per day from start to end, or an error exactly when the range is reversed |
| `Backfill.DbSession.UpsertKbars` | apps/backend/app/modules/historical_backfill/writer.py:27-67 | every row is written or skipped; written are the new minutes and those the mode may overwrite; queries do not see rows added before |
| `Backfill.BackfillJob.FindResumeIndex` | apps/backend/app/modules/historical_backfill/job.py:52-57 | the loop finds the number of chunks whose start is not after the checkpoint |
| `Backfill.BackfillJob.RunChunk` | apps/backend/app/modules/historical_backfill/job.py:85-92 | one day in one transaction, with its four counts |
| `Backfill.BackfillJob.ProcessChunk` | apps/backend/app/modules/historical_backfill/job.py:83-122 | table, cursor and reported counters for each of the four fates of a chunk |
| `Backfill.BackfillJob.Run` | apps/backend/app/modules/historical_backfill/job.py:50-150 | an execution leaves the table, cursor and counters of the specification, however it ends |
| `BackfillTheorems.ChunkAt` | apps/backend/app/modules/historical_backfill/writer.py:32-66 | a committed chunk acts on each minute alone, by its last row for that minute |
| `BackfillTheorems.ChunkByTheClock` | apps/backend/app/modules/historical_backfill/writer.py:21-66 | in closed-only mode a committed chunk replaces stored rows from 13:45 of their day on and leaves earlier ones as they were, in force mode it replaces all; it stores every new minute; amplitudes are never changed |
| `BackfillTheorems.WrittenCount` | apps/backend/app/modules/historical_backfill/writer.py:29-66 | the written count is the number of bars whose minute is new or gives way |
| `BackfillTheorems.ChunkCountsRead` | apps/backend/app/modules/historical_backfill/job.py:111-114 | of a day's rows, processed are all, failed the malformed ones, written the bars whose minute is new or gives way, and skipped the other bars |
| `BackfillTheorems.ExecutionKeepsRows` | apps/backend/app/modules/historical_backfill/job.py:50-150 | no execution removes a row, and in closed-only mode none changes a row stored before 13:45 of its day |
| `BackfillTheorems.KeptAreWellFormed` | apps/backend/app/modules/historical_backfill/transformer.py:47-77 | the kept bars are those of the well-formed rows, one each and in order, with the numbers of the row, the Taipei minute of its time stamp and that minute's session date |
| `BackfillTheorems.ChunkIdempotent` | apps/backend/app/modules/historical_backfill/writer.py:32-66 | committing a chunk twice is committing it once |
| `BackfillTheorems.ChunkStillCommits` | apps/backend/app/modules/historical_backfill/writer.py:39-51 | a chunk that could be committed still can when more rows are stored |
| `BackfillTheorems.CommitsExactly` | apps/backend/app/modules/historical_backfill/writer.py:32-51 | a chunk is rolled back exactly when two of its bars are for one minute that was not stored before |
| `BackfillTheorems.SkippedExactly` | apps/backend/app/modules/historical_backfill/job.py:52-57 | skipped on resuming are exactly the chunks that do not start after the checkpoint |
| `BackfillTheorems.ChunkIsDay` | apps/backend/app/modules/historical_backfill/job.py:83-88 | the i-th chunk has the bars of the well-formed rows of the i-th day from the start |
| `BackfillTheorems.ReversedRaises` | apps/backend/app/modules/historical_backfill/chunker.py:8-16 | a reversed range raises before anything happens |
| `BackfillTheorems.CrashResumeEqualsCleanRun` | apps/backend/app/modules/historical_backfill/job.py:52-122 | after any history of crashes before a commit, between a commit and its report or after it, resuming from the last cursor finishes exactly when a clean run does, with the same table, in both modes |
| `BackfillTheorems.RetriesEqualCleanRun` | apps/backend/app/modules/batch_shared/jobs/job_runner.py:62-64 | retries inside the job runner, which start from the beginning, also end with the table of a clean run, even when fetched days overlap in minutes |
| `BackfillTheorems.CountersAddUp` | apps/backend/app/modules/historical_backfill/job.py:59-122 | the counters of an execution cover exactly the chunks it reported, from the resume point up to the cursor it leaves: processed are their rows, that is those written, skipped and failed, and failed the malformed ones; all the rest when it ends normally |
| `BackfillMixed.MixedFinishes` | apps/backend/app/modules/historical_backfill/job.py:52-122 | after any mix of resumptions and retries, resuming finishes exactly when a clean run does |
| `BackfillMixed.RestartEqualsCleanRun` | apps/backend/app/modules/historical_backfill/job.py:52-122 | after any mix, one execution from the beginning ends with the table of a clean run |
| `BackfillMixed.CheckpointedEqualsCleanRun` | apps/backend/app/modules/historical_backfill/job.py:52-122 | retries whose parameters carry a checkpoint can be mixed with resumptions freely: resuming ends with the table of a clean run |
| `BackfillMixed.MixedExactly` | apps/backend/app/modules/historical_backfill/job.py:52-122 | with retries from the beginning as well, every mix ends with the clean table if and only if no minute of the first chunk that may be overwritten ends with a bar of a later chunk; the same for histories in which every execution failed |
| `BackfillMixed.RetrySpoils` | apps/backend/app/modules/historical_backfill/job.py:65-146 | the failing mix, for every job that breaks the condition: an execution that fails behind its last report, a retry that dies between its first commit and its first report, and a resumption |
| `BackfillTheorems.SessionDateAgrees` | apps/backend/app/modules/historical_backfill/calendar.py:20-27 | the trade date of a backfilled minute is the stream worker's exactly outside 05:00 to 15:00, and one day later in between |
| `BackfillTheorems.DaySessionRowsDiffer` | apps/backend/app/modules/historical_backfill/transformer.py:63-67 | a valid row of the day session is stored one day after the trade date of a tick at that instant |
| `TickBars.TickStateMachine.ApplyTick` | apps/backend/app/stream_processing/runner.py:135-193 | drop, extend, or archive and open: state, archived bar and drop flag of `Apply` |
| `TickBars.TickStateMachine.UpdateDayState` | apps/backend/app/stream_processing/runner.py:195-214 | day fields restart on a new trade date and take in-session prices only |
| `TickTheorems.BarsEqualGroups` | apps/backend/app/stream_processing/runner.py:135-193 | after any ticks, archived bars and the open one are the accepted ticks grouped by minute (first, max, min, last, summed volume), in strictly increasing minutes |
| `TickTheorems.DropsExactly` | apps/backend/app/stream_processing/runner.py:140-164 | a tick is dropped exactly when it has no price or an earlier priced tick is of a later minute |
| `TickTheorems.DroppedTicksChangeNothing` | apps/backend/app/stream_processing/runner.py:140-164 | a dropped tick leaves state and bars as they were |
| `TickTheorems.VolumeConserved` | apps/backend/app/stream_processing/runner.py:166-193 | the bars' volumes add up to the accepted volume |
| `TickTheorems.DayFieldsOfEveryBar` | apps/backend/app/stream_processing/runner.py:195-214 | each bar's day open, high and low are those of the in-session prices since the trade date last changed, up to the bar's last tick |
| `TickTheorems.SessionByTheClock` | apps/backend/app/stream_processing/runner.py:204-206 | the day session is 08:45:00 to 13:45:00 on the Taipei clock, both included, whatever clock the tick was written with |
| `TickTheorems.DayFieldsExactly` | apps/backend/app/stream_processing/runner.py:195-214 | a bar's day run has all in-session prices of its trade date up to its last tick if and only if no such price was followed by an accepted tick of another date |
| `TickTheorems.DayFieldsCoverTradeDate` | apps/backend/app/stream_processing/runner.py:195-214 | with one UTC offset no price is forgotten: the day fields are those of the whole trade date so far |
| `TickTheorems.MixedOffsetsForget` | apps/backend/app/stream_processing/runner.py:144-203 | an input for which it was: three accepted ticks with mixed offsets, after which a price of the current trade date is forgotten |
| `DbSink.DbSinkWorker.PutNowait` | apps/backend/app/stream_processing/runner.py:857-878 | appends a row, or raises and changes nothing when the queue is full |
| `DbSink.DbSinkWorker.DrainQueueBatch` | apps/backend/app/stream_processing/runner.py:976-983 | takes the first rows of the queue, at most one batch |
| `DbSink.DbSinkWorker.AcquireBatch` | apps/backend/app/stream_processing/runner.py:985-997 | the pending batch if there is one, otherwise a new one from the queue |
| `DbSink.DbSinkWorker.FlushOnce` | apps/backend/app/stream_processing/runner.py:888-908 | persisted, kept for a retry, or dead-lettered: state and result of `Flush` |
| `DbSink.FlushDbSinksOnce` | apps/backend/app/stream_processing/runner.py:880-886 | terminates for every failure pattern; without failures both sinks are empty and the result is the number of rows; no row is lost, repeated or reordered |
| `DbSink.FlushConserves` | apps/backend/app/stream_processing/runner.py:888-908 | one flush keeps handed-off rows, pending batch and queue together in order |
| `DbSink.QueueStaysBounded` | apps/backend/app/stream_processing/runner.py:857-878 | over every run a bounded queue never exceeds its bound, and a row is refused exactly when it finds the queue full |
| `DbSink.NewBatchIsLongest` | apps/backend/app/stream_processing/runner.py:976-997 | a pending batch is tried again as it is; a new one is the longest that queue and batch size allow |
| `DbSink.GivenUpExactly` | apps/backend/app/stream_processing/runner.py:888-908 | over every run and failure pattern a row handed off is persisted if and only if the last attempt at its batch succeeded, and dead-lettered only with a batch tried max retries + 1 times, always in vain |
| `DbSink.RetriesBeforeGivingUp` | apps/backend/app/stream_processing/runner.py:899-908 | in every reachable state a failing flush raises and keeps the batch exactly while fewer than max retries attempts at it have failed; otherwise the batch is handed off as persisted or given up |
| `DbSink.SinkConserves` | apps/backend/app/stream_processing/runner.py:857-908 | at every point of every run the enqueued sequence is the handed-off rows, then the pending batch, then the queue |
| `DbSink.AttemptsBounded` | apps/backend/app/stream_processing/runner.py:899-908 | each batch is attempted at most max_retries + 1 times, and never again once it is handed off |
| `Persistence.PersistWithDuplicateTolerance` | apps/backend/app/stream_processing/runner.py:1175-1189 | bulk insert with row-by-row fallback is the fold of insert-if-absent; when the database breaks off, of a prefix of the rows |
| `Persistence.BulkIsFold` | apps/backend/app/stream_processing/runner.py:1178-1181 | the bulk insert alone, when it succeeds, is that fold |
| `Persistence.AttemptsConverge` | apps/backend/app/stream_processing/runner.py:1175-1189 | any number of broken attempts before a complete one changes nothing |
| `Persistence.QueryThenWrite` | apps/backend/app/stream_processing/runner.py:1068-1102 | the query-then-write loop over a session without autoflush, committed or rejected as a whole |
| `Persistence.LoopWritesInOrder` | apps/backend/app/stream_processing/runner.py:1068-1102 | it commits exactly when no new key occurs twice, and then leaves what writing the rows in order leaves |
| `Persistence.WritersAgree` | apps/backend/app/stream_processing/runner.py:1028-1102 | upsert statement and loop agree exactly when the keys are distinct or a new key is repeated |
| `Persistence.EmittedBatchesAgree` | apps/backend/app/stream_processing/runner.py:1020-1102 | on every batch of different samples, of any codes and in any order, both writers succeed and leave the same table |
| `SinkTables.TurnReads` | apps/backend/app/stream_processing/runner.py:774-782 | the rows a call puts on the queue are those of the first samples it emits, up to a raise: code, second and full metrics |
| `SinkTables.TurnIsLogged` | apps/backend/app/stream_processing/runner.py:770-778 | a call is recorded for its own code only |
| `SinkTables.SharedRowsDistinct` | apps/backend/app/stream_processing/runner.py:756-820 | the queue shared by all codes never holds two rows with one key, wherever a call was cut short by a raise |
| `SinkTables.AttemptsArePieces` | apps/backend/app/stream_processing/runner.py:985-997 | every attempted batch is a piece of the enqueued sequence |
| `SinkTables.AttemptedBatchesAgree` | apps/backend/app/stream_processing/runner.py:932-952 | every batch of samples ever attempted can be written by both writers on any table, and they agree |
| `SinkTables.SampleTableIsFold` | apps/backend/app/stream_processing/runner.py:932-952 | over every run and failure pattern the table of samples is the persisted rows written in the order of enqueueing |
| `SinkTables.BarTableIsFold` | apps/backend/app/stream_processing/runner.py:888-908 | over every run, wherever failing calls broke off, the table of bars is the fold of the stored rows in the order of enqueueing, every persisted row among them |
| `SinkTables.BarTableIsPersistedRows` | apps/backend/app/stream_processing/runner.py:888-908 | when failing calls write nothing, the stored rows are exactly the persisted ones |
| `LatestState.LatestStateRunner.HandleSpotEntry` | apps/backend/app/latest_state/runner.py:306-451 | ignored, stale, broken or applied: state and result of `Handle` |
| `LatestState.LatestStateRunner.AdvanceState` | apps/backend/app/latest_state/runner.py:393-433 | session extremes, flags, strength and the reference locked per trade date |
| `LatestState.LatestStateRunner.FlushDirtyOnce` | apps/backend/app/latest_state/runner.py:453-512 | writes all dirty symbols or the first batch in symbol order; on failure an arbitrary part is written and all stay dirty |
| `LatestState.LatestStateRunner.ConsumeOnce` | apps/backend/app/latest_state/runner.py:241-260 | handles the entries, forces a full flush, acknowledges only when nothing is dirty |
| `LatestState.SortSymbols` | apps/backend/app/latest_state/runner.py:460-463 | the sorted order of the dirty symbols |
| `LatestStateTheorems.CleanMeansStored` | apps/backend/app/latest_state/runner.py:435-512 | in every reachable state a symbol that is not dirty is stored as it is in memory |
| `LatestStateTheorems.AckMeansStored` | apps/backend/app/latest_state/runner.py:254-259 | whenever entries are acknowledged, every state in memory is stored, and exactly the entries that raised nothing are acknowledged |
| `LatestStateTheorems.BrokenStaysPending` | apps/backend/app/latest_state/runner.py:248-253 | an entry whose handling raised stays unacknowledged, and it alone |
| `LatestStateTheorems.RedeliveryIsNoOp` | apps/backend/app/latest_state/runner.py:329-331 | an applied entry with a positive sequence number can be delivered again at any later time without effect |
| `LatestStateTheorems.UnsequencedRedelivery` | apps/backend/app/latest_state/runner.py:394-433 | without one, immediate redelivery is harmless if and only if the event set no new session extreme |
| `LatestStateTheorems.UnsequencedLater` | apps/backend/app/latest_state/runner.py:378-438 | after any other entries, a redelivery without one keeps states, sequence numbers and reference dates if and only if the last event of its symbol had its price, close and time and set no new extreme, the last changes given are its own, and the reference is locked for its date |
| `LatestStateTheorems.RoundsToClean` | apps/backend/app/latest_state/runner.py:460-504 | successful batched flushes empty the dirty set after ceil(n / batch) rounds and not before |
| `LatestStateTheorems.StateIsDerived` | apps/backend/app/latest_state/runner.py:378-432 | changes carry over from the last event that had one; the reference is the first of its trade date until another date brings one; gap and strength follow from the state's own fields |
| `LatestStateTheorems.GapAndStrengthRead` | apps/backend/app/latest_state/runner.py:31-42 | in every reachable state the gap is open less reference with its direction and percentage, and the strength follows from the new extremes and from whether the price is 0.8 percent of the open away from it |
| `LatestStateTheorems.StateSummarizesEvents` | apps/backend/app/latest_state/runner.py:355-438 | a symbol's state is the summary of the events applied to it: first open, last price and close, extremes |
| `LatestStateDelivery.ParseReads` | apps/backend/app/latest_state/runner.py:334-352 | an entry without any price is ignored; it breaks exactly when the close its reference needs is missing; otherwise the event has its numbers, with missing ones taken from those that are there |
| `LatestStateDelivery.AppliesExactly` | apps/backend/app/latest_state/runner.py:329-352 | after any entries, one is applied if and only if it has a symbol, can be read, and is not numbered at or below a number applied for its symbol before |
| `LatestStateDelivery.RunIsHandleAll` | apps/backend/app/latest_state/runner.py:241-260 | after any run, flushes included, states, sequence numbers and reference dates are those that the consumed entries lead to |
| `LatestStateDelivery.FlushStores` | apps/backend/app/latest_state/runner.py:453-512 | a due flush that succeeds stores the states of the first dirty symbols in order, or of all, and makes them clean; one that fails leaves all dirty; one that is not due does nothing |
| `LatestStateDelivery.AckedExactly` | apps/backend/app/latest_state/runner.py:248-260 | a turn acknowledges all that raised nothing if its flush succeeds or nothing was left to flush, and otherwise none |
| `SpotDistribution.TallyValues` | apps/backend/app/latest_state/runner.py:124-138 | the counting loop: signs, floors, least and greatest floor |
| `SpotDistribution.BuildSpotMarketDistribution` | apps/backend/app/latest_state/runner.py:113-175 | contiguous buckets from least to greatest floor, end buckets non-empty; counts sum to total = up + down + flat, those below 0 to down; trend in [-1, 1] and within rounding of the exact ratio |
| `SpotDistribution.BucketSums` | apps/backend/app/latest_state/runner.py:140-150 | bucket counts add up to the values in their floor range, below and above 0 |
| `SpotDistribution.RoundIsToEven` | apps/backend/app/latest_state/runner.py:154-154 | the trend is rounded to the nearer millionth, halfway to the even one |
| `RateLimiter.SimpleRateLimiter.AllowRequest` | apps/backend/app/services/rate_limiter.py:17-27 | admits exactly when the pruned queue is shorter than the limit, and touches only its key |
| `RateLimiter.SimpleRateLimiter.CheckRequest` | apps/backend/app/services/rate_limiter.py:29-40 | the same, with the wait of a denial; a limit below 1 indexes an empty queue |
| `RateLimiter.SimpleRateLimiter.TryOpenSse` | apps/backend/app/services/rate_limiter.py:42-48 | counts one more stream below the limit, otherwise refuses and changes nothing |
| `RateLimiter.SimpleRateLimiter.CloseSse` | apps/backend/app/services/rate_limiter.py:50-56 | counts one less, and forgets the key at zero |
| `RateLimiter.QueueIsWindow` | apps/backend/app/services/rate_limiter.py:20-23 | with a clock that never goes back the pruned queue is exactly the admissions in the closed window |
| `RateLimiter.AdmittedIffRoom` | apps/backend/app/services/rate_limiter.py:24-27 | admitted exactly when fewer than limit admissions lie in the window |
| `RateLimiter.WindowNeverExceeded` | apps/backend/app/services/rate_limiter.py:17-27 | no closed interval of window length ever holds more than limit admissions |
| `RateLimiter.KeysAreApart` | apps/backend/app/services/rate_limiter.py:20-27 | over any requests of any keys, what is kept for a key is what its own requests leave |
| `RateLimiter.LimitBelowOne` | apps/backend/app/services/rate_limiter.py:24-37 | with a limit below 1 nothing is ever admitted, and a checked request raises every time |
| `RateLimiter.RetryAfterBounds` | apps/backend/app/services/rate_limiter.py:36-38 | the advertised wait is at least 1 and at most max(1, window) |
| `RateLimiter.RetryOutcome` | apps/backend/app/services/rate_limiter.py:33-40 | after a denial, while nothing else is admitted and however many requests are denied in between, a retry succeeds exactly when the oldest queued admission has left the closed window |
| `RateLimiter.NoneAdmittedExactly` | apps/backend/app/services/rate_limiter.py:33-40 | nothing is admitted in between exactly when no request comes after that admission has left the window |
| `RateLimiter.RetryLaterSucceeds` | apps/backend/app/services/rate_limiter.py:36-40 | waiting longer than advertised succeeds if nothing else was admitted, whatever was denied meanwhile |
| `RateLimiter.RetryExactly` | apps/backend/app/services/rate_limiter.py:36-40 | if nothing else was admitted, waiting exactly as long succeeds if and only if the remaining wait is below a second or not a whole number of seconds |
| `RateLimiter.StreamsAreCounted` | apps/backend/app/services/rate_limiter.py:42-56 | however requests for streams and ends of open streams interleave, the count of every key is the number of its open streams, of which there are never more than the limit; a key without streams is forgotten |
| `RateLimiter.AcceptedIffRoom` | apps/backend/app/services/rate_limiter.py:42-48 | a stream is opened exactly when fewer than limit streams of its key are open |
| `KbarAnalytics.SortedCorrect` | apps/backend/app/modules/kbar_analytics/service.py:74-74 | the ordered values are the values in ascending order |
| `KbarAnalytics.PercentileMonotone` | apps/backend/app/modules/kbar_analytics/service.py:71-81 | the percentile never decreases with p |
| `KbarAnalytics.PercentileEnds` | apps/backend/app/modules/kbar_analytics/service.py:71-81 | the least value at 0, the greatest at 1, and within them in between |
| `KbarAnalytics.PercentileInterpolates` | apps/backend/app/modules/kbar_analytics/service.py:77-81 | k ranks and a fraction f up it is the k-th ordered value and the fraction f of the step to the next |
| `KbarAnalytics.PercentileOfFew` | apps/backend/app/modules/kbar_analytics/service.py:71-76 | without values it is 0, and of one value it is that one |
| `KbarAnalytics.PercentileHalfIsMedian` | apps/backend/app/modules/kbar_analytics/service.py:71-81 | at 0.5 it is the median |
| `KbarAnalytics.BinIsInterval` | apps/backend/app/modules/kbar_analytics/service.py:57-61 | the computed index is never out of range, and is i exactly when the value lies in bin i |
| `KbarAnalytics.Tally` | apps/backend/app/modules/kbar_analytics/service.py:55-61 | the counting loop counts each value once, in its bin |
| `KbarAnalytics.ComputeHistogram` | apps/backend/app/modules/kbar_analytics/service.py:41-68 | edges evenly spaced from minimum to maximum; each count is the number of values in its half-open bin (the last one closed); counts sum to n; one bin when all are equal; empty when there are none |
| `DailyFeatures.RebuildDailyFeatures` | apps/backend/app/modules/kbar_analytics/service.py:128-167 | one row per code and day, with the gap measured from the code's previous day in the rebuild |
| `DailyFeatures.RebuiltAt` | apps/backend/app/modules/kbar_analytics/service.py:146-164 | every rebuilt day is stored under its own key |
| `DailyFeatures.RebuiltElsewhere` | apps/backend/app/modules/kbar_analytics/service.py:146-164 | no other row is touched |
| `DailyFeatures.MovesTelescope` | apps/backend/app/modules/kbar_analytics/service.py:131-164 | per code, gaps and day returns add up to the last close less the first open |
| `DailyFeatures.DayShape` | apps/backend/app/modules/kbar_analytics/service.py:133-144 | well-formed bars give open and close within low and high, and a close position in [0, 1] that is 0 or 1 only at the ends |
| `DailyFeatures.HighLow` | apps/backend/app/modules/kbar_analytics/service.py:135-136 | day high and low bound every bar |
| `DailyFeatures.HighLowReached` | apps/backend/app/modules/kbar_analytics/service.py:135-136 | and are attained |
| `DailyFeatures.FeaturesRead` | apps/backend/app/modules/kbar_analytics/service.py:133-164 | every number of a day: open, close, extremes, summed volume, gain, spread, both as parts of the open, gap, and the place of the close in the range |
| `DailyFeatures.LatestClose` | apps/backend/app/modules/kbar_analytics/service.py:128-147 | a gap is measured from the close of the latest earlier day of the code, if there is one |
| `DailyFeatures.PartialRebuildAgrees` | apps/backend/app/modules/kbar_analytics/service.py:112-167 | rebuilding one code or a range of dates leaves a fully rebuilt table as it is if and only if each code's first selected day has no gap |
| `DailyFeatures.SelectedAreAsked` | apps/backend/app/modules/kbar_analytics/service.py:112-127 | the days rebuilt are exactly those of the code and between the dates asked for, both included |
| `DailyFeatures.PreviousOfSelection` | apps/backend/app/modules/kbar_analytics/service.py:142-143 | among the selected days only the previous close of a code's first one is lost |
| `DailyFeatures.RebuildIsIdempotent` | apps/backend/app/modules/kbar_analytics/service.py:106-167 | a full rebuild can be repeated |
| `EmailPipeline.EmailOutboxRepository.CreateTask` | apps/backend/app/repositories/email_outbox_repository.py:34-71 | a pending row, or the duplicate error exactly when the key is taken |
| `EmailPipeline.EmailOutboxRepository.MarkSent` | apps/backend/app/repositories/email_outbox_repository.py:147-154 | sets the row to sent, and does nothing without a row |
| `EmailPipeline.EmailOutboxRepository.MarkProcessing` | apps/backend/app/repositories/email_outbox_repository.py:156-167 | claims a row only if it is pending |
| `EmailPipeline.EmailOutboxRepository.MarkFailedAndIncrementRetry` | apps/backend/app/repositories/email_outbox_repository.py:169-176 | sets the row to failed and counts one retry |
| `EmailPipeline.EmailOutboxRepository.RecoverStaleProcessing` | apps/backend/app/repositories/email_outbox_repository.py:109-128 | puts every queried row back to pending in one commit |
| `EmailPipeline.EmailOutboxRepository.ClaimPending` | apps/backend/app/repositories/email_outbox_repository.py:102-107 | claims the queried rows in order, up to the point where the database raises |
| `EmailPipeline.EmailPipelineWorker.PushClaimed` | apps/backend/app/services/email_outbox_dispatcher.py:24-39 | the loop that adds claimed rows to the stream or marks them failed, when the add raised with or without effect |
| `EmailPipeline.EmailPipelineWorker.DispatchOnce` | apps/backend/app/services/email_outbox_dispatcher.py:20-39 | recovery, claim and adds for every pattern of failures |
| `EmailPipeline.EmailPipelineWorker.HandleMessage` | apps/backend/workers/email_worker.py:22-61 | state and verdict of `Handle` for every outcome of the external calls |
| `EmailPipeline.EmailPipelineWorker.HandleEntries` | apps/backend/workers/email_pipeline_worker.py:121-136 | each entry is acknowledged exactly when its handling returned and the acknowledgement went through; the others are left pending |
| `EmailTheorems.DispatchIsMild` | apps/backend/app/services/email_outbox_dispatcher.py:20-39 | dispatching never touches a sent or failed row, and streams only rows that are neither |
| `EmailTheorems.SmoothDispatch` | apps/backend/app/services/email_outbox_dispatcher.py:20-39 | a dispatch without failures puts every stale row found back to pending, claims the pending rows found, adds each to the stream once and in that order, and touches nothing else |
| `EmailTheorems.DispatchReads` | apps/backend/app/services/email_outbox_dispatcher.py:20-39 | for every pattern of failures: a failing recovery changes nothing, a failing claim streams nothing, and otherwise the stream has the rows whose adds took effect, even when they raised, the rows whose adds raised are failed with one retry more, and the count is that of the adds that returned |
| `EmailTheorems.OldestAreFound` | apps/backend/app/repositories/email_outbox_repository.py:77-128 | recovered are rows in processing for more than 60 seconds, least recently changed first; claimed are pending rows, oldest first, and one left out is no older than any of them |
| `EmailTheorems.AcksRead` | apps/backend/workers/email_pipeline_worker.py:121-136 | of any deliveries, exactly those are acknowledged and counted whose handling returned and whose acknowledgement went through |
| `EmailTheorems.StuckIsStreamed` | apps/backend/app/repositories/email_outbox_repository.py:109-128 | a row stuck in processing for more than 60 seconds is streamed again by such a dispatch, if the limit leaves room for all stale and all pending rows |
| `EmailTheorems.HandlingReads` | apps/backend/workers/email_worker.py:22-61 | for every outcome: whether the provider has the mail, what becomes of the row, what is logged with which attempt number, and the verdict |
| `EmailTheorems.OtherStepsRead` | apps/backend/workers/email_worker.py:25-28 | a sent row is skipped; a row is created pending, without retries, exactly when id and key are new |
| `EmailTheorems.HandleKeepsTask` | apps/backend/workers/email_worker.py:22-61 | handling keeps the acceptance count and the log of its task in order and settles it whenever it returns |
| `EmailTheorems.EveryRunKeepsInv` | apps/backend/workers/email_pipeline_worker.py:84-136 | over every run and failure pattern: a task was accepted once if sent plus once per lost acceptance; logs in order; only settled tasks acknowledged |
| `EmailTheorems.MissingNeverHappens` | apps/backend/workers/email_worker.py:25-26 | no handling ever finds its row missing |
| `EmailGuarantees.SentStaysSent` | apps/backend/workers/email_worker.py:27-28 | in every later state a sent task is sent, its log unchanged, and the provider has not been called for it again |
| `EmailGuarantees.AcceptedAtMostOnce` | apps/backend/workers/email_worker.py:36-37 | while no acceptance is lost, the provider takes a task's mail once if it is sent and never otherwise |
| `EmailGuarantees.LostAcceptanceIsRepeated` | apps/backend/workers/email_worker.py:31-37 | an acceptance lost before the row is updated is repeated by the next delivery |
| `EmailGuarantees.LogInOrder` | apps/backend/workers/email_worker.py:38-60 | a task's log has strictly increasing attempt numbers, with any sent entry last |
| `EmailGuarantees.AcknowledgedIsSettled` | apps/backend/workers/email_pipeline_worker.py:126-129 | only entries of sent or failed tasks are acknowledged |
| `EmailGuarantees.FinishedForGood` | apps/backend/workers/email_worker.py:27-28 | a task that is sent, or failed with every entry acknowledged, never changes again |
| `EmailGuarantees.FailedIsFinal` | apps/backend/app/repositories/email_outbox_repository.py:169-176 | a failed task can still change if and only if one of its entries is unacknowledged: `max_retry` plays no part |
| `EmailGuarantees.RetriesAreUnlimited` | apps/backend/app/repositories/email_outbox_repository.py:169-176 | for every `max_retry` and every n there is a run with n retries of one mail |
| `EmailGuarantees.LastUpdateDecides` | apps/backend/workers/email_worker.py:22-60 | however many handlings of one row overlap, the last committed update alone decides its status, and the provider takes the mail once for each that reached it |
| `EmailGuarantees.OverlapUndoesSent` | apps/backend/workers/email_worker.py:22-60 | of two overlapping handlings the second undoes a sent status exactly when it marks a rejection after the first marked an acceptance; when the row ends as sent, for all outcomes |
| `QuoteFeatures.QuoteFeatureState.ResetForTradeDate` | apps/backend/app/quote_processing/runner.py:110-119 | volumes, extremes, minute and kept snapshot start over |
| `QuoteFeatures.QuoteFeatureState.Apply` | apps/backend/app/quote_processing/runner.py:121-182 | new state, snapshot and archived snapshot for every state and quote |
| `QuoteTheorems.FeaturesOfEveryRun` | apps/backend/app/quote_processing/runner.py:121-170 | force is the signed volume since the trade date last changed, outside less inside, which sum to the total; day ranges are exactly those of the prefix sums and of the chip values since then |
| `QuoteTheorems.WholeDateExactly` | apps/backend/app/quote_processing/runner.py:124-126 | the quotes since the last change of date are all those of the trade date if and only if no quote of another date lies after one of it |
| `QuoteTheorems.OrderIsUnbroken` | apps/backend/app/quote_processing/runner.py:124-126 | while the wall clocks of the time stamps do not go back, no date is interrupted |
| `QuoteTheorems.FeaturesOfTradeDate` | apps/backend/app/quote_processing/runner.py:121-170 | while its date is not interrupted, a snapshot's force, force range and chip range are those of the whole trade date so far |
| `QuoteTheorems.ForceLacksEarlier` | apps/backend/app/quote_processing/runner.py:110-137 | in any order, a snapshot's force lacks exactly what its date had before the date last changed, so it is that of the whole date so far if and only if that was nothing |
| `QuoteTheorems.StrengthsOfEveryRun` | apps/backend/app/quote_processing/runner.py:58-61 | the chip is asks less bids, and strengths say where chip and force lie in their day ranges, without clamping |
| `QuoteTheorems.TracksToday` | apps/backend/app/quote_processing/runner.py:124-149 | the machine holds the sums and ranges of the quotes since the trade date last changed |
| `QuoteTheorems.OrderedStamps` | apps/backend/app/quote_processing/runner.py:172-174 | time stamps that never go back have minutes in order, if their UTC offsets are whole minutes, mixed or not, or all the same |
| `QuoteTheorems.MinuteIsLatest` | apps/backend/app/quote_processing/runner.py:172-182 | in any order, the current minute is the latest since the date last changed, and the last snapshot is the one kept |
| `QuoteTheorems.ArchivedExactly` | apps/backend/app/quote_processing/runner.py:172-182 | in any order, a quote archives the snapshot before it exactly when that is of its date and its minute is later than every minute since the date last changed |
| `QuoteTheorems.ArchiveIsClosing` | apps/backend/app/quote_processing/runner.py:172-182 | while the minutes of the quotes are in order the archive is exactly the snapshots of the quotes that close their minute within a trade date |
| `QuoteTheorems.ArchivedMinutesIncrease` | apps/backend/app/quote_processing/runner.py:172-182 | in such an order archived minutes strictly increase |
| `QuoteTheorems.ArchivedIsLastOfMinute` | apps/backend/app/quote_processing/runner.py:172-182 | in such an order each archived snapshot is that of the last quote of its minute |
| `QuoteTheorems.MinuteIsAlwaysKnown` | apps/backend/app/quote_processing/runner.py:174-175 | the branch for a machine without a current minute is never taken |

## Left out

- Redis, SQLAlchemy, Stripe, SendGrid and Shioaji themselves, asyncio tasks, signal handlers, routes, streaming responses, time to live, metrics counters and logging: only their success or failure and their effect on maps and sequences are modelled.
- Parsing of JSON, numbers and time stamps: entries arrive parsed, with absent or unreadable numbers as `None`. Infinite or undefined floating-point values and the rounding of intermediate products are not modelled.
- `BidAskStateMachine.sample_series` in stream_processing/runner.py: it reads two attributes that are never defined.
- Dead-letter publication: a quarantined batch counts as handed off although a failing `xadd` is only logged, and the dead-letter stream is trimmed.
- Emptying the sinks at shutdown when a persist fails: a dead-lettered batch returns 0 rows and can end the drain early, so `FlushDbSinksOnce` promises empty queues only without failures.
- Two workers persisting the same keys at once: each batch meets a table that nobody else changes meanwhile.
- `Backfill`: checkpoints are compared as dates, where the program compares ISO strings; chunk numbers in the progress report are left out, the heartbeat, which repeats the last report, appears only as the fate in which it raises, and `fetch` returns the same rows for a day every time.
- `BackfillMixed.MixedExactly`: an execution never starts beyond the last reported cursor, and the clean run it is compared with finishes.
- `IndexContribution`: which sectors keep a total of 0 depends on the order of events and is not stated; `Strip` knows the ASCII white space only; the minute snapshots and the warm restart are not part of this model.
- `LatestState`: one stream is consumed at a time, so several streams are several turns; the notifier for new extremes is left out.
- `RateLimiter.Config`: the window is not negative and does not change for a key; the lock makes each call atomic, and the clock never goes back.
- `KbarAnalytics.PercentileMonotone`: p lies in [0, 1], as at every call; a histogram has at least one bin, as its default of 20 has.
- `DailyFeatures.RebuildDailyFeatures`: starts from the rows already grouped by code and date, in order; event samples and statistics versions are not part of this model.
- `EmailPipeline.EmailPipelineWorker.DispatchOnce`: the two queries are parameters constrained to what the database may answer, since it may break ties in any order.
- `EmailTheorems.EveryRunKeepsInv`: one pipeline worker, with dispatching and handling each atomic; webhook callbacks, which can mark a sent row failed, are not included.
- `QuoteTheorems.ArchiveIsClosing`: assumes that the minutes of the quotes never go back, as they do not in time order (`QuoteTheorems.OrderedStamps`); the sink of the quote worker repeats the one of `DbSink`.
- Market-summary and OTC-summary workers, billing, one-time passwords, sessions and access control: they repeat these patterns or add case analysis only.
- The React front end, the other heap-snapshot scripts, migrations and column declarations.
