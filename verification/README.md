# Verification of the gateway and analytics core

A Dafny model of the parts of the DSH gateway whose correctness depends on more than one function
at a time, with proofs of what they promise. `dafny verify dfyconfig.toml` checks
the whole project.

| file | models |
|---|---|
| `Basics.dfy` | options, time constants, induction over runs |
| `Pricing.dfy` | both pricers: the rule matcher and estimate, and the engine's own choice and cost |
| `PricedViews.dfy`, `DoubleSums.dfy` | what a stored price charges, field by field; sums as doubles hold them |
| `Requests.dfy` | observations, raw rows, and the merge of the two sources' views of one request |
| `Rollup.dfy` | hourly and daily rollups and latency histograms, rebuilt bucket by bucket |
| `RollupColumns.dfy` | what each rollup column measures, told without naming the measure |
| `Engine.dfy` | `SQLiteAnalyticsEngine`: tables as maps, each transaction one method |
| `Retention.dfy` | runs of the store: view maintenance, compaction, exactly-once across purges |
| `StoreOutcomes.dfy` | every outcome of an ingest and every row that maintenance removes |
| `Compaction.dfy` | which rollup buckets answer for the whole log after any run |
| `DoubleCounting.dfy` | when a key is counted twice: each of the three hypotheses of exactly-once is needed |
| `OrderIndependence.dfy` | streams in any order and with any duplication |
| `Queries.dfy`, `RangeQueries.dfy`, `Paging.dfy` | `summary`, `trend` and `recent`, and what they answer |
| `JsonText.dfy`, `CanonicalJson.dfy`, `CanonicalGraphs.dfy` | canonical JSON text of payloads |
| `JsonReader.dfy` | a reader of RFC 8259 texts, and the round trip of the canonical text |
| `WorkerClient.dfy`, `WorkerProtocol.dfy` | the worker client, and client, channels and worker together |
| `WorkerOutcomes.dfy`, `TimedOutCalls.dfy` | what each step does to the promises of calls, and what becomes of calls that time out |
| `Collector.dfy`, `CollectorSteps.dfy`, `CollectorOutcomes.dfy` | the at-most-once usage collector: poll by poll, await by await, and what a poll comes to |
| `OAuthParser.dfy`, `OAuthManager.dfy`, `OAuthLogin.dfy` | the incremental parser of the device login, its manager, and both together |
| `LoginOutput.dfy`, `OAuthOutcomes.dfy` | the parser told from the lines of its output, the manager told from its callbacks |
| `Runtime.dfy`, `RuntimeOutcomes.dfy` | start, stop and child exit of the managed runtime, and how starts and stops end |
| `ProviderProfile.dfy`, `ProviderSettings.dfy`, `SettingsOutcomes.dfy` | the generated provider profile, the settings planner and `applyModels` |

How it is built:

- Safety is stated over every run. Beside it, the modules whose names end in `Outcomes`, and `PricedViews`,
  `RollupColumns` and `LoginOutput`, say what an operation comes to in terms of its inputs alone, without the
  functions that compute it.
- An operation is a function or relation on values that says what it does, and a method or class
  that does it with the fields and loops of the source and is proved against it. The theorems are
  about the functions and relations, so they hold of the methods.
- SQL tables are maps. A transaction is one method, which commits or leaves the tables as they
  were. Rows that a statement visits in no particular order are visited in an arbitrary order, and
  a limited delete removes an arbitrary choice of expired rows.
- In the concurrent parts the code between two awaits is one step, and steps interleave freely:
  a timer, a failing worker, an exiting process may come at any point.
- The log of every request ever committed, the tickets of promises and the positions in a channel
  are bookkeeping of the model, to state what happens over a whole run.

Statements that hold only under a condition carry it as a `requires`, and lemmas say exactly when they fail:

- Rule choice is ambiguous at the single instant 2^53-1, which the overlap check treats as outside
  every window (`AmbiguousAtLastInstant`). For any rules and any time, `OrderFreeIff` says when the
  order of the rules matters, and `SameChoiceIff` when matcher and engine choose the same rule.
- The two pricing states differ exactly as `StatesAgreeExactly` says: a null count at a zero rate is
  unknown to the engine and nothing to the estimate.
- The engine accepts events up to 365 days old but keeps raw rows for 30 days, so a late event makes
  a bucket forget its purged requests. `CommitAnswersForTheLogIff` says exactly when, before the
  commit, and `BucketAnswersIff` says exactly which buckets answer for the whole log after any run.
- Exactly-once counting needs the source key of an event to determine its date, dates not to lie after
  their receipt, and maintenance time not to run ahead of the clock. Under these no key is counted
  again; without any one of them a run counts a key twice (`EachHypothesisIsNeeded`, `CountedTwice`),
  and `CountedAgainIff` says which cases do.
- The order of a coherent set of observations does not matter if and only if any two views of a request
  are such that the merged view can be priced exactly when both can, or neither can (`OrderFreeIffSteady`).
- Canonical text prints bigint and undefined as strings (`NotJsonCollides`).
- A call that timed out is never executed if it was not posted before; if it was, both happen
  (`SettledUnpostedNeverExecuted`, `TimedOutYetExecuted`, `TimedOutAndLost`).
- A response to a request that still waits in the outbox breaks the outbox, and no other response does
  (`OnResponseKeepsInvariant`, `UnsolicitedAnswerBreaksOutbox`).
- A collector whose `dispose` times out before the poll it waits for reports itself available again if
  and only if that poll then stores its whole batch (`AvailableAfterDisposeIff`, `DisposedYetAvailable`).
- Chunks of the login output count two bytes more for each cut inside a surrogate pair, and differ in
  nothing else (`ChunkingCostsBytes`, `CutPairMatters`).
- `finish` of the parser can emit ready a second time (`FinishReportsReadyIff`).
- A success marker before the ready event in one batch leaves a terminal login reporting `pending` for
  good (`HonestRunIff`, `EarlySuccessStaysPending`), because line 266 of the manager does not look at
  `terminal`. A success marker with no ready in its batch leaves `start` waiting for good
  (`UnansweredRunIff`), because lines 281-283 settle the ready promise for every terminal state but
  success. So the cuts between chunks of output can decide what becomes of a login
  (`OneChunkReportsPending`, `TwoChunksStrandStart`); `EverySplitAgreesIff` says when they cannot.
- A start that begins while a stop is unresolved can make that stop resolve as stopped with a child
  about to be spawned, or lose its child. `StartIsSafeIff` says that exactly these starts can, and
  `JoiningIsReachable` that such a state is reached.


## Model

| member | source | states |
|---|---|---|
| `Pricing.ValidateOverlaps` | packages/analytics/src/pipeline/pricing.ts:163-174 | finds a clashing pair of rules exactly when the list holds one, so the constructor accepts a list exactly when none of its pairs clash |
| `Pricing.MatchIsUnique` | packages/analytics/src/pipeline/pricing.ts:38-44 | among accepted rules, two matching rules of maximal specificity are at the same position |
| `Pricing.AcceptedReordered` | packages/analytics/src/pipeline/pricing.ts:32-36 | whether a rule list is accepted does not depend on the order of the rules |
| `Pricing.MatcherPicksStrictBest` | packages/analytics/src/pipeline/pricing.ts:38-44 | the matcher picks the one matching rule that is more specific than every other, and nothing when none matches |
| `Pricing.EnginePicksStrictBest` | packages/analytics/src/storage/engine.ts:500-505 | the engine's sort-first choice picks that same rule |
| `Pricing.PricersChooseTheSameRule` | packages/analytics/src/pipeline/pricing.ts:38-44 | for accepted rules and any time before 2^53-1, matcher and engine choose the same rule, whatever the order of the rules and the collation |
| `Pricing.AmbiguousAtLastInstant` | packages/analytics/src/pipeline/pricing.ts:180-184 | at the last safe instant two open-ended rules that the overlap check accepts both match, and the choice depends on their order |
| `Pricing.OrderFreeIff` | packages/analytics/src/pipeline/pricing.ts:38-44 | for any rules and any time, the choice is independent of the order of the rules if and only if nothing matches or one match is strictly most specific |
| `Pricing.SortedHead` | packages/analytics/src/storage/engine.ts:500-505 | the stable sort puts the first rule in front that no other rule comes before |
| `Pricing.SameChoiceIff` | packages/analytics/src/storage/engine.ts:500-505 | for any valid rules and any time, the last instant included, matcher and engine choose the same rule if and only if no match comes before the matcher's choice in the engine's order |
| `Pricing.ApplyRule` | packages/analytics/src/storage/engine.ts:517-548 | the accumulating loop computes the priced columns, or throws exactly when a component or the total leaves the safe integers |
| `Pricing.EstimateComponent` | packages/analytics/src/pipeline/pricing.ts:106-120 | cost, known and missing of one component |
| `Pricing.EstimatePricing` | packages/analytics/src/pipeline/pricing.ts:52-101 | rule, known cost, state and missing components of the estimate, in double arithmetic, with a rule or without |
| `Pricing.KnownCostsAgree` | packages/analytics/src/pipeline/pricing.ts:63-84 | double additions are exact as long as the engine does not throw |
| `Pricing.PricersAgree` | packages/analytics/src/storage/engine.ts:531-548 | when the engine does not throw, known costs agree; states agree unless a null count meets a zero rate |
| `Pricing.StatesAgreeExactly` | packages/analytics/src/pipeline/pricing.ts:111-120 | the two pricing states agree if and only if no null count meets a zero rate or it makes no difference to the state |
| `Pricing.EstimateAgreesWithPrice` | packages/analytics/src/pipeline/pricing.ts:46-49 | from the rule list on: estimate and stored price have the same rule and known cost, and the same state and total unless a null count meets a zero rate |
| `Pricing.TokenCostBound` | packages/analytics/src/storage/engine.ts:111-113 | a token cost is within half a micro of count times rate over a million |
| `Pricing.TotalCostBound` | packages/analytics/src/storage/engine.ts:531-546 | the known cost of all six components is within two and a half micros of the exact value |
| `Pricing.CostMonotone` | packages/analytics/src/storage/engine.ts:106-113 | a component cost grows with its count and with its rate |
| `Pricing.KnownCostMonotone` | packages/analytics/src/storage/engine.ts:531-546 | so does the known cost, also when a count or rate becomes known |
| `Pricing.StoredCostsAreSafe` | packages/analytics/src/storage/engine.ts:106-109 | every cost of a priced row is within 0..2^53-1; otherwise pricing throws |
| `Requests.Merge` | packages/analytics/src/storage/engine.ts:474-498 | a merged request keeps its id and its time, and has seen the new source; `MergeIsLeastUpperBound` says what its view is |
| `Requests.ConflictIsSymmetric` | packages/analytics/src/storage/engine.ts:478-494 | whether two views conflict does not depend on which came first |
| `Requests.MergeIsSymmetric` | packages/analytics/src/storage/engine.ts:478-494 | neither does the merged view |
| `Requests.EitherOrder` | packages/analytics/src/storage/engine.ts:456-498 | two sources build the same request in either order, or neither order accepts the second |
| `Requests.MergeIsLeastUpperBound` | packages/analytics/src/storage/engine.ts:474-498 | two views merge if and only if some view reports whatever either reports, and the merged view is the least such |
| `PricedViews.EachColumnChargesItsField` | packages/analytics/src/storage/engine.ts:531-548 | each cost column of a stored price charges its own field of the request at its own rate of the chosen rule, rounded to the nearest micro, and is null exactly when one of the two is unknown; known cost, estimate and state follow from the columns |
| `PricedViews.OtherFieldsDoNotMatter` | packages/analytics/src/storage/engine.ts:540-545 | a cost column stays as it was when any other field changes |
| `PricedViews.ThrowsIff` | packages/analytics/src/storage/engine.ts:106-113 | pricing throws exactly when those columns or their sum leave the safe integers |
| `PricedViews.NoRuleNoCost` | packages/analytics/src/storage/engine.ts:506-515 | without a rule nothing is charged and the request is unpriced |
| `PricedViews.AppliedRule` | packages/analytics/src/storage/engine.ts:500-505 | the rule applied covers the request and goes before every other rule that does, by named dimensions, then by the later start, then by id; none is applied exactly when none covers it |
| `PricedViews.SpecificityCounts` | packages/analytics/src/storage/engine.ts:551-553 | the specificity of a rule is the number of dimensions that it names |
| `DoubleSums.SumIsNearest` | packages/analytics/src/pipeline/pricing.ts:63-84 | a sum of the estimator is the double nearest to the exact sum, and of two that are equally near the one with the even significand |
| `DoubleSums.SumIsDouble` | packages/analytics/src/pipeline/pricing.ts:63-84 | and it is a double |
| `Rollup.BucketStart` | packages/analytics/src/storage/engine.ts:90-92 | a time lies in the bucket that starts at its bucket start |
| `Rollup.SumColumn` | packages/analytics/src/storage/engine.ts:562-569 | a summed column over a set of rows, in whatever order the rows come |
| `Rollup.TimeRange` | packages/analytics/src/storage/engine.ts:569 | the first and last time of a group are those of rows of the group and bound all of them |
| `Rollup.Aggregate` | packages/analytics/src/storage/engine.ts:561-572 | all summed columns and the time range of a group |
| `Rollup.InsertUsage` | packages/analytics/src/storage/engine.ts:560-572 | after the insert the bucket is the group-by of the rows, other buckets are untouched |
| `Rollup.InsertLatency` | packages/analytics/src/storage/engine.ts:573-582 | likewise the latency histogram of one metric |
| `Rollup.RecomputeBuckets` | packages/analytics/src/storage/engine.ts:555-584 | every touched bucket becomes the group-by of the raw table, every other bucket stays |
| `Rollup.OnlyTheBucketMatters` | packages/analytics/src/storage/engine.ts:570-571 | a bucket's group-by depends on the rows of that bucket alone |
| `Rollup.AggregatesUnique` | packages/analytics/src/storage/engine.ts:561-569 | a group has only one aggregate |
| `RollupColumns.FieldMovesItsColumns` | packages/analytics/src/storage/engine.ts:561-572 | when one request of a group differs in one field, the sum of that field moves by the difference, its count of known values by one where it became known, and no other of the 24 columns moves |
| `RollupColumns.OutcomeMoves` | packages/analytics/src/storage/engine.ts:564 | another outcome moves a request from one outcome column to another and changes no other |
| `RollupColumns.StateMoves` | packages/analytics/src/storage/engine.ts:568 | another pricing state moves it between the pricing columns and changes no other |
| `RollupColumns.OneRequestMore` | packages/analytics/src/storage/engine.ts:561-572 | one request more adds its own fields to the 24 columns |
| `RollupColumns.OnlyRequest` | packages/analytics/src/storage/engine.ts:561-572 | a group of one request has that request's own fields in its columns and its time as first and last |
| `RollupColumns.GroupsPartition` | packages/analytics/src/storage/engine.ts:564-568 | the requests of a group are the sum of its outcome columns and the sum of its pricing columns, and their number |
| `RollupColumns.SameGroupIff` | packages/analytics/src/storage/engine.ts:563-571 | two requests share a rollup row exactly when they share bucket, dimensions, key version and currency, null counting as empty |
| `RollupColumns.KeyCarries` | packages/analytics/src/storage/engine.ts:563 | the key of a rollup row carries its requests' own dimensions |
| `RollupColumns.BoundIsLeast` | packages/analytics/src/storage/engine.ts:574-578 | the bound of a latency is the least of the list that is not below it, and infinity exactly when all are |
| `RollupColumns.SampleIff` | packages/analytics/src/storage/engine.ts:576-580 | a request is counted in a histogram bucket exactly when it is in the group and its latency is known and falls under that bound |
| `Engine.DeleteBatches` | packages/analytics/src/storage/engine.ts:362-374 | a batched delete removes only expired rows, and all of them unless there are more than ten thousand |
| `Engine.SQLiteAnalyticsEngine.ApplyPricing` | packages/analytics/src/storage/engine.ts:500-549 | the price of a merged view, chosen and computed by the rules |
| `Engine.SQLiteAnalyticsEngine.RecomputeRollups` | packages/analytics/src/storage/engine.ts:219-222 | hour and day of the stored row are rebuilt, all other buckets and tables are unchanged |
| `Engine.SQLiteAnalyticsEngine.IngestRequest` | packages/analytics/src/storage/engine.ts:189-226 | refused, duplicate, dead letter, inserted, enriched or thrown, each with exactly the tables it leaves; a throw leaves all of them as they were |
| `Engine.SQLiteAnalyticsEngine.Maintain` | packages/analytics/src/storage/engine.ts:362-376 | each table is purged by its own cutoff; an invalid time changes nothing |
| `Engine.SQLiteAnalyticsEngine.Summary` | packages/analytics/src/storage/engine.ts:264-281 | totals and currency over the daily rollup rows that reach into the range |
| `Engine.SQLiteAnalyticsEngine.Trend` | packages/analytics/src/storage/engine.ts:283-302 | totals per bucket, ascending, cut at a thousand buckets |
| `Engine.SQLiteAnalyticsEngine.Recent` | packages/analytics/src/storage/engine.ts:311-336 | the latest rows before the cursor, and a next cursor exactly when more are left |
| `Engine.SQLiteAnalyticsEngine.Close` | packages/analytics/src/storage/engine.ts:378-389 | a closed engine answers no call any more |
| `Queries.Summarize` | packages/analytics/src/storage/engine.ts:271-278 | the SQL sums, and a currency exactly when all priced groups share one |
| `Queries.SelectTrend` | packages/analytics/src/storage/engine.ts:293-302 | one point per bucket, ascending, none missing below the row limit |
| `Queries.SelectLatest` | packages/analytics/src/storage/engine.ts:322 | the limit latest eligible rows, latest first |
| `Queries.Recent` | packages/analytics/src/storage/engine.ts:311-336 | one row more than the page decides whether there is a next cursor |
| `Retention.AcceptKeepsRollups` | packages/analytics/src/storage/engine.ts:217-223 | rebuilding only the touched buckets keeps all other buckets exact |
| `Retention.MaintenanceKeepsRollups` | packages/analytics/src/storage/engine.ts:362-374 | so does a purge, from its raw cutoff on |
| `Retention.RollupInvariant` | packages/analytics/src/storage/engine.ts:217-223 | in every reachable state, every bucket at or after the highest raw cutoff used so far is the group-by of the raw table |
| `Retention.CompactionPreservesAnswers` | packages/analytics/src/storage/engine.ts:362-374 | if nothing is accepted below the highest raw cutoff, every unexpired bucket is the group-by of all requests ever committed, purged ones included |
| `Compaction.CommitAnswersForTheLogIff` | packages/analytics/src/storage/engine.ts:192-222 | before a commit into a bucket, for usage rows and for histograms: the bucket will answer for the whole log if and only if no row that matters to the table and was logged for the bucket has been purged, the row to be written apart |
| `Compaction.BucketAnswersIff` | packages/analytics/src/storage/engine.ts:206-224 | over any run, late events included, an unexpired bucket of either table answers for all requests ever committed if and only if the last commit into it found none purged that matters to it; for histograms only requests with a latency matter |
| `Compaction.ExactForMoreIffSame` | packages/analytics/src/storage/engine.ts:555-584 | a bucket that is exact for some rows is exact for more if and only if none of those matter to it |
| `Retention.PurgedReceiptIsGone` | packages/analytics/src/storage/engine.ts:366-371 | a receipt is purged only when the event it guards would already be refused |
| `Retention.ExactlyOnce` | packages/analytics/src/storage/engine.ts:189-204 | no two events of a run count the same source key, although receipts are purged |
| `Retention.CountedIff` | packages/analytics/src/storage/engine.ts:189-206 | in any state an event is counted exactly when it is in retention, has no receipt, does not conflict with the row of its request, and can be priced |
| `DoubleCounting.IngestExists` | packages/analytics/src/storage/engine.ts:189-226 | every delivery has an outcome in every state of the tables |
| `DoubleCounting.MaintenanceExists` | packages/analytics/src/storage/engine.ts:362-376 | every maintenance run can take place in every state of the tables |
| `DoubleCounting.CountedAgainIff` | packages/analytics/src/storage/engine.ts:189-204 | an event counted, a purge, and another event of the same key and request: the second is counted again if and only if receipt and row of the first have expired and the second has not |
| `DoubleCounting.HypothesesExcludeRecounts` | packages/analytics/src/storage/engine.ts:192-200 | with one date per key, no date after its receipt and no maintenance ahead of the clock there is no such case |
| `DoubleCounting.EachHypothesisIsNeeded` | packages/analytics/src/storage/engine.ts:366-371 | for each of the three there is such a case that violates it alone |
| `DoubleCounting.CountedTwice` | packages/analytics/src/storage/engine.ts:189-204 | and each of these cases happens: its key is counted twice |
| `Retention.StoredCostsStaySafe` | packages/analytics/src/storage/engine.ts:531-548 | in every reachable state every stored cost is a safe integer |
| `StoreOutcomes.DispositionIff` | packages/analytics/src/storage/engine.ts:189-226 | each of the six outcomes of a delivery with its exact condition, in terms of its age, its receipt, the stored request and the price |
| `StoreOutcomes.CommitStores` | packages/analytics/src/storage/engine.ts:206-224 | a committed delivery stores the one row of its request: the view that both sources report, both fingerprints, the first and last time of delivery and the price, with its receipt and counter |
| `StoreOutcomes.DeadLetterSays` | packages/analytics/src/storage/engine.ts:196-216 | a dead letter keeps the observation under a number of its own and says which contradiction it was; only the second kind writes a receipt |
| `StoreOutcomes.DuplicateRenews` | packages/analytics/src/storage/engine.ts:197-201 | a duplicate renews its receipt, which keeps its first time, and changes nothing else |
| `StoreOutcomes.NoTrace` | packages/analytics/src/storage/engine.ts:189-193 | a delivery that is too old or that throws leaves the store as it was |
| `StoreOutcomes.MaintenanceSweeps` | packages/analytics/src/storage/engine.ts:362-374 | maintenance removes from each table exactly the rows older than 30 or 365 whole days by the table's own time, or ten thousand of them when there are more, and touches nothing else |
| `StoreOutcomes.CountersCount` | packages/analytics/src/storage/engine.ts:636-638 | over any run the counters are the numbers of deliveries committed and dead-lettered, purges notwithstanding |
| `OrderIndependence.RedeliveryIsDuplicate` | packages/analytics/src/storage/engine.ts:195-200 | a redelivered observation is a duplicate and changes no row |
| `OrderIndependence.StoredAsExpected` | packages/analytics/src/storage/engine.ts:206-215 | whichever source comes first, the stored request is the one that the set of observations determines |
| `OrderIndependence.StreamReflected` | packages/analytics/src/storage/engine.ts:189-226 | after any prefix of a stream the raw table and receipts reflect exactly the set delivered so far, as far as it can be priced |
| `OrderIndependence.OrderDoesNotMatter` | packages/analytics/src/storage/engine.ts:189-226 | two streams that deliver the same set of observations, in any order and with any duplication, end in the same raw table, received times aside, and the same rollups and histograms, provided that merged views can be priced exactly when both views can, or neither can |
| `OrderIndependence.OrderMattersIff` | packages/analytics/src/storage/engine.ts:206-224 | for two sources of one request that condition is exact: without it the two orders end in different raw tables |
| `OrderIndependence.OrderFreeIffSteady` | packages/analytics/src/storage/engine.ts:206-224 | and so for any coherent set of observations: all streams that deliver it end in the same raw table if and only if the condition holds |
| `RangeQueries.PlacedThroughout` | packages/analytics/src/storage/engine.ts:561-571 | every rollup row of a reachable store, however old, has its times inside its own bucket |
| `RangeQueries.SummaryIsSandwiched` | packages/analytics/src/storage/engine.ts:264-280 | a summary lies between the aggregate of the range and that of the whole days it touches |
| `RangeQueries.AlignedSummaryIsExact` | packages/analytics/src/storage/engine.ts:264-280 | on day boundaries it is exactly the aggregate of the matching requests, with their common currency |
| `RangeQueries.SummaryOfTheRawTable` | packages/analytics/src/storage/engine.ts:264-280 | both hold of the raw table in every reachable state, for every valid range from the highest raw cutoff on |
| `RangeQueries.SummaryOfTheLog` | packages/analytics/src/storage/engine.ts:264-280 | and of all requests ever committed, for every valid range from the highest rollup cutoff on, when nothing was accepted late |
| `RangeQueries.TrendIsCompleteIff` | packages/analytics/src/storage/engine.ts:283-301 | the row limit cuts a trend exactly when more than a thousand buckets have data |
| `RangeQueries.DayTrendIsComplete` | packages/analytics/src/storage/validation.ts:185-190 | a day trend over a valid range has at most 367 points, so it is never cut |
| `RangeQueries.CompleteTrendAddsUp` | packages/analytics/src/storage/engine.ts:293-301 | the points of a complete trend add up to the total of its rollup rows |
| `RangeQueries.DayTrendAddsUpToSummary` | packages/analytics/src/storage/engine.ts:283-302 | on day boundaries the day trend adds up to the summary, column by column |
| `RangeQueries.TrendPointIsExact` | packages/analytics/src/storage/engine.ts:283-302 | a point of a trend, hourly or daily, is the aggregate of the matching requests of its bucket, with their common currency, and its bucket has some |
| `RangeQueries.BucketHasPoint` | packages/analytics/src/storage/engine.ts:293-301 | every bucket with a matching request has a point, unless the row limit cuts the trend before it |
| `RangeQueries.TrendOfTheRawTable` | packages/analytics/src/storage/engine.ts:283-302 | both hold of the raw table in every reachable state, from the highest raw cutoff on |
| `RangeQueries.TrendOfTheLog` | packages/analytics/src/storage/engine.ts:283-302 | and of all requests ever committed, from the highest rollup cutoff on, when nothing was accepted late |
| `Paging.KeysStayThroughout` | packages/analytics/src/storage/engine.ts:474-490 | however a row is enriched, its time and id, its place in the order, never change |
| `Paging.KeysDecrease` | packages/analytics/src/storage/engine.ts:316-335 | keys strictly decrease within pages and across them |
| `Paging.EveryRowExactlyOnce` | packages/analytics/src/storage/engine.ts:311-336 | following the cursor to the end returns every row present at the first page and matching throughout exactly once, with any ingests in between |
| `Paging.StaticPagesConcatenate` | packages/analytics/src/storage/engine.ts:311-336 | on an unchanged table the pages concatenate to the sorted, filtered table |
| `Paging.PageIsLatestFirst` | packages/analytics/src/storage/engine.ts:311-336 | in terms of the rows' own fields: a page shows rows of the range that match every filter given and lie before the cursor, latest first and ties by the greater id; what it leaves out comes later in that order, and its cursor is its last row |
| `JsonText.UnitsApart` | packages/analytics/src/pipeline/hashing.ts:60 | an escaped code unit is recovered with what follows it |
| `JsonText.EscapesApart` | packages/analytics/src/pipeline/hashing.ts:60 | an escaped string is recovered up to its closing quote, lone surrogates included |
| `JsonText.QuotesApart` | packages/analytics/src/pipeline/hashing.ts:60 | two quoted strings inside longer texts are equal, with equal rests, if the texts are |
| `JsonText.JoinsApart` | packages/analytics/src/pipeline/hashing.ts:70-75 | a closed, comma-joined list is recovered item by item with what follows it |
| `CanonicalJson.SortIsAscending` | packages/analytics/src/pipeline/hashing.ts:74 | sorting distinct keys gives them in strictly ascending code-unit order |
| `CanonicalJson.AscendingIsUnique` | packages/analytics/src/pipeline/hashing.ts:74 | a set of keys has one ascending order |
| `CanonicalJson.LessIff` | packages/analytics/src/pipeline/hashing.ts:74 | keys are ordered by the first code unit in which they differ, a proper prefix first |
| `CanonicalJson.PrimitivesApart` | packages/analytics/src/pipeline/hashing.ts:57-66 | two printed primitives agree only when they are taken for the same value |
| `CanonicalJson.TreesApart` | packages/analytics/src/pipeline/hashing.ts:56-79 | followed by anything that can follow a value, no printed tree is taken for a different text |
| `CanonicalJson.CanonicalTextIsInjective` | packages/analytics/src/pipeline/hashing.ts:51-54 | canonical texts are equal if and only if the values are equal with object key order ignored, -0 equal to 0, and bigint and undefined read as the strings they print |
| `CanonicalJson.NotJsonCollides` | packages/analytics/src/pipeline/hashing.ts:65-66 | a bigint collides with the string of its digits and an n, undefined with the string undefined |
| `JsonReader.StringReadsBack` | packages/analytics/src/pipeline/hashing.ts:60 | a reader of JSON strings, written from section 7 of RFC 8259, reads an escaped string back up to its closing quotation mark |
| `JsonReader.PrimitiveReadsBack` | packages/analytics/src/pipeline/hashing.ts:57-66 | a printed primitive is read back as the value that it is taken for |
| `JsonReader.TreeReadsBack` | packages/analytics/src/pipeline/hashing.ts:56-79 | a printed tree is read back inside any text that can go on after it |
| `JsonReader.CanonicalTextReadsBack` | packages/analytics/src/pipeline/hashing.ts:52-79 | a reader of RFC 8259 texts that knows nothing of the printer reads the canonical text back as the tree with the keys of its objects sorted |
| `JsonReader.SortedIsSame` | packages/analytics/src/pipeline/hashing.ts:74-75 | what is read back has its keys in ascending order and is the same JSON value as the tree that was printed |
| `CanonicalGraphs.Canonicalize` | packages/analytics/src/pipeline/hashing.ts:56-79 | the recursion returns the specified text or its first failure, and leaves the seen set as it found it |
| `CanonicalGraphs.CanonicalText` | packages/analytics/src/pipeline/hashing.ts:52-54 | the same from an empty seen set |
| `CanonicalGraphs.CanonicalIffUnfoldable` | packages/analytics/src/pipeline/hashing.ts:56-79 | it succeeds exactly on values that unfold to a finite tree of finite numbers, shared objects included, and then prints that tree |
| `CanonicalGraphs.SameTextIffSameJson` | packages/analytics/src/pipeline/hashing.ts:51-79 | two values that succeed have the same text exactly when they unfold to the same JSON |
| `WorkerClient.AllocateFindsFree` | packages/analytics/src/storage/client.ts:145-152 | fewer pending ids than attempts over the wrapping range: a free id is always found |
| `WorkerClient.AnalyticsWorkerClient.AllocateId` | packages/analytics/src/storage/client.ts:145-152 | the loop returns the first free id and never reaches its throw |
| `WorkerClient.AnalyticsWorkerClient.PostMessage` | packages/analytics/src/storage/client.ts:154-166 | a pending request is sent, or settled when posting throws |
| `WorkerClient.AnalyticsWorkerClient.Ask` | packages/analytics/src/storage/client.ts:127-143 | turned away, posted or put in the outbox |
| `WorkerClient.AnalyticsWorkerClient.RequestOperation` | packages/analytics/src/storage/client.ts:123-143 | the promise has its own ticket and the invariant is kept |
| `WorkerClient.AnalyticsWorkerClient.ReceiveReady` | packages/analytics/src/storage/client.ts:168-176 | the outbox is flushed in order, also when already closing |
| `WorkerClient.AnalyticsWorkerClient.ReceiveResponse` | packages/analytics/src/storage/client.ts:181-188 | a pending request is settled with the answer, an unknown id is dropped |
| `WorkerClient.AnalyticsWorkerClient.FailAll` | packages/analytics/src/storage/client.ts:197-214 | every pending promise is rejected and nothing stays in the outbox |
| `WorkerClient.AnalyticsWorkerClient.TimeoutFires` | packages/analytics/src/storage/client.ts:133-138 | the request leaves pending and outbox, and its promise is rejected |
| `WorkerClient.AnalyticsWorkerClient.Close` | packages/analytics/src/storage/client.ts:103-107 | the state is closing at once, and only the first call does anything |
| `WorkerClient.AnalyticsWorkerClient.ResumeClose` | packages/analytics/src/storage/client.ts:107-119 | ready, drained, close answered, then closed with everything rejected |
| `WorkerClient.RequestKeepsInvariant` | packages/analytics/src/storage/client.ts:127-143 | a call keeps the bound on pending, the accounting of promises and a clean outbox |
| `WorkerClient.OnReadyKeepsInvariant` | packages/analytics/src/storage/client.ts:168-176 | so does the flush |
| `WorkerClient.OnResponseKeepsInvariant` | packages/analytics/src/storage/client.ts:181-188 | a response keeps it if and only if it is not to a request that still waits in the outbox |
| `WorkerClient.OnTimeoutKeepsInvariant` | packages/analytics/src/storage/client.ts:133-138 | so does a timeout |
| `WorkerClient.FailKeepsInvariant` | packages/analytics/src/storage/client.ts:197-214 | so does a failure |
| `WorkerClient.CloseRequestKeepsInvariant` | packages/analytics/src/storage/client.ts:109-111 | sending the close request keeps it, so nothing is posted after the close request |
| `WorkerClient.CloseRequestIsPosted` | packages/analytics/src/storage/client.ts:109-111 | the close request is never turned away: it is posted as the one pending request, unless posting itself throws |
| `WorkerClient.ContinueCloseKeepsInvariant` | packages/analytics/src/storage/client.ts:107-119 | so does every stage of close |
| `WorkerClient.NothingLeftUnsettled` | packages/analytics/src/storage/client.ts:197-214 | a failed or closed client has settled every promise it gave out |
| `WorkerClient.UnsolicitedAnswerBreaksOutbox` | packages/analytics/src/storage/client.ts:181-188 | an answer to a request that was never posted leaves its id in the outbox |
| `WorkerProtocol.PostAllKeepsOrdered` | packages/analytics/src/storage/client.ts:174 | flushing the outbox posts in issue order |
| `WorkerProtocol.NothingAfterClose` | packages/analytics/src/storage/worker-entry.ts:21-36 | an executed close request is the last one posted, taken and executed |
| `WorkerProtocol.ResponseIsForPosted` | packages/analytics/src/storage/worker-entry.ts:23-34 | a response in the channel belongs to a posted request and carries the reply to it |
| `WorkerProtocol.StepKeepsGood` | packages/analytics/src/storage/worker-entry.ts:16-38 | every step of client, channels and worker keeps order, sequential execution and truthful answers |
| `WorkerProtocol.RefinesSequentialStore` | packages/analytics/src/storage/worker-entry.ts:16-38 | in every interleaving of fewer than 2^31-1 calls the worker-backed store is a sequential store: at most once, in issue order, each answer the engine's own at that position, nothing after close |
| `WorkerOutcomes.FailureSettlesAll` | packages/analytics/src/storage/client.ts:67-73 | a worker that exits from a starting or ready client, breaks down or reports a fatal error fails the client: every open promise is rejected and the settled ones keep their answers; a client that is closing is left alone by an exit |
| `WorkerOutcomes.NothingAfterFailure` | packages/analytics/src/storage/client.ts:127-214 | at every later point of a run no call has been posted since, and every promise given out is settled |
| `WorkerOutcomes.StepSettlesAs` | packages/analytics/src/storage/client.ts:103-214 | every step of the protocol settles just the promises that its event concerns, each with what the event says |
| `WorkerOutcomes.SessionCloses` | packages/analytics/src/storage/client.ts:103-189 | a whole session takes place: a call is posted, executed and answered, a close called meanwhile is then executed, and the client is closed |
| `TimedOutCalls.StepIsOpen` | packages/analytics/src/storage/client.ts:154-188 | whatever a step posts belongs to promises that are still open |
| `TimedOutCalls.SettledUnpostedNeverExecuted` | packages/analytics/src/storage/client.ts:133-138 | a call that is settled before it is posted, by its timeout for one, is never executed |
| `TimedOutCalls.TimedOutInOutbox` | packages/analytics/src/storage/client.ts:133-138 | a run in which a call times out in the outbox |
| `TimedOutCalls.TimedOutYetExecuted` | packages/analytics/src/storage/client.ts:133-138 | a run in which a call has timed out and is executed all the same |
| `TimedOutCalls.TimedOutAndLost` | packages/analytics/src/storage/client.ts:133-138 | and one in which it was posted and taken, but is not executed |
| `Collector.PollConserves` | packages/analytics/src/pipeline/collector.ts:157-203 | one poll keeps stored a prefix of popped and counts every popped item once |
| `Collector.RunConserves` | packages/analytics/src/pipeline/collector.ts:157-203 | so does every run of polls, and at most one of them loses anything |
| `Collector.LatchedForever` | packages/analytics/src/pipeline/collector.ts:108-120 | after a refused item nothing is popped or stored any more |
| `Collector.UnlatchedLosesNothing` | packages/analytics/src/pipeline/collector.ts:194-202 | a run without possible loss has stored exactly what it popped, and the other way round |
| `Collector.HttpUsageCollector.Status` | packages/analytics/src/pipeline/collector.ts:91-106 | a managed collector reports itself sole consumer exactly when nothing popped is missing from the store, and the count of what is missing |
| `Collector.HttpUsageCollector.Poll` | packages/analytics/src/pipeline/collector.ts:108-120 | each poll extends the run by the specified step; the report's counts add up; a loss and the latch coincide; it ends available as `ExecutePoll` says |
| `Collector.HttpUsageCollector.ExecutePoll` | packages/analytics/src/pipeline/collector.ts:133-204 | the same for a poll that reaches the queue, disposed of meanwhile or not; it ends available exactly when the queue answered and no item was refused |
| `Collector.HttpUsageCollector.StoreItems` | packages/analytics/src/pipeline/collector.ts:159-193 | the loop stores up to the first refused item and counts that one and the rest as possibly lost |
| `Collector.HttpUsageCollector.Dispose` | packages/analytics/src/pipeline/collector.ts:122-131 | disposing changes no count |
| `CollectorSteps.OneMorePoll` | packages/analytics/src/pipeline/collector.ts:157-203 | a batch stored item by item up to a refusal is one whole poll |
| `CollectorSteps.StepRefines` | packages/analytics/src/pipeline/collector.ts:108-204 | whatever happens between two awaits, the tally is that of the answered polls and of the part of a batch stored so far |
| `CollectorSteps.RunRefinesWholePolls` | packages/analytics/src/pipeline/collector.ts:108-204 | so in every interleaving of polls, answers and dispose the collector does what whole polls do one after the other |
| `CollectorSteps.AccountedThroughout` | packages/analytics/src/pipeline/collector.ts:157-203 | at every step, also within a poll, stored is a prefix of popped and each popped item is stored, lost or still waiting |
| `CollectorSteps.OverForever` | packages/analytics/src/pipeline/collector.ts:109-112 | after a loss, or a dispose with no poll waiting, nothing is dequeued, stored or counted again |
| `CollectorSteps.AvailableAfterDisposeIff` | packages/analytics/src/pipeline/collector.ts:122-131 | after dispose has ended, a collector with no poll waiting is available if and only if a poll outlasted dispose and had its whole batch stored |
| `CollectorSteps.DisposedYetAvailable` | packages/analytics/src/pipeline/collector.ts:126-130 | such a run: dispose times out, then the poll is answered |
| `CollectorOutcomes.AnsweredPoll` | packages/analytics/src/pipeline/collector.ts:157-203 | an answered poll adds its batch to what was popped and to what was stored the items before the first refused one, with the dead letters among them counted apart; the rest may be lost, and it latches exactly when there is a rest |
| `CollectorOutcomes.BackoffDoubles` | packages/analytics/src/pipeline/collector.ts:149-153 | after n failed polls in a row the backoff is the initial one doubled n times, or the maximum |
| `CollectorOutcomes.EveryPollHappens` | packages/analytics/src/pipeline/collector.ts:133-204 | for any batch and any item that the store refuses first, steps lead from a collector that can poll to one that has polled, and it can poll again exactly when nothing was lost |
| `CollectorOutcomes.FailedPollHappens` | packages/analytics/src/pipeline/collector.ts:141-155 | a poll that the queue does not answer ends unavailable with nothing counted, and another poll can follow |
| `OAuthParser.FirstNewline` | packages/gateway/src/host/oauth/parser.ts:62-68 | the line end found is the first newline |
| `OAuthParser.CodexDeviceLoginParser.ConsumeBuffer` | packages/gateway/src/host/oauth/parser.ts:61-69 | the loop parses the complete lines of the buffer in order and keeps the rest |
| `OAuthParser.CodexDeviceLoginParser.FeedText` | packages/gateway/src/host/oauth/parser.ts:49-70 | one feed, limits included |
| `OAuthParser.CodexDeviceLoginParser.FinishOutput` | packages/gateway/src/host/oauth/parser.ts:72-91 | the last line and a final ready |
| `OAuthParser.ConsumeSplit` | packages/gateway/src/host/oauth/parser.ts:61-69 | consuming a longer buffer is consuming a part and then what it leaves with the rest |
| `OAuthParser.Utf8LengthAdds` | packages/gateway/src/host/oauth/parser.ts:51 | byte lengths add up unless the cut falls inside a surrogate pair |
| `OAuthParser.ChunkingCostsBytes` | packages/gateway/src/host/oauth/parser.ts:49-70 | any split of acceptable output gives the events and fields of the whole, counts two bytes more for each cut inside a surrogate pair, and throws exactly when that count exceeds the limit |
| `OAuthParser.ChunkingDoesNotMatter` | packages/gateway/src/host/oauth/parser.ts:49-70 | if feeding the whole output does not throw, feeding a split of it does the same, events and state, if and only if no cut falls inside a surrogate pair |
| `OAuthParser.CutPairMatters` | packages/gateway/src/host/oauth/parser.ts:51 | the shortest cut that makes a difference |
| `OAuthParser.ReadyAtMostOnce` | packages/gateway/src/host/oauth/parser.ts:109-158 | over all feeds ready is emitted at most once and set fields never change |
| `OAuthParser.FinishReportsReadyIff` | packages/gateway/src/host/oauth/parser.ts:72-91 | finish reports ready exactly when the fields are known and a line was left over or ready was never emitted, so it can repeat ready |
| `LoginOutput.LinesAreTheBuffer` | packages/gateway/src/host/oauth/parser.ts:60-67 | the lines with their newlines and what is left over are the buffer, and none of them holds a newline |
| `LoginOutput.OutputRead` | packages/gateway/src/host/oauth/parser.ts:60-69 | a buffer is accepted exactly when no line is too long, none is refused by a recogniser and no two match differently; fields and events are then those that the lines tell |
| `LoginOutput.FeedsRead` | packages/gateway/src/host/oauth/parser.ts:49-70 | the same over all the feeds of a new parser, however the output is cut |
| `LoginOutput.EmittedReady` | packages/gateway/src/host/oauth/parser.ts:109-169 | an emitted ready carries the address, code, expiry and interval that the lines up to it showed, each in its own place, with 15 minutes from now and five seconds where they showed none |
| `LoginOutput.FinishReads` | packages/gateway/src/host/oauth/parser.ts:72-91 | `finish` throws exactly when the last line is not acceptable with the others, and a ready that it reports carries what all the lines told |
| `OAuthManager.HandleKeepsSettled` | packages/gateway/src/host/oauth/manager.ts:186-297 | no callback makes a login terminal with its child left running, or terminates a child twice |
| `OAuthManager.TerminalIsFrozen` | packages/gateway/src/host/oauth/manager.ts:142-170 | no callback changes the state of a login that was terminal when it ran |
| `OAuthManager.BatchHonestIff` | packages/gateway/src/host/oauth/manager.ts:264-287 | a batch of events leaves a terminal login with a non-terminal state exactly when success came before ready |
| `OAuthManager.HonestUnlessMisordered` | packages/gateway/src/host/oauth/manager.ts:186-297 | the same for every callback |
| `OAuthManager.ReportedForGood` | packages/gateway/src/host/oauth/manager.ts:142-170 | over a run, what a login reports never changes once it is terminal |
| `OAuthManager.HonestRunIff` | packages/gateway/src/host/oauth/manager.ts:186-297 | over a run, a terminal login reports a terminal state if and only if no batch had success before ready |
| `OAuthManager.StrandedIff` | packages/gateway/src/host/oauth/manager.ts:264-287 | a callback leaves a login over with its ready promise open exactly when its batch has success first and no ready |
| `OAuthManager.UnansweredRunIff` | packages/gateway/src/host/oauth/manager.ts:108-117 | over a run, a login is over with its start still waiting if and only if some batch was such |
| `OAuthManager.EarlySuccessStaysPending` | packages/gateway/src/host/oauth/manager.ts:266-274 | the shortest such batch leaves the login pending for good |
| `OAuthManager.Operation.TerminateAndWait` | packages/gateway/src/host/oauth/manager.ts:326-337 | terminates once |
| `OAuthManager.Operation.FailOperation` | packages/gateway/src/host/oauth/manager.ts:289-297 | fails and terminates, unless terminal |
| `OAuthManager.Operation.ApplyParserEvent` | packages/gateway/src/host/oauth/manager.ts:266-285 | the effect of one event |
| `OAuthManager.Operation.ApplyParserEvents` | packages/gateway/src/host/oauth/manager.ts:264-287 | the loop over the events |
| `OAuthManager.Operation.ConsumeChunk` | packages/gateway/src/host/oauth/manager.ts:189-196 | a terminal operation ignores output, a parse error fails it |
| `OAuthManager.Operation.ConsumeEnd` | packages/gateway/src/host/oauth/manager.ts:197-216 | the end of output without the required fields fails it |
| `OAuthManager.Operation.MonitorDone` | packages/gateway/src/host/oauth/manager.ts:219-262 | a zero exit succeeds only with ready and a success marker |
| `OAuthManager.CodexDeviceLoginManager.Start` | packages/gateway/src/host/oauth/manager.ts:66-118 | refused while an operation is going on; otherwise a fresh one is current |
| `OAuthManager.CodexDeviceLoginManager.Deliver` | packages/gateway/src/host/oauth/manager.ts:186-324 | any callback of any operation keeps the invariant over all of them |
| `OAuthManager.CodexDeviceLoginManager.Dispose` | packages/gateway/src/host/oauth/manager.ts:156-170 | the current operation is over and its child terminated |
| `OAuthManager.CodexDeviceLoginManager.OneChildAtMost` | packages/gateway/src/host/oauth/manager.ts:66-70 | a child that is neither terminated nor exited belongs to the current operation, which is not over |
| `OAuthOutcomes.OverIff` | packages/gateway/src/host/oauth/manager.ts:186-347 | a login is over if and only if some callback ended it: a timer, a cancellation, a first marker, or output or child broken off |
| `OAuthOutcomes.DecidedByFirstEnd` | packages/gateway/src/host/oauth/manager.ts:186-347 | the first such callback decides for good what is reported, as an if-and-only-if for each state: success only for a batch with the success marker first and in place, denied for that marker, expired and timed-out for the timer or the marker, cancelled when asked or for the marker, failed otherwise |
| `OAuthOutcomes.PendingFromReady` | packages/gateway/src/host/oauth/manager.ts:264-274 | until then it is pending from the first ready on, or from where its start goes on, and shows the details of the first ready |
| `OAuthOutcomes.CallbackEnds` | packages/gateway/src/host/oauth/manager.ts:219-262 | the same for one callback of a login that is not over |
| `OAuthLogin.SplitMattersIff` | packages/gateway/src/host/oauth/manager.ts:186-196 | feeding accepted output chunk by chunk leaves the same login as feeding it whole if and only if no cut comes after a part that leaves the login over and unanswered while the whole answers it |
| `OAuthLogin.SeparatedIff` | packages/gateway/src/host/oauth/manager.ts:264-287 | that is: the part begins with the success marker and has no ready, and the whole has ready |
| `OAuthLogin.EverySplitAgreesIff` | packages/gateway/src/host/oauth/manager.ts:186-196 | the login is the same for every split between characters if and only if the output has no such cut |
| `OAuthLogin.BothLinesEmit` | packages/gateway/src/host/oauth/parser.ts:109-158 | the parser can emit success and then ready |
| `OAuthLogin.OneChunkReportsPending` | packages/gateway/src/host/oauth/manager.ts:264-287 | in one chunk these two lines leave the login over and reporting pending |
| `OAuthLogin.TwoChunksStrandStart` | packages/gateway/src/host/oauth/manager.ts:186-196 | in two chunks they leave it over as a success with its start waiting for good |
| `Runtime.FailManagedKeepsGood` | packages/runtime/src/index.ts:1131-1146 | a failing start leaves no live child |
| `Runtime.SpawnKeepsGood` | packages/runtime/src/index.ts:970-981 | the spawned child is the only live one |
| `Runtime.NoticeKeepsGood` | packages/runtime/src/index.ts:1047-1062 | the exit callback never moves a runtime that is being stopped |
| `Runtime.StopKeepsGood` | packages/runtime/src/index.ts:872-882 | a stop that begins leaves no live child |
| `Runtime.StopEnds` | packages/runtime/src/index.ts:890-897 | at the end of a stop the state is stopped with no live child |
| `Runtime.NextKeepsGood` | packages/runtime/src/index.ts:856-1062 | every step of start, stop and child exits keeps the invariant |
| `Runtime.OneLiveChild` | packages/runtime/src/index.ts:954-989 | in every run at most one child is neither exited nor terminated, and the handle is its own |
| `Runtime.StopWins` | packages/runtime/src/index.ts:872-898 | a stop that overlaps a start wins: when it resolves, the runtime is stopped, no child is live and none is about to be spawned |
| `Runtime.StartIsSafeIff` | packages/runtime/src/index.ts:856-898 | where a start takes effect: no continuation makes a stop resolve as stopped with a child live or about to be spawned, if and only if no stop was unresolved |
| `Runtime.JoiningIsReachable` | packages/runtime/src/index.ts:872-882 | a run reaches a state in which a stop is unresolved and a start can begin |
| `Runtime.RestartWhileJoining` | packages/runtime/src/index.ts:856-870 | from there a start begins and spawns a second child while the stop still joins the first |
| `Runtime.NewStartDuringStopLosesChild` | packages/runtime/src/index.ts:890-891 | the stop then clears the handle of the new child and rejects; the child stays live and out of reach |
| `Runtime.GatewayRuntime.TransitionTo` | packages/runtime/src/index.ts:1152-1157 | throws exactly for a transition not in the table |
| `Runtime.GatewayRuntime.TerminateHandle` | packages/runtime/src/index.ts:1065-1072 | the current child, if any, is terminated |
| `Runtime.GatewayRuntime.FailStart` | packages/runtime/src/index.ts:1131-1133 | terminates the current child first |
| `Runtime.GatewayRuntime.Start` | packages/runtime/src/index.ts:856-864 | guards, then the first phase |
| `Runtime.GatewayRuntime.ContinueStart` | packages/runtime/src/index.ts:957-981 | a requested stop is checked after every await but the last before the spawn |
| `Runtime.GatewayRuntime.FinishReadiness` | packages/runtime/src/index.ts:982-988 | ready only from a state that allows it, otherwise the start fails |
| `Runtime.GatewayRuntime.ContinueFailing` | packages/runtime/src/index.ts:1131-1146 | the final state depends on whether a stop was requested |
| `Runtime.GatewayRuntime.ChildCompleted` | packages/runtime/src/index.ts:1053-1062 | only the current child moves the state to failed |
| `Runtime.GatewayRuntime.RequestStop` | packages/runtime/src/index.ts:872-882 | the child is terminated at once, and a start in progress is asked to stop |
| `Runtime.GatewayRuntime.ContinueStopping` | packages/runtime/src/index.ts:882-897 | the start is awaited, then the handle cleared, then the state is stopped with no live child |
| `RuntimeOutcomes.StartSettlesReadyIff` | packages/runtime/src/index.ts:954-989 | over runs: a start settles as ready, with its child and handle kept, if and only if everything it waited for passed, its last probe was healthy, and neither a stop was called nor an exit of its child noticed before it went on |
| `RuntimeOutcomes.StartProgress` | packages/runtime/src/index.ts:954-1026 | until it is decided, a start waits for what comes next when all before passed and no stop had been asked for, and is failing otherwise |
| `RuntimeOutcomes.HealthyProbeMakesReady` | packages/runtime/src/index.ts:1003 | in readiness and starting with no stop requested, a healthy probe and the continuation make the runtime ready with the same child |
| `RuntimeOutcomes.FailingStartEnds` | packages/runtime/src/index.ts:1131-1146 | a failing start settles with no handle, as failed, or as stopped when a stop had been requested |
| `RuntimeOutcomes.FailingTerminates` | packages/runtime/src/index.ts:1131-1136 | failing terminates the current child and no other |
| `RuntimeOutcomes.StopAdvances` | packages/runtime/src/index.ts:872-898 | every step of a stop takes it nearer to its end, unless it waits for a start in progress |
| `RuntimeOutcomes.StopResolves` | packages/runtime/src/index.ts:882-898 | with no start in progress a stop that goes on resolves, and the runtime is stopped |
| `RuntimeOutcomes.StopBegins` | packages/runtime/src/index.ts:872-882 | a stop is refused exactly when nothing is left to stop; otherwise it terminates the current child and no other |
| `RuntimeOutcomes.NoticedExit` | packages/runtime/src/index.ts:1053-1062 | a noticed exit makes a starting or ready runtime fail if it is that of its current child, and changes nothing otherwise |
| `ProviderProfile.NormalizeCapabilities` | packages/gateway/src/host/provider/profile.ts:82-105 | the loop with its map keeps the first declaration of each id, then sorts |
| `ProviderProfile.NormalizedIsFirstWins` | packages/gateway/src/host/provider/profile.ts:86-105 | the result holds exactly the first declaration of each id, in strictly ascending order |
| `ProviderProfile.NormalizeImageModels` | packages/gateway/src/host/provider/profile.ts:107-118 | the loop with its set, then the sort |
| `ProviderProfile.NormalizedImagesAreSorted` | packages/gateway/src/host/provider/profile.ts:107-118 | the requested image models, each once, in strictly ascending order |
| `ProviderProfile.BuildModels` | packages/gateway/src/host/provider/profile.ts:120-140 | an image flag for an unknown model is refused, naming the first one; otherwise one entry per capability |
| `ProviderProfile.BuiltIff` | packages/gateway/src/host/provider/profile.ts:120-140 | models are built if and only if every image model is declared, and an entry lists images exactly when its declaration or the list asks for it |
| `ProviderProfile.UnknownIsLeast` | packages/gateway/src/host/provider/profile.ts:125-130 | the error names the least image model that is not declared |
| `ProviderSettings.JsonEqualIsReflexive` | packages/gateway/src/host/provider/settings.ts:25-39 | a well-formed value equals itself |
| `ProviderSettings.JsonEqualIffSameCanonicalText` | packages/gateway/src/host/provider/settings.ts:25-39 | on plain JSON it decides the same equality as the canonical text of the fingerprints |
| `ProviderSettings.ExactIffFieldsAgree` | packages/gateway/src/host/provider/settings.ts:59-66 | a route with the managed keys is exact if and only if each of its four fields agrees |
| `ProviderSettings.ExistingRoute` | packages/gateway/src/host/provider/settings.ts:95-117 | a route that the plan respects is well formed and has the managed keys |
| `ProviderSettings.ConflictIff` | packages/gateway/src/host/provider/settings.ts:95-117 | a valid descriptor is refused exactly when some cpa route is there that is not the user's own |
| `ProviderSettings.OwnedRouteKeepsIdentity` | packages/gateway/src/host/provider/settings.ts:68-93 | on a route that is there already a plan sets at most the URL and the models, and its URL was the profile's in another spelling |
| `ProviderSettings.BuildRouteOps` | packages/gateway/src/host/provider/settings.ts:119-135 | one operation for each field that differs, in order |
| `ProviderSettings.ChangedIffOps` | packages/gateway/src/host/provider/settings.ts:143-155 | a plan reports a change exactly when it has operations |
| `ProviderSettings.ApplyOpFrame` | packages/gateway/src/host/provider/settings.ts:119-135 | one operation sets one field of the cpa route and nothing else |
| `ProviderSettings.PlannedRouteIsExact` | packages/gateway/src/host/provider/settings.ts:119-155 | after the operations the cpa route equals the profile |
| `ProviderSettings.PlanningIsAFixpoint` | packages/gateway/src/host/provider/settings.ts:137-155 | then planning again gives no operations, and every other provider and setting is as before |
| `ProviderSettings.ConfiguredImageModels` | packages/gateway/src/host/gateway-service.ts:564-582 | the loop collects the flagged ids of the user's own route for this endpoint and credential |
| `ProviderSettings.AppliedModelsRead` | packages/gateway/src/host/gateway-service.ts:564-582 | after a plan has been applied it reads back the image flags of the profile's models |
| `ProviderSettings.ImageFlagsReadBack` | packages/gateway/src/host/gateway-service.ts:298-317 | through the whole of applyModels, its revision check included, what is read back are exactly the ids whose first declaration asked for images, or that are in the list of image models |
| `SettingsOutcomes.ApplyModelsOutcome` | packages/gateway/src/host/gateway-service.ts:298-317 | applyModels answers a revision conflict exactly when the expected revision is not the descriptor's; otherwise it fails exactly as planning does, or applies |
| `SettingsOutcomes.UnchangedIffExact` | packages/gateway/src/host/gateway-service.ts:310-316 | it reports no change exactly when the user's own route was the profile's already, and then changes nothing |
| `SettingsOutcomes.RefusedDescriptorIff` | packages/gateway/src/host/provider/settings.ts:41-57 | a descriptor is refused for its namespace, or else exactly for a revision outside the safe integers or a section or its providers not being an object |
| `SettingsOutcomes.OwnedIff` | packages/gateway/src/host/provider/settings.ts:68-80 | a route is ours exactly when it has the four managed keys and no other, our API and credential and a URL that normalises to ours |
| `SettingsOutcomes.StoredInIff` | packages/gateway/src/host/gateway-service.ts:564-574 | models are read back exactly from a route with this API, this credential and a URL that normalises as the endpoint does |
| `SettingsOutcomes.ImageIdIff` | packages/gateway/src/host/gateway-service.ts:576-580 | a stored model takes images exactly when it has a non-empty id and its inputs list images |
| `SettingsOutcomes.RequestAcceptedIff` | packages/gateway/src/host/provider/profile.ts:78-140 | a request gives a profile exactly when its models, ids, names and image models are within their limits and every image model is declared |

## Left out

- Quota and account-health snapshots and `ingestDeadLetter`: they share the receipt scheme of requests and have no rollups.
- Engine.SQLiteAnalyticsEngine.Maintain: the quota and account-health snapshot tables.
- Engine.SQLiteAnalyticsEngine.Summary: latency percentiles, which read the raw rows directly and round.
- Engine.SQLiteAnalyticsEngine.Trend: latency percentiles of the points.
- Engine.SQLiteAnalyticsEngine.Close: releasing the collector lease.
- Integer widths of SQLite: sums are unbounded here, whereas SQLite adds in 64 bits and `node:sqlite` refuses to read an integer above 2^53-1. The model assumes that every sum of a group and of a query stays within that.
- SQLite itself: SQL text, pragmas, migrations, the write-ahead log and the collector lease.
- Field-by-field validators and the usage projectors: inputs are taken after validation, and projecting an item is total.
- The provenance columns of price rules (source name, URL, version, hash): copied, never computed with.
- `localeCompare` between rule ids is a parameter; nothing depends on it.
- Hashes are numbers compared as numbers, as 64 hex digits compare; HMAC and SHA-256 are not part of this model.
- Stored hour and day starts of a raw row are computed from its time, as the source computes them when it writes the row.
- The size limit on a dead letter's projection: a validated request projection is always below it.
- Pricing.EstimatePricing: sums of doubles are modelled up to 2^56, well above six safe integers.
- `Number::toString` is a parameter that writes numbers, each its own way, and the reader's numerals are a parameter that inverts it; printing and parsing doubles is not part of this model.
- Sparse arrays, getters and proxies as inputs of the canonical text.
- Paging.EveryRowExactlyOnce: no raw row is purged between the pages, as a purged row cannot be returned; the cursor's base64url encoding is taken to round-trip.
- Worker threads: a message is delivered whole and in order or lost with the worker; a reply that cannot be cloned is not modelled.
- WorkerProtocol.RefinesSequentialStore: for runs of fewer than 2^31-1 calls, in which no request id is used twice.
- Collector back-off: kept within its bounds, but no claim about when the next poll comes.
- Collector.HttpUsageCollector.Poll: joining a poll in flight is part of `CollectorSteps`, not of the class.
- Collector.HttpUsageCollector.Dispose: waiting for a poll in flight is part of `CollectorSteps`, not of the class.
- OAuthParser: regular expressions, URL parsing and the byte decoder are parameters; the clock is fixed, so `ready` does not change between lines.
- OAuthParser.CodexDeviceLoginParser.FeedText: byte chunks and their decoding errors.
- OAuthParser.CodexDeviceLoginParser.FinishOutput: the tail left in the byte decoder.
- OAuthManager.Operation.FailOperation: the diagnostics of the error.
- OAuthManager.Operation.MonitorDone: the diagnostics of the exit.
- OAuthManager.Operation.ConsumeChunk: the recorded tail of raw output.
- OAuthManager.Operation.ConsumeEnd: the recorded tail of raw output, and events in the decoder's tail.
- OAuthManager.CodexDeviceLoginManager.Start: up to its first await; what follows is the callback `ReadyAwaited`. Timers fire at any moment instead of at their time.
- Runtime.GatewayRuntime.Start: external mode, and `dispose` as a guard of its own.
- Runtime external mode, probes, credentials, the owner lock's files and `install`: probes answer anything, and releasing the lock and removing the generated configuration are taken to succeed.
- ProviderProfile.NormalizeCapabilities: the list-object form of the input.
- `normalizeCpaModels` and the other input checks of the profile; normalising an endpoint is a parameter, and the profile's URL is one it leaves alone.
- ProviderSettings.ApplyOp: what the settings service does with a `set` operation is taken from the shape of the paths; `@deepseek-ai/dsh-settings` is not part of this model.
