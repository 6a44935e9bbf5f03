# Network-flow dashboard: a verified model

A Dafny model of the algorithmic and protocol cores of a network-flow monitoring dashboard, with
proofs about every input, every run or every reachable state. `dafny verify dfyconfig.toml`
checks the whole project.

## What is modelled

**The two-grain flow store.** A collector writes 5-minute rows and later closes whole hours into
merged rows guarded by a completion marker; the app plans reads that mix both grains.
`FlowTypes.dfy` holds the row and the time grid, `Rollup.dfy` the hourly merge, `Backfill.dfy` the
choice of hours, `RollupStore.dfy` the batch writer and the rollup step over the tables,
`CollectorProtocol.dfy` a state machine of overlapping collectors (raw writes, lost batch items,
crashes, deadlines, time-to-live expiry), `LateHours.dfy` what a marker still promises for hours
that were read too late, `WindowPlanning.dfy` the read plans, and `RollupRefinement.dfy` the theorem
that joins them: what is read through a plan is what the raw rows of the interval sum to.

**Concurrent machines of the app and the collector.** `FlowsCache.dfy` is the versioned
single-flight cache, `WorkerPool.dfy` the bounded pool under every schedule and the results array it
fills. `QueryLifecycle.dfy` is one query against an arbitrary client, `QueryJob.dfy` the same query
cut at every answer, `QueryMatrix.dfy` all jobs of a cycle interleaving over one shared set of
counters, and `Dedupe.dfy` the de-duplication of their edges.

**The pull-request review protocol.** `ReviewProtocol.dfy` models issue, record, prepare and
aggregate over per-role files, one file operation at a time, with exceptions and kills between any
two. `HunkChecker.dfy` compares the one-pass diff-hunk check with a grammar.

**Graph transformations.** `TopologyGrouping.dfy` and `GraphModel.dfy` model collapsing and drawing
the topology, `SankeyFilter.dfy` the greedy acyclic link filter and its memoised longest path.

**Printers, parsers, names and alerts.** `Sse.dfy`, `Csv.dfy`, `ToolNames.dfy` and
`ReliabilityAlert.dfy`; `Decimals.dfy` and `Collections.dfy` hold shared facts.

Code that updates state in place is a class or a method with loops, proved equal to a
specification function or relation; the properties are lemmas about that specification.
Interleavings are state machines whose steps are the pieces of code between two waits.

## Where the code does less than its comments say

Each of these is stated with a counterexample family and, where a property fails, its exact
condition.

- The cache comment promises at most 200 entries unless all are in flight. A lookup that joins an
  existing entry evicts nothing, so more than 200 entries, settled ones included, can stay
  (`FlowsCache.CapExceededOnHit`); `FlowsCache.LookupBound` says exactly when the bound holds.
- An `issue` stopped by an exception after the old result and the claim are gone, but before the
  new receipt is written, leaves the old nonce usable for a second, valid record
  (`ReviewProtocol.CutIssueReopensTheNonce`); stopped while the claim is still there it does not.
  `ReviewProtocol.FurtherResultIff` says for all runs that this is the only way to a further result.
- A record call on top of a valid result does not block the role when it is stopped before it
  writes its flag (`ReviewProtocol.StoppedRepeatStillPasses`); the role is blocked exactly when some
  such call gets to write it (`ReviewProtocol.PoisonedIffFlagWritten`).
- A killed operation leaves the lock directory behind, which `prepare` never removes, so the role
  is blocked in every later run as long as the plan requires it
  (`ReviewProtocol.KillThenPrepareWedges`, `ReviewProtocol.WedgedForever`).
- The lookback of seven days is as long as the life of a raw row. All rows of a slot are read in
  time in slots 0 to 165, and in slot 166 when the cycle starts early enough after its hour boundary
  (`CollectorProtocol.LookbackSlotsInTime`). At risk are in slot 166 at most the first two buckets,
  and in slot 167 the first bucket always and every other once its time of day has passed
  (`CollectorProtocol.BucketsAtRisk`). Such an hour can be marked complete although rows that were
  written for it are missing (`LateHours.LateMarkerIsIncomplete`).
- With a concurrency below one the query matrix starts nothing and reports no failure
  (`QueryMatrix.MatrixAddsUp`); with no status poll allowed it accepts edges of queries that
  nobody saw succeed (`QueryLifecycle.UnseenQueryIsAccepted`). Rows of pages that came before a
  failed page stay in the row count (`QueryLifecycle.RunOne`).
- A tool name that needs no rewriting is lost when a rewritten name was given its spelling
  (`ToolNames.UnchangedRestoresIff`), which happens whenever it is the base of a rewritten name
  (`ToolNames.BaseIsLost`).
- A one-column CSV file whose last cell is empty loses that line (`Csv.CsvRoundTrips`).
- The stream reader trims all leading white space of a payload and accepts only `\n\n` between
  frames, where section 9.2 of the WHATWG HTML Living Standard strips one space and accepts other
  line ends; messages survive exactly when each is trimmed (`Sse.SurviveIffTrimmed`).
- A cycle whose publishes partly succeed, or whose state write fails after them, sends a wrong or
  repeated alert at the next completed cycle (`ReliabilityAlert.CutCycleIsHarmlessIff`).
- The hunk check also accepts blank lines after a complete hunk, which the grammar therefore
  allows (`HunkChecker.CheckDecidesGrammar`).

## Model

| member | source | states |
|---|---|---|
| Rollup.MergeHourEdges | collector/src/rollup.ts:43-72 | the two map-filling loops and the capped sort compute `MergeHour`, which the next five rows describe |
| Rollup.MergeHourIsTopMerge | collector/src/rollup.ts:36-42 | one merged row per edge; per group exactly the top rows by value, none left out that is larger than a kept one |
| Rollup.MergedRowHolds | collector/src/rollup.ts:50-66 | every hourly row, said in the raw rows alone: a counter is the sum of its edge's values, and the payload is that of the first row with the latest bucket |
| Rollup.MergedRowIsMean | collector/src/rollup.ts:61 | an hourly round-trip time times the number of its edge's rows is the sum of their values |
| Rollup.MergeConservesCounters | collector/src/rollup.ts:60-71 | a counter keeps its exact hourly total while its group fits the cap; non-negative counters are never overstated |
| Rollup.MergedRttIsBetween | collector/src/rollup.ts:61 | a merged round-trip time lies within any range that holds all of its inputs |
| Backfill.EligibleMissingHours | collector/src/rollup.ts:24-34 | the loop returns the newest unmarked hours of the lookback, newest first, at most the maximum |
| Backfill.LookbackMeaning | collector/src/rollup.ts:7-11 | the hours looked at are exactly the whole hours closed for five minutes and younger than 169 hours and five minutes |
| Backfill.EligibleChoiceIsUnique | collector/src/rollup.ts:24-34 | the description of the choice has one solution, so it determines the loop's answer |
| Backfill.CycleShrinksBacklog | collector/src/rollup-store.ts:73-98 | a drop-free cycle at a fixed clock takes exactly min(6, backlog) hours off the backlog |
| Backfill.BacklogDrains | collector/src/rollup.ts:24-26 | after 28 drop-free cycles every hour of the lookback is marked |
| RollupStore.Tables.BatchWriteAll | collector/src/storage.ts:28-47 | zero means that every item is in the table; an item is dropped only after four consecutive refusals; at most four requests per chunk of 25 |
| RollupStore.Tables.RollupHour | collector/src/rollup-store.ts:77-97 | an hour is marked exactly when all of its merged rows landed; other hours' rows and marks are untouched |
| RollupStore.Tables.RunRollupStep | collector/src/rollup-store.ts:68-100 | works on exactly the eligible choice; every hour ends stored and marked, or unmarked because a row was refused four times |
| RollupStore.AcceptingTable | collector/src/rollup-store.ts:83-97 | a table that refuses nothing leaves no chosen hour unmarked |
| RollupStore.OutcomeKept | collector/src/rollup-store.ts:77-97 | working on another hour later changes neither an hour's stored rows nor why it was left |
| RollupStore.PutAllStores | collector/src/storage.ts:30-35 | items under distinct keys are all stored and no other key changes |
| CollectorProtocol.InvPreserved | collector/src/handler.ts:25-87 | every event of any number of overlapping cycles (start, raw write, hour read, row put, lost row, marker, crash, expiry, tick) keeps the protocol invariant |
| CollectorProtocol.UpsertIs | collector/src/storage.ts:28-36 | a written raw row replaces the row with its key and leaves every other row; no key gets a second row |
| CollectorProtocol.LateWriteMisses | collector/src/rollup.ts:7-11 | a cycle that is still alive within its 270 s never writes into an hour that has become eligible |
| CollectorProtocol.MarkedHourIsComplete | collector/src/rollup-store.ts:83-97 | in every run a marked hour that was read before its raw rows could expire is stored exactly as the merge of everything ever written for it |
| CollectorProtocol.ClosedHourIsFrozen | infra/lib/data-stack.ts:56 | once an hour is eligible no later step of any run writes a raw row into it |
| CollectorProtocol.MarkedHourIsFrozen | collector/src/rollup-store.ts:94-97 | after the marker the hour's written rows, its merge and its timeliness never change |
| CollectorProtocol.LookbackSlotsInTime | collector/src/storage.ts:78 | a cycle reads a lookback slot inside the seven-day life of all its raw rows if and only if it is one of slots 0 to 165, or slot 166 and the cycle's deadline comes before the slot's first expiry |
| CollectorProtocol.BucketsAtRisk | collector/src/storage.ts:78 | which buckets of which slots can have lost rows at the moment they are read, as an if and only if in the clock |
| LateHours.MarkedHourHoldsWhatWasRead | collector/src/rollup-store.ts:83-97 | whatever the hour's age, in every run a marked hour has a row for every edge in the merge of what the marking cycle read, and no row that no cycle merged for it |
| LateHours.LateMarkerIsIncomplete | collector/src/rollup.ts:7-11 | for every row of an hour's first bucket a run that writes the row, loses it to expiry and then marks the hour with nothing stored |
| WindowPlanning.WindowPlanTiles | app/src/lib/ddb.ts:52-73 | the parts are newest-first and adjacent, end with the current bucket and span exactly `windowSeconds`; the next row says how long that is |
| WindowPlanning.LongWindowReads | app/src/lib/ddb.ts:58-72 | asked for n > 36 buckets, the plan reads from exactly h hours before the open hour to now, h the whole number with 12h - 6 <= n < 12h + 6; raw are exactly the open hour and the one before it |
| WindowPlanning.PairPlanTiles | app/src/lib/ddb.ts:75-97 | the two halves are adjacent, disjoint, equally long and each span `windowSeconds` |
| WindowPlanning.ShortPairReads | app/src/lib/ddb.ts:85-90 | asked for n <= 36 buckets, the current half reads the n newest buckets and the prior half the n before them, all raw |
| WindowPlanning.LongPairReads | app/src/lib/ddb.ts:91-97 | asked for more, each half reads exactly the h hours nearest to n / 12 as hourly rows, the current half from the second newest closed hour back |
| WindowPlanning.TilesPartition | app/src/lib/ddb.ts:61-69 | a tiling plan reads every instant of its window in exactly one part and no other instant |
| WindowPlanning.WindowRowsReadable | collector/src/rollup-store.ts:10-13 | up to 2016 buckets every hourly part has been eligible for 55 minutes and has not expired |
| WindowPlanning.PairRowsReadable | app/src/lib/ddb.ts:83-97 | a pair plan's hourly rows are readable at every clock if and only if n is at most 2153 buckets |
| WindowPlanning.SumOverTiling | app/src/lib/ddb.ts:52-73 | parts that answer with their own totals add up to the total of the window |
| RollupRefinement.WindowReadRefinesRaw | app/src/lib/ddb.ts:40-73 | at any moment of any run a window of n buckets whose hours were rolled up in time reads, per edge and counter, the total of the raw rows of its last n buckets, beyond three hours from the nearest hour boundary; past the cap never more |
| RollupRefinement.PairReadRefinesRaw | app/src/lib/ddb.ts:75-97 | the same for both halves of a pair plan of any length, raw halves included: n buckets each, beyond three hours 12 times the nearest number of hours |
| RollupRefinement.PlanReadIsExact | app/src/lib/ddb.ts:52-97 | any tiling plan whose hours are ready reads what the raw rows of its interval sum to |
| RollupRefinement.HourlyPartExact | collector/src/rollup-store.ts:77-97 | one hourly part equals the sum of its twelve buckets, with the cap hit it is never larger |
| FlowsCache.FlowsWindowCache.CachedFetch | app/src/lib/ddb.ts:257-284 | the sweep, join, insert and evict loops on the Map change it and answer as `Lookup` does |
| FlowsCache.FlowsWindowCache.Drop | app/src/lib/ddb.ts:252-255 | clears the entry's timer and removes the key only while it still maps to that entry |
| FlowsCache.FlowsWindowCache.OnFulfilled | app/src/lib/ddb.ts:273-278 | a success still in the Map gets its timer |
| FlowsCache.FlowsWindowCache.OnRejected | app/src/lib/ddb.ts:279-282 | a failure leaves the Map in its settlement step |
| FlowsCache.LookupIsFresh | app/src/lib/ddb.ts:257-284 | a lookup answers with an entry in flight or a success of exactly the version it read, launches only when there is none and leaves no stale settled entry |
| FlowsCache.InvPreserved | app/src/lib/ddb.ts:226-284 | every lookup, settlement, timer and sweep keeps the cache invariant |
| FlowsCache.SingleFlight | app/src/lib/ddb.ts:226-236 | in every run at most one fetch per key is in flight, it is in the Map, and every lookup of its key joins it |
| FlowsCache.SettlementFindsItsEntry | app/src/lib/ddb.ts:273-282 | the branch for entries evicted in flight is never taken; a failed entry is gone after its settlement step |
| FlowsCache.TimerExactlyForCachedSuccess | app/src/lib/ddb.ts:252-278 | a live timer belongs exactly to a success still in the Map |
| FlowsCache.LookupBound | app/src/lib/ddb.ts:244-272 | after a lookup the 200-entry bound holds if and only if the lookup launched a fetch or the entries surviving its sweep already met it |
| FlowsCache.EvictsOldestFirst | app/src/lib/ddb.ts:267-272 | a launching lookup evicts only settled entries, each launched before every settled one it keeps, and none when that would leave fewer than 200 |
| FlowsCache.AgeHolds | app/src/lib/ddb.ts:266-267 | in every run the Map keeps its entries in the order in which their fetches were launched |
| FlowsCache.SizeBoundedByPeak | app/src/lib/ddb.ts:267-272 | over any run the Map never outgrows 200 entries or the peak number of concurrent fetches |
| FlowsCache.CapExceededOnHit | app/src/lib/ddb.ts:263-264 | for every n above 200 a run in which a joining lookup leaves n entries, one of them settled |
| WorkerPool.InvPreserved | app/src/lib/ddb.ts:161-177 | every step keeps: each item taken is held by exactly one worker or has returned exactly once |
| WorkerPool.ResolvedIsComplete | app/src/lib/ddb.ts:154-177 | under every schedule a pool that resolves has run each item exactly once if and only if its limit is at least one or there is nothing to do |
| WorkerPool.InFlightBounded | app/src/lib/ddb.ts:174 | under every schedule at most `limit` and at most n calls are in flight, and none for a limit below one |
| WorkerPool.InFlightReached | app/src/lib/ddb.ts:174 | some schedule has exactly the smaller of limit and n calls in flight |
| WorkerPool.ResultsAreComplete | app/src/lib/ddb.ts:161-177 | under every schedule a resolved pool with a worker has filled every slot i of its results array with what the call on item i returned |
| WorkerPool.ResultsAreInInputOrder | app/src/lib/ddb.ts:171 | so when each call returns f of its item, the array is f of the items in input order, whatever the completion order |
| WorkerPool.NoRejectResolves | collector/src/rollup-store.ts:59-66 | when no call rejects, a pool that cannot step has resolved |
| WorkerPool.RunsAreBounded | collector/src/rollup-store.ts:59-66 | every schedule is finite, with a bound from the items and workers left |
| QueryLifecycle.WithRetry | collector/src/nfm-query.ts:16-28 | at most five calls, all but the last throttled, the counter grows by the retries, and a throttled answer means five were spent |
| QueryLifecycle.Poll | collector/src/nfm-query.ts:40-52 | the polling loop ends as `PollRun`, which the next two rows describe, and counts its retries |
| QueryLifecycle.PollSuccess | collector/src/nfm-query.ts:40-52 | polling ends ready if and only if no poll is allowed, or the last poll was SUCCEEDED and every earlier answer pending |
| QueryLifecycle.PollCount | collector/src/nfm-query.ts:41-51 | at most the maximum of polls is answered; every other one was retried or ended the query |
| QueryLifecycle.FetchPages | collector/src/nfm-query.ts:53-63 | the page loop ends as `PageRun` and counts its rows and retries |
| QueryLifecycle.PageSuccess | collector/src/nfm-query.ts:54-63 | every page but the last announced another, and the paging is complete exactly when the last page came and announced no other |
| QueryLifecycle.RunOne | collector/src/nfm-query.ts:30-71 | yields the edges and adds the counts of the query's life: started once, succeeded or failed once, the retries, and the rows of all pages that came |
| QueryLifecycle.LifeSucceeds | collector/src/nfm-query.ts:34-65 | a life succeeds if and only if the start was answered, the last poll was SUCCEEDED (or no poll is allowed) and the last page came; it is polled only once started and read only once ready; its rows are those of its pages in order |
| QueryLifecycle.LifeCounts | collector/src/nfm-query.ts:16-28 | over a whole life a call that is not answered was retried and counted, or is the one the life ended on |
| QueryLifecycle.UnseenQueryIsAccepted | collector/src/nfm-query.ts:41 | with no poll allowed the edges of a query nobody saw succeed are accepted |
| QueryJob.AnswerKeepsOutcome | collector/src/nfm-query.ts:30-71 | a job cut at its answers keeps, with each of them, the outcome and counts it is headed for, and the last answer brings them |
| QueryJob.JobEndsAlone | collector/src/nfm-query.ts:30-71 | from its start a job is headed for exactly the outcome, edges and counts of its life alone |
| QueryMatrix.MatrixInvPreserved | collector/src/nfm-query.ts:73-83 | every step of every worker keeps: the shared counters are the sum of what the jobs added, started counts the jobs taken, succeeded + failed the jobs finished |
| QueryMatrix.UnderwayBounded | collector/src/nfm-query.ts:79-81 | in every run at most `concurrency` queries are under way |
| QueryMatrix.MatrixRunsAreBounded | collector/src/nfm-query.ts:78-81 | every schedule is finite: one step per worker and, per job, at most two more than the answers its client has |
| QueryMatrix.StuckHasEnded | collector/src/nfm-query.ts:79-81 | a matrix in which no worker can go on has ended, as no job rejects |
| QueryMatrix.MatrixAddsUp | collector/src/nfm-query.ts:73-83 | under every schedule the shared counters end with started = succeeded + failed = number of jobs if and only if the concurrency is at least one or there is no job |
| QueryMatrix.CountersAreThoseOfLives | collector/src/nfm-query.ts:74-82 | they end as the sum of what each job counts when it runs alone |
| QueryMatrix.OutputIsSeen | collector/src/nfm-query.ts:78-82 | every edge reported is a row of a query that succeeded and, if any poll is allowed, was seen SUCCEEDED; every such row is reported or lost to one of its key that is at least as large |
| QueryMatrix.MatrixOutputIgnoresSchedule | collector/src/nfm-query.ts:78-82 | two finished runs over the same answers, even with other concurrency, report the same largest value for every key |
| Dedupe.DedupeEdges | collector/src/normalize.ts:49-57 | one row per key in order of first appearance, each the first of the largest |
| Dedupe.DedupeIgnoresOrder | collector/src/normalize.ts:49-57 | the largest value per key depends only on which edges there are |
| ReviewProtocol.InvPreserved | scripts/pr-review/role_review.py:578-654 | every file operation, exception, kill and preparation keeps the invariant of a role's files |
| ReviewProtocol.PassIsCurrent | scripts/pr-review/role_review.py:910-976 | when aggregation leaves "blocked", the roles with a result are exactly the required ones and each result is valid for the current plan and the latest issued, never superseded nonce |
| ReviewProtocol.AggregateMode | scripts/pr-review/role_review.py:898-979 | the mode of any workspace: blocked exactly for lack of a complete plan, for a flag or for a role that does not pass; otherwise a review exactly when some required role's response is severe or uncertain |
| ReviewProtocol.UnblockedIff | scripts/pr-review/role_review.py:898-972 | in every run aggregation leaves "blocked" if and only if the plan is complete, no flag is set and every required role, and no other, has a valid result for the current plan and its latest request |
| ReviewProtocol.PreparedMode | scripts/pr-review/role_review.py:520-534 | right after a preparation every mode is blocked, unless the plan is complete and requires no role |
| ReviewProtocol.OldNonceIsNeverValid | scripts/pr-review/role_review.py:863-867 | in every run a record with a superseded or unknown nonce is judged invalid |
| ReviewProtocol.ValidResultIsKept | scripts/pr-review/role_review.py:605-609 | nothing but a preparation replaces or removes a valid result |
| ReviewProtocol.ResultsPerIssue | scripts/pr-review/role_review.py:852-860 | at most one result per issue, plus one for every exception that stopped an issue with result and claim gone |
| ReviewProtocol.FurtherResultIff | scripts/pr-review/role_review.py:621-626 | in every run a role with a result since its last issue or preparation takes another if and only if an exception stopped an issue after the claim was gone and no call has claimed it since |
| ReviewProtocol.NoReopeningNoResult | scripts/pr-review/role_review.py:845-860 | without such an exception no further result is written before the next issue completes or a preparation |
| ReviewProtocol.TerminalResultPoisons | scripts/pr-review/role_review.py:84-85 | a result with a terminal code poisons the role when it is written |
| ReviewProtocol.RecordedIsTerminalIff | scripts/pr-review/role_review.py:859-891 | a recorded result holds a terminal code if and only if the call was for a required role of a complete plan with its request's nonce, and its readable error output shows one of the four terminal diagnostics |
| ReviewProtocol.TerminalAttemptBlocks | scripts/pr-review/role_review.py:877-891 | so such an attempt blocks every aggregation until the next preparation, over all interleavings |
| ReviewProtocol.RepeatedRecordPoisons | scripts/pr-review/role_review.py:832-860 | an undisturbed record call on top of a valid result poisons the role, whichever check stops it |
| ReviewProtocol.StoppedRepeatStillPasses | scripts/pr-review/role_review.py:838-842 | such a call stopped by an exception or a kill before its flag leaves a role that still passes |
| ReviewProtocol.PoisonedIffFlagWritten | scripts/pr-review/role_review.py:838-860 | in every run from a valid result to the next preparation the result stays, and the role becomes poisoned if and only if some late record call writes its flag |
| ReviewProtocol.PoisonIsKept | scripts/pr-review/role_review.py:610-626 | no event but a preparation removes the poison, at any point of an issue or record |
| ReviewProtocol.PoisonBlocksUntilPrepared | scripts/pr-review/role_review.py:898-907 | from a poisoned moment on every aggregation is blocked until the next preparation, over all interleavings, exceptions and kills |
| ReviewProtocol.CleanAttemptPasses | scripts/pr-review/role_review.py:599-627 | a role without a valid result can be made to pass by one more issue and record if and only if it is not poisoned and its history has room |
| ReviewProtocol.CutIssueHappens | scripts/pr-review/role_review.py:621-626 | the interrupted state of the next row is reached by an exception after six file operations |
| ReviewProtocol.CutIssueReopensTheNonce | scripts/pr-review/role_review.py:621-626 | from it a second record with the old nonce is valid and the role passes |
| ReviewProtocol.KillThenPrepareWedges | scripts/pr-review/role_review.py:578-591 | a kill during an operation and a preparation leave a role with a lock and no result |
| ReviewProtocol.WedgedForever | scripts/pr-review/role_review.py:520-534 | such a role stays so over every later run and blocks aggregation while it is required |
| ReviewProtocol.IssueAddsUp | scripts/pr-review/role_review.py:599-627 | the single file operations of an undisturbed issue add up to `Issued` |
| ReviewProtocol.RecordAddsUp | scripts/pr-review/role_review.py:845-895 | the single file operations of an undisturbed record add up to `Recorded` |
| ReviewProtocol.RoleFiles.IssueRequest | scripts/pr-review/role_review.py:594-627 | leaves the files of `Issued`, or untouched under a lock; issues exactly when none of the refusals applies |
| ReviewProtocol.RoleFiles.Record | scripts/pr-review/role_review.py:832-895 | leaves the files of `Recorded`, or only the duplicate flag under a lock; valid if and only if the role is free, unclaimed and without result, required by a complete plan, the nonce is that of its request for this plan, the exit is 0, the error output is readable and shows nothing, and the response validates |
| ReviewProtocol.RoleFiles.Invalidate | scripts/pr-review/role_review.py:520-531 | a preparation clears results, receipts, claims, flags and histories but not a lock |
| HunkChecker.HeaderScannerIsExact | scripts/pr-review/role_review.py:204-207 | the scanner accepts exactly the lines of the header expression, with the same counts |
| HunkChecker.CompleteHunks | scripts/pr-review/role_review.py:196-223 | the loop with its early exits ends in the verdict of the step function; the next rows say for every chunk which verdict that is |
| HunkChecker.CheckDecidesGrammar | scripts/pr-review/role_review.py:196-223 | a chunk with hunks is accepted if and only if it matches the grammar: in every body as many lines start with a space or a minus, and with a space or a plus, as its header declares, and nothing else follows |
| HunkChecker.IncompleteIffCutOff | scripts/pr-review/role_review.py:198-223 | a chunk is rejected as incomplete if and only if some hunk, after complete ones, lacks lines it declares at the end, at the next hunk marker or at a line no body can hold; every other rejection says invalid |
| HunkChecker.NoHunkIff | scripts/pr-review/role_review.py:218-223 | a chunk is left to the metadata rules if and only if no line starts with `@@` |
| HunkChecker.TruncationIsRejected | scripts/pr-review/role_review.py:197-203 | a last hunk showing fewer lines than declared is rejected, whatever precedes it |
| HunkChecker.CutChunkIsRejected | scripts/pr-review/role_review.py:197-223 | cutting header-free lines from the end of an accepted chunk leaves it accepted if and only if no counted line is among them; otherwise the hunk is incomplete |
| ToolNames.ToolNameMap.ToBedrockName | app/src/lib/mcp-client.ts:129-144 | the disambiguation loop ends and leaves the map and answer of `Call` |
| ToolNames.ToolNameMap.RestoreToolName | app/src/lib/mcp-client.ts:146-149 | answers the entry of the map, or the name itself |
| ToolNames.TakenFitInMap | app/src/lib/mcp-client.ts:136-139 | there are never more taken candidates than map entries, so the loop ends |
| ToolNames.CandidatesDiffer | app/src/lib/mcp-client.ts:137-138 | candidates with different numbers differ, however the base was cut |
| ToolNames.RewrittenRestores | app/src/lib/mcp-client.ts:124-149 | over every sequence of calls a rewritten name is restored to its original at all later times |
| ToolNames.AnswersIdentifyNames | app/src/lib/mcp-client.ts:132-141 | different rewritten names never share an answer, and repeating a call repeats its answer |
| ToolNames.AnswerFits | app/src/lib/mcp-client.ts:124-131 | answers have allowed characters only, and at most 64 while the suffixes in use fit |
| ToolNames.UnchangedRestoresIff | app/src/lib/mcp-client.ts:132-148 | an unchanged name restores to itself if and only if no rewritten name was given its spelling |
| ToolNames.BaseIsLost | app/src/lib/mcp-client.ts:132-141 | in terms of the names alone: it is lost whenever it is the base of a rewritten name, at whatever place |
| ToolNames.NoCandidateIsSafe | app/src/lib/mcp-client.ts:136-139 | and it is safe while it is no candidate of any rewritten name |
| ToolNames.UnnumberedRestoresIff | app/src/lib/mcp-client.ts:132-148 | for a name without an underscore-number ending: it restores if and only if it is not the base of a rewritten name |
| ToolNames.UnchangedNameCanBeLost | app/src/lib/mcp-client.ts:132-148 | two names for which that condition fails |
| Sse.DispatchFrame | app/src/lib/use-sse.ts:45-54 | the line loop yields the last event name and the joined data lines, nothing without data |
| Sse.FrameSays | app/src/lib/use-sse.ts:44-54 | a frame says nothing if and only if no line starts with `data:` |
| Sse.FrameData | app/src/lib/use-sse.ts:50 | its payload lines are exactly its lines that start with `data:`, in order, each without that start and trimmed in front |
| Sse.FrameEvent | app/src/lib/use-sse.ts:46-49 | its event is that of its last line that starts with `event:`, trimmed, and "message" without one |
| Sse.CutInPieces | app/src/lib/use-sse.ts:111-120 | cutting what has arrived and later the remainder with the rest equals cutting the whole text, also inside a separator |
| Sse.SseReader.Feed | app/src/lib/use-sse.ts:111-120 | one chunk delivers the frames it completes, in order, and keeps the remainder |
| Sse.SseReader.ReadAll | app/src/lib/use-sse.ts:105-124 | for every chunking and every moment of cancellation, before or during any read, the delivery is the frames of the text read before it, up to the first abort of a handler, and the unfinished last frame only when nobody cancelled |
| Sse.CancelHearsPrefix | app/src/lib/use-sse.ts:107-124 | who cancels is given a prefix of what the whole stream would have delivered |
| Sse.NothingAfterCancel | app/src/lib/use-sse.ts:107-122 | what the reads bring from the cancelled one on makes no difference |
| Sse.AbortedTextDecides | app/src/lib/use-sse.ts:108-116 | after an abort by a handler whatever text follows cannot change what was delivered |
| Sse.PrintedIsReceived | app/src/lib/sse.ts:4-6 | every list of printed one-line messages is handed over in order up to the first abort, each with its event trimmed and its payload trimmed in front |
| Sse.PlayStopsAtFirstAbort | app/src/lib/use-sse.ts:112-116 | exactly the messages up to and including the first abort are handed over |
| Sse.SurviveIffTrimmed | app/src/lib/use-sse.ts:49-50 | while nobody aborts, a list of one-line messages arrives unchanged if and only if each event is trimmed and each payload has no leading white space |
| Csv.ToCsv | app/src/lib/csv.ts:25-31 | the lines loop produces the text of the header and all rows; nothing without columns |
| Csv.FieldReads | app/src/lib/csv.ts:10-13 | any cell text, with any mix of commas, quotes, CR and LF, reads back from its escaped form |
| Csv.WrittenAsIsIff | app/src/lib/csv.ts:10-13 | a cell is written as it is if and only if it holds no quote, comma, CR or LF |
| Csv.TextReads | app/src/lib/csv.ts:25-31 | a reader for section 2 of RFC 4180 gives back the records, less a last line that is a single empty cell |
| Csv.CsvRoundTrips | app/src/lib/csv.ts:20-31 | the table comes back if and only if it does not have one column and an empty last cell |
| Csv.TableReadsBack | app/src/lib/csv.ts:15-31 | what is read back has the headers as its first line and in line r + 1 under each column the value row r has for its key, nothing for a missing one |
| ReliabilityAlert.DetectReliabilityBreaches | collector/src/reliability-alert.ts:33-55 | one row with the right rates for each breaching entity and for no other |
| ReliabilityAlert.RowRates | collector/src/reliability-alert.ts:28-49 | each rate times the bytes of all edges at the entity is 10^9 times the events of those edges; zero without bytes |
| ReliabilityAlert.BreachingIff | collector/src/reliability-alert.ts:14-51 | an entity breaches if and only if its edges carry more than 10 retransmissions or more than 5 timeouts per 10^9 bytes |
| ReliabilityAlert.EntityKeyIs | collector/src/reliability-alert.ts:23-26 | an entity is called namespace/name after the first name present, and unknown if and only if there is none or it is empty |
| ReliabilityAlert.BreachesIgnoreOrder | collector/src/reliability-alert.ts:34-51 | which entities breach does not depend on the order of the edges |
| ReliabilityAlert.AlertState.PublishReliabilityAlerts | collector/src/handler.ts:97-128 | delivers exactly the transitions whose publish succeeds and stores the breaching keys exactly when all do and the write works |
| ReliabilityAlert.AlertsAlternate | collector/src/reliability-alert.ts:62-75 | over every run of all-or-nothing cycles each key's messages alternate ALARM, OK, and the open keys are the stored ones |
| ReliabilityAlert.CompletedCycleOpens | collector/src/reliability-alert.ts:62-75 | after a completed cycle the keys whose last message is ALARM are exactly the breaching ones |
| ReliabilityAlert.CycleAlternates | collector/src/handler.ts:106-123 | from a consistent state any delivered part of a cycle's messages keeps the alternation |
| ReliabilityAlert.CutCycleIsHarmlessIff | collector/src/handler.ts:123-127 | a cycle that stores nothing keeps messages and state consistent if and only if it sent nothing |
| ReliabilityAlert.CutCycleShows | collector/src/handler.ts:123-127 | after it the next completed cycle repeats the key's message or leaves it announced wrongly |
| SankeyFilter.Reaches | app/src/components/charts/Sankey.tsx:48-58 | the stack search answers true if and only if a path exists |
| SankeyFilter.Sanitize | app/src/components/charts/Sankey.tsx:40-86 | returns the greedy selection and the exact number of edges of its longest path |
| SankeyFilter.GreedyIsAcyclic | app/src/components/charts/Sankey.tsx:66-67 | no selected link lies on a cycle |
| SankeyFilter.AcyclicMeansNoCycle | app/src/components/charts/Sankey.tsx:34-38 | in such a graph no path of one edge or more returns to its start |
| SankeyFilter.RejectedLinkClosesCycle | app/src/components/charts/Sankey.tsx:60-69 | every in-range, non-self, positive, finite link is taken at its turn or would close a cycle with the result |
| SankeyFilter.GreedyIsSubsequence | app/src/components/charts/Sankey.tsx:59-69 | the selection is a subsequence of the input |
| SankeyFilter.UsableIff | app/src/components/charts/Sankey.tsx:60-65 | a link is considered if and only if it runs between two different nodes of the list with a positive finite value |
| SankeyFilter.GraphHolds | app/src/components/charts/Sankey.tsx:66-69 | the searched graph has exactly the edges along which the taken links run |
| SankeyFilter.PathMemo.LongestFrom | app/src/components/charts/Sankey.tsx:72-81 | the memoised recursion ends, never meets a placeholder and returns the exact longest path length |
| TopologyGrouping.ApplyGrouping | app/src/lib/topology-graph.ts:167-281 | the node, edge and output loops produce the effective nodes, the merged edges and metadata of exactly the collapsed groups |
| TopologyGrouping.EffNodesAppear | app/src/lib/topology-graph.ts:185-209 | the effective nodes are, in order, every member of an expanded group and, at its first member, one node with the id, label and field of each collapsed group |
| TopologyGrouping.KeyIsField | app/src/lib/topology-graph.ts:135-139 | the key of a node is its field at the level, or "unknown" |
| TopologyGrouping.MembersAre | app/src/lib/topology-graph.ts:174-179 | the member count of a group is the number of kept nodes with its key |
| TopologyGrouping.PairsInOrder | app/src/lib/topology-graph.ts:226-242 | one merged edge for every pair that some kept edge has, in the order of their first edges |
| TopologyGrouping.MergedRttExists | app/src/lib/topology-graph.ts:247-267 | a merged edge shows a round-trip time if and only if some edge of its pair carries one |
| TopologyGrouping.MergedRttIsMean | app/src/lib/topology-graph.ts:262-270 | times the bytes of the edges that carry one it is the sum of their times weighted by their bytes; without such bytes, times their number it is the plain sum |
| TopologyGrouping.MergeConserves | app/src/lib/topology-graph.ts:228-277 | for every selection of node pairs the merged edges carry what the kept input edges carry, per counter |
| TopologyGrouping.OrderedIsSymmetric | app/src/lib/topology-graph.ts:231 | the pair of an edge does not depend on its direction: the smaller end comes first |
| TopologyGrouping.LeIsLexicographic | app/src/lib/topology-graph.ts:231 | smaller means lexicographically: a proper prefix, or the smaller character at the first difference |
| TopologyGrouping.MergedRttIsBetween | app/src/lib/topology-graph.ts:246-266 | the merged round-trip time lies within any range that holds all constituents' |
| TopologyGrouping.CategoryOfHeaviest | app/src/lib/topology-graph.ts:252-256 | the category is that of the heaviest constituent, the last one on a tie |
| TopologyGrouping.Regroup.NodesCompose | app/src/lib/topology-graph.ts:185-212 | collapsing more of a collapsed graph gives the nodes of collapsing from scratch, in the same order |
| TopologyGrouping.Regroup.EffIdsCompose | app/src/lib/topology-graph.ts:180-183 | two steps send every node where one step sends it |
| TopologyGrouping.Regroup.EdgeTotalsCompose | app/src/lib/topology-graph.ts:214-277 | for every selection of pairs two steps carry exactly what one step carries, per counter |
| TopologyGrouping.Regroup.PairOrderComposes | app/src/lib/topology-graph.ts:226-277 | both ways give the same merged edges' ends in the same order |
| TopologyGrouping.Regroup.EdgesCompose | app/src/lib/topology-graph.ts:214-277 | edge by edge, two steps give the ends and counters of one step, in the same order |
| GraphModel.BuildGraphModel | app/src/lib/topology-graph.ts:283-425 | selection, grouping, cut, traffic and group metadata are those of the specification functions; what its result shows is said by the next rows |
| GraphModel.SelectedNodes | app/src/lib/topology-graph.ts:294-296 | the kept nodes are, in order, those whose id is wanted, and all of them when nothing is |
| GraphModel.ModelLinks | app/src/lib/topology-graph.ts:315-351 | the links are, in order, exactly the edges between two different nodes of the list whose value reaches a positive cut, each with that value; the hidden count is the number of those that do not |
| GraphModel.ModelNodes | app/src/lib/topology-graph.ts:354-423 | the nodes are, in order, all but those that had a link, lost every one to the cut and carry nothing in self-loops; the traffic of each is the sum of the shown links at either end and of its self-loops |
| GraphModel.BuiltLinksAreDrawn | app/src/lib/topology-graph.ts:354-383 | in every model it returns the ends of every link are drawn, as two different nodes |
| GraphModel.BuiltTrafficAddsUp | app/src/lib/topology-graph.ts:385-390 | in every model it returns for distinct nodes, whatever the selection, grouping, expanded groups and cut, the nodes' traffic is twice the links plus the drawn self-loops, which for non-negative input are all the self-loops |
| GraphModel.BuiltConserves | app/src/lib/topology-graph.ts:158-166 | without a cut links plus self-loops of the model it returns carry exactly what the edges between selected nodes carry, grouped or not, per counter |
| GraphModel.ShownIsNonNegative | app/src/lib/topology-graph.ts:228-277 | grouping keeps every metric non-negative, the averaged round-trip time included |
| GraphModel.GroupingConserves | app/src/lib/topology-graph.ts:158-166 | without a cut links plus self-loops carry the same with and without grouping, for every level and expanded set, per counter |
| GraphModel.LinkEndsAreRendered | app/src/lib/topology-graph.ts:354-383 | after any cut both ends of every link are drawn nodes |
| GraphModel.TrafficAddsUp | app/src/lib/topology-graph.ts:385-390 | after any cut the drawn nodes' traffic is twice the links plus the drawn self-loops, for any values |
| GraphModel.LoopsAreDrawn | app/src/lib/topology-graph.ts:368-383 | for non-negative values no cut drops a self-loop that carries something |
| GraphModel.RaisingCutSelectsLinks | app/src/lib/topology-graph.ts:345-351 | a higher cut selects among the links the lower cut left |
| GraphModel.RaisingCutRemovesNodes | app/src/lib/topology-graph.ts:368-383 | a higher cut draws a selection of the nodes the lower cut drew |
| GraphModel.GroupedIdsDistinct | app/src/lib/topology-graph.ts:147-148 | distinct nodes stay distinct after grouping, and no two groups share an id |

## Left out

- Times are integer milliseconds, not ISO strings; row and group keys are tuples, not texts joined with `|`, `#` or the unit separator, so texts containing those separators are not modelled.
- Numbers are mathematical integers and reals: no floating-point rounding, overflow or NaN, except in the Sankey filter, which distinguishes NaN and infinities; a NaN concurrency or poll maximum behaves as the non-positive ones do.
- Strings are sequences of characters: no UTF-8 decoding, UTF-16 surrogates, Unicode digits or white space beyond the ASCII ones, and no limit on the digits of an integer.
- Table reads see all committed writes, and the rows of one partition come in an order fixed by the partition's state; eventually consistent reads, pagination and throttled reads are not modelled.
- CollectorProtocol.MarkedHourIsComplete: speaks of hours read before any of their raw rows could expire; LookbackSlotsInTime says which lookback slots those are, and LateHours.MarkedHourHoldsWhatWasRead what a marker promises for the others.
- RollupRefinement.WindowReadRefinesRaw: takes the app's reads of all parts as one snapshot and the list of monitors as duplicate-free and fixed.
- FlowsCache.SingleFlight: cache entries are numbered records rather than heap objects, a promise's callbacks run together with its settlement, and the 15-second memo behind the version probe is an arbitrary version per lookup.
- QueryLifecycle.RunOne: rows arrive normalised; `normalizeRow`, the endpoint keys and the hash are not modelled, and waiting times are dropped.
- QueryMatrix.MatrixAddsUp: each job is answered from a script of its own, whatever the other jobs do; a job's end, the collection of its edges and its worker's next job are one step.
- ReviewProtocol.PassIsCurrent: digests are injective (plans are compared by value), nonces are fresh, `prepare` and `aggregate` are single steps, an issue reads the plan, the old result and the history together, and response parsing, validation, scrubbing and the diagnostic patterns are abstract outcomes of a record.
- ReviewProtocol.PoisonBlocksUntilPrepared: the lock directory counts as held until its removal, which is one file operation.
- HunkChecker.CheckDecidesGrammar: chunks without any hunk end in a separate outcome; the metadata-only rules behind it are not modelled.
- Sse.PrintedIsReceived: payloads are opaque one-line texts; JSON parsing, which skips malformed frames, the per-event handlers and reads that fail for other reasons than a cancellation are not modelled.
- Csv.TextReads: the reader is more lenient than the standard about control characters in unquoted fields.
- ReliabilityAlert.DetectReliabilityBreaches: the final sort by rate and locale is not modelled; no property here depends on the order of the rows.
- TopologyGrouping.Regroup.NodesCompose: assumes that no node id starts with the `group:` prefix of the level, as endpoint keys never do (collector/src/normalize.ts:19-23).
- TopologyGrouping.Regroup.EdgeTotalsCompose: counters only; round-trip times and categories do not compose, because the second step weighs them by all bytes of a merged edge.
- GraphModel.BuiltTrafficAddsUp: assumes distinct node ids and, for a grouped graph, that none starts with the `group:` prefix of the level; the source states that they cannot (app/src/lib/topology-graph.ts:147-148), as endpoint keys start otherwise (collector/src/normalize.ts:19-23).
- GraphModel.BuildGraphModel: circle radius, status, the cross-zone badge, rate, dash and link health are drawing attributes computed per node or link and are not modelled.
- `buildTopology` and the cycle's other writers (topology, coverage, Workload Insights, DNS) are not part of this model: they would add maps without new properties.
- HTTP, AWS calls, authentication, React components, the Python tool functions, onboarding scripts and the CDK stacks other than the 270 s timeout are not part of this model.
