# queryforge, verified

queryforge takes a slow SELECT, proposes rewrites and indexes, and shows a person only those it has
measured to be faster with the same results. A job row, a Kafka log and any number of workers carry a
request through; a gate of checks decides about each rewrite; scanners and tree walkers feed the gate.
This project models those parts in Dafny and proves what they promise, on all inputs, all runs and all
interleavings.

`dafny verify dfyconfig.toml` checks everything.

## The parts

- **The job protocol.** `Store` is the job table: one method per SQL statement. `Queue` is the retry ladder and the
  log of uncommitted records. `Protocol` is the step system: any number of handlers, each between two atomic steps,
  over one table, one log and one clock; every operation may fail, with or without having taken effect, every handler
  may crash, and every record may be delivered again. `Worker` is the code itself, as methods with ordered effects on
  table and broker. Between any two of them `Pause` lets the rest of the system take any steps; what is left at the
  end is proved to be a run of the protocol in which the handler's own steps are those of the code, in its order. So a
  theorem about all runs speaks of every interleaving of the code's operations. `Exclusion` (safety), `Delivery`
  (nothing is lost), `Attempts` (bounded work), `Ladder` (how long a retry waits, what a dead letter says) and
  `RowHistory` (what a row tells) hold the promises, `Limits` where they end, and `Rescue` when a waiting job comes
  back to a worker.
- **The verification gate.** `Measuring` (the timing loop, median and spread), `Checksums` and `RowCodec` (the result
  hash), `MySqlResults` and `MySqlOrder` (the two on MySQL's rows and their order), `Shapes`, `Verification` (the nine
  gates) and `Optimizer` (which candidates are tested, which is best, what is stored, how index experiments are
  ranked). `Sorting` is the sort they share. The database is an oracle: what a text parses to, which rows it returns,
  how its executions end. Times and percentages are reals.
- **The DATE() rewrite.** `TextRewrite` is the text substitution, `DateRule` the rule that issues it, `SqlLexer` how
  PostgreSQL cuts a text into lexemes (`SqlLexer.BlockCommentIsBlank`, `SqlLexer.LineCommentIsBlank`,
  `SqlLexer.DoubledQuoteStays`), `DateCondition` the arithmetic of days, the three-valued logic and the grammar of
  conditions, `DateRewrite` what becomes of a condition. `DateText` says how the returned text is read, `DateQuery`
  that it means the same, and exactly when. `DateExact`, `DateNeighbours` and `DateFused` show where it does not.
- **Scanners.** `ExtractJson` finds the JSON value in a model's answer; `IndexColumns` reads the column list of an
  index definition. `Text` holds the string functions of Go's library they rely on.
- **Walkers and index advice.** `MySqlWalk` (guard and collector), `TableRefs` (CTE filter and de-duplication),
  `PostgresWalk`, `Comparisons` (predicates from a parse tree) and `IndexAdvice` (whose column it is, and which
  columns want an index), over the tables of `Schema`.

## Where the code falls short of its own words

Each of these is a theorem: the input that shows it, and the exact condition under which the promise holds.

- The ladder has two tiers, so an attempt limit above three sends a job that is still `retrying` to the dead letters,
  where nothing picks it up (`Limits.NoJobIsLostExactlyWhen`). The configured limit is free.
- The reclaimer is said to rescue jobs whose worker died. It releases the row but publishes nothing, and the
  redelivered record has by then been dropped as a duplicate (`Limits.CrashStrands`). A sweep rescues exactly while
  attempts are left and a record that names the job is still uncommitted (`Rescue.SweepRescuesExactlyWhen`).
- When the first publish fails, the client is told that the job will be retried. It comes back exactly if the record
  had reached the broker all the same; otherwise its row stays queued for ever and its key turns away the client's own
  retry (`Rescue.UnannouncedComesBackExactlyWhen`, `Rescue.KeyStaysTaken`).
- A retry consumer goes on after a failed republish, and the next commit of the partition passes over the record it
  gave up on: that job never comes back (`Rescue.FailedRepublishIsLost`). A commit leaves a job its way back exactly
  when a record it does not cover, or a handler, still has it (`Rescue.CommitLeavesExactlyWhen`).
- CompleteJob and MarkFailure have no guard on the status. Mutual exclusion and the finality of outcomes rest on every
  handler ending within a bound of its claim: both hold exactly when that bound is within the lease, twice the job
  timeout (`Limits.MutualExclusionExactlyWhen`, `Limits.FinalityExactlyWhen`, `Limits.LateHandlerUndoesSuccess`).
- The lease is cut to whole seconds, so a job timeout below half a second is not covered, and two workers may hold one
  job although each ends in time (`Limits.TimeoutIsEnoughExactlyWhen`, `Store.LeaseCoversExactlyWhen`).
- A job failed by the sweep gets no finish time (`RowHistory.SweepLeavesNoFinishTime`): a failed row lacks one exactly
  when the sweep wrote it last (`RowHistory.NoFinishTimeExactlyWhen`).
- The blank-insensitive scan takes the blanks before the condition into its window, and the replacement begins with
  the column: `WHERE DATE(ts)  = '2024-01-01'`, with two blanks before the sign, becomes `WHEREts >= ...`
  (`DateFused.WhereFuses`, `DateFused.WideConditionFuses`). The result is cut into the lexemes the rule means exactly
  when the window does not begin with a blank that ends a word, or a line comment, before it
  (`DateText.ResultIsReadExactlyWhen`).
- The range stands without parentheses, so what stands beside the condition takes only a part of it: NOT and operators
  in front the first half, a cast of the literal, IS tests and IS DISTINCT FROM the second.
  `DATE(ts) = '2024-01-01'::date`, a common spelling, becomes `... INTERVAL '1 day'::date`, which the server refuses
  (`DateFused.CastLandsOnInterval`, `DateNeighbours.CastLiteralIsRefused`); under one NOT, or with `IS NOT TRUE`
  behind it, the condition changes its meaning (`DateNeighbours.OneTest`, `DateNeighbours.DistinctIsChanged`). In a
  condition whose parts are all different, the meaning is kept exactly when the server takes the range and the cases
  computed from the parts agree (`DateExact.RewriteKeepsMeaningExactlyWhen`), and with a pure date and tests only at
  the condition itself exactly when the server takes the range, no cast or IS DISTINCT FROM takes a part of it, an
  operator only where tests make it false for good, the NOTs are even in number and the tests harmless, as IS TRUE is
  (`DateNeighbours.NeighboursDecide`). A literal with a time of day moves the range off the day
  (`DateRewrite.RangeIsDayExactlyWhen`). The whole of it, from text to meaning, is
  `DateQuery.RewrittenQueryIsKeptExactlyWhen`. The gate's execution check stands behind all of this.
- The rule is meant for date-like columns, and lets every column through that its schema does not hold, as that of
  `SELECT * FROM (SELECT payload->>'at' AS at FROM ev) x WHERE DATE(x.at) = '2024-01-01'`: DATE() takes text, but no
  operator compares text with an instant, and the result is refused (`DateFused.DerivedColumnIsRewritten`,
  `DateNeighbours.OtherColumnIsRefused`). The look at the schema is enough exactly when the schema holds the column
  (`DateRule.GuardsTypeExactlyWhen`, `DateQuery.RuleIsKeptExactlyWhen`).
- MySQL reads the separator literal as the three letters `x1f`, which text can contain (`RowCodec.TwoRowsOneText`),
  and the result gate lets the two rows pass for one (`MySqlResults.CollidingRowsPass`). A row, and a whole result, is
  told from all others exactly under `RowCodec.DecodableExactlyWhen` and `MySqlResults.TextsTellApartExactlyWhen`. The
  sentinel for NULL, said to be what no value can produce, is the text of a value that spells it
  (`MySqlResults.NullMeetsItsText`).
- Suffixes of an index column are stripped in one pass, so `DESC NULLS LAST` keeps its `DESC`
  (`IndexColumns.ReadsPrintedExactlyWhen`); quotes are trimmed at both ends, so `name COLLATE "C"` loses its last one
  (`IndexColumns.CollationLosesQuote`, `IndexColumns.ColumnReadBackExactlyWhen`); and a quoted name is cut at a comma
  or closed at a parenthesis of its own (`IndexColumns.QuotedReadBackExactlyWhen`).
- A code fence anywhere in the answer takes precedence over a value in the prose (`ExtractJson.FenceWins`), a fence in
  a string of the value too: a plain JSON answer that quotes code between fences is lost
  (`ExtractJson.QuotedCodeHidesAnswer`). And a word in brackets before the value is taken for it
  (`ExtractJson.BracketedWordWins`). A value comes back exactly when it is the first thing with a bracket in what the
  first closed fence encloses, or in the whole text where no fence is closed (`ExtractJson.ReturnedExactlyWhen`); one
  that holds a fence itself, only in the latter case (`ExtractJson.FencedValueExactlyWhen`).
- On MySQL the LIMIT and ORDER BY of a whole UNION are not seen (`MySqlWalk.UnionOrderIsUnseen`,
  `MySqlWalk.SetOperationRootExactlyWhen`), so the result gate lets a candidate pass that returns the rows of an
  ordered UNION in another order (`MySqlOrder.UnionReorderedPasses`): the order is kept exactly when the leading
  SELECT has an ORDER BY of its own, or the rows are all alike (`MySqlOrder.SetOperationOrderIsKeptExactlyWhen`). And
  a WITH clause before a UNION passes its own first SELECT off as the statement (`MySqlWalk.CteNamesTheColumns`,
  `MySqlWalk.WithRootExactlyWhen`).
- Data-modifying CTEs are said to be rejected. The check follows WITH clauses only: a DELETE in a branch of a set
  operation or in a nested query passes (`PostgresWalk.BranchHidesDelete`). Its silence covers the statement exactly
  when it would be silent about each branch and nested query too (`PostgresWalk.SilenceCoversExactlyWhen`).
- Comparisons are told by the operator's name alone: `a IS DISTINCT FROM 5` is kept as `a = 5`
  (`Comparisons.DistinctIsKeptAsEqual`), and what is kept says the same exactly for plain operators
  (`Comparisons.ProposalKeepsMeaningExactlyWhen`).
- A join predicate is kept a second time with its columns exchanged and its operator as it was, which is right exactly
  for symmetric operators (`Comparisons.JoinProposalExactlyWhen`).
- Aliases of all nested queries share one map, in which the last wins: an alias that is another table's name, or that
  an inner query uses again, is overwritten (`IndexAdvice.AliasOfAnotherTable`, `IndexAdvice.AliasUsedTwice`). A
  qualifier is resolved rightly exactly when the last reference that answers to it is to the same table
  (`IndexAdvice.QualifierResolvedExactlyWhen`).
- Index suggestions are keyed by table name and column, without the schema (`IndexAdvice.SuggestionsMeetExactlyWhen`):
  of two large tables of one name only the first gets its index (`IndexAdvice.NamesakesShareASuggestion`).
- De-duplication is said to keep the entry with the alias. A bare entry met first stays beside it
  (`TableRefs.BareFirstStays`).

## Assumptions, and where they come from

- `WithinLease`/`TimelyRun`: a handler writes its outcome or dies within the lease, `2 * JobTimeout` cut to whole
  seconds. The code relies on it and does not enforce it. Theorems that need it say so; `Attempts` and, but for
  `ReportExactlyWhenSucceeded`, `RowHistory` do not.
- `Faultless`: no store or broker operation fails and no handler dies between claim and publish; a partition is read
  in order, its next record being fetched only when the handlers of the earlier ones have come to their commits, and a
  commit covers records of its own partition only. Both consumers keep that order as long as no publish fails. Failed
  commits, duplicates and crashes outside that span are allowed. That a commit then passes over no record still needed
  is proved (`Delivery.PassedIsSuperseded`).
- `TotalPreorder`: the server's collation sorts. `TellsApart`: it ties no two different digests of the one result,
  which a case-insensitive collation keeps to as well, the digests being in lower case
  (`Checksums.CaseBlindTellsApart`); only the direction from equal results to equal checksums asks for it.
  `FixedWidth`, no collision: of the digests of the two results compared only.
- `IsName`, `IsPlain`, `StandsAlone`: the column is written without quotes, the literal holds neither blank nor quote,
  and the database reads the condition for itself, in no literal and no comment.
- `Ready`: at least three timed runs, as the configuration enforces.
- `Named`: introspected tables have names. `Regular`, `BarFree`, `NulFree`: identifiers without the character a key
  uses as its separator.
- `ParsersTrim`: both parsers hand on the text they were given, trimmed, as their first lines do.

## Model

| member | source | states |
|---|---|---|
| `Exclusion.MutualExclusion` | internal/store/store.go:128-141 | over every run in which holders keep within their lease, with any crashes, duplicates, sweeps and failed operations: at most one handler holds a job |
| `Exclusion.ExclusiveRun` | internal/store/store.go:128-186 | the invariant behind it, kept by every step: a held row is running, with the attempt number and start time its one holder claimed |
| `Exclusion.OutcomeWritesLand` | internal/store/store.go:143-172 | in a timely run every CompleteJob and MarkFailure, which guard on the id alone, meets a running row of the attempt its handler claimed |
| `Exclusion.FinalForever` | internal/store/store.go:143-186 | from any exclusive state on, a succeeded or failed row never changes again in a timely run |
| `Exclusion.SettledRowsNeverChange` | internal/store/store.go:143-186 | the same told from the initial state: what is settled after a run is settled the same way after every longer one |
| `Exclusion.ExclusiveStep` | cmd/worker/main.go:186-231 | one atomic step of any handler, of the sweep or of the clock keeps the exclusion invariant |
| `Delivery.NoJobIsLost` | cmd/worker/main.go:135-184 | without faults, in every state, however records lie in partitions that are read in order: a waiting job has a record in the main or a retry topic or a handler about to publish one, a running job has a holder, and a job failed exactly when its dead letter is published or about to be |
| `Delivery.IdleMeansSettled` | cmd/worker/main.go:257-281 | when no handler is busy, failed jobs and dead letters are the same; when the job topics are drained too, every job succeeded or failed |
| `Delivery.DeliveredRun` | cmd/worker/main.go:135-281 | the stronger invariant, over every nominal run: a waiting job has a record whose handlers have not come to a commit, or a handler about to publish one |
| `Delivery.DeliveredStep` | cmd/worker/main.go:135-281 | one faultless step keeps that invariant for every job |
| `Delivery.InOrderStep` | cmd/worker/main.go:135-184 | reading a partition in order is kept up by every faultless step: behind the record of each handler are only records whose handlers have come to their commits |
| `Delivery.PassedIsSuperseded` | internal/queue/queue.go:108-110 | so a commit, though it covers the earlier records of its partition, leaves every waiting job another record or a handler about to publish one |
| `Delivery.Handover` | cmd/worker/main.go:174-183 | a handler that publishes on behalf of its record leaves a fresh record behind before the old one can go |
| `Delivery.WellFormedStep` | internal/queue/queue.go:62-110 | every step, faults included: records and handlers name existing jobs, and the record a handler was given is the one it works on |
| `Limits.NoJobIsLostExactlyWhen` | internal/queue/queue.go:31-37 | the promise that nothing is lost holds of all fault-free runs, in whatever partitions the records lie, if and only if no attempt limit exceeds the number of retry tiers plus one |
| `Limits.OneAttemptTooMany` | cmd/worker/main.go:262-281 | for every longer limit, a fault-free run that leaves a retrying job in the dead-letter topic with nothing to bring it back |
| `Limits.CrashStrands` | internal/store/store.go:174-186 | one crash while a job is held, a redelivery that is dropped as a duplicate, and a sweep that publishes nothing leave a retrying job stranded |
| `Rescue.ComesBackExactlyWhen` | cmd/worker/main.go:135-200 | in every state a run can lead to, a waiting job comes back to a worker in some continuation if and only if an uncommitted main or retry record names it, or a handler can still claim it or publish such a record; a handler past the ladder or about to complete cannot |
| `Rescue.RecordsDecide` | cmd/worker/main.go:135-200 | in any state whatever in which no handler is concerned with the job, the records alone decide |
| `Rescue.CommitLeavesExactlyWhen` | internal/queue/queue.go:108-110 | a commit covers the earlier records of its partition: after it a waiting job comes back if and only if a record it does not cover names the job, or a handler can still help |
| `Rescue.FailedRepublishIsLost` | cmd/worker/main.go:166-183 | the republish of one delayed record fails, its consumer goes on to the next of the partition and commits that: the first job never comes back |
| `Rescue.SweepRescuesExactlyWhen` | internal/store/store.go:174-186 | a sweep rescues the job of a dead worker if and only if attempts are left and such a record is there before the sweep |
| `Rescue.UnannouncedComesBackExactlyWhen` | internal/api/server.go:117-127 | after a first publish that was seen to fail the new job comes back if and only if the record had been written all the same; otherwise it is stranded |
| `Rescue.KeyStaysTaken` | internal/store/store.go:98-120 | a stranded job keeps its row in every continuation, and no job can be created under its key again |
| `Limits.StrandedForever` | cmd/worker/main.go:186-200 | a stranded job stays as it is in every continuation whatever |
| `Limits.LateHandlerUndoesSuccess` | internal/store/store.go:158-172 | any bound on handlers beyond the lease leaves room for a run in which a late one turns a succeeded row back into a retrying one |
| `Limits.MutualExclusionExactlyWhen` | internal/store/store.go:174-186 | if handlers end within a bound of their claims, at most one holds a job in every run: if and only if the bound is within the lease |
| `Store.LeaseCoversExactlyWhen` | internal/store/store.go:174-186 | the lease, cut to whole seconds, covers the job timeout if and only if that is half a second or more |
| `Limits.TimeoutIsEnoughExactlyWhen` | cmd/worker/main.go:202-203 | if handlers end within the job timeout, at most one holds a job in every run: if and only if the timeout is half a second or more |
| `Limits.FinalityExactlyWhen` | internal/store/store.go:143-172 | and settled rows never change again in any such run, if and only if the bound is within the lease |
| `Attempts.BoundedWork` | internal/store/store.go:128-186 | over every run whatever: at most three row writes per allowed attempt, and claims numbered 1, 2, 3, ... without repeats up to the limit |
| `Attempts.WorkStep` | internal/store/store.go:128-186 | every write to a row strictly decreases the work left: attempts, outcomes outstanding, and the running flag |
| `Attempts.WorkRun` | internal/store/store.go:128-186 | the same over a whole run, with the attempt numbers its claims hand out |
| `RowHistory.RowsStayCoherent` | internal/store/store.go:98-186 | over every run whatever: attempts, start and finish time, report and last error of a row agree with its status |
| `RowHistory.OneRowPerKey` | internal/store/store.go:98-120 | after every run whatever, no two rows have one idempotency key |
| `RowHistory.NoFinishTimeExactlyWhen` | internal/store/store.go:158-186 | after every run whatever, a failed row has no finish time if and only if the sweep was the last to write it |
| `RowHistory.SweepLeavesNoFinishTime` | internal/store/store.go:174-186 | a worker dies in the only attempt: a timely run that ends in a failed row without a finish time |
| `RowHistory.ReportExactlyWhenSucceeded` | internal/store/store.go:143-172 | in timely runs a row carries a report exactly when its job succeeded |
| `RowHistory.ReportIsTheLastOne` | internal/store/store.go:143-156 | after every run whatever, the report on a row is the one the handler came back with whose completion wrote the row last |
| `RowHistory.StoredFiguresAgree` | cmd/worker/main.go:217-225 | in every run whose reports come from optimisation runs, a row shows the baseline's median and the median and percentage of the best outcome of one of these; the best time is the baseline less that percentage of it, and never above it |
| `Ladder.RetriesWait` | cmd/worker/main.go:257-275 | in every run whatever, a job goes back to the main topic only when fifteen seconds have passed since its first failure was marked, or two minutes since its second |
| `Ladder.RecordsTellTheError` | cmd/worker/main.go:262-281 | in every run whatever, a record outside the main topic names the error of an attempt that failed, and the attempt after it: a dead letter says what its job died of |
| `Queue.TheLadder` | internal/queue/queue.go:20-37 | fifteen seconds after the first failed attempt, two minutes after the second, and no further |
| `Store.JobTable.CreateJob` | internal/store/store.go:98-120 | inserts one queued row per idempotency key, or hands back the row that has the key and changes nothing |
| `Store.JobTable.ClaimJob` | internal/store/store.go:128-141 | takes exactly queued and retrying rows, with one more attempt and a new start time, and all other columns as they were; otherwise tells a missing row from a taken one |
| `Store.JobTable.CompleteJob` | internal/store/store.go:143-156 | the whole new table: the row succeeded with the very report handed in, whatever its status was, column by column |
| `Store.JobTable.MarkFailure` | internal/store/store.go:158-172 | the whole new table, column by column, and the answer: retry exactly while attempts remain |
| `Store.JobTable.ReclaimStale` | internal/store/store.go:174-186 | the whole new table: exactly the rows past their lease released or failed, and how many they were |
| `Queue.AllTopics` | internal/queue/queue.go:39-46 | the main topic, the dead letters and each topic of the ladder, each once |
| `Queue.Broker.Publish` | internal/queue/queue.go:62-73 | one record more, at a fresh offset |
| `Queue.Broker.Commit` | internal/queue/queue.go:108-110 | that record and the earlier ones of its partition are gone, and no others |
| `Worker.Handlers.Handle` | cmd/worker/main.go:186-231 | one delivery, with any steps of the others between its own: a run of the protocol whose steps by this handler are claim, run, persist or mark, publish, in the code's order, for every way its operations may end |
| `Worker.Handlers.ScheduleRetry` | cmd/worker/main.go:257-281 | marks, then publishes to the tier, and to the dead letters when there is no tier, no retry, or the first publish failed |
| `Worker.Handlers.ClaimStep` | cmd/worker/main.go:189-200 | goes on only with a claim that was seen to succeed |
| `Worker.Handlers.Persist` | cmd/worker/main.go:213-225 | completes the row; a failure to persist is not retried |
| `Worker.Handlers.ConsumeMain` | cmd/worker/main.go:135-153 | one turn of the main loop among any steps of the others: fetch, handle, commit, the commit last, whatever happened before it, and passing over no record but earlier ones of the partition |
| `Worker.Handlers.ConsumeRetry` | cmd/worker/main.go:155-184 | one turn of a retry loop among any steps of the others: never before the record is due, and committed only after it was published, when the commit also passes over earlier records given up on |
| `Worker.Handlers.Sweep` | cmd/worker/main.go:283-301 | one sweep with twice the job timeout is the protocol's reclaim step |
| `Worker.Handlers.CreateOptimization` | internal/api/server.go:109-127 | the row first, then the record, with any steps of the others between, and neither for a key seen before |
| `Measuring.Measure` | internal/engine/postgres.go:259-311 | the summary of the timed runs exactly when every execution comes back; timed out exactly when the first that does not is a time-out; zero figures otherwise |
| `Measuring.SortSorts` | internal/engine/postgres.go:304-305 | the sort is ascending and a permutation |
| `Measuring.MedianIsCentral` | internal/engine/postgres.go:313-322 | at least half of the runs are no slower than the median, and at least half no faster |
| `Measuring.MedianMirrors` | internal/engine/postgres.go:313-322 | turning every figure around turns the median around |
| `Measuring.MedianIsHalfway` | internal/engine/postgres.go:313-322 | for an even number of runs the median is as far from the last of the faster half as from the first of the slower |
| `Measuring.MedianResists` | internal/engine/engine.go:104-108 | breakdown bound: while fewer than half of the runs are replaced, by whatever values, the median lies between two that were not |
| `Measuring.MedianBreaks` | internal/engine/engine.go:104-108 | the bound is tight: half of the runs suffice to push the median past any value |
| `Measuring.OneColdRunIsHarmless` | internal/config/config.go:86-90 | with the enforced three runs or more, one run never decides the median |
| `Measuring.RunsWithinReport` | internal/engine/mysql.go:317-325 | every timed run and the median lie within the reported minimum and maximum, which are runs themselves |
| `Checksums.ChecksumIsExact` | internal/engine/postgres.go:337-358 | without digest collisions on the data at hand: equal checksums exactly for the same multiset of rows, or the same sequence in ordered mode; never across modes |
| `Checksums.SameChecksumOrCollision` | internal/engine/engine.go:133-138 | equal checksums mean equal results, or a digest collision can be read off the two results |
| `Checksums.SameResultSameChecksum` | internal/engine/mysql.go:391-401 | equal results have equal checksums, however digests collide, if the collation tells the one result's digests apart |
| `Checksums.SortIsCanonical` | internal/engine/postgres.go:346-347 | sorted digest lists that agree hold the same digests equally often, and conversely if the collation tells them apart |
| `Checksums.CaseBlindTellsApart` | internal/engine/mysql.go:389-400 | digests in lower case are told apart by a collation that ignores letter case |
| `Checksums.ConcatDecodes` | internal/engine/postgres.go:343-346 | digests of one width are read back from their concatenation |
| `Checksums.EmptyMeetsNoDigest` | internal/engine/postgres.go:343-347 | the stand-in hash marks the empty result and nothing else |
| `RowCodec.DecodableExactlyWhen` | internal/engine/mysql.go:383-389 | a row is told from all others of its arity if and only if no value is NULL or the sentinel and, with several columns, none contains the separator |
| `RowCodec.CleanRowsAreToldApart` | internal/engine/mysql.go:383-389 | among rows whose values hold neither separator nor sentinel, NULL positions included, equal texts mean equal rows |
| `RowCodec.SplitOfJoin` | internal/engine/mysql.go:389 | a join cut at its separators gives its parts back exactly when no part holds the separator |
| `RowCodec.TwoRowsOneText` | internal/engine/mysql.go:389 | with the separator MySQL reads from the literal, two different rows of ordinary text share one text |
| `MySqlResults.AcceptedReturnsTheRows` | internal/optimizer/verify.go:181-197 | on MySQL an accepted candidate returns the original's very rows, NULLs and column borders included, when all values are clean |
| `MySqlResults.TextsTellApartExactlyWhen` | internal/engine/mysql.go:383-400 | the texts hashed tell one result from every other of its arity if and only if none of its rows holds NULL, the sentinel or a separator |
| `MySqlResults.CollidingRowsPass` | internal/engine/mysql.go:389 | two results of one row each, of ordinary text and different, pass the result gate whatever the digests |
| `MySqlResults.NullMeetsItsText` | internal/engine/mysql.go:383-389 | a NULL and the text it is written as make one row, so a value can collide with the sentinel after all |
| `MySqlOrder.OrderIsKeptExactlyWhen` | internal/optimizer/verify.go:181-197 | the result gate keeps the original's order if and only if the order is reported, or the result has no second order |
| `MySqlOrder.SelectOrderIsKept` | internal/optimizer/verify.go:174-197 | on MySQL a SELECT with an ORDER BY of its own is accepted only with a candidate in its order |
| `MySqlOrder.SetOperationOrderIsKeptExactlyWhen` | internal/sqlparse/mysql.go:155-170 | a set operation that promises an order keeps it through the gate if and only if its leading SELECT has an ORDER BY too, or its rows are all alike |
| `MySqlOrder.UnionReorderedPasses` | internal/sqlparse/mysql.go:155-170 | for an ordered UNION without an ORDER BY in its leading SELECT, a candidate with the same rows in any other order passes the result gate |
| `Verification.EstablishBaseline` | internal/optimizer/verify.go:112-131 | a baseline exactly when plan, timing and checksum all succeed, hashed in order exactly when the statement orders |
| `Verification.Verify` | internal/optimizer/verify.go:134-238 | accepted exactly by passing nine gates in order; otherwise rejected with the reason of the first one failed; every figure of the result |
| `Verification.AcceptedIsEquivalent` | internal/optimizer/verify.go:174-197 | an accepted candidate returns the original's rows, in order if the parser reports that the original promises one, reads the same tables, and is a different text |
| `Verification.EquivalentPassesResults` | internal/optimizer/verify.go:181-197 | the result gate never turns away an equivalent candidate, if the collation tells the baseline's digests apart |
| `Verification.ImprovementIsShareSaved` | internal/optimizer/verify.go:342-347 | the candidate's time is the baseline less the percentage of it; without a positive baseline nothing is gained |
| `Verification.FasterExactlyWhen` | internal/optimizer/verify.go:250-267 | the last gate opens if and only if the candidate's median is below the baseline's by the demanded share, and by more than any two runs of one sample are apart |
| `Verification.FasterSeparatesSamples` | internal/optimizer/verify.go:250-267 | the noise test separates the samples: every baseline run is slower than the candidate's median, every candidate run faster than the baseline's |
| `Verification.AcceptedSeparatesSamples` | internal/optimizer/verify.go:203-238 | the same for every accepted candidate, over exactly the configured number of runs |
| `Shapes.SameShapeAs` | internal/sqlparse/sqlparse.go:152-187 | no error exactly for the same number of columns, agreeing names where both are known, and the same set of tables; an error names a real difference, the earliest kind first |
| `Shapes.TableSet` | internal/sqlparse/sqlparse.go:189-195 | the lower-cased qualified names, each once |
| `Optimizer.TestCandidates` | internal/optimizer/optimizer.go:190-202 | verifies exactly the candidates of new normal form, in order |
| `Optimizer.FreshIsExact` | internal/optimizer/optimizer.go:190-196 | the tested ones differ pairwise and from the original in normal form, and any other repeats one of them |
| `Optimizer.NeverIdentical` | internal/optimizer/verify.go:159-164 | within a run the gate against the original's own text never closes: such candidates are filtered before |
| `Verification.IdenticalExactlyWhen` | internal/optimizer/verify.go:349-351 | two texts count as one exactly when they have the same words up to the case of letters, in literals too |
| `Optimizer.ChooseBest` | internal/optimizer/optimizer.go:204-212 | the first accepted outcome of largest improvement, or none if none is accepted |
| `Optimizer.BestIsUnique` | internal/optimizer/optimizer.go:204-212 | that determines the choice |
| `Optimizer.Run` | internal/optimizer/optimizer.go:114-221 | a report exactly when parse, introspection and baseline succeed; then the outcomes and the best of the tested candidates |
| `Optimizer.StoredIsConsistent` | cmd/worker/main.go:217-225 | the stored best time is at most the baseline, strictly below it for an accepted best, and the percentage is that of the two |
| `Optimizer.RunIndexExperiments` | internal/optimizer/optimizer.go:223-264 | the suggestions within the budget, in order, each with its measured or its empty result, ranked |
| `Optimizer.RecommendedExactlyWhen` | internal/optimizer/verify.go:316-338 | an index is recommended if and only if it was measured and the time with it is below the baseline by the demanded share |
| `Optimizer.SortRanksExperiments` | internal/optimizer/optimizer.go:262 | ranking is by descending improvement, keeps every experiment, and leaves ties in the order tried |
| `TextRewrite.ReplaceFold` | internal/rules/rules.go:234-252 | on success one window is replaced and nothing else touched, and the window reads like the target; on failure no window within the slack does |
| `TextRewrite.ChosenIsUnique` | internal/rules/rules.go:240-250 | the window is determined: the first verbatim occurrence, else the least start and for it the least end |
| `TextRewrite.FallbackSwallowsBlanks` | internal/rules/rules.go:244-250 | the blank-insensitive scan takes the blanks before its window along, as far as the slack reaches |
| `DateText.ResultIsReadExactlyWhen` | internal/rules/rules.go:234-252 | lexemes only: the database cuts the returned text into those around the window and those of the replacement between, if and only if the window does not begin with a blank that ends a word or a line comment before it |
| `DateText.ConditionsAreSpelled` | internal/rules/rules.go:217-219 | what is sought and both halves of what replaces it, lexeme by lexeme as the database cuts them |
| `DateFused.WideConditionFuses` | internal/rules/rules.go:244-250 | in every statement with a second blank before the equals sign the column lands on the word in front of the condition, and the two are read as one |
| `DateFused.WhereFuses` | internal/rules/rules.go:244-250 | one such statement, whose result begins with WHERE and the column in one word |
| `DateFused.AsItIsReplaced` | internal/rules/rules.go:240-243 | behind a text without a parenthesis, or without an equals sign, the condition as written is what is replaced, and what follows it stays where it is |
| `DateFused.DerivedColumnIsRewritten` | internal/rules/rules.go:206-214 | for a column of a derived table, which no schema of tables holds, the rule applies and returns the range on the bare column |
| `DateFused.CastLandsOnInterval` | internal/rules/rules.go:214-219 | so in DATE(column) = literal::date the cast comes to stand behind the interval |
| `DateRule.RewriteDateEquality` | internal/rules/rules.go:194-230 | for an equality of DATE(column) with a constant, on a column the schema does not hold with another type than a date-like one, the text with its window replaced by the range; it fails only for want of a window |
| `DateRule.TrimQuotesExact` | internal/rules/rules.go:216 | trimming takes all quotes off both ends of the literal, and nothing else |
| `DateRule.AppliesExactlyWhen` | internal/rules/rules.go:194-214 | the rule applies to every such equality if and only if each column of that name in the table found is of a type the server takes for date-like |
| `DateQuery.RewrittenQueryKeepsMeaning` | internal/rules/rules.go:214-229 | where every replaced condition is safe among its neighbours and the server takes the range in its place, the clause parses again, is accepted, and has the same three-valued value on every row; and unless the window fuses, that is what the returned text is read as |
| `DateQuery.RewrittenQueryIsKeptExactlyWhen` | internal/rules/rules.go:214-229 | for a clause whose parts are all different, and a column of any type DATE() takes, the returned text is a statement the server accepts and whose clause has the same value on all rows, if and only if nothing fuses, the server takes the range, and each case of the clause is kept |
| `DateQuery.PlainQueryIsKeptExactlyWhen` | internal/rules/rules.go:214-229 | with a pure date, no operator or cast beside the condition and tests at it only: if and only if nothing fuses, the condition is safe among its neighbours, and its column is date-like |
| `DateQuery.RuleIsKeptExactlyWhen` | internal/rules/rules.go:194-230 | where the rule applies, such a clause is kept for every type its column may have, as far as the schema tells, if and only if nothing fuses, the condition is safe, and the schema holds the column |
| `DateRule.GuardsTypeExactlyWhen` | internal/rules/rules.go:206-214 | the rule keeps columns of other types out if and only if the schema holds the column, in the table the predicate was resolved to |
| `DateText.RuleRewrites` | internal/rules/rules.go:209-229 | every window the rule takes is blanks, a condition read as the one sought, and the text after it |
| `DateRewrite.RewriteKeepsMeaning` | internal/rules/rules.go:214-219 | the unparenthesised range re-parses, is accepted, and keeps the three-valued meaning among AND, OR, NOT, parentheses, IS tests and IS DISTINCT FROM, wherever the condition is safe among its neighbours and the server takes the range |
| `DateRewrite.TakenExactlyWhen` | internal/rules/rules.go:214-219 | the server accepts the spliced tree if and only if it takes the range for every site: the column is date-like, no cast stands behind the literal, and operators beside the condition are defined for the half they are left with |
| `DateRewrite.SplicedKeeps` | internal/rules/rules.go:214-219 | the tree the spliced text is read as keeps its value wherever the range is the day and the site is safe |
| `DateExact.RewriteKeepsMeaningExactlyWhen` | internal/rules/rules.go:214-219 | for every condition no part of which occurs twice, whatever operators, tests, NOTs and parentheses stand around, every type of column and every literal: the server accepts the result and finds the same value on all rows, if and only if it takes the range and in each of the finitely many cases, computed from the parts, old and new value agree |
| `DateExact.RowGivesCase` | internal/rules/rules.go:214-219 | the cases leave no row out |
| `DateExact.CaseHasRow` | internal/rules/rules.go:214-219 | and hold nothing that is not the case on some row |
| `DateNeighbours.NeighboursDecide` | internal/rules/rules.go:214-219 | where tests and IS DISTINCT FROM take only the condition itself, a pure date's range means the same if and only if the server takes it and the condition is safe: no cast of the literal, no IS DISTINCT FROM, an even number of NOTs, tests that leave false false and do not make NULL true, and no operator on a part of it unless tests make it false for good |
| `DateNeighbours.OtherColumnIsRefused` | internal/rules/rules.go:206-214 | on a column of a type DATE() takes but no instant compares with, the statement is accepted and the rewritten one refused, though nothing fuses and the condition stands alone |
| `DateNeighbours.NotsAndTestsExactlyWhen` | internal/rules/rules.go:214-219 | alone under NOTs with IS tests behind it: if and only if the column is date-like, the NOTs are even in number, and the tests leave false false and do not make NULL true |
| `DateNeighbours.OneTest` | internal/rules/rules.go:214-219 | of the six IS tests only IS TRUE is harmless, on a date-like column |
| `DateNeighbours.CastLiteralIsRefused` | internal/rules/rules.go:214-219 | DATE(column) = literal::date is accepted, the rewritten condition is not |
| `DateNeighbours.CastTakenExactlyWhen` | internal/rules/rules.go:217 | before the rewrite, the server takes a cast of the literal exactly when it is to a day, a local time or an instant |
| `DateCondition.CastKeepsExactlyWhen` | internal/rules/rules.go:217 | before the rewrite, a cast of the literal leaves the condition its meaning on all rows exactly when it is to a day or there is no time of day to take along |
| `DateNeighbours.DistinctIsChanged` | internal/rules/rules.go:214-219 | x IS DISTINCT FROM DATE(column) = literal means something else afterwards |
| `DateNeighbours.TestHides` | internal/rules/rules.go:214-219 | a test over a parenthesis may hide what an odd number of NOTs does: (NOT ...) IS UNKNOWN is kept |
| `DateRewrite.RangeIsDayExactlyWhen` | internal/rules/rules.go:180-184 | the half-open range is the day, for NULL and every kind of column, if and only if the literal has no time of day |
| `DateRewrite.SpliceOr` | internal/rules/rules.go:214-219 | the spliced condition parses at every level of the grammar, leaves the same rest, and gives the spliced tree |
| `ExtractJson.ExtractJSON` | internal/llm/gemini.go:199-240 | the fence is removed, then the text from the first bracket to the byte that balances it |
| `ExtractJson.ScanFrom` | internal/llm/gemini.go:219-239 | the byte loop ends where the three-part scanner state says |
| `ExtractJson.ReturnedExactlyWhen` | internal/llm/gemini.go:199-240 | any text and any JSON array or object (sections 4, 5 and 7 of RFC 8259): it comes back whole if and only if the content of the first closed fence, or the whole text where no fence is closed, is prose without a bracket, the value's own text, and anything |
| `ExtractJson.ExtractsFromProse` | internal/llm/gemini.go:211-240 | where no code fence is closed, exactly the value behind prose without a bracket comes back, whatever its strings contain |
| `ExtractJson.FencedValueExactlyWhen` | internal/llm/gemini.go:199-240 | a value with a fence in one of its strings comes back if and only if no closed fence stands in the text and no bracket before the value |
| `ExtractJson.FencedValueIsReturned` | internal/llm/gemini.go:201-209 | a closed fence with another value gives that one |
| `ExtractJson.BracketedWordWins` | internal/llm/gemini.go:211-218 | a word in brackets before the value is what comes back |
| `ExtractJson.QuotedCodeHidesAnswer` | internal/llm/gemini.go:201-209 | a plain JSON answer whose string quotes code between fences is not extracted at all |
| `ExtractJson.ExtractsFromFence` | internal/llm/gemini.go:201-209 | any JSON array or object in a code fence comes back whole, whatever surrounds the fence |
| `ExtractJson.ValueIsNeutral` | internal/llm/gemini.go:219-238 | inside the outer value, no complete value ends the scan or changes its depth: brackets and escaped quotes in strings included |
| `ExtractJson.ValueEndsScan` | internal/llm/gemini.go:232-236 | the scan of a value ends with its own closing bracket |
| `ExtractJson.FenceWins` | internal/llm/gemini.go:201-209 | prose with a value, followed by a fence with another, yields the fenced one |
| `IndexColumns.IndexColumns` | internal/engine/postgres.go:180-215 | the names read from the pieces between the first parenthesis and the one closing it |
| `IndexColumns.SplitTopLevel` | internal/engine/postgres.go:219-236 | the pieces between depth-zero commas |
| `IndexColumns.JoinRestores` | internal/engine/postgres.go:219-236 | joining the pieces with commas restores the text, whatever it is |
| `IndexColumns.StartsAreCuts` | internal/engine/postgres.go:228-232 | every piece but the first begins behind a depth-zero comma |
| `IndexColumns.CutsAreStarts` | internal/engine/postgres.go:228-232 | a piece begins behind every depth-zero comma |
| `IndexColumns.ReadsPrintedExactlyWhen` | internal/engine/postgres.go:180-215 | reading a printed definition gives its columns back if and only if no column carries both a direction and a NULLS modifier, or a quote of its own at an end |
| `IndexColumns.ColumnReadBackExactlyWhen` | internal/engine/postgres.go:206-212 | the same for one column |
| `IndexColumns.CollationLosesQuote` | internal/engine/postgres.go:206-212 | a column printed with a quoted collation loses the last quote |
| `IndexColumns.QuotedReadBackExactlyWhen` | internal/engine/postgres.go:180-236 | a single quoted name, whatever stands in it but quotes, is read back if and only if its parentheses balance and no comma stands outside them |
| `IndexAdvice.ResolveTables` | internal/rules/rules.go:475-522 | qualifiers are resolved through aliases and names, bare columns through the schema |
| `IndexAdvice.QualifierResolvedExactlyWhen` | internal/rules/rules.go:476-482 | a qualifier is taken for the reference that goes by it if and only if the last reference of the whole statement that has it for an alias or a name is to the same table |
| `IndexAdvice.AliasUsedTwice` | internal/rules/rules.go:476-482 | with one alias in a query and in one nested in it, the outer column is taken for one of the inner table |
| `IndexAdvice.AliasOfAnotherTable` | internal/rules/rules.go:476-482 | an alias that is also the name of a later table is taken for that table |
| `IndexAdvice.ResolveUnqualified` | internal/rules/rules.go:484-504 | a table that has the column, when all that have it go by one name; otherwise none has it or two names do |
| `IndexAdvice.AttributedExactlyWhen` | internal/rules/rules.go:494-503 | a bare column is attributed if and only if some table of the query has it and all that do go by one name |
| `IndexAdvice.AttributionIsUnique` | internal/rules/rules.go:484-504 | and the answer is one name, up to letter case |
| `IndexAdvice.Advise` | internal/rules/rules.go:345-378 | one predicate asks for an index exactly when it is eligible, and for a note when only its selectivity speaks against it |
| `IndexAdvice.CheckMissingIndexes` | internal/rules/rules.go:339-400 | suggestions and low-selectivity notes for a list of predicates |
| `IndexAdvice.MissingIsExact` | internal/rules/rules.go:343-398 | the suggested pairs are exactly those of the eligible predicates, each once |
| `IndexAdvice.EligibleExactlyWhen` | internal/rules/rules.go:342-375 | a column wants an index exactly when the table found for it is known to be large enough, no index of it begins with the column, and the statistics know of three values or more, or of none, unless it joins |
| `IndexAdvice.SuggestionsMeetExactlyWhen` | internal/rules/rules.go:379-383 | two suggestions are taken for one exactly when table name and column are the same up to letter case |
| `IndexAdvice.NamesakesShareASuggestion` | internal/rules/rules.go:379-387 | the schema is no part of that: of two large tables of one name, in different schemas, only the first gets its index |
| `IndexAdvice.FirstEligibleSpeaks` | internal/rules/rules.go:379-398 | of predicates with one key the first eligible one is suggested |
| `IndexAdvice.LowNotesAreExact` | internal/rules/rules.go:364-377 | notes go exactly to the unindexed columns held back for low selectivity |
| `Comparisons.ExtractPredicates` | internal/rules/rules.go:525-573 | the proposals of every comparison within the tree, at any depth and in walk order, the first of each key, and nothing else |
| `Comparisons.WalkIsWithin` | internal/sqlparse/walk.go:9-66 | the walk comes to every node at whatever depth, and to no other |
| `Comparisons.WalkIsInOrder` | internal/sqlparse/walk.go:9-66 | to a node before what is below it, and to that from left to right, each node once |
| `Comparisons.UnwrappedExactlyWhen` | internal/rules/rules.go:593-652 | a side is unwrapped if and only if a column is under its calls and casts, and then to the first of these |
| `Comparisons.WrappersAreOutermost` | internal/rules/rules.go:593-621 | what is told of the wrapping is the outermost call and the outermost cast |
| `Comparisons.ConstantsAreRead` | internal/rules/rules.go:693-715 | a constant is read through any casts, and nothing else is read |
| `Comparisons.KeysMeetExactlyWhen` | internal/rules/rules.go:575-585 | two predicates share a key if and only if they are of one column, operator, wrapper and literal, up to letter case |
| `Comparisons.DistinctIsExact` | internal/rules/rules.go:575-585 | no key twice, nothing invented, and every proposal with a column present under its key |
| `Comparisons.EveryComparisonIsFound` | internal/rules/rules.go:529-571 | whatever depth a comparison stands at in the tree, its columns reach the result |
| `Comparisons.NothingElseIsKept` | internal/rules/rules.go:529-571 | and every kept predicate is one of a comparison that stands in the tree |
| `Comparisons.ProposalKeepsMeaningExactlyWhen` | internal/rules/rules.go:558-570 | a comparison with a column on one side, literal-first or not, is kept as column-first; it says the same of all values if and only if it is a plain operator and none of IS [NOT] DISTINCT FROM, NULLIF, IN, ANY and ALL, which go by an operator's name |
| `Comparisons.DistinctIsKeptAsEqual` | internal/rules/rules.go:672-680 | a IS DISTINCT FROM 5 is kept as a = 5, which says the opposite of every value |
| `Comparisons.JoinProposalExactlyWhen` | internal/rules/rules.go:545-557 | a comparison of two columns is kept twice; the first says the same if and only if it is a plain operator, the second, columns exchanged and operator not, if and only if it is also symmetric |
| `Comparisons.JoinIsTurnedAround` | internal/rules/rules.go:551-556 | a.x < b.y is also kept as b.y < a.x |
| `Comparisons.FlipKeepsMeaning` | internal/rules/rules.go:717-730 | flipping an operator with its operands keeps the comparison, and twice restores the operator |
| `Schema.FoldEqual` | internal/engine/engine.go:154-171 | the byte loop decides equality up to ASCII letter case |
| `Schema.FindTable` | internal/engine/engine.go:77-84 | the first table that goes by the name, bare or with its schema, if one does |
| `MySqlWalk.Guard.Accept` | internal/sqlparse/mysql.go:84-115 | after the traversal the guard holds the first offence of the tree, or what it held before |
| `MySqlWalk.Guard.Enter` | internal/sqlparse/mysql.go:94-113 | records the first offence and skips from then on |
| `MySqlWalk.GuardIsExact` | internal/sqlparse/mysql.go:86-115 | the guard is silent exactly when no node at any depth locks, selects into or writes |
| `MySqlWalk.FirstOffenceIsFirst` | internal/sqlparse/mysql.go:94-113 | the refusal reported is that of the earliest offender in visiting order |
| `MySqlWalk.Collector.Accept` | internal/sqlparse/mysql.go:117-175 | the traversal gathers every reference, every CTE name and the clauses of the first SELECT |
| `MySqlWalk.Collector.Enter` | internal/sqlparse/mysql.go:133-173 | what one node adds, and that only a source wrapping a table name is skipped |
| `MySqlWalk.EveryTableOnce` | internal/sqlparse/mysql.go:139-154 | every table name of the tree, at any depth, is recorded once and in order, wrapped in a source or not |
| `MySqlWalk.SelectRootIsItsOwn` | internal/sqlparse/mysql.go:155-170 | for a SELECT, LIMIT, ORDER BY, columns and star are its own, whatever is nested below |
| `MySqlWalk.NamesOfFields` | internal/sqlparse/mysql.go:177-188 | a column goes by its alias, without one by its own name, and an expression or wildcard by none |
| `MySqlWalk.SetOperationRootExactlyWhen` | internal/sqlparse/mysql.go:155-170 | for a set operation without a WITH clause columns and star are its leading SELECT's in any case; all facts are its own if and only if that SELECT carries the same LIMIT and ORDER BY |
| `MySqlWalk.WithRootExactlyWhen` | internal/sqlparse/mysql.go:155-170 | with a WITH clause in front, if and only if the SELECT that clause opens with looks like the statement in all four |
| `MySqlWalk.CteNamesTheColumns` | internal/sqlparse/mysql.go:155-170 | a set operation behind a WITH clause reports the columns of the CTE's query |
| `MySqlWalk.UnionOrderIsUnseen` | internal/sqlparse/mysql.go:155-170 | an ORDER BY or LIMIT over a whole UNION leaves no trace in the facts |
| `MySqlWalk.Extract` | internal/sqlparse/mysql.go:49-81 | facts exactly for a read-only SELECT or set operation; a refusal names the first offender |
| `MySqlWalk.ReportedTablesAreExact` | internal/sqlparse/mysql.go:190-236 | a reported name stands in the tree and is no CTE's, and every name in the tree that is no CTE's is reported |
| `TableRefs.DedupeTables` | internal/sqlparse/mysql.go:214-236 | keeps exactly the references no earlier one covers |
| `TableRefs.FilterCtes` | internal/sqlparse/mysql.go:192-208 | removes the unqualified CTE references, then repeats |
| `TableRefs.DedupedIsSelection` | internal/sqlparse/mysql.go:217-234 | the result is an order-preserving selection of the input: the references no earlier one covers |
| `TableRefs.NoneCoversAnother` | internal/sqlparse/mysql.go:217-234 | no reference of the result makes a later one superfluous, so none is repeated |
| `TableRefs.NothingIsForgotten` | internal/sqlparse/mysql.go:217-234 | every table that went in is there, under a reference that covers it |
| `TableRefs.DedupeIsIdempotent` | internal/sqlparse/mysql.go:214-236 | deduplicating twice changes nothing |
| `TableRefs.KeysAreExact` | internal/sqlparse/mysql.go:218-231 | the string keys tell references apart exactly, and no key is an alias mark |
| `TableRefs.ReportIsExact` | internal/sqlparse/mysql.go:192-208 | a reference is reported, up to covering, exactly when it names no CTE |
| `TableRefs.BareFirstStays` | internal/sqlparse/mysql.go:210-232 | the entry with the alias is not always the one kept: a bare one met first stays beside it |
| `TableRefs.DedupeKeepsTableSet` | internal/sqlparse/mysql.go:214-236 | dropping repeats never changes the table set the shape gate compares |
| `TableRefs.SpellingOfPublic` | internal/sqlparse/sqlparse.go:64-69 | except that the default schema in other letters is not recognised |
| `PostgresWalk.RejectionExactlyWhen` | internal/sqlparse/sqlparse.go:198-221 | the check is silent exactly when every CTE that a chain of WITH clauses leads to is a SELECT |
| `PostgresWalk.RefusalIsReal` | internal/sqlparse/sqlparse.go:216-217 | a refusal names such a CTE and its kind |
| `PostgresWalk.SilenceCoversExactlyWhen` | internal/sqlparse/sqlparse.go:198-221 | the check's silence means that nothing anywhere in the statement modifies data if and only if it would be silent about each branch and nested query too |
| `PostgresWalk.NothingModifiesExactlyWhen` | internal/sqlparse/sqlparse.go:198-221 | nothing modifies data, at whatever depth, if and only if the check is silent at every query inside |
| `PostgresWalk.BranchHidesDelete` | internal/sqlparse/sqlparse.go:198-221 | a DELETE in the WITH clause of a branch or a nested query passes, one at the top is refused |
| `PostgresWalk.OutputColumns` | internal/sqlparse/sqlparse.go:272-291 | the names of the leftmost branch's targets |
| `PostgresWalk.StarReportedExactlyWhen` | internal/sqlparse/sqlparse.go:316-337 | a star is reported exactly when a target of one of the branches is a star, alone or behind a qualifier |
| `PostgresWalk.NamesOfTargets` | internal/sqlparse/sqlparse.go:272-314 | a column goes by its alias, without one by the last part of its own name, and an expression by none |
| `PostgresWalk.NoStarInNames` | internal/sqlparse/sqlparse.go:316-337 | where no star is reported, none of those names comes from a star |
| `PostgresWalk.CollectTables` | internal/sqlparse/sqlparse.go:239-270 | each reference that names no CTE, once per qualified name and alias, in the order of the qualified names |
| `PostgresWalk.KeysKeepTableSet` | internal/sqlparse/sqlparse.go:261-265 | dropping repeats keeps the table set the shape gate compares |

## Left out

- Drivers, pools, DSNs, HTTP, Redis, the model's API and its prompt: plumbing without an invariant of its own.
- The PostgreSQL and MySQL grammars, fingerprints and normalisation: external; the walkers start from abstract trees.
- EXPLAIN output, plan text, costs and the findings that only render text: no property beyond the rendering.
- Partitions: which partition a record goes to is arbitrary, and a commit may cover any of the earlier records of its
  own; outside `Faultless` runs, records may be fetched in any order and again.
- Undecodable records, which the consumer commits unseen: every record of the model decodes.
- SQL and enqueue time on a message, job fingerprint, duration, created and updated times: carried and never read by
  the parts modelled. The run history in query_runs likewise.
- Integer widths: attempts, counts and offsets are unbounded; durations are integer nanoseconds.
- Floating-point rounding: times and percentages are reals.
- Letter case beyond ASCII: Go folds all of Unicode, and lower-casing some letters changes their length in bytes.
- Strings are sequences of characters: where Go cuts at a byte (the last error at 4000) the model cuts at a character.
- Time zones that shift: the session's offset from UTC is fixed in the DATE() rewrite, and a day has 24 hours.
- Rewrites whose window lies in a literal or comment: `StandsAlone` shuts them out.
- PostgreSQL's lexer beyond words, quoted texts, operators, marks and comments: dollar quotes, escape strings, numbers
  with a point or a sign, and blanks outside ASCII, which Go takes for blanks and PostgreSQL for letters.
- Order of the PostgreSQL tree walk: the model visits a node's parts from left to right, which the reflection library
  leaves open. It decides which of two predicates with one key is the one kept, and in which order they are listed.
- Retry delays: they count from the mark, while the code reads its clock once more after it.
- Set difference in place: Go's map iteration order decides which of several extra tables SameShapeAs names; the
  model's method picks any.
- Ties in collectTables: references of one qualified name stay in the order met, which Go's sort does not promise.
- Index experiments in a transaction: a trial is an oracle that improves, is unsupported or fails.
- The other rules (wildcards, NOT IN, SELECT *, plan checks): single conditions on one node or figure.
- `cmd/bench`, start-up and configuration parsing, apart from the lower bound on timed runs.
- DateRewrite.RewriteKeepsMeaning: asks that each replaced condition is safe among its neighbours; that this is needed
  is proved where tests stand at the condition only, while a test over a parenthesis (`DateNeighbours.TestHides`) or a
  part that occurs twice can make an unsafe one harmless.
- DateExact.RewriteKeepsMeaningExactlyWhen: takes conditions no part of which occurs twice. Operators whose operand is
  a part of the replaced condition may come out in any way, and whether the server has them for that part is a
  parameter; NOT directly behind IS DISTINCT FROM, and BETWEEN with the condition for an end, are not in the grammar.
- DateRule.GuardsTypeExactlyWhen: speaks of the table the predicate was resolved to; when that is the right one, see
  IndexAdvice.QualifierResolvedExactlyWhen. Domains over a date type count as other types, though the server compares
  them.
- IndexColumns.ReadsPrintedExactlyWhen: takes columns with balanced parentheses and no comma outside them; for a
  quoted name of any other kind see IndexColumns.QuotedReadBackExactlyWhen, which takes one column without modifiers.
- MySqlWalk.WithRootExactlyWhen: the parser is taken to visit the WITH clause of a set operation before its branches;
  the parser's source is not part of this model.
