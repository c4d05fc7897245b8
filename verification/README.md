# Orisun, verified

Orisun is an event store whose central promise is command context consistency: a save commits
only if every query it relied on still has the same newest match. This project models the
parts of Orisun that carry that promise, and the consumers that build on it, and proves what
they guarantee over all inputs, all runs and all interleavings.

- **The SQLite commit engine.** Saves are checked in queue order inside one transaction,
  isolated by savepoints, numbered from a locally threaded sequence and inserted in chunks.
  The engine (`SqliteStore`, `SqliteCriteria`) is proved equal to a store that serves one save
  at a time and scans the whole log; `SqliteTransactions` runs it on a queue cut into batches
  that may each fail. The theorems about every run of that store are in
  `CommandContextConsistency`.
- **The group-commit coordinator.** `GroupCommitLane` is one boundary's queue and worker,
  `GroupCommit` the callers, the registry lock and `Close` around all workers, as atomic steps
  in any interleaving. `GroupCommitProgress` shows that every admitted request is answered
  whether or not `Close` is called, `GroupCommitClose` that `Close` returns. `GroupCommitStore`
  puts the engine behind the coordinator and carries command context consistency through to
  the answer a caller gets. `GroupCommitAnswers` gives every answer its reason, and
  `GroupCommitService` shows that a submitted save gets in, is served and answered.
- **The lease lock.** `LeaseLock` is the compare-and-set protocol over a revisioned key-value
  bucket, with expiry, renewal, reclaim, release and lost or delayed messages, and its safety;
  `LeaseLockService` is what it does for its callers.
- **Queries, encodings and numbers.** `ConsistencyQueries` (canonical queries, check lists),
  `CriterionCodec` and `WriteContexts` (durable forms and identifiers), `JsonNumbers` (exact
  comparison of the numbers of section 6 of RFC 8259).
- **Consumers.** `EventReads` (pages and latest-by-criteria), `SubscriptionDrain` and
  `SubscriptionWakeups` (the subscription reader), `BoundaryCatalog`, `BoundaryReplay`,
  `BoundaryRebuild`, `BoundaryHistory`, `BoundaryLifecycle`, `BoundaryLifecycleRuns`,
  `BoundaryAgreement`, `BoundaryReports`, `BoundaryProvisioning` and `BoundarySilence` (the
  boundary catalog and the create and provision commands).

`Common`, `Text`, `Ordering`, `Tags` and `EventLog` hold what these share: positions, decimal
text, sorting and its uniqueness, tags and what they select, and the newest match on a log.

Code that works step by step on one object is a method or class proved against a specification
function (`Database`, `Catalog`, `Subscription`, the normaliser, the codec, `minimalCriteria`
on an array, the number comparison). Concurrent protocols are state machines over atomic steps,
with an invariant kept by every step and theorems over every run.

Three results are findings rather than confirmations.

- A boundary defined twice can no longer be replayed, while the provisioning command still
  rebuilds it from its newest definition (`DefinedTwice`, `TwoDefinitions`). On an arbitrary
  ordered log the two disagree exactly when the rows the rebuild reads can be replayed and the
  whole history cannot (`DisagreeExactlyWhen`). No run of the commands gets there: none defines
  a boundary twice (`NeverDefinedTwice`), and in every run the rebuild and the replay agree,
  failing together if they fail (`RebuildAgreesInEveryRun`).
- They do fail together when a provisioning error has an empty text. It is recorded as a
  failure event that the catalog then refuses, and a run fails to read a boundary exactly when
  it holds such an event (`ReadableExactlyWhenReasonsGiven`). Any boundary still being
  provisioned can be silenced this way (`CanBeSilenced`, `SilentFailureHappens`), and there is
  no way back: in every longer run it can be neither replayed nor rebuilt, each provisioning
  command for it ends at once, and it is never activated (`SilentFailureIsFinal`).
- In the lock, mutual exclusion of unreleased, locally unexpired handles holds even for handles
  that were marked lost (`AtMostOneHolder`).

`dafny verify dfyconfig.toml` checks the whole project.

## Assumptions

- A `char` of a `string` stands for one byte, so orders and lengths are those of Go strings.
- A nil pointer in a request is the empty value next to it: a nil query has no criteria, a nil
  criterion no tags. A nil tag is an invalid tag, a nil observation one with an invalid query.
- The JSON codec is a faithful pair on the objects, strings and integers stored through it. A
  document is a map of fields; the text SQLite's CAST gives a number, array or object is kept
  with the field.
- A transaction or savepoint restores the tables on error. Whether a caller's context has ended
  by the turn of its save, whether the transaction itself fails, and the time an insertion
  records are inputs.
- The lock has one shared clock, a bucket that keeps its contents and strictly growing
  revisions, and fresh tokens. A request may be applied late, never or again; a reply may be
  lost; a read may return any value the key has had.
- Executor calls end, with outcomes, an error or a panic. What they return is an input, except
  in `GroupCommitStore`, where it is what the engine gives. The results of provisioning, of the
  subscription handler and of its activity check are inputs too.
- A subscription's backend answers with the page asked for, an error, or a page whose
  positions show that it is another one.

## Model

| member | source | states |
|---|---|---|
| JsonNumbers.ParseNumeral | internal/eventdata/number.go:64-67 | A string is recognised only as a number of the RFC 8259 grammar that prints as that string |
| JsonNumbers.ParsePrinted | internal/eventdata/number.go:64-67 | Every number of the grammar, printed, is recognised as exactly that number |
| JsonNumbers.CutExponent | internal/eventdata/number.go:72-76 | Cutting at the first exponent mark leaves the mantissa and the signed exponent of the number |
| JsonNumbers.SpliceFraction | internal/eventdata/number.go:77-81 | Removing the point keeps all digits and counts those after it |
| JsonNumbers.TrimZeros | internal/eventdata/number.go:82-82 | Trimming leaves no leading zero and keeps the number the digits denote |
| JsonNumbers.DecimalParts | internal/eventdata/number.go:64-88 | Fails exactly on strings outside the grammar; otherwise digits without leading zeros, magnitude and sign denote the same rational, a signed zero being plain zero |
| JsonNumbers.CompareDigits | internal/eventdata/number.go:38-57 | The digit loop decides the order of two fractions read as 0.d1d2..., padding the shorter with zeros |
| JsonNumbers.CompareJSONNumbers | internal/eventdata/number.go:14-62 | Incomparable exactly when an operand is no number; otherwise the sign of the difference of the two rationals, whatever the digit counts and exponents |
| JsonNumbers.ComparePrinted | internal/eventdata/number.go:14-62 | On any two numbers of the grammar the comparison is the sign of the difference of their values |
| JsonNumbers.WrittenOrder | internal/eventdata/number.go:11-62 | Two strings compare as less, equal or greater exactly when both are written numbers whose values stand so |
| JsonNumbers.DenotesWhatIsWritten | internal/eventdata/number.go:64-88 | The value a number denotes follows its text: sign, whole digits, digits after the point, and an exponent as factors of ten or divisions by it |
| JsonNumbers.CompareIsTotalPreorder | internal/eventdata/number.go:11-62 | On numbers the comparison is reflexive, antisymmetric in sign, total and transitive |
| ConsistencyQueries.ChunkDecodes | orisun/consistency.go:115-115 | A length-prefixed piece followed by anything determines the piece and the rest |
| ConsistencyQueries.TagKeyDecodes | orisun/consistency.go:115-115 | The identity of a tag followed by anything determines key, operator, value and the rest |
| ConsistencyQueries.CriterionKeyInjective | orisun/consistency.go:132-136 | Equal criterion keys come from equal tag lists |
| ConsistencyQueries.QueryKeyInjective | orisun/consistency.go:144-151 | Equal query keys come from equal lists of criterion keys, despite the nesting |
| ConsistencyQueries.TagLessIsStrictTotal | orisun/consistency.go:122-131 | The comparator used to sort tags is a strict total order |
| ConsistencyQueries.CollectPredicates | orisun/consistency.go:98-117 | Succeeds exactly when every tag is valid and no key is equated with two values; then the map holds each distinct tag, eq written as empty, under its identity |
| ConsistencyQueries.NormalizeCriterion | orisun/consistency.go:94-131 | Succeeds exactly on non-empty criteria with valid, agreeing tags, and yields the one ascending arrangement of their set, whatever order the map iterates in |
| ConsistencyQueries.CollectCriteria | orisun/consistency.go:92-142 | Fails exactly when some criterion is not acceptable; otherwise one entry per distinct canonical criterion, under its key |
| ConsistencyQueries.NormalizeConsistencyQuery | orisun/consistency.go:87-152 | Succeeds exactly on acceptable queries and returns the canonical query and its key |
| ConsistencyQueries.KeyDecidesQueryEquality | orisun/consistency.go:87-152 | Two queries get the same key exactly when they are equal as sets of sets of (key, operator, value) with the empty operator meaning eq, and the same canonical query exactly then |
| ConsistencyQueries.NormalQueryHolds | orisun/consistency.go:87-152 | Canonicalising a query does not change which documents it matches |
| ConsistencyQueries.RecordObservation | orisun/consistency.go:56-72 | One observation is skipped, refused as contradictory or appended, as the queries seen so far require |
| ConsistencyQueries.ConsistencyChecksFromObservations | orisun/consistency.go:18-75 | Succeeds exactly when the limits hold, every position and query is acceptable and no two observations of one query differ; then one check per distinct query in first-seen order |
| ConsistencyQueries.ChecksEquivalentToObservations | orisun/consistency.go:18-75 | On every log the checks all hold exactly when all observations hold |
| ConsistencyQueries.ChecksInFirstSeenOrder | orisun/consistency.go:56-74 | Checks stand in the order their queries were first observed, and later observations do not move them |
| ConsistencyQueries.CountsAreTotals | orisun/consistency.go:42-55 | The limits count every criterion and tag of every observation, repeated or not |
| ConsistencyQueries.ContradictionsNeverHold | orisun/consistency.go:61-68 | Two observations refused as contradictory cannot both hold on any log |
| CriterionCodec.EncodeCriterion | orisun/query_predicates.go:85-103 | The encoding maps each key to its comparisons in the order given, a single equality as plain text |
| CriterionCodec.DecodeCriterion | orisun/query_predicates.go:147-171 | Fails exactly when some field does not decode; otherwise the tags key by key in ascending key order |
| CriterionCodec.StableOrderUnique | orisun/query_predicates.go:147-171 | A list has only one stable arrangement by key, so decoding does not depend on map iteration |
| CriterionCodec.DecodesExactlyWhen | orisun/query_predicates.go:126-171 | A stored criterion decodes exactly when every field has a name and a text or some known comparisons, none with a NUL |
| CriterionCodec.RoundTrip | orisun/query_predicates.go:85-171 | Decoding an encoded list of valid tags gives those tags stably ordered by key, eq written as empty |
| CriterionCodec.RoundTripNormal | orisun/query_predicates.go:85-171 | A canonical criterion comes back unchanged |
| CriterionCodec.EncodeKeepsMeaning | orisun/query_predicates.go:85-103 | The encoded fields select exactly the documents the tags select |
| WriteContexts.MarshalConsistency | orisun/write_context.go:44-56 | Fails exactly when some tag is invalid; otherwise each check's criteria encoded, with its position, in order |
| WriteContexts.DecodeWriteContext | orisun/write_context.go:58-80 | Fails exactly when some criterion does not decode; otherwise every stored observation, in order, with its query and position |
| WriteContexts.StoredDecodes | orisun/write_context.go:44-80 | What is stored for a valid check always decodes, each criterion to its tags stably ordered by key |
| WriteContexts.RecordedCheckComesBack | orisun/write_context.go:44-80 | A normalised check can always be marshalled, and decoding its record gives back its query and position unchanged |
| WriteContexts.RecordComesBack | orisun/write_context.go:44-80 | The whole check list of an accepted set of observations can be marshalled, and the record decodes to exactly that list, in order |
| WriteContexts.AcceptsExactlyPrinted | orisun/write_context.go:83-102 | A write id is accepted as a position exactly when it is that position printed, for two non-negative int64 values, and a boundary is named |
| SqliteCriteria.MinimalIsMinimal | sqlite/consistency.go:72-109 | The pruned criteria are a sub-multiset of the input, none contains another, and every input criterion contains a kept one |
| SqliteCriteria.Compact | sqlite/consistency.go:88-94 | The in-place loop leaves, in order, exactly the kept criteria that do not contain the candidate |
| SqliteCriteria.IsRedundant | sqlite/consistency.go:78-87 | Whether the candidate contains a kept criterion |
| SqliteCriteria.AddInPlace | sqlite/consistency.go:78-94 | One turn of the outer loop passes over a candidate that contains a kept criterion, and else puts it behind those kept that do not contain it |
| SqliteCriteria.MinimalCriteria | sqlite/consistency.go:75-97 | The loop over a reused array computes the pruning for which minimality is proved |
| SqliteCriteria.MinimalKeepsMeaning | sqlite/consistency.go:72-97 | A document satisfies some pruned criterion exactly when it satisfies some original one |
| SqliteCriteria.RenderCriteria | sqlite/consistency.go:48-61 | Fails exactly when some criterion does not render, redundant or not; otherwise the encodings of the non-empty criteria |
| SqliteCriteria.RendersExactlyWhen | sqlite/sqlite_eventstore.go:100-127 | A criterion renders exactly when its operators are known and no value holds a NUL |
| Tags.TagMeans | sqlite/sqlite_eventstore.go:100-145 | For each operator, the documents a tag selects: by text, by byte order of text, or by the values of numbers; a missing or null field satisfies none |
| Text.LessMeans | sqlite/sqlite_eventstore.go:117-127 | Texts are ordered by the first byte in which they differ, a prefix coming first |
| SqliteCriteria.LatestCriteriaQueries | sqlite/consistency.go:47-70 | Fails exactly when some criterion does not render; otherwise the lookups together find exactly what the query matches, every row when no criterion has tags |
| SqliteCriteria.LatestPreparedPosition | sqlite/consistency.go:24-40 | The running maximum over the lookups is the newest position any of them finds |
| SqliteCriteria.PrunedLookupsExact | sqlite/consistency.go:24-97 | The newest match found through pruned lookups is the newest match of the full disjunction |
| SqliteCriteria.LatestCriteriaPosition | sqlite/consistency.go:15-21 | Compiling and looking up yields the newest match of the query, or an invalid-argument error exactly when it does not render |
| EventLog.NewestIsNewest | sqlite/consistency.go:24-40 | The newest match is at or after every match and is one of them, or (-1, -1) when there is none |
| EventLog.NewestUnchanged | sqlite/group_commit_executor.go:106-124 | On an ordered log the newest match of a prefix is still the newest exactly when nothing after the prefix matches |
| SqliteStore.PrepareConsistencyChecks | sqlite/consistency.go:119-129 | Each check keeps its position, and its lookups or its rendering error for evaluation later |
| SqliteStore.PrepareSave | sqlite/group_commit_request.go:25-31 | Refuses a save exactly when one of its checks cannot be recorded; otherwise the checks come compiled and the record marshalled |
| SqliteStore.ChunkValues | sqlite/sqlite_eventstore.go:331-349 | The rows of one INSERT are the positioned documents of its events; it fails exactly when one did not parse |
| SqliteStore.Database.InsertEventBatch | sqlite/sqlite_eventstore.go:325-356 | Chunked insertion appends exactly the rows of unchunked insertion, and fails exactly when an event did not parse |
| SqliteStore.Database.SaveEventsOnConn | sqlite/sqlite_eventstore.go:299-320 | Refuses an empty batch, an exhausted id range or an unparsed event; otherwise records the check list under the last id and appends the rows with consecutive ids and that commit position |
| SqliteStore.Database.SaveSavepointed | sqlite/group_commit_executor.go:106-129 | Leaves the tables and gives the outcome of serving the one save on the whole log, which is the one due: the first failing check decides and is reported, a failed insertion is undone |
| SqliteStore.Database.ExecuteTransaction | sqlite/group_commit_executor.go:59-101 | A committed transaction leaves the tables, the sequence row and the outcomes of serving the saves one at a time; a failed one leaves everything as it was |
| SqliteStore.OutcomeIsDue | sqlite/group_commit_executor.go:78-129 | A conflict reports the position the first failing check expected and the newest match there is instead; an unreadable check, an ended context and a failed insertion are reported when due, and a commit the position of its last event |
| SqliteStore.OnlyOneIsDue | sqlite/group_commit_executor.go:78-129 | For any tables and save only one outcome fits that account |
| SqliteTransactions.TablesOfCommitted | sqlite/group_commit_executor.go:59-101 | Whichever transactions fail, the tables are those of serving, one at a time, the saves of the batches that committed |
| SqliteTransactions.AnswerOfBatch | sqlite/group_commit_executor.go:59-101 | A batch answers with the outcomes of serving it after all batches that committed before it, or with the failure of its transaction |
| SqliteTransactions.OutcomeOfTurn | sqlite/group_commit_executor.go:59-101 | Each save of a queue gets the outcome of being served after the saves before it |
| SqliteTransactions.ExecuteBatches | sqlite/group_commit_executor.go:59-101 | Executing a queue in batches, one transaction each, leaves the tables and gives the answers of that account; a broken id sequence fails every batch |
| SqliteTransactions.PartitionServesQueue | sqlite/group_commit_executor.go:59-101 | If no transaction fails, running a queue in batches is serving its saves one at a time, tables and outcomes |
| SqliteTransactions.BatchIndependence | sqlite/group_commit_executor.go:59-101 | If no transaction fails, any two partitions of a queue into batches give the same log, write contexts, next id and outcomes |
| CommandContextConsistency.ServeKeepsInv | sqlite/sqlite_eventstore.go:299-356 | One save keeps the position invariant, only extends the log and the records, and changes nothing unless accepted |
| CommandContextConsistency.RunKeepsInv | sqlite/sqlite_eventstore.go:299-356 | After every run ids are exactly 1..n without gaps, events of a save share its last id as commit position, positions ascend strictly, next id is n+1 within int64, and each save has one write context |
| CommandContextConsistency.RunExtends | sqlite/group_commit_executor.go:59-101 | However a run goes on, earlier rows and recorded check lists stay as they are |
| CommandContextConsistency.RecordedForever | sqlite/sqlite_eventstore.go:299-320 | At the end of every longer run an accepted save's own events stand at its position and the stored record is its check list, encoded |
| CommandContextConsistency.StoredForever | sqlite/sqlite_eventstore.go:299-356 | In every longer run an accepted event stands where its save was told, its document holding its own position, identity, type, metadata and time and otherwise its own data |
| CommandContextConsistency.WriteIdLeadsBack | sqlite/write_context.go:16-46 | In every longer run each event of an accepted save carries a write id under which the store gives back the observations it was checked against |
| CommandContextConsistency.FoundExactlyWhenSaved | sqlite/write_context.go:16-46 | In every run a well-formed write id finds a record exactly when some save was told it committed at that position |
| CommandContextConsistency.NoRejection | sqlite/group_commit_executor.go:111-124 | No check is refused exactly when every one renders and its position is still the newest match |
| CommandContextConsistency.StandsExactlyWhenUntouched | sqlite/group_commit_executor.go:115-123 | An observation made on a prefix stands exactly when nothing appended since matches its query |
| CommandContextConsistency.CommitsExactlyWhenUnchanged | sqlite/group_commit_executor.go:106-129 | In every run a save whose observations were each made on some earlier prefix of the log is accepted at its turn exactly when no event appended after that prefix matches the observed query |
| CommandContextConsistency.ConflictsOnlyWhenChanged | sqlite/group_commit_executor.go:106-129 | Whatever else may be wrong with a save, a conflict means that a matching event overtook it, and acceptance that none did |
| CommandContextConsistency.ConflictTellsOvertaking | sqlite/group_commit_executor.go:111-124 | In every run a conflict tells its caller the position of one of its observations and that of the newest event, appended since, that overtook this observation |
| CommandContextConsistency.NormalQueryRenders | sqlite/consistency.go:54-59 | The canonical form of an acceptable query always renders, so such a check is never refused as invalid |
| EventReads.AscendingPage | sqlite/sqlite_eventstore.go:376-456 | A forward page is a contiguous run of the matching events from the first one not before the position asked for, cut at the limit |
| EventReads.DescendingPage | sqlite/sqlite_eventstore.go:376-456 | A backward page runs from the last matching event not after the position asked for, or from the newest, cut at the limit |
| EventReads.PageEventByEvent | sqlite/sqlite_eventstore.go:410-440 | Each event of a page, forward or backward, and how many: as many as asked for, 1000 by default, at most 10000 |
| EventReads.NewestPage | sqlite/sqlite_eventstore.go:376-456 | A backward read of one event finds the newest match |
| EventReads.ForwardPage | sqlite/sqlite_eventstore.go:376-456 | On a growing log a page read from a cursor carries on where the cursor left off, its own event first if present, and reaches the end of what is visible unless it is full |
| EventReads.RenderedPage | sqlite/sqlite_eventstore.go:399-408 | Reading by the rendered criteria, or all rows when none has tags, gives the page of the query itself |
| EventReads.Source.GetBatch | sqlite/sqlite_eventstore.go:376-456 | Refuses exactly queries with an invalid tag; otherwise one read sees at least what earlier reads saw and returns the page of that state, or fails |
| EventReads.ValidateReadCriteria | orisun/query_predicates.go:52-81 | Accepts exactly the criteria all of whose tags are valid |
| EventReads.GetLatestByCriteria | sqlite/sqlite_eventstore.go:467-533 | Fails exactly on no criteria, an empty criterion or an invalid tag; otherwise the newest event of each criterion, and as context the newest match of the criteria taken as one query |
| GroupCommitLane.DeliversAll | internal/groupcommit/coordinator.go:52-63 | Delivering to a list never changes an answer already given and answers everyone else on it |
| GroupCommitLane.TellingLive | internal/groupcommit/coordinator.go:229-263 | However a flush ends, each live request hears that it failed, that it panicked, that the count was wrong, or the outcome in its own place, and nobody answered before is touched |
| GroupCommitLane.SettlingKeepsAccount | internal/groupcommit/coordinator.go:127-177 | Dropping, keeping or refusing takes the oldest request not yet settled, and none twice |
| GroupCommitLane.KeepsOrder | internal/groupcommit/coordinator.go:127-263 | Every worker step keeps the executor's inputs, end to end, equal to the settled requests that were neither dropped nor refused, with at most one call running |
| GroupCommitLane.KeepsBounds | internal/groupcommit/coordinator.go:179-227 | Every worker step keeps batches within the request limit, and within the event limit unless they hold one request |
| GroupCommitLane.LaneStepKeepsInv | internal/groupcommit/coordinator.go:127-263 | Every worker step keeps the whole account of its boundary: order, batches, answers and why requests were dropped or refused |
| GroupCommit.StepKeepsInv | internal/groupcommit/coordinator.go:80-284 | Every step of callers, workers and Close keeps the coordinator's invariant |
| GroupCommit.RunKeepsInv | internal/groupcommit/coordinator.go:80-284 | The invariant holds after every interleaving |
| GroupCommit.NoSendOnShutQueue | internal/groupcommit/coordinator.go:98-117 | A caller about to send always finds its queue open |
| GroupCommit.NoQueueShutTwice | internal/groupcommit/coordinator.go:276-281 | Close never closes a queue that is already closed |
| GroupCommit.CloseDrains | internal/groupcommit/coordinator.go:265-284 | When Close returns, whenever it was called, every queue is empty, every worker gone, nobody is sending, and every admitted request has been answered |
| GroupCommit.AnswersAreFinal | internal/groupcommit/coordinator.go:52-58 | However a run goes on, an answer given is never changed or given again |
| GroupCommit.OrderedBoundedBatches | internal/groupcommit/coordinator.go:127-263 | Per boundary at any moment: admission order is settled, then in hand, then queued; executor inputs concatenated are that order minus requests dropped after cancellation or refused after Close; calls never overlap; batches respect both limits |
| GroupCommit.EachGetsItsOwnAnswer | internal/groupcommit/coordinator.go:229-263 | In every run all requests of a call that errs are told of the failure, of one that panics of the panic, of one with the wrong count of that, and else each the outcome in its place; a dropped or refused one is told so; nobody unadmitted is answered |
| GroupCommitAnswers.EveryAnswerHasItsReason | internal/groupcommit/coordinator.go:127-263 | In every run a caller is told that it left only if it cancelled, of shutdown only if Close was called, and of a failure, a panic, a wrong count or an outcome only if the call it was part of ended so |
| GroupCommitAnswers.NobodyLeavesForNothing | internal/groupcommit/coordinator.go:108-117 | A caller gives up before admission only if it cancelled or Close was called |
| GroupCommitAnswers.CancelledInTime | internal/groupcommit/coordinator.go:236-243 | A request cancelled before its turn in a flush never reaches the executor and hears of nothing but its leaving, or Close |
| GroupCommitAnswers.GetsIn | internal/groupcommit/coordinator.go:80-112 | While the coordinator is open, the lock free and the queue not full, a new request gets in behind everybody admitted before |
| GroupCommitAnswers.StayingCallerIsServed | internal/groupcommit/coordinator.go:127-263 | From any moment of an open run an admitted request whose caller stays goes through an executor call after finitely many steps of its worker, and hears how that call ended |
| GroupCommitAnswers.BatchEndsForAReason | internal/groupcommit/coordinator.go:179-227 | A batch is closed only because a limit is reached, nobody else waits, the next request does not fit, or its wait is over |
| GroupCommit.CloseNeverStuck | internal/groupcommit/coordinator.go:265-284 | From the call of Close until it returns some step of the coordinator can be taken |
| GroupCommitProgress.WorkerStepCounts | internal/groupcommit/coordinator.go:127-263 | Every step of a worker, before or after Close, uses up part of a finite amount of work |
| GroupCommitProgress.WorkerMovesOn | internal/groupcommit/coordinator.go:127-263 | A worker with anything queued, in hand or in flight can always take a step, however a running call ends |
| GroupCommitProgress.QuietIsAnswered | internal/groupcommit/coordinator.go:127-263 | A boundary with nothing queued, in hand or in flight has answered everybody it admitted |
| GroupCommitProgress.AdmittedIsAnswered | internal/groupcommit/coordinator.go:127-263 | From any moment of any run, open or closed, and however executor calls end, a bounded number of the worker's own steps answers every request admitted so far |
| GroupCommitProgress.WaitFalls | internal/groupcommit/coordinator.go:127-263 | Every step of its worker brings an unanswered request closer to its answer |
| GroupCommitProgress.NobodyStarves | internal/groupcommit/coordinator.go:80-263 | In every run, with requests arriving and callers leaving at any rate, a request has its answer once its worker has taken as many steps as it had to wait for |
| GroupCommitProgress.UnansweredCanMove | internal/groupcommit/coordinator.go:127-263 | While an admitted request is unanswered its worker can take a step |
| GroupCommitClose.EveryStepCounts | internal/groupcommit/coordinator.go:80-284 | Once Close is called every step of callers, workers and Close uses up part of a finite amount of work |
| GroupCommitClose.OutsideAddsNothing | internal/groupcommit/coordinator.go:80-125 | After Close is called cancellations add no work and nobody new gets in |
| GroupCommitClose.CloseIsBounded | internal/groupcommit/coordinator.go:80-284 | In every schedule after the call of Close the coordinator takes at most as many steps as there was work left |
| GroupCommitClose.CloseReturns | internal/groupcommit/coordinator.go:265-284 | Whenever Close was called, the run can go on to its return within the work left, executor calls ending as they may |
| GroupCommitAnswers.CloseCompletes | internal/groupcommit/coordinator.go:265-284 | Close can be called at any moment of any run and then returns |
| GroupCommitStore.ExecuteBatch | sqlite/group_commit_executor.go:14-54 | A call returns the outcomes of serving its saves one at a time on the tables it leaves, or errs and leaves them alone |
| GroupCommitStore.SystemKeepsInv | sqlite/group_commit_executor.go:14-101 | In every run of coordinator and engines each boundary's ended calls are its transactions, answered as they went |
| GroupCommitStore.TablesAreThoseOfCommitted | sqlite/group_commit_executor.go:14-101 | At any moment a boundary's tables are those of serving, singly and in admission order, the requests of the calls that committed; a returned call did, one that erred did not |
| GroupCommitStore.CallerHearsOwnTurn | internal/groupcommit/coordinator.go:229-263 | Each caller of a call that returned is told the outcome of its own save, served at its turn after all that committed before |
| GroupCommitStore.ToldSavedIsRecorded | sqlite/group_commit_executor.go:59-129 | A caller told that its save committed finds from then on its own events at the position it was told, under the record of its checks |
| GroupCommitStore.ToldSavedExactlyWhenUnchanged | sqlite/group_commit_executor.go:106-129 | In every run of coordinator and engine a caller is told that its save committed exactly when no event committed after what it observed matches an observed query |
| GroupCommitService.EveryCallIsTold | sqlite/group_commit_executor.go:14-101 | A call that commits leaves the tables of serving its requests and tells each its own outcome; one that fails leaves them alone and says so to each; one that panics says so, its commit standing if it came to that |
| GroupCommitService.AllAreServed | internal/groupcommit/coordinator.go:127-263 | While calls commit, a bounded number of moves of a boundary's worker and engine answers everybody admitted so far |
| GroupCommitService.AdmittedSaveIsServed | internal/groupcommit/coordinator.go:127-263 | From any moment of an open run an admitted save whose caller stays is told the outcome of its own turn |
| GroupCommitService.SubmittedSaveIsServed | internal/groupcommit/coordinator.go:80-263 | A save submitted to an open coordinator with room gets in, is served at its turn and told that outcome |
| LeaseLock.StepKeepsInv | orisun/jetstream_lock_provider.go:112-361 | Every step of acquiring, reclaiming, renewing, losing, releasing and serving keeps the lock's invariant |
| LeaseLock.RunKeepsInv | orisun/jetstream_lock_provider.go:112-361 | The invariant holds after every interleaving of any number of callers |
| LeaseLock.HolderIsStored | orisun/jetstream_lock_provider.go:182-284 | A handle not released and locally unexpired is the one whose token the bucket holds, with an expiry at least as late |
| LeaseLock.AtMostOneHolder | orisun/jetstream_lock_provider.go:112-318 | After every run at most one handle per lock name is unreleased with its local expiry ahead |
| LeaseLock.DeletesOnlyOwnEntry | orisun/jetstream_lock_provider.go:286-318 | A delete that takes effect removes an entry holding the releasing lease's own token |
| LeaseLock.CheckedLeaseIsExclusive | orisun/jetstream_lock_provider.go:271-347 | While the bucket shows a lease's own unexpired value, no other handle of that name is held |
| LeaseLock.FreeLockObtainable | orisun/jetstream_lock_provider.go:112-137 | At any moment of any run a lock whose key is absent can be acquired at once by a fresh caller, handle and stored value ending one duration later |
| LeaseLock.ExpiredLockReclaimable | orisun/jetstream_lock_provider.go:138-160 | At any moment of any run a lock whose stored lease has expired can be reclaimed at once, handle and stored value ending one duration later |
| LeaseLockService.ReleaseFreesLock | orisun/jetstream_lock_provider.go:286-318 | At any moment of any run releasing a handle whose value the bucket shows removes the key at once and touches no other lock |
| LeaseLockService.ReleasedLockObtainable | orisun/jetstream_lock_provider.go:112-137 | Once a held lock is released the next caller has it without waiting, for its whole duration |
| LeaseLockService.RenewalExtends | orisun/jetstream_lock_provider.go:243-268 | A renewal, whenever applied and answered, leaves handle and stored value ending one duration after it was sent, and the handle held until then |
| LeaseLockService.RenewingSince | orisun/jetstream_lock_provider.go:243-268 | In every run the expiry a renewal awaits is one duration after the moment it was sent |
| LeaseLockService.FailedRenewalCanBeRepeated | orisun/jetstream_lock_provider.go:217-234 | A renewal that failed without taking effect can be sent again |
| LeaseLockService.DeadHoldersLockObtainable | orisun/jetstream_lock_provider.go:138-160 | Whatever became of a holder, its lock can be had the moment the stored lease has run out |
| LeaseLockService.EndedForGood | orisun/jetstream_lock_provider.go:199-240 | A handle that expired, or found the key gone or not its own, never renews again; a released one is never held again |
| LeaseLockService.AtMostThreeAttempts | orisun/jetstream_lock_provider.go:121-171 | No call sends more than three create requests |
| LeaseLockService.NextAttemptObtains | orisun/jetstream_lock_provider.go:121-171 | Unless it was the last, an attempt that misses is followed by one that has the lock if it is free by then |
| LeaseLockService.FailedCallNeverHolds | orisun/jetstream_lock_provider.go:138-149 | A call that ends in an error of the bucket never holds the lock |
| SubscriptionDrain.Validate | orisun/subscription_drain.go:113-128 | Accepts exactly pages within the limit whose positions ascend strictly from the cursor, the first row alone being allowed to repeat it |
| SubscriptionDrain.Subscription.constructor | orisun/subscription_drain.go:26-34 | A subscription starts behind the given position, or uninitialised when none is given |
| SubscriptionDrain.Subscription.Fetch | orisun/subscription_drain.go:65-81 | A page that passes validation is the one asked for |
| SubscriptionDrain.TruePagePasses | orisun/subscription_drain.go:113-128 | The page that was asked for always passes validation |
| SubscriptionDrain.Subscription.ReadPage | orisun/subscription_drain.go:61-81 | A read that passes is the run of matching events from the cursor on, or the newest one at the first look, and reaches the end of what is visible unless full |
| SubscriptionDrain.Subscription.HandOn | orisun/subscription_drain.go:87-94 | An event handled advances the cursor past it; a failure leaves the cursor before it |
| SubscriptionDrain.Subscription.DeliverBatch | orisun/subscription_drain.go:82-95 | A page is delivered from where the cursor stood, without the cursor's own event, and what is delivered stays contiguous even if a handler fails |
| SubscriptionDrain.Subscription.Round | orisun/subscription_drain.go:61-101 | One read and delivery either fails, reaches the end of what it saw, or moves the cursor forward |
| SubscriptionDrain.Subscription.Drain | orisun/subscription_drain.go:59-102 | Terminates; what is delivered over any number of drains is a contiguous run of the matching events, beginning after the given position or at the newest event first seen; a drain without error reaches the end of its last read; it fails only if a read, a page, the handler or the activity check did |
| SubscriptionDrain.RunAscends | orisun/subscription_drain.go:82-95 | A contiguous run of an ordered log ascends strictly, so nothing is delivered twice |
| SubscriptionWakeups.StepKeeps | orisun/subscription_drain.go:36-102 | Every step of committers, hints and reader keeps what is delivered a contiguous run of the matching events ending at the cursor, and takes nothing back |
| SubscriptionWakeups.NoLostWakeUp | orisun/subscription_drain.go:36-57 | In every interleaving an event committed and then hinted is behind the cursor, or a wake-up is pending, or the reader has it in its page or has another read to make |
| SubscriptionWakeups.QuietMeansDelivered | orisun/subscription_drain.go:36-57 | Whenever the reader waits with no wake-up pending, all matching events hinted so far, from where the subscription begins, have been delivered in order |
| SubscriptionWakeups.BeginsAfterPosition | orisun/subscription_drain.go:26-34 | In every run a subscription after a position begins with the first matching event after it |
| SubscriptionWakeups.BeginsAtNewest | orisun/subscription_drain.go:66-70 | In every run one without a position begins at the newest matching event its first look found |
| SubscriptionWakeups.EveryStepCounts | orisun/subscription_drain.go:44-102 | Each step of the reader uses up part of a finite amount of work |
| SubscriptionWakeups.HintedIsDelivered | orisun/subscription_drain.go:44-57 | From any point of any run the reader, unless stopped, has delivered every matching event hinted so far after finitely many steps of its own |
| SubscriptionWakeups.HintIsHeard | orisun/subscription_drain.go:36-57 | Everything committed before a hint has been delivered whenever the reader is quiet after it |
| SubscriptionWakeups.HintIsActedOn | orisun/subscription_drain.go:36-57 | After a hint finitely many steps of the reader deliver everything committed before it, unless it is stopped |
| SubscriptionWakeups.CommittedThenHinted | orisun/subscription_drain.go:36-57 | In any interleaving a matching event committed and then hinted, not before the start, has been delivered whenever the reader is quiet |
| SubscriptionWakeups.StoppedDeliversNothing | orisun/subscription_drain.go:44-57 | A stopped reader delivers nothing more |
| BoundaryCatalog.Catalog.Define | admin/slices/boundary_catalog/event_handler.go:116-144 | Defines a boundary exactly when it is named, placed and new; otherwise changes nothing |
| BoundaryCatalog.Catalog.Apply | admin/slices/boundary_catalog/event_handler.go:28-93 | Folds one event in place: outcomes before a definition are ignored, activation is terminal, errors change nothing, other events are reported as unrelated |
| BoundaryCatalog.CatalogQueryMeans | admin/slices/boundary_catalog/query_handler.go:97-112 | The catalog's query selects exactly the lifecycle events of the named boundary, or of all |
| BoundaryCatalog.LifecycleCriteriaMean | admin/slices/boundary_provisioning/command_handler.go:237-248 | The provisioning criteria together select exactly the lifecycle events of the boundary |
| BoundaryReplay.ApplyPage | admin/slices/boundary_catalog/query_handler.go:76-90 | A page is folded from where the cursor stood without repeating the cursor's own event |
| BoundaryReplay.ReplayCatalog | admin/slices/boundary_catalog/query_handler.go:59-95 | Terminates; the paged replay is the fold of all matching events visible to its last read, however the log grows meanwhile, and it fails only if a read does, the name holds a NUL, or that fold fails |
| BoundaryReplay.GetBoundary | admin/slices/boundary_catalog/query_handler.go:38-57 | Refuses exactly invalid names; unless a read fails, shows what the replay shows, that the boundary was not found, or an error |
| BoundaryReplay.ListAgreesWithGet | admin/slices/boundary_catalog/query_handler.go:25-57 | The replay of all boundaries succeeds exactly when every event decodes and names a boundary and each boundary's own replay succeeds, and shows each boundary as that replay does |
| BoundaryRebuild.ReplaysExactlyWhen | admin/slices/boundary_catalog/event_handler.go:28-144 | A boundary's events replay without error exactly when all decode, at most one is a definition and it is complete, and every failure after it has a reason; the result then depends on the definition and the newest outcomes after it alone |
| BoundaryHistory.ReplayReadsOff | admin/slices/boundary_catalog/event_handler.go:28-144 | What a successful replay shows is read off the rows: the fields of the newest definition, and status, text and position of the newest activation or else the newest failure after it |
| BoundaryHistory.RebuildReadsOff | admin/slices/boundary_provisioning/command_handler.go:116-176 | What a successful rebuild shows is read off the rows of the whole log in the same way |
| BoundaryRebuild.ReplayableIsRebuilt | admin/slices/boundary_provisioning/command_handler.go:116-176 | What a replayable history shows, in definition, status, last error and both positions, is what the rebuild shows |
| BoundaryRebuild.RebuiltExactlyWhen | admin/slices/boundary_provisioning/command_handler.go:116-176 | The rebuild shows a boundary, finds none or fails exactly as the newest event of each type can be replayed |
| BoundaryRebuild.DisagreeExactlyWhen | admin/slices/boundary_provisioning/command_handler.go:116-176 | On any ordered log rebuild and replay show the same, failures included, unless the rows the rebuild reads can be replayed and the whole history cannot |
| BoundaryRebuild.RebuiltStatus | admin/slices/boundary_provisioning/command_handler.go:131-166 | A rebuilt boundary is active, failed or provisioning exactly as the newest activation and failure after its definition say |
| BoundaryRebuild.DefinedTwice | admin/slices/boundary_provisioning/command_handler.go:125-135 | With two definitions of a name the replay fails and the rebuild yields the newer one |
| BoundaryRebuild.TwoDefinitions | admin/slices/boundary_provisioning/command_handler.go:125-135 | A concrete log on which the two differ |
| BoundaryRebuild.ApplyAll | admin/slices/boundary_provisioning/command_handler.go:157-166 | Applying lifecycle events one by one gives their fold, and fails exactly when the fold fails |
| BoundaryRebuild.LoadContext | admin/slices/boundary_provisioning/command_handler.go:116-176 | The context is the boundary rebuilt from the newest event of each type, with the newest match of the whole lifecycle query to append against; a missing definition and a failing fold are told apart |
| BoundaryRebuild.LoadDefinition | admin/slices/create_boundary/command_handler.go:106-133 | The create command finds the newest definition, if any, and the newest match of its query |
| BoundaryLifecycle.StatusTellsKinds | admin/slices/boundary_provisioning/command_handler.go:53-60 | On a proper lifecycle the rebuilt status tells which lifecycle events there are |
| BoundaryLifecycleRuns.LoadedForCreate | admin/slices/create_boundary/command_handler.go:51-57 | A create command that goes on read a log without a definition of its boundary |
| BoundaryLifecycleRuns.LoadedForProvision | admin/slices/boundary_provisioning/command_handler.go:53-60 | A provision command that goes on read a lifecycle of a definition alone or with one failure |
| BoundaryLifecycleRuns.AppendedExactlyWhenCurrent | admin/slices/boundary_provisioning/command_handler.go:199-211 | An append accepted was not overtaken by an event its context query matches, one that conflicts was, and one not overtaken is accepted unless cancelled or out of ids |
| BoundaryLifecycleRuns.CreatedKeepsProper | admin/slices/create_boundary/command_handler.go:73-86 | An accepted definition is its boundary's first lifecycle event |
| BoundaryLifecycleRuns.ActivatedKeepsProper | admin/slices/boundary_provisioning/command_handler.go:61-90 | An accepted activation follows a definition, possibly with one failure between |
| BoundaryLifecycleRuns.FailedKeepsProper | admin/slices/boundary_provisioning/command_handler.go:92-107 | An accepted failure directly follows the definition |
| BoundaryLifecycleRuns.Overtaken | admin/slices/boundary_provisioning/command_handler.go:73-85 | A conflicting activation was overtaken by another outcome, and a second conflict by an activation |
| BoundaryLifecycleRuns.RunKeepsInv | admin/slices/boundary_provisioning/command_handler.go:38-108 | Every run of create and provision commands and unrelated saves keeps every lifecycle proper and what each command knows true |
| BoundaryLifecycleRuns.LifecyclesAreProper | admin/slices/boundary_provisioning/command_handler.go:53-107 | In every run from an empty admin log each boundary's events are its definition, then at most one failure, then at most one activation |
| BoundaryLifecycleRuns.AtMostTwoActivationAttempts | admin/slices/boundary_provisioning/command_handler.go:61-90 | The activation loop appends at most twice: after a second conflict the reload ends it |
| BoundaryAgreement.RunKeepsRecorded | admin/slices/boundary_provisioning/command_handler.go:178-211 | In every run each lifecycle event in the log decodes, and each definition is complete |
| BoundaryAgreement.RebuildAgreesInEveryRun | admin/slices/boundary_provisioning/command_handler.go:116-176 | In every run the rebuild and the replay of every boundary show the same: the same boundary, none, or a failure of both |
| BoundaryAgreement.ReadableExactlyWhenReasonsGiven | admin/slices/boundary_catalog/event_handler.go:64-93 | In every run a boundary replays exactly when no failure of it was recorded with empty text |
| BoundaryAgreement.NeverDefinedTwice | admin/slices/create_boundary/command_handler.go:51-86 | No run of the commands holds two definitions of a boundary |
| BoundaryAgreement.RebuiltIsReplayed | admin/slices/boundary_provisioning/command_handler.go:116-176 | In a run of the commands a rebuild that succeeds agrees with the replay |
| BoundaryReports.ActivationReportsRebuilt | admin/slices/boundary_provisioning/command_handler.go:212-225 | In every run the boundary an accepted activation reports is the one the log rebuilds to from then on |
| BoundaryReports.CreationReportsRebuilt | admin/slices/create_boundary/command_handler.go:87-98 | In every run the boundary an accepted creation reports is the one the log rebuilds to from then on |
| BoundaryProvisioning.EverySaveIsServed | admin/slices/boundary_provisioning/command_handler.go:199-211 | Every save of a run, of its commands or of others, is served by the store at once |
| BoundaryProvisioning.CanBeCreated | admin/slices/create_boundary/command_handler.go:51-98 | Wherever a boundary is not defined yet a create command defines it, and both readers show it as given, provisioning, at the new position |
| BoundaryProvisioning.FailureReportsRebuilt | admin/slices/boundary_provisioning/command_handler.go:178-225 | In every run an accepted failure with a text leaves the boundary failed with that text at the position of the append |
| BoundaryProvisioning.SuccessActivates | admin/slices/boundary_provisioning/command_handler.go:53-72 | Wherever a boundary can be read and is not active, a provisioning that succeeds leaves it active for both readers, at the new position |
| BoundaryProvisioning.FailureIsRecorded | admin/slices/boundary_provisioning/command_handler.go:92-107 | Wherever a boundary is being provisioned, one that fails leaves it failed with its text for both readers, at the new position |
| BoundaryProvisioning.ActivationGetsThrough | admin/slices/boundary_provisioning/command_handler.go:61-90 | Whatever overtook it, after provisioning succeeded the append, and the reload and second append if it conflicts, leave the boundary active exactly when it can still be read |
| BoundarySilence.SilencedIsUnreadable | admin/slices/boundary_provisioning/command_handler.go:116-176 | A boundary with a failure recorded without text can be neither replayed nor rebuilt |
| BoundarySilence.RunKeepsInactive | admin/slices/boundary_provisioning/command_handler.go:53-107 | In no run is a boundary with such a failure active, whatever commands were under way when it was recorded |
| BoundarySilence.SilentFailureIsFinal | admin/slices/boundary_provisioning/command_handler.go:38-108 | In every run after such a failure the boundary is unreadable to both, each provisioning command for it ends at once, and it is never activated |
| BoundarySilence.CanBeSilenced | admin/slices/boundary_provisioning/command_handler.go:92-107 | Wherever a boundary is being provisioned, a failing provisioning without text silences it |
| BoundarySilence.SilentFailureHappens | admin/slices/boundary_provisioning/command_handler.go:38-108 | A run of one definition and one failed provisioning that silences its boundary |

## Left out

- PostgreSQL: its deciding logic is in SQL functions that are not part of this model.
- The SQLite engine and the SQL text: a criterion is what its rendered comparison selects, a lookup the newest row it accepts.
- The JSON codec itself, including Go's case-insensitive matching of member names.
- NATS transport, connection state, timers, heartbeats and the idle watchdog; only the order of steps they allow is modelled.
- The lookup of a boundary by name, in reads, saves and write contexts, and what Submit returns before it takes the registry lock: early returns.
- The gRPC layer, adapters, telemetry, health, configuration, pools, migrations and benchmarks: plumbing.
- User management: some of its guard positions are not taken from the guarded query, so no guarantee is stated for it.
- Session handling and the admin projections: bounded and easy.
- `Catalog.List`: a sort by name of the catalog's values.
- The flush timeout: an executor call may end in any way at any time, so its deadline adds no behaviour.
- LeaseLock.AtMostOneHolder: does not cover clock skew between providers or the loss of the in-memory bucket, which the lock itself does not guard against.
- EventReads.Source.GetBatch: takes the log and its growth as given; that the log is ordered is proved for the commit engine, not for other writers. A missing request and a nil criterion, which are refused, are not modelled.
- SubscriptionDrain.Subscription.Fetch: takes as given that a page which passes validation is the one asked for; a backend that answers with other events at ascending positions is not covered, as the reader cannot tell. That the right page passes is proved.
- GroupCommitClose.CloseReturns: names one schedule; that none goes on for ever is CloseIsBounded, and that none gets stuck is CloseNeverStuck.
