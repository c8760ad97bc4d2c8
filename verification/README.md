# Verified model of the log ingestion and detection core

This project models the parts of the repository where several steps have to agree: the sliding-window
authentication detector and its polling worker, the recoverable ingestion of events into three Iceberg tables
(and the single-transaction DuckDB form of it), the Kafka worker in front of it, and the text scanners. Code that
changes things step by step is modelled as classes and methods with loops; what it promises is proved about the
functions and transition systems those methods are tied to.

`dafny verify dfyconfig.toml` checks everything.

## How it is organised

- **Detection.** `AuthEvents` (eligibility, the canonical order), `Windows` (deques with lazy eviction and their
  Counters), `Rules` (the loop of `evaluate`, its `emit`, and the functions they compute), `RuleIds` (the rules
  stated on sets of events, without order or state), `RuleBook` (the rules as documented, in plain numbers), `Scans`
  (scan ranges against each other), `Evidence` (what a finding cites and counts), `DetectionStores` (bounded reads,
  first-writer-wins storage, histories of polls) and `DetectionWorker` (the polling loop).
- **Ingestion.** `Tables` (MERGE on plain sequences of rows), `Batcher` (greedy batches), `Preflight` (the two size
  formulas), `Lake` (events, rows, counts), `Plans` (the statements of a run), `SqlText` (their text, byte by byte),
  `TrinoRuns` (`ingest_events` with commit retries), `Refusals` (refused runs and what they leave behind),
  `LongFields` (a LEEF line whose ingestion stops halfway), `IngestionCounts`, `DuckDb` (and `Scripts`, its
  statements), `Writers` (any number of runs interleaved statement by statement), `Convergence` (what such
  histories add up to), `Audits` (their audit rows), `SoloRun` (one run as a path of `Writers`), `Streaming` (the
  Kafka worker, the lake and the topic as one transition system), `StreamHistory` and `StreamWorker` (the worker's
  own loops, as histories of that system).
- **Text.** `SqlGuard`, `Escaping`, `LogicalEvents`, `Identity`; `Text` and `Prelude` hold shared definitions.

## How the outside is represented

- Time is whole microseconds since the epoch, and may be negative; the bucket of a finding truncates toward zero
  and then floors, as the code does.
- A table is a sequence of rows with no constraint of its own, so "one row per event_id" is a theorem. MERGE is
  one atomic step that compares its batch with the table as it was before the statement.
- A script lists how the next statements go: done, a commit conflict or a broken connection, each of which may
  hide that the write was applied. Beyond the script everything succeeds. All contracts hold for every script.
- A run id is the number of the run; the code draws a UUID and never sees one twice.
- SHA-256 is an abstract function. Where identities are compared it is taken to have no collisions, and its
  hexadecimal text to hold no NUL. A finding id is the tuple that is hashed.
- `is_log4j` is an arbitrary predicate on lines. Whether an event parsed is part of the event; where the split
  into normalized and quarantined rows matters, parse success is assumed to depend on the event id only
  (`Lake.ParsesAs`), which holds for one parser version.

## Results that say the code does less than its text promises

- README.md line 241 says that an event too large to bind is rejected before event tables are partially written. The
  check made up front uses a smaller estimate than the one made while merging: they differ by exactly
  `len(aliases) + 7 * columns - 258` bytes, which is 21 for the raw table, 536 for the normalized one, 60 for
  quarantine and 119 for detections. `Refusals.GrowingEventStops` shows that any event that can outgrow the
  limit in steps no larger than that gap stops halfway at some size, and `LongFields.StopHalfway` is such an event
  under the default settings: one LEEF line with one long field, read from Kafka, parsed and normalized as shipped. It
  passes every check up front, and ingestion then fails with its raw row stored.
  `Refusals.UntouchedIff` and `Refusals.IngestUndisturbed` give the exact condition under which a refused run leaves
  the tables untouched, and `Refusals.ShippedAcceptable` the margin that rules such failures out.
- A run whose rows parse differently from earlier ones (a new parser version) can put one id into both the
  normalized and the quarantine table: `DuckDb.ParserUpgradeSplits` shows two such batches, and
  `DuckDb.PartitionKept` gives the exact condition under which a batch keeps them disjoint.
- `_prepared_value_size` is documented as a conservative estimate of the statement text. The estimate of a whole
  MERGE leaves out the separators between rows: `SqlText.StatementSize` shows that a statement of k rows can take up
  to 2k - 129 bytes more than estimated, none up to 64 rows and 871 for 500 of them, before what the client puts around it; for rows of texts exactly that.
- `split_escaped` and `unescape_cef` undo escaping for every field exactly when the separator is none of backslash,
  `n`, `r` and `t` (`Escaping.PlainIsNeeded`).

## Model

| member | source | states |
|---|---|---|
| AuthEvents.CanonicalOrder | ulpf/detection/rules.py:36-37 | keying by id and sorting leaves exactly the last eligible event of each id, one per id, ordered by time and then id |
| AuthEvents.CanonicalByKey | ulpf/detection/rules.py:37 | earlier events come first, and events of one instant by id |
| Text.LexMeaning | ulpf/detection/rules.py:37 | ids are ordered by the first character in which they differ, a proper prefix first |
| AuthEvents.SortedUnique | ulpf/detection/rules.py:37 | the sort key is total: a set of events has only one sorted order |
| AuthEvents.LatestOfConsistent | ulpf/detection/rules.py:36 | when equal ids carry equal events, keying by id loses no eligible event |
| Windows.EvictionIsWindow | ulpf/detection/rules.py:98-108 | a deque filled under an older cutoff and then evicted lazily is the window of the new cutoff recomputed from all events |
| Windows.Evict | ulpf/detection/rules.py:99-108 | popping old events keeps the Counter equal to the multiset of what is left, with no zero entry |
| Windows.Push | ulpf/detection/rules.py:110-113 | appending a failure keeps deque and Counter in step |
| Rules.EarlierByTally | ulpf/detection/rules.py:121 | length minus the Counter entry at t is the number of events strictly before t |
| Rules.DistinctByCounter | ulpf/detection/rules.py:118 | the size of the user Counter is the number of distinct users in the deque |
| Rules.RepresentativeUsers | ulpf/detection/rules.py:52-55 | the representatives hold each user of the evidence once |
| Rules.FirstPerUser | ulpf/detection/rules.py:52-55 | the setdefault loop keeps the first event of every user, in order |
| Rules.Refresh | ulpf/detection/rules.py:99-113 | evicting and appending gives the failures of the whole past within the window, and keeps the Counter exact |
| Rules.Slide | ulpf/detection/rules.py:93-113 | the same through the dictionaries of windows: whatever stale windows they hold, the one read is exact |
| Rules.Emit | ulpf/detection/rules.py:44-88 | a known identity is suppressed; otherwise one finding with its sample, counts and identity is appended |
| Rules.JudgeFailure | ulpf/detection/rules.py:114-119 | a failure emits for both thresholds, on windows that include it |
| Rules.JudgeSuccess | ulpf/detection/rules.py:120-123 | a success emits for strictly earlier failures only |
| Rules.Judge | ulpf/detection/rules.py:114-123 | the checks of one event add exactly what the recomputed windows fire, and nothing before the start of the scan |
| Rules.Step | ulpf/detection/rules.py:93-123 | one iteration keeps every deque and Counter equal to its recomputation and adds the findings of this event |
| Rules.Scan | ulpf/detection/rules.py:90-124 | the incremental loop returns what recomputing every window from scratch at every event returns, and its eviction loops pop no more than was appended, which is twice the failures in range |
| Rules.HeldAfterEviction | ulpf/detection/rules.py:99-108 | evicting one window takes its own pops off what all windows hold together, and nothing else |
| Rules.Complaint | ulpf/detection/config.py:17-26 | settings are refused with the first complaint in the order of the code, and accepted exactly when they are valid |
| Rules.Evaluate | ulpf/detection/rules.py:21-124 | bounds without a timezone, bad ranges and oversized input raise; otherwise the findings, evidence included, are those of the recomputing form |
| RuleIds.DetectionsExact | ulpf/detection/rules.py:90-124 | an id is emitted if and only if some eligible event in [start, end) sets off its rule on the set of surviving events and has that identity |
| RuleIds.FindingsExact | ulpf/detection/rules.py:90-124 | the same for any order within one timestamp: ties by event id do not matter |
| RuleBook.DetectionsDocumented | ulpf/detection/rules.py:36-123 | for every rule, scope, user and interval, evaluate returns a finding exactly when some login attempt of the scan range, in that interval of window_seconds whole seconds, has enough failed attempts of its scope and user, or enough users, in the window_seconds before it |
| RuleBook.BucketExact | ulpf/detection/rules.py:45 | the bucket is the number of the one interval that holds the trigger's whole seconds, truncated toward zero |
| RuleBook.IdentitiesAgree | ulpf/detection/rules.py:45-49 | two triggers share an identity exactly when rule, scope and (but for spraying) user agree and one interval holds both |
| RuleBook.TwoIntervalsTwoFindings | ulpf/detection/rules.py:45-49 | attacks of one subject in two intervals give two findings |
| RuleIds.FiredIsTriggered | ulpf/detection/rules.py:116-123 | what the loop fires from the events before it is set off among all events |
| RuleIds.TriggeredIsFired | ulpf/detection/rules.py:116-123 | an event that sets off a rule has a tie at which the loop fires it, with the same identity |
| RuleIds.FindingsOnePerId | ulpf/detection/rules.py:48-49 | at most one finding per rule, subject and bucket |
| Scans.ScansCompose | ulpf/detection/rules.py:91-92 | the ids of [a, c) are those of [a, b) together with those of [b, c) |
| Scans.MoreEventsKeepFindings | ulpf/detection/rules.py:90-124 | evaluated again with late events added, every finding id returned before is returned again |
| Scans.OnlyWindowMatters | ulpf/detection/rules.py:91-108 | events before start - window or from end on never matter: the findings are the same, with their counts, evidence and order |
| Scans.OrderAndCopiesIrrelevant | ulpf/detection/rules.py:36-37 | reordering and duplicating the input changes no finding and no evidence |
| Evidence.FindingSound | ulpf/detection/rules.py:50-88 | every finding has a trigger in range; its evidence ids are distinct, in time order, inside the trigger's window, its earliest (for spraying the first of each of the earliest users), and end with the trigger; sample sizes, counts, truncation and first_seen are exact; success evidence is strictly earlier |
| Evidence.RepeatedSupported | ulpf/detection/rules.py:58-61 | a repeated-failures sample has min(evidence_limit, count) failures of the pair |
| Evidence.SuccessSupported | ulpf/detection/rules.py:58-61 | a success sample holds only strictly earlier failures, then the success |
| Evidence.SpraySample | ulpf/detection/rules.py:51-60 | a spray sample has at most evidence_limit events and covers min(evidence_limit - 1, users) distinct users |
| Evidence.FiringCounted | ulpf/detection/rules.py:116-123 | event_count and distinct users are the numbers of the trigger's window |
| DetectionStores.DetectionStore.ReadAuthentication | ulpf/detection/store.py:24-37 | every matching row as often as the table holds it, ordered by time and id, or an error: never a truncated batch; undisturbed, an error exactly when more rows match than allowed |
| DetectionStores.DetectionStore.WriteFindings | ulpf/detection/store.py:39-45 | stored findings keep their first form; a failed write leaves a prefix; undisturbed, it succeeds exactly when every finding passes both size checks |
| DetectionStores.DetectionStore.RunOnce | ulpf/detection/worker.py:30-38 | reads one window more than the range, evaluates and stores; nothing is written unless the read was complete |
| DetectionStores.FoundIsWhole | ulpf/detection/worker.py:36-37 | though it reads only one window more than its range, a poll returns the very findings that evaluating the whole table returns, counts, evidence and order included |
| DetectionStores.FoundExact | ulpf/detection/worker.py:36-37 | so its ids are exactly those the whole table justifies in its range |
| DetectionStores.PollAdds | ulpf/detection/worker.py:36-38 | a poll adds findings of the whole table only, justified in its range, and all of those when it completes |
| DetectionStores.StepKeeps | ulpf/detection/store.py:39-45 | late arrivals and failed, partial or repeated polls keep one row per id, every stored id justified and every stored finding's evidence supported by the events |
| DetectionStores.StoredIdsJustified | ulpf/detection/worker.py:64-81 | over any history stored findings keep their first form, and the latest events justify every stored id and support every stored finding |
| DetectionStores.CompletedPollStays | ulpf/detection/worker.py:36-38 | an id that a completed poll saw justified is stored ever after, with arrivals and failures in between |
| DetectionStores.SweepIsOneScan | ulpf/detection/worker.py:30-38 | polls that cover [a, b) store exactly the ids of one evaluation of [a, b) |
| DetectionStores.LookbackCovers | ulpf/detection/worker.py:32 | polls whose gaps stay within the lookback leave no instant unread |
| DetectionStores.PollingIsOneScan | ulpf/detection/worker.py:30-38 | such polls store exactly the ids of one scan from the first start to the last end |
| DetectionWorker.Worker.Pass | ulpf/detection/worker.py:65-78 | one pass is one poll step, whatever fails in it; a completed pass stores exactly what is justified in the last lookback_seconds, next to what was stored; storage is set up once |
| DetectionWorker.Worker.Turn | ulpf/detection/worker.py:64-81 | arrivals and the pass after them extend the history |
| DetectionWorker.Worker.Run | ulpf/detection/worker.py:63-81 | the loop keeps every stored finding justified and supported; when no statement fails, whatever a pass could see justified in its last lookback_seconds is stored, late arrivals included; when nothing arrives either, its findings are those of one scan of the whole time polled |
| Tables.MergeKeys | ulpf/services/trino.py:343-347 | MERGE keeps stored rows in place and adds exactly the missing keys |
| Tables.MergeUnique | ulpf/services/trino.py:343-347 | a batch without repeats cannot create a second row for an id |
| Tables.MergeAgain | ulpf/services/trino.py:361-372 | repeating a MERGE of unknown outcome changes nothing |
| Tables.MergeInTwo | ulpf/services/trino.py:315-325 | splitting distinct rows over several MERGE statements gives the same table |
| Tables.DedupeRows | ulpf/services/trino.py:132 | keying by id leaves one row per id, the last one |
| Batcher.Split | ulpf/services/trino.py:305-325 | the loop sends the greedy batches, and raises if and only if some row cannot fit a statement of its own |
| Batcher.BatchesSplit | ulpf/services/trino.py:305-325 | the batches are the rows in order, each nonempty and within both limits |
| Batcher.GreedyIsOptimal | ulpf/services/trino.py:315-325 | no order-preserving split into allowed statements uses fewer of them |
| Batcher.SentIsPrefix | ulpf/services/trino.py:310-314 | when an oversize row raises, what was sent is a prefix of the rows before it |
| Preflight.SizeGap | ulpf/services/trino.py:301-309 | the merge check exceeds the up-front check by exactly len(aliases) + 7n - 258 |
| Preflight.CheckedRowRaises | ulpf/services/trino.py:327-338 | a checked row still raises mid-merge exactly when the limit lies inside that gap |
| Preflight.RawGap | ulpf/services/trino.py:210-226 | the gap is 21 bytes for the raw table |
| Preflight.NormalizedGap | ulpf/services/trino.py:228-271 | it is 536 bytes for the normalized table |
| Preflight.QuarantineGap | ulpf/services/trino.py:273-291 | it is 60 bytes for the quarantine table |
| Preflight.DetectionGap | ulpf/detection/store.py:11-15 | it is 119 bytes for the detections table |
| SqlText.PreparedBytes | ulpf/services/trino.py:350-359 | the estimate of a string is the number of UTF-8 bytes of its SQL literal, apostrophes doubled; NULL is 4 bytes, a time 48, anything else 12 more than its text |
| SqlText.DecodeEncoded | ulpf/services/trino.py:356 | the bytes are UTF-8: they decode to the characters they came from |
| SqlText.StatementSize | ulpf/services/trino.py:301-309 | statement and literals together take what was estimated plus 2 bytes for each row, less 129, at most; exactly that when all values are texts |
| SqlText.ChecksMeasureText | ulpf/services/trino.py:327-338 | for a row of texts, each of the two checks passes exactly when the statement that carries the row alone is within a length |
| SqlText.SentTextBounded | ulpf/services/trino.py:315-348 | no statement of a run is longer than the configured bytes plus 2 for each of its rows, less 129 |
| Refusals.GrowingEventStops | ulpf/services/trino.py:293-338 | any event that can outgrow the limit in steps no larger than the gap has a size at which it passes every check up front and its raw row is stored before the normalized one is refused |
| LongFields.LeefFields | ulpf/parsing/security.py:78-92 | the parser reads the LEEF line as five header fields and one extension field, whose value unescaping leaves as it is |
| LongFields.RawSize | ulpf/services/trino.py:417-434 | a letter more in that field is a byte more in the raw row |
| LongFields.NormalizedSize | ulpf/services/trino.py:436-479 | it is two bytes more in the normalized row, once in the metadata and once in the OCSF record |
| LongFields.CheckIsNotEnough | ulpf/services/trino.py:327-338 | for every digest and run id, that line at some length passes every check up front, and its raw row is stored before the normalized one is refused |
| LongFields.StopHalfway | ulpf/services/trino.py:159-208 | the same from the Kafka record through ingest_events with no statement failing: an error, and a raw row without its normalized row |
| Refusals.UntouchedIff | ulpf/services/trino.py:164-190 | a run leaves the tables untouched exactly when a row fails up front or all rows it sends before the first oversize one are stored already |
| Refusals.IngestUndisturbed | ulpf/services/trino.py:126-208 | undisturbed, ingest_events completes exactly on acceptable input, and leaves the tables untouched exactly under that condition |
| Refusals.AcceptableEvents | ulpf/services/trino.py:131-190 | input is accepted exactly when the last event of every id has a raw row, and a normalized or quarantine row according to its parse result, that pass both size checks |
| Refusals.SpareIsAcceptable | ulpf/services/trino.py:327-338 | where no gap is negative, a run completes exactly when every row passes up front with the gap to spare |
| Refusals.ShippedAcceptable | ulpf/services/trino.py:210-291 | the same for the shipped columns and default limits |
| Lake.ItemsOwned | ulpf/services/trino.py:132-135 | the items of a run: one per id, stamped with the run, exactly the received ids |
| Lake.CountIsKeys | ulpf/services/trino.py:411-415 | the count for a run is the number of ids whose row names it |
| Plans.WholeIffAcceptable | ulpf/services/trino.py:164-190 | the planned statements are all of a run exactly when every row passes both size checks |
| TrinoRuns.ApplyAgain | ulpf/services/trino.py:361-372 | every write of a run is idempotent |
| TrinoRuns.UnparsedCounts | ulpf/services/trino.py:153 | the quarantined number of a running audit row counts the received events that did not parse |
| TrinoRuns.Trino.ExecuteWrite | ulpf/services/trino.py:361-372 | acknowledged exactly when at most retries conflicts come before success; at most retries + 1 attempts; applied once if any attempt took effect, not at all otherwise |
| TrinoRuns.Trino.MergeBatches | ulpf/services/trino.py:293-325 | what was merged is a prefix of the rows and of the planned statements, all of them on success |
| TrinoRuns.Trino.AssertFit | ulpf/services/trino.py:327-338 | passes if and only if every row passes the up-front size check |
| TrinoRuns.Trino.MergeAll | ulpf/services/trino.py:174-190 | raw, then normalized, then quarantine: no later table gets a row before the earlier ones are complete |
| TrinoRuns.Trino.Conclude | ulpf/services/trino.py:191-201 | the numbers reported are counted in the tables after the merges, and only the run's own audit row changes; it succeeds exactly when its three reads do and the final write is acknowledged within its retries |
| TrinoRuns.Trino.Run | ulpf/services/trino.py:159-201 | wherever it stops, the tables are at a raw-first stage of this run and the audit row claims no more than happened |
| TrinoRuns.Trino.IngestEvents | ulpf/services/trino.py:126-208 | empty input and input with an id of whitespace only change nothing, and only the latter is refused as such; any failure leaves the tables after a prefix of the planned statements and keeps all stored rows; a result means complete tables and true numbers; undisturbed every planned statement is sent, it succeeds exactly when every row passes both size checks, and a failure is recorded as FAILED |
| TrinoRuns.ReachedIsSound | ulpf/services/trino.py:174-190 | at every stopping point: one row per id, raw rows for all other rows, stored rows untouched |
| IngestionCounts.ReportCounts | ulpf/services/trino.py:191-201 | committed and quarantined are the ids newly stored; duplicates are the repeats plus the items already present; nothing is lost |
| DuckDb.InsertIsMerge | ulpf/services/duckdb_backend.py:156-166 | inserting row by row with conflicts ignored equals MERGE for batches without repeats |
| DuckDb.RepeatedKey | ulpf/services/duckdb_backend.py:164 | without the keying by id the two would differ: a repeated key goes in once here, twice by MERGE |
| DuckDb.LocalRefinesTrino | ulpf/services/duckdb_backend.py:171-215 | from equal tables both backends leave the same tables and report the same numbers and status |
| DuckDb.PartitionKept | ulpf/services/duckdb_backend.py:195-197 | a batch keeps raw = normalized + quarantined, disjoint, if and only if it moves no id to the other side |
| DuckDb.BatchKeepsPartition | ulpf/services/duckdb_backend.py:195-197 | with a parser that decides by event id every batch keeps it |
| DuckDb.EveryStatePartitioned | ulpf/services/duckdb_backend.py:192-215 | after any series of committed and rolled-back batches raw ids are the disjoint union of normalized and quarantined ids |
| DuckDb.ParserUpgradeSplits | ulpf/services/duckdb_backend.py:195-197 | one id, first rejected and then parsed, ends up on both sides |
| DuckDb.DuckDbBackend.InsertRecords | ulpf/services/duckdb_backend.py:156-166 | the batch loop inserts all records, whatever the batch size, with one statement per batch, and stops at the first that fails |
| DuckDb.DuckDbBackend.Transact | ulpf/services/duckdb_backend.py:193-205 | commits the complete batch with its numbers, or nothing |
| DuckDb.DuckDbBackend.Commit | ulpf/services/duckdb_backend.py:191-213 | BEGIN, the transaction and COMMIT go through exactly when none of their statements fails; otherwise ROLLBACK and the FAILED audit row follow, unless BEGIN was what failed |
| DuckDb.DuckDbBackend.IngestEvents | ulpf/services/duckdb_backend.py:171-215 | all of a batch, exactly when every statement from BEGIN to COMMIT succeeds, or none of it; exactly when a failure leaves a FAILED audit row; the partition of raw ids is kept either way |
| Writers.NewWriterFits | ulpf/services/trino.py:132-190 | the statements a run plans carry its items, each batch without repeats, raw first |
| Writers.SendKeeps | ulpf/services/trino.py:340-348 | one statement of one run keeps one row per id and raw-first, against tables others changed meanwhile |
| Writers.StepKeeps | ulpf/services/trino.py:126-208 | every step of any run (start, unacknowledged or acknowledged statement, crash, finish) keeps the invariant and all stored rows |
| Writers.RunsAreSafe | ulpf/services/trino.py:126-208 | over every interleaving of any number of runs: one row per id and table, raw rows first, rows never altered |
| Writers.InitialSound | ulpf/services/trino.py:126-208 | empty tables satisfy the invariant |
| Convergence.RunsConverge | ulpf/services/trino.py:126-208 | once every batch has one finished run, each table holds the ids of one sequential uninterrupted run of all batches |
| Convergence.SequentialKeys | ulpf/services/trino.py:132-190 | a sequential run stores exactly the ids its batches want in each table |
| Convergence.FinishedCounts | ulpf/services/trino.py:191-201 | under concurrency too, a finished run's numbers are the rows stamped with it, and duplicates are repeats plus items another run stored |
| Convergence.CountsConserve | ulpf/services/trino.py:411-415 | rows stamped per run, failed runs included, add up to the table |
| Convergence.PartitionHolds | benchmarks/homelab.py:113-118 | normalized and quarantine never share an id; with every batch finished they make up the raw ids |
| Audits.StepKeeps | ulpf/services/trino.py:374-409 | every write of every run, acknowledged or not, keeps all audit rows true while other runs write |
| Audits.AuditRowsAreTrue | ulpf/services/trino.py:159-208 | in every reachable state a completed row has all its run's rows stored and their true numbers, which add up to what was received; any other row claims nothing stored; a run that reported success has a completed row; every stored row's run has one |
| Audits.LakeHistory | ulpf/services/trino.py:159-208 | what happens to the event tables meanwhile is a history of `Writers` |
| Audits.RunIsHistory | ulpf/services/trino.py:159-208 | a run whose audit row ends up missing, running, failed or completed is a stretch of such a history |
| Audits.IngestOnce | ulpf/services/trino.py:126-208 | a call of ingest_events, whatever becomes of its statements, is such a stretch, audit row included |
| SoloRun.WholePlanCompletes | ulpf/services/trino.py:174-190 | sending all planned statements gives the tables of an uninterrupted run |
| SoloRun.RunIsPath | ulpf/services/trino.py:159-208 | a run that stores a prefix of its plan and then finishes or dies is a path of the transition system |
| SoloRun.IngestOnce | ulpf/services/trino.py:126-208 | a call of ingest_events, whatever becomes of its statements, is such a path |
| SoloRun.AloneIsIngest | ulpf/services/trino.py:126-201 | a run of input that passes both size checks, left alone, reaches the tables and numbers that ingest_events reports |
| Streaming.StepKeeps | ulpf/streaming/worker.py:46-57 | poll, attempt, retry, accept, publish in any order, commit, restart, production and other writers all keep the invariant; nothing secured is taken back |
| Streaming.CommitKeeps | ulpf/streaming/worker.py:55-57 | offsets may move once the batch is stored and its dead letters are acknowledged |
| Streaming.HistoryKeeps | ulpf/streaming/worker.py:46-57 | the invariant holds in every reachable state |
| Streaming.CommittedRecordsAreSafe | ulpf/streaming/worker.py:46-57 | in every reachable state a committed record has a raw row, a row in exactly one of the other tables, and a dead letter if invalid |
| Streaming.FreshIsSound | ulpf/streaming/worker.py:27-42 | a fresh deployment satisfies the invariant |
| Streaming.BatchSecured | ulpf/streaming/worker.py:55-57 | once a polled batch is stored and has its dead letters, every record before the position is safe |
| StreamHistory.AttemptIsHistory | ulpf/streaming/retry.py:42-48 | one attempt of the retry loop is a stretch of the history: a run starts, a prefix of its statements lands, and it finishes or dies |
| StreamWorker.CompletedStored | ulpf/services/trino.py:174-190 | after a completed run every received event is in raw and in the table its parse result selects |
| StreamWorker.Worker.Ingest | ulpf/streaming/retry.py:42-45 | one attempt keeps all guarantees and extends the history; success means every event is stored where it belongs |
| StreamWorker.Worker.IngestWithRetry | ulpf/streaming/retry.py:32-49 | retries the same batch until it is stored or the stop flag is set, looking at the flag before the first attempt and twice between attempts; undisturbed it needs one attempt |
| StreamWorker.Worker.SendLetter | ulpf/streaming/records.py:34-41 | one letter is sent; it is acknowledged or not, whatever became of the others |
| StreamWorker.Worker.PublishDeadLetters | ulpf/streaming/records.py:33-45 | a letter for every invalid event and for no other, all sent before the first is awaited, so that any of them may be acknowledged when another fails; success means all were |
| StreamWorker.Worker.Handle | ulpf/streaming/worker.py:51-57 | store, publish, commit, in that order: the offsets move only after both |
| StreamWorker.Worker.Poll | ulpf/streaming/worker.py:47-48 | at most batch_size records that follow the position |
| StreamWorker.Worker.CommitOffsets | ulpf/streaming/worker.py:56-57 | the position becomes the committed offsets, or, on an error, may have |
| StreamWorker.Worker.Cycle | ulpf/streaming/worker.py:46-57 | one pass of the loop keeps all guarantees and extends the history |
| StreamWorker.Worker.Run | ulpf/streaming/worker.py:46-57 | wherever the loop ends, committed records are stored and have their dead letters; offsets never go back; the run is a history of the transition system; undisturbed, every batch finished before the stop is committed |
| StreamWorker.AllConsumed | ulpf/streaming/worker.py:46-57 | given time for every poll and a poll for every record, what an undisturbed `Worker.Run` commits reaches the end of every partition |
| SqlGuard.ScrubSql | ulpf/services/sql_guard.py:4-45 | the index-jumping scanner equals a one-character-at-a-time automaton |
| SqlGuard.SkipQuote | ulpf/services/sql_guard.py:10-22 | the quote loop ends after the closing quote, doubled quotes skipped, or reports an open quote |
| SqlGuard.SkipBlock | ulpf/services/sql_guard.py:27-41 | the nested comment loop ends after the marker that closes depth one, or reports an open comment |
| SqlGuard.RejectedIffOpen | ulpf/services/sql_guard.py:20-21 | rejected if and only if the text ends inside a quote or block comment |
| SqlGuard.ScrubbedIsClean | ulpf/services/sql_guard.py:4-45 | the output has no quote, no `--` and no `/*`, not even across joins |
| SqlGuard.CleanUnchanged | ulpf/services/sql_guard.py:42-44 | text without them passes unchanged |
| SqlGuard.ScrubIsIdempotent | ulpf/services/sql_guard.py:4-45 | a second pass changes nothing |
| SqlGuard.LiteralTextIrrelevant | ulpf/services/sql_guard.py:9-22 | replacing the text of a properly quoted literal changes neither output nor verdict |
| Escaping.SplitEscaped | ulpf/parsing/base.py:32-48 | for a separator string of any length, the character loop cuts at the first maxsplit separators after an even run of backslashes |
| Escaping.CutsExact | ulpf/parsing/base.py:38-46 | the cut positions are exactly those separators |
| Escaping.SplitConserves | ulpf/parsing/base.py:32-48 | joining the parts restores the line, for every separator and limit; the number of parts is exact |
| Escaping.SplitByConserves | ulpf/parsing/base.py:32-48 | the same for separator strings of any length; one that is not a single character never cuts |
| Escaping.UnescapeCef | ulpf/parsing/base.py:17-29 | the index loop undoes escapes left to right and keeps a final lone backslash |
| Escaping.ReadableIsNeeded | ulpf/parsing/base.py:17-29 | unescaping gives back every field, line feeds, carriage returns and tabs included, exactly when the writer puts a backslash before backslashes and not before n, r or t |
| Escaping.SpelledRoundTrip | ulpf/parsing/base.py:17-48 | such fields survive joining, splitting and unescaping |
| Escaping.UnescapeChanges | ulpf/parsing/base.py:22-28 | a value stays as it is, in length and content, exactly when no backslash has a character after it |
| Escaping.HeaderRoundTrip | ulpf/parsing/base.py:32-48 | with maxsplit k, k escaped fields and an arbitrary tail come back intact |
| Escaping.FieldsRoundTrip | ulpf/parsing/base.py:17-48 | splitting the join of escaped fields and unescaping gives the fields |
| Escaping.PlainIsNeeded | ulpf/parsing/base.py:21 | every field survives if and only if the separator is none of backslash, n, r, t |
| LogicalEvents.Group | ulpf/pipeline.py:30-50 | the segmentation loop returns every event with its offset, or an error exactly when there are events and the limit is not positive or less than their number |
| LogicalEvents.OneLineMore | ulpf/pipeline.py:35-47 | what one more line does: after a Log4j line an indented, `at `, `Caused by:` or `Suppressed:` line extends the last event; any other line starts one unless it is all whitespace |
| Text.SpaceExact | ulpf/pipeline.py:38 | the whitespace characters, one by one |
| LogicalEvents.SegmentsCover | ulpf/pipeline.py:35-47 | offsets strictly increase and index the first line of each event; an event is exactly the kept lines up to the next offset |
| LogicalEvents.LinesAreConserved | ulpf/pipeline.py:40-49 | the lines of all events are the input without the blank lines that continue nothing |
| LogicalEvents.GroupingComposes | ulpf/pipeline.py:35-47 | if b starts with a non-blank line that is no trace line, segmenting a + b is segmenting a, then b shifted by len(a) |
| LogicalEvents.KeptLinesGroupAlike | ulpf/pipeline.py:42 | dropping those blank lines first changes offsets only |
| LogicalEvents.SingleLine | ulpf/pipeline.py:35-49 | one non-blank line is one event at offset 0 |
| Identity.FrameInjective | ulpf/normalizer.py:70 | the text source NUL offset NUL hash determines all three, even when a source holds NULs |
| Identity.DecimalInjective | ulpf/normalizer.py:70 | different offsets, negative ones included, have different decimal texts |
| Identity.DecimalReads | ulpf/normalizer.py:70 | the decimal text of an offset reads as that offset, without leading zeros |
| Identity.IdsAgree | ulpf/normalizer.py:69-70 | two events share an id exactly when source, offset and payload agree |
| Identity.RunLines | ulpf/pipeline.py:86-131 | a run gives one event per segment, with its lines, its offset counted from the start offset, and the hash of source, offset and payload hash; or an error exactly when the limit is not positive or less than the number of events |
| Identity.RunIdsDistinct | ulpf/pipeline.py:105-130 | no two events of one run share an id, even with equal text |
| Identity.ResumedRunAgrees | ulpf/pipeline.py:119-130 | reading on from an event boundary with its offset reproduces the ids of the longer run |
| Identity.ParseRecord | ulpf/streaming/records.py:8-30 | every record gives exactly one event with its text, its source `kafka:topic:partition` and the hash of source, offset and payload hash, on the rejected branches as on the parsed one, and the reason if it is rejected |
| Identity.RecordIdsAgree | ulpf/streaming/records.py:10-30 | records at different positions never share an id; a redelivered one keeps its own |

## Left out

- Connections, cursors, signals, threads, heartbeats, logging, and the sleeping and jitter between retries; only the number of retries is kept.
- Streamlit, the CLI, the `--once` form of the detection worker, dashboards, maintenance, watchdog and benchmarks.
- Regular-expression parsers, the csv, json, xml and ipaddress libraries, `run_payload`, field mapping, OCSF projection and validation: an event carries the outcome.
- Wall-clock columns and descriptive columns of the audit row (source, parsed count, started and completed times, snapshot id, error text); the counts and the status are kept.
- Float rounding of `timestamp()`, and timestamps of events without a timezone.
- Event ids that are not strings, and lone surrogates in payload text, which the hash replaces.
- Kafka consumer-group rebalancing, table retention and compaction: one owner per partition, tables only grow.
- Records with a negative timestamp, whose observed time is the clock: the identity does not depend on it, but the parse result may.
- DetectionStores.DetectionStore.ReadAuthentication: a NULL column reads as the empty string; both make the event ineligible.
- TrinoRuns.Trino.IngestEvents: one client at a time; other runs between its statements are the subject of Writers and Audits.
- LongFields.StopHalfway: the column values of the LEEF line are written out as the parser, the normalizer and the JSON encoder give them; splitting, escaping and the identity are the modelled functions, field mapping and JSON are not.
- StreamWorker.Worker.Run: one process without other writers; a kill between any two steps, and other writers, are the subject of Streaming, whose steps the run is a history of. The stop flag and polls come from scripts that end, so the loop does too; `ensure_lakehouse` before it is left out.
- Streaming.StepKeeps: steps instead of loops, because the worker, other writers and restarts interleave there.
