# AndroidAPM server: verified model

A Dafny 4.11 model of the durable core of the AndroidAPM server, with proofs. It covers

1. **durable delivery**: inbox rows, symbolization jobs, leases, retention and capacity admission, shared by any
   number of concurrent gateways, export workers and symbolizers;
2. **idempotent ingest**: preparation of a batch, replay identity across key rotation, and the identifier sanitiser;
3. **queries**: the weighted SQL reduction, the response builders on top of it, the quality gates, trends, pagination
   and cursors;
4. **native symbolization** batched by module;
5. **small exact algorithms**: length-prefixed framing, batch-id pre-images, the authentication token bucket.

`dafny verify dfyconfig.toml` checks everything.

## How the modules fit together

| files | content |
|---|---|
| `Prelude` | options, results, substring search |
| `Replay` | event preparation, conflict signatures, replay matching |
| `Delivery`, `DeliveryStore` | the guarded statements on one row or job; the store class whose methods run them over the two tables |
| `DeliveryLaws` | what the statements on one row or job mean for whoever comes next, in statuses, columns and numbers |
| `DeliveryRuns`, `DeliveryTheorems`, `RetentionLaws` | the transition system, its invariant over all runs, and what follows |
| `StoreRefinement` | what each method of the store makes of the tables is what one action of the protocol (for the failure loop, one per row) makes of them, refused branches included |
| `ClaimHistory` | fencing against the latest claim in the history of a run |
| `DeliveryWitnesses` | concrete runs behind the findings |
| `Gateways` | several ingest transactions interleaved statement by statement; refinement to atomic ingest |
| `Sanitizer`, `Normalization`, `FieldLaws` | JSON documents, identifier removal, registered fields by their keys, what pruning leaves |
| `Facts`, `Grouping`, `WindowFacts` | facts and what builders can observe of them; GROUP BY; loading a window |
| `Buckets`, `Sorting`, `Metrics`, `ReleaseHealth`, `RatioGate`, `Issues`, `DataQuality`, `Trends`, `Shares` | the response builders and their laws |
| `EventLaws` | facts, filters and counts traced back to the stored events' own columns |
| `FactLaws`, `ReleaseLaws`, `IssueLaws`, `QualityLaws` | what the builders' answers mean in terms of facts, without the builders' helpers |
| `QueryLoops` | the builders' loops, proved against the builder functions |
| `QueryTheorems` | weighted equals per-event; retention changes no answer |
| `Pagination`, `Cursors` | keyset pages and opaque cursors |
| `NativeFrames`, `NativeLaws` | batched native symbolization, and what its verdicts mean for output lines and artifacts |
| `Framing`, `AuthBudget`, `IssueAliases`, `ExportBatch` | the remaining algorithms |

## Modelling decisions

- Each committed SQL statement or transaction is one guarded atomic step; time never runs backwards. A cell is one
  inbox row with its job (the job's foreign key is unique; a job is known by its inbox id, and its own id is its
  position in `jobOrder`). `rowMemo` and `jobMemo` are what living workers hold in memory; `retries`, `toolStarts` and
  `accepted` are monitors no statement reads. The latest claim is not stored: `ClaimHistory` reads it off the actions.
- `InsertBatch` meets the table `elsewhere` at its upsert, which others may have grown since its first read;
  `OthersOnlyGrow` proves that every run grows the table only in the assumed way, and `Gateways` interleaves the
  statements of many transactions one by one.
- SHA-256 and HMAC are function values, injective where a lemma says so. Clock readings, allocated ids, lock
  contention, the tool, JSON rendering and host float conversions are parameters.
- Ratios and rates are reals. An event's `late` flag is one value per event, because the SQL and the Python fallback
  round milliseconds differently (`src/androidapm_server/db/query.py:110-117`, `src/androidapm_server/query.py:1438`).
- A query selection is a value (`Atom`, `Sel`) instead of a closure, so that "for every selection" can be stated.
- Closed vocabularies (statuses, reasons, states, registered field names, event families) are enumerations.
- Token-bucket time is measured in tokens (clock reading times rate); `AuthAttemptBudget` keeps the source's fields.

## Findings

- `start_symbolization_attempt` raises the in-memory attempt count before its transaction commits
  (`src/androidapm_server/db/symbolization.py:201`, `src/androidapm_server/symbolizer_worker.py:137-141`). If that
  commit fails on the last attempt, the following retryable failure finalizes the job although the stored budget was
  not spent: `SymbolLabelIsStored` gives the exact condition, `LostStartForfeitsLastAttempt` the two steps from any
  such state, and `LostStartArises` a run from the empty inbox for every symbolizable Java crash (`LostStartWitness`
  for one).
- A replay of a stored event is acknowledged only if the resubmission alone passes the privacy check, which also reads
  `request_id` and `sdk_version` (`src/androidapm_server/db/inbox.py:270-292`), and the ring still holds the row's key
  version (`src/androidapm_server/db/inbox.py:423-426`). `ReplayIsDuplicateIff` is the exact condition;
  `SameEventRefused` accepts one event and then refuses the same identity both ways.
- The retry pause is capped twice, at the exponent 8 and at 300 seconds (`src/androidapm_server/db/worker.py:109`,
  `src/androidapm_server/db/symbolization.py:394`). The second cap never binds: `BackoffIsPause` bounds the pause by 256.
- The ratio's own verdicts for incompletely identified events and for no installation
  (`src/androidapm_server/query.py:1107-1119`) are never shown, because the gate is closed then and overwrites them
  (`src/androidapm_server/query.py:1206-1216`): `GateHidesPartialRatio`.
- A release bucket is DEGRADED by comparing list lengths, not weights
  (`src/androidapm_server/query.py:766`); the two agree because each comparison only asks whether some fact is unbound.

## Model

| member | source | states |
|---|---|---|
| Replay.PrepareUniqueEvents | src/androidapm_server/db/inbox.py:170-218 | the loop over a batch computes the preparation function, including which event's error is reported first |
| Replay.PrepareAllIff | src/androidapm_server/db/inbox.py:170-218 | a batch prepares iff every event alone is acceptable and no event id is reused for another identity; the dictionary then represents every event |
| Replay.SignatureIsIdentity | src/androidapm_server/db/inbox.py:59-70 | two prepared events have the same conflict signature iff they have the same identity |
| Replay.MatchIsIdentity | src/androidapm_server/db/inbox.py:347-427 | a stored row matches a resubmission iff the identity equals the accepted one and the row's key version is known, whatever key is active now |
| Replay.MatchesInstallationIff | src/androidapm_server/db/inbox.py:407-427 | a resubmitted installation matches iff the row has an hmac and a key version the ring still knows (the active key if it is empty), and the hmac under it agrees; without one, iff the row has neither |
| Replay.PreparedStores | src/androidapm_server/db/inbox.py:221-327 | a prepared event stores its own identity, under the active key |
| Replay.PrepareEventIs | src/androidapm_server/db/inbox.py:221-327 | one event alone: refused for want of the identity service, else for a text that holds the installation id, else stored column by column under the active key |
| Replay.LeaksIff | src/androidapm_server/db/inbox.py:270-292 | the privacy check refuses iff a non-empty installation id occurs in one of the fourteen named texts of event, release and request |
| Replay.NoColumnHoldsInstallation | src/androidapm_server/db/inbox.py:270-292 | once a batch prepares, no identity column of any of its rows and no name of the event or request contains its installation id |
| Replay.MentionRefusesBatch | src/androidapm_server/db/inbox.py:270-292 | an event in which any one of those texts contains the installation id makes its whole batch fail |
| Replay.FirstRefusalIsReported | src/androidapm_server/db/inbox.py:170-218 | the refusal reported is the first one in batch order, and a reused event id is a conflict only behind acceptable events |
| Delivery.OwnersAreDistinct | src/androidapm_server/db/leases.py:16-19 | claims with distinct tokens have distinct owners within the column length, whatever the worker names |
| DeliveryLaws.RowClaimableIff | src/androidapm_server/db/worker.py:33-48 | a row is claimable iff its evidence is there and it is due and pending, or in processing under a lease that has run out |
| DeliveryLaws.ClaimExcludes | src/androidapm_server/db/worker.py:50-55 | a claim makes its owner the only writer until the lease ends, and from then on, not before, anyone may claim again |
| DeliveryLaws.JobClaimExcludes | src/androidapm_server/db/symbolization.py:134-173 | the same for a job |
| DeliveryLaws.FailureSettles | src/androidapm_server/db/worker.py:107-129 | a failed export is claimable again exactly from the non-zero Retry-After on, else two to the power of its remembered attempts (at most 8) seconds later; out of budget it is a dead letter that nobody may claim again |
| DeliveryLaws.JobFailureSettles | src/androidapm_server/db/symbolization.py:390-417 | a failed job is claimable again exactly after that pause, or finished for good |
| DeliveryLaws.BackoffIsPause | src/androidapm_server/db/worker.py:109 | the pause doubles up to 256 seconds; the cap of 300 seconds never binds |
| DeliveryLaws.ParkAndWake | src/androidapm_server/db/symbolization.py:294-321 | a parked job sleeps exactly one minute; a woken one is due at once; both keep their attempts |
| DeliveryLaws.CompletionIsFinal | src/androidapm_server/db/symbolization.py:324-378 | a completed job is owned and claimed by nobody, at any time |
| DeliveryLaws.ReleaseMakesDue | src/androidapm_server/db/symbolization.py:476-486 | releasing a row ends its waiting and nothing else, and makes it claimable when it was due |
| DeliveryLaws.LiveRowsAreUnfinished | src/androidapm_server/db/maintenance.py:19 | the live count is the number of rows that are pending, in processing or waiting for symbols |
| DeliveryLaws.FinishingFreesCapacity | src/androidapm_server/db/maintenance.py:34-46 | every row that a statement finishes lowers the live count by one, and nothing else does |
| DeliveryLaws.PrunableIff | src/androidapm_server/db/maintenance.py:95-131 | evidence may go iff it is there, no job still needs it, and the row was delivered, or given up, its own period ago |
| DeliveryLaws.SymbolIdentityIff | src/androidapm_server/db/symbolization.py:509-530 | a crash can be matched iff it has a stack, an occurrence-bound release with every part, and, if native, a module with a supported ABI and a hexadecimal build id of 8 to 128 digits |
| DeliveryLaws.WaitsForIff | src/androidapm_server/db/symbolization.py:420-473 | an artifact concerns a crash iff tenant, app, build and kind agree and, if native, it belongs to one of the frames' modules |
| DeliveryLaws.AcceptedBecomes | src/androidapm_server/db/inbox.py:430-465 | what an accepted event starts as, with its job |
| DeliveryStore.InboxStore.InsertBatch | src/androidapm_server/db/inbox.py:73-167 | all or nothing, whatever others commit between the first read and the upsert: it succeeds iff the batch prepares and every row stored at the upsert matches; then each id free by then gets one new row, no other row changes and the counts are right; on a conflict its own rows are gone |
| DeliveryStore.TwoReadsDecide | src/androidapm_server/db/inbox.py:101-166 | reading before the upsert and re-reading what raced in decide exactly as one read of the table at the upsert |
| DeliveryStore.RacedAreStored | src/androidapm_server/db/inbox.py:133-157 | the ids neither inserted nor found before are exactly those stored by the upsert but not at the first read, so the re-read never misses one |
| DeliveryStore.ReadIdentities | src/androidapm_server/db/inbox.py:83-107 | one pass finds exactly the stored ids asked for, and passes iff each of their rows has the submitted identity |
| StoreRefinement.OthersOnlyGrow | src/androidapm_server/db/inbox.py:133-135 | over every run no row goes, no stored identity changes, and a new row never repeats a stored key |
| StoreRefinement.InsertAndEnqueueIsIngest | src/androidapm_server/api/ingest.py:219-228 | inserting the batch and enqueueing its jobs makes of both tables what the protocol's ingest action makes of them |
| DeliveryStore.InsertRows | src/androidapm_server/db/inbox.py:110-131 | ON CONFLICT DO NOTHING: one new row with a new id per unknown event id, nothing else changes |
| DeliveryStore.InboxStore.EnqueueSymbolizationJobs | src/androidapm_server/db/symbolization.py:49-131 | one job per crash of the batch without one, waiting iff it has a stack and an exact release (and a native module) identity; exactly the rows of new waiting jobs are held back, and the count is their number |
| DeliveryStore.InboxStore.ClaimBatch | src/androidapm_server/db/worker.py:24-59 | claims the first due, unlocked rows by id, up to the limit, and no other; each is written by its owner alone until its lease ends |
| DeliveryStore.DueRowsAre | src/androidapm_server/db/worker.py:33-48 | the claim chooses among exactly the unlocked rows with evidence that are due and pending, or whose lease has run out |
| DeliveryStore.InboxStore.MarkDelivered | src/androidapm_server/db/worker.py:62-90 | a row changes iff it is listed and owned in time; it is then delivered, finalized now, without lease, attempts and identity kept; no terminal row changes; the count is the number of changed rows, and the live count falls by it |
| DeliveryStore.InboxStore.MarkFailed | src/androidapm_server/db/worker.py:93-129 | every listed row still owned in time is settled once, by its first listed snapshot: claimable again exactly from the end of its pause, or a dead letter for good; no other row changes, and the live count falls by the rows given up |
| DeliveryStore.FirstHeldIs | src/androidapm_server/db/worker.py:107-109 | the snapshot that decides a row is the first listed one for it |
| DeliveryStore.FailedRowsSettle | src/androidapm_server/db/worker.py:107-129 | the statement-by-statement loop is one simultaneous decision per row |
| DeliveryStore.InboxStore.ClaimSymbolizationBatch | src/androidapm_server/db/symbolization.py:134-173 | claims the first due, unlocked jobs in job order up to the limit, and no other, attempts unspent |
| DeliveryStore.DueJobsAre | src/androidapm_server/db/symbolization.py:141-160 | the job claim chooses among exactly the unlocked jobs that are queued or parked and due, or whose lease has run out |
| DeliveryStore.InboxStore.StartSymbolizationAttempt | src/androidapm_server/db/symbolization.py:176-202 | spends one attempt iff the claim is live, the snapshot is true and budget is left |
| DeliveryStore.InboxStore.MarkSymbolsMissing | src/androidapm_server/db/symbolization.py:294-321 | a job changes iff it is owned in time; it is then owned by nobody at any time, still unfinished, attempts kept, and claimable exactly from the recheck time on; every other job and all rows stay |
| DeliveryStore.InboxStore.MarkSymbolized | src/androidapm_server/db/symbolization.py:324-378 | an owned job completes, publishes a Java fingerprint and releases its row, or nothing changes |
| DeliveryStore.InboxStore.MarkSymbolizationFailed | src/androidapm_server/db/symbolization.py:381-417 | an owned job is retried, or fails for good and releases its row |
| DeliveryStore.InboxStore.RequeueMatchingMissingJobs | src/androidapm_server/db/symbolization.py:420-473 | wakes exactly the parked jobs whose crash needs the artifact, due at once, counts them, changes nothing else and leaves none of them parked |
| Delivery.WokenByWhatItNeeds | src/androidapm_server/db/symbolization.py:257-291 | the artifact a crash looks up wakes it; a Java crash is woken by nothing else, a native one exactly by its build's artifact for one of its frames' modules |
| DeliveryStore.InboxStore.MaintainOnce | src/androidapm_server/db/maintenance.py:89-148 | prunes exactly the first unlocked rows, by id and up to the batch size, whose own retention period is over and whose job is finished; drops nothing but their evidence and job results, and counts them per tenant |
| DeliveryStore.CheckCapacity | src/androidapm_server/db/maintenance.py:25-53 | counting at most one past the limit admits iff the rows pending, in processing or waiting for symbols, and the raw bytes, are within their limits |
| StoreRefinement.ClaimBatchIsClaimRows | src/androidapm_server/db/worker.py:24-59 | the claiming statement is the protocol's claim action on every row |
| StoreRefinement.MarkDeliveredIsDeliver | src/androidapm_server/db/worker.py:62-90 | the completion statement is the protocol's deliver action |
| StoreRefinement.MarkFailedIsFail | src/androidapm_server/db/worker.py:93-129 | the failure loop makes of both tables what a run of one fail action per listed row makes of them |
| StoreRefinement.ClaimSymbolizationIsClaimJobs | src/androidapm_server/db/symbolization.py:134-173 | the job claim is the protocol's action |
| StoreRefinement.StartAttemptIsStart | src/androidapm_server/db/symbolization.py:176-202 | committed, rolled back or refused, the start is the protocol's action on both tables and on the worker's own count |
| StoreRefinement.MarkSymbolsMissingIsPark | src/androidapm_server/db/symbolization.py:294-321 | parking, owned or refused, is the protocol's action |
| StoreRefinement.MarkSymbolizedIsComplete | src/androidapm_server/db/symbolization.py:324-378 | job, fingerprint and release together are one protocol action; a refused or unsupported completion is one that changes nothing |
| StoreRefinement.MarkSymbolizationFailedIsFail | src/androidapm_server/db/symbolization.py:381-417 | failure and release together are one protocol action, whether retried, given up or refused |
| StoreRefinement.RequeueIsRequeue | src/androidapm_server/db/symbolization.py:420-473 | requeueing the jobs that wait for an artifact is the protocol's action, and no row changes |
| StoreRefinement.MaintainIsPrune | src/androidapm_server/db/maintenance.py:114-148 | pruning is the protocol's action |
| DeliveryRuns.StepKeepsProtocol | src/androidapm_server/db/symbolization.py:134-202 | every worker action keeps the shape, coupling, fingerprint, memory and budget invariants of a row and its job |
| DeliveryRuns.IngestKeepsInv | src/androidapm_server/api/ingest.py:219-228 | an accepted batch keeps the invariant of the whole table |
| DeliveryRuns.RunsKeepInv | src/androidapm_server/db/worker.py:24-129 | every run keeps the invariant of the whole system |
| ClaimHistory.RowWriteIffLatestClaim | src/androidapm_server/db/worker.py:62-129 | after any run an export write changes a row iff the writer's claim is the latest in the run's history, not used up, its worker not crashed, and not expired; no lease column is consulted |
| ClaimHistory.RowHistoryAgrees | src/androidapm_server/db/worker.py:50-55 | in every run the lease columns of a row hold exactly the latest unused claim of the history |
| ClaimHistory.JobWriteIffLatestClaim | src/androidapm_server/db/symbolization.py:294-417 | the same for parking, completing and failing a job; a refused write also leaves the row alone |
| ClaimHistory.StartIffLatestClaim | src/androidapm_server/db/symbolization.py:176-202 | an attempt is spent iff the claim is the history's latest and live, the snapshot is true, budget is left and the commit went through |
| DeliveryTheorems.StaleForever | src/androidapm_server/db/leases.py:16-19 | an owner that lost a row or job never holds it again, in any continuation |
| DeliveryTheorems.RunsPreserve | src/androidapm_server/db/worker.py:62-129 | over every run delivered and dead_letter are never left, and stored identity and raw fingerprint never change |
| DeliveryTheorems.AwaitsExactlyWhileUnfinished | src/androidapm_server/db/symbolization.py:98-131 | a row is awaiting_symbols iff its job is unfinished; no row with an unfinished job is claimable, in export or delivered |
| DeliveryTheorems.NothingIsStranded | src/androidapm_server/db/worker.py:33-48 | every non-terminal row, or its job, becomes claimable by waiting |
| RetentionLaws.KeptForItsPeriod | src/androidapm_server/db/maintenance.py:106-131 | in every run a row delivered (given up) at a time keeps its evidence before that time plus the period of delivered (dead-letter) rows |
| RetentionLaws.PrunedAfterItsPeriod | src/androidapm_server/db/maintenance.py:106-131 | once its period is over, one prune action drops its evidence, for no job holds it back any more |
| RetentionLaws.ReachableIsDated | src/androidapm_server/db/worker.py:62-129 | in every reachable state exactly the finished rows are dated, with the moment they were finished, and never in the future |
| RetentionLaws.FinishingDates | src/androidapm_server/db/worker.py:62-129 | delivering or giving up a row dates it with the moment it happens |
| DeliveryTheorems.FingerprintIsCurrent | src/androidapm_server/db/symbolization.py:343-377 | the current fingerprint is the job's result for symbolized Java incidents and the raw one otherwise |
| DeliveryTheorems.BudgetsHold | src/androidapm_server/db/symbolization.py:184-202 | the tool starts at most max_attempts times per job and a row is retried at most max_attempts - 1 times |
| DeliveryTheorems.ExportLabelIsStored | src/androidapm_server/worker.py:70-99 | the reported label is what the stored row became, and the stored count would have decided the same |
| DeliveryTheorems.SymbolLabelIsStored | src/androidapm_server/symbolizer_worker.py:172-197 | the reported label is always what was stored; the in-memory decision agrees with the stored count iff no start was lost on the last attempt before a retryable failure |
| DeliveryTheorems.LostStartForfeitsLastAttempt | src/androidapm_server/symbolizer_worker.py:137-143 | a lost last start followed by a retryable failure gives the job up with budget left and the tool not run |
| DeliveryWitnesses.LostStartArises | src/androidapm_server/symbolizer_worker.py:137-143 | with one attempt per job, every accepted symbolizable Java crash has a run from the empty inbox that ends failed with no attempt stored and no tool run |
| DeliveryWitnesses.LostStartWitness | src/androidapm_server/db/symbolization.py:201 | one concrete such crash and run |
| DeliveryTheorems.RespondIff | src/androidapm_server/db/inbox.py:100-167 | a batch is acknowledged iff it prepares and every stored event of it has its first identity; otherwise it is an event id conflict |
| DeliveryTheorems.ReplayIsDuplicateIff | src/androidapm_server/db/inbox.py:347-427 | after any run a resubmission is a duplicate iff it is acceptable, has the first accepted identity and its key is still held |
| DeliveryWitnesses.SameEventRefused | src/androidapm_server/db/inbox.py:270-292 | an accepted event submitted again with the same identity: a duplicate, a privacy conflict once the request id contains the installation id, an event id conflict once the ring lost its key |
| DeliveryTheorems.CountsAreHonest | src/androidapm_server/db/inbox.py:167 | received is inserted plus duplicates, and duplicates is not negative |
| Gateways.RunsKeep | src/androidapm_server/api/ingest.py:219-232 | every interleaving of gateways and workers keeps all transaction invariants |
| Gateways.CapacityHolds | src/androidapm_server/db/maintenance.py:25-53 | every committed state of every interleaving has no more rows pending, in processing or waiting for symbols, and no more raw bytes, than the limits |
| Gateways.RefusedIffTooManyUnfinished | src/androidapm_server/db/maintenance.py:33-48 | a gateway goes on iff the unfinished rows it sees are within the limit; refused, it leaves no trace |
| Gateways.RefusedIffTooManyBytes | src/androidapm_server/db/maintenance.py:41-48 | then iff the raw bytes it sees are |
| Gateways.TruncationDecides | src/androidapm_server/db/maintenance.py:34-41 | the truncated count decides as the full count |
| Gateways.RacedRowsAreVisible | src/androidapm_server/db/inbox.py:133-158 | after the upsert every id that was not inserted is visible, so the re-read never misses one |
| Gateways.UpsertWaitsOnlyForKeys | src/androidapm_server/db/inbox.py:110-135 | an upsert goes ahead iff no other open transaction of the tenant has inserted one of its event ids; gateways with other keys overlap freely |
| Gateways.CommitIsIngest | src/androidapm_server/api/ingest.py:219-228 | an interleaved transaction is one atomic ingest step at its commit |
| Gateways.RunsRefine | src/androidapm_server/api/ingest.py:219-232 | every interleaved run has the same committed table as a run of atomic actions |
| Gateways.CommittedIsReachable | src/androidapm_server/api/ingest.py:219-232 | so every committed table is a reachable state of the delivery protocol |
| Gateways.CommitStoresBatch | src/androidapm_server/db/inbox.py:73-167 | a commit stores every event of the batch under its identity, changes no earlier row and reports honest counts |
| Gateways.OnlyCommitsStore | src/androidapm_server/api/ingest.py:229-232 | no other gateway step changes the table: a failed transaction stores nothing |
| Sanitizer.RemoveKnownPlaintext | src/androidapm_server/db/inbox.py:330-344 | the walk over maps and lists computes the sanitising function |
| Sanitizer.KeepsExactlyCleanPlaces | src/androidapm_server/db/inbox.py:330-344 | the places of the result are exactly the clean places of the document, unchanged and in order |
| Sanitizer.NoPlaintextLeft | src/androidapm_server/db/inbox.py:330-344 | a place is in the result iff it was in the document and no key on its path and no text there holds the identifier |
| Sanitizer.SanitizeTwice | src/androidapm_server/db/inbox.py:330-344 | sanitising is idempotent |
| Normalization.CanonicalIntIffText | src/androidapm_server/normalization.py:270-280 | an integer text is accepted iff it is the canonical decimal of that integer |
| Normalization.NormalizeFields | src/androidapm_server/normalization.py:161-189 | the three dictionaries hold exactly what each registered field's outcome prescribes |
| FieldLaws.ColumnsAreRead | src/androidapm_server/normalization.py:161-189 | every column of the four registered events is missing, kept (twice if indexed) or invalid by what the document says under its own key and which text, integers of a range or bounded numbers it accepts |
| FieldLaws.IntegersAre | src/androidapm_server/normalization.py:267-283 | an integer is accepted iff it is in the 64-bit range and written as itself, as the equal float or as its canonical text |
| FieldLaws.OthersAreNotRecorded | src/androidapm_server/normalization.py:161-189 | no field of another event is ever recorded |
| FieldLaws.OccurrenceTimeIs | src/androidapm_server/normalization.py:191-197 | an app exit counts at the time it reports, if positive and at most ten minutes ahead, anything else when it was collected |
| Normalization.OccurrenceIsPlausible | src/androidapm_server/normalization.py:179-197 | occurrence times are positive and within the allowed future skew |
| Normalization.RegisteredTextIsClean | src/androidapm_server/db/inbox.py:266-312 | no registered text of a sanitised payload holds the identifier |
| Normalization.PrunedStatesAreHonest | src/androidapm_server/normalization.py:144-158 | after pruning a field is AVAILABLE iff its value is there, no text survives, other states are kept |
| FieldLaws.PruningKeepsNumbers | src/androidapm_server/normalization.py:144-158 | exactly the indexed values that are not text are kept, and only what is dropped changes its state |
| Normalization.PruneKeepsHealth | src/androidapm_server/db/maintenance.py:126-138 | pruning keeps the three columns health metrics read |
| Facts.GroupBySameView | src/androidapm_server/db/query.py:143-182 | for every selection the weighted groups show the same counts, times, rates, drops and distinct keys in the same order as the single events |
| Facts.SelectView | src/androidapm_server/query.py:1015-1042 | a list comprehension keeps two lists indistinguishable |
| Facts.KeysListTheSet | src/androidapm_server/query.py:1024-1029 | the distinct keys list exactly the set of keys, each once |
| Grouping.GroupByIsGrouping | src/androidapm_server/db/query.py:166-182 | the reduction is GROUP BY: one row per combination that occurs, aggregating exactly its events, in order of smallest id |
| WindowFacts.EventFactsAre | src/androidapm_server/db/query.py:161-165 | the facts are exactly those of the events in scope, window and filters |
| WindowFacts.LoadIffWithinBudget | src/androidapm_server/db/query.py:92-186 | a load succeeds iff the groups fit the budget and then returns all groups, indistinguishable from the events |
| EventLaws.SeenIff | src/androidapm_server/db/query.py:268-280 | an event is in the window iff tenant, app, environment, time, release and fingerprint filters hold of its columns |
| EventLaws.FactColumns | src/androidapm_server/db/query.py:139-156 | every column of an event's fact is a column of the event; the scene only while the evidence is kept |
| EventLaws.FamilyIs | src/androidapm_server/query.py:1442-1449 | java crash, ANR, app exit and SDK health are told apart by module and name |
| EventLaws.SceneStateIs | src/androidapm_server/db/query.py:125-138 | a scene is available while it is kept, then expired or missing as retention recorded, unknown if it recorded neither |
| EventLaws.HealthIs | src/androidapm_server/db/query.py:105-109 | an event reports valid SDK health iff its emit count is positive, its drop count is not negative and its drop rate is a ratio |
| EventLaws.IssueFilters | src/androidapm_server/query.py:480-487 | an issue takes exactly the events with its fingerprint and its kind; two kinds never share one |
| EventLaws.CountIs | src/androidapm_server/query.py:1416-1418 | the weight of a selection of facts is the number of events whose facts it takes |
| EventLaws.LoadedCountsAreEvents | src/androidapm_server/query.py:1006-1243 | every count behind a release slice of the loaded groups, from declared and bound events over java crashes and ANRs to affected installations and fingerprints, is a number of stored events, users or fingerprints, named by the events' own columns |
| QueryTheorems.WeightedEqualsPerEvent | src/androidapm_server/query.py:388-861 | release health, top fingerprints with tie order, issue detail and data quality from the groups equal those from one fact per event |
| QueryTheorems.PruningKeepsAnswers | src/androidapm_server/db/maintenance.py:114-148 | pruning any rows changes none of these answers but the scenes, where available counts only become expired |
| Metrics.ContinuityIffOneEpoch | src/androidapm_server/query.py:1397-1404 | there is no continuity reason iff one key version covers all identified facts |
| FactLaws.TallyMeans | src/androidapm_server/db/query.py:161-169 | first and last occurrence are the smallest and the largest, the drop rate is the largest, drops are any |
| FactLaws.SdkHealthMeans | src/androidapm_server/query.py:1258-1276 | SDK health is unavailable iff there is no report or an unusable one, degraded iff all are usable and some report drops, zero otherwise; the value is the largest drop rate |
| FactLaws.InstallationCountMeans | src/androidapm_server/query.py:1407-1413 | installations are counted iff every fact has one and nothing breaks continuity; the count is of distinct ones |
| FactLaws.ContinuityReasons | src/androidapm_server/query.py:1397-1404 | why installations cannot be counted across facts: a pseudonym without key version, or two key versions |
| ReleaseHealth.SameHealth | src/androidapm_server/query.py:388-464 | release health depends on the facts only through their view |
| ReleaseLaws.QualityRanks | src/androidapm_server/query.py:1279-1299 | the quality of a release, each verdict with its own cause, and the order in which causes count |
| ReleaseLaws.SliceStateRanks | src/androidapm_server/query.py:1195-1216 | the slice's state: quality first, then the SDK sample, its coverage, and the number of installations |
| ReleaseLaws.CountsAreShown | src/androidapm_server/query.py:1302-1317 | a count is shown once one event of the release is bound; zero is claimed only for a spotless release |
| ReleaseLaws.RatioIsShown | src/androidapm_server/query.py:1107-1135 | the crash ratio is affected over active installations when every gate is open; closed, the first closed gate is the reason |
| ReleaseLaws.GateHidesPartialRatio | src/androidapm_server/query.py:1107-1216 | whenever an eligible event is unidentified, or no installation is active, the gate is closed and the ratio shows the release's quality instead of its own verdict |
| ReleaseLaws.FingerprintsAreShown | src/androidapm_server/query.py:1136-1163 | distinct fingerprints: zero without incidents, missing when no incident carries one |
| ReleaseLaws.OthersAreShown | src/androidapm_server/query.py:1164-1217 | the late ratio, the SDK drop rate with the share of installations it covers, and the two session metrics, which are never available |
| ReleaseLaws.SlicesAre | src/androidapm_server/query.py:388-464 | either slice is its own unless the releases cannot be joined |
| ReleaseLaws.DeltaAdds | src/androidapm_server/query.py:1376-1380 | the newer count is the older one plus its delta, and there is no delta unless both are shown |
| ReleaseLaws.RatioDeltaAdds | src/androidapm_server/query.py:1383-1394 | the same for ratios |
| ReleaseLaws.ComparisonIs | src/androidapm_server/query.py:388-464 | all four deltas of the comparison, and why installation metrics of differently keyed releases have none |
| RatioGate.RatioIffAllGates | src/androidapm_server/query.py:407-432 | the affected ratio has a value iff every gate holds across both releases; it is distinct affected over distinct active installations, within [0, 1] |
| RatioGate.SliceGatesIff | src/androidapm_server/query.py:1043-1216 | the counted gates of a slice hold iff every event is bound, identified, in time, health is reported and valid without drops, and coverage and sample suffice |
| RatioGate.RatioHasValueIff | src/androidapm_server/query.py:1056-1216 | the branches of the ratio metric give a value iff all counted gates pass |
| Buckets.WidthIsLeast | src/androidapm_server/db/query.py:86-89 | the width is whole minutes, gives at most 24 buckets, and no narrower whole-minute width does |
| Buckets.BucketsTile | src/androidapm_server/query.py:685-701 | 1 to 24 non-empty buckets tile the window without gap or overlap |
| Buckets.ExactlyOneBucket | src/androidapm_server/query.py:690-693 | every time of the window lies in exactly one bucket, the one its index names |
| Trends.ReleaseTrendSums | src/androidapm_server/query.py:711-768 | the non-null counts of each release series sum to the slice's total |
| Trends.IssueTrendSums | src/androidapm_server/query.py:679-708 | the non-null counts of an issue's trend sum to its event count |
| QualityLaws.TrendMeans | src/androidapm_server/query.py:711-768 | every point of the release trend: both releases' java crashes and ANRs in that bucket, null without bound events, with a verdict of their own |
| QualityLaws.IssueTrendMeans | src/androidapm_server/query.py:679-708 | every point of an issue's trend; nothing is claimed for a bucket without an event |
| Issues.SameTopFingerprints | src/androidapm_server/query.py:467-526 | the fingerprint page, order included, depends on the facts only through their view |
| Issues.SameDetail | src/androidapm_server/query.py:529-610 | issue detail depends on the facts only through their view; without scenes, all but the scene part |
| IssueLaws.PageLeads | src/androidapm_server/query.py:467-526 | most events first, then the later last occurrence, then the fingerprint in dictionary order: nothing on the page is behind what comes after it or was left off |
| IssueLaws.IssuesAreSummarized | src/androidapm_server/query.py:485-510 | every item counts its issue's bound events and spans from the first to the last of them |
| IssueLaws.IssuesAreListed | src/androidapm_server/query.py:485-510 | every issue with a bound incident has an item |
| IssueLaws.IssuesDiffer | src/androidapm_server/query.py:485-510 | different items are different issues |
| IssueLaws.PageStateRanks | src/androidapm_server/query.py:467-526 | the page's verdict and reason, causes in order of rank |
| IssueLaws.DetailMeans | src/androidapm_server/query.py:529-610 | no data iff no fact carries the fingerprint, unavailable iff none of those is bound or keys differ; first and last are the smallest and largest occurrence of its bound facts |
| IssueLaws.FamilyMeans | src/androidapm_server/query.py:529-610 | one family when all its bound events are of it, mixed when both kinds occur |
| IssueLaws.LabelsAre | src/androidapm_server/query.py:613-676 | every label is counted by its own available facts |
| IssueLaws.LabelsAreListed | src/androidapm_server/query.py:613-676 | every available fact's label is listed, once |
| IssueLaws.LabelsAreRanked | src/androidapm_server/query.py:613-676 | the ten most frequent labels, leading first |
| IssueLaws.DistributionStateRanks | src/androidapm_server/query.py:613-676 | coverage of the distribution and its verdict, causes in order of rank |
| DataQuality.SameQuality | src/androidapm_server/query.py:771-861 | data quality depends on the facts only through their view |
| QualityLaws.SelectedAre | src/androidapm_server/query.py:771-790 | the facts judged are those of the release asked for, or all |
| QualityLaws.QualityRanks | src/androidapm_server/query.py:771-861 | the verdict on data quality, each cause as a statement about facts, in order of rank |
| QualityLaws.QualityMetricsAre | src/androidapm_server/query.py:771-861 | bound, identified, late and SDK coverage with their denominators |
| QualityLaws.CoverageMeans | src/androidapm_server/query.py:1320-1349 | a coverage has no data without a whole, is unavailable when nobody has the part, degraded when some do, present when all do |
| QualityLaws.EntryCounts | src/androidapm_server/query.py:1421-1426 | an entry counts the facts with its value |
| QualityLaws.EntriesAreSorted | src/androidapm_server/query.py:771-861 | every value that occurs has one entry, in dictionary order |
| Shares.PageIsTop | src/androidapm_server/query.py:482-500 | the page is ranked, nothing off it ranks better, and all items together count every fingerprinted incident once |
| Shares.CountersAddUp | src/androidapm_server/query.py:1421-1426 | a counter's entries add up to the sample count |
| Sorting.SortSorts | src/androidapm_server/query.py:500 | the result is ordered by the tuple key |
| Sorting.SortIsStable | src/androidapm_server/query.py:500 | items of equal key keep their order |
| QueryLoops.GroupFacts | src/androidapm_server/query.py:482-486 | one pass groups facts by key, keys in order of first appearance |
| QueryLoops.BuildTopFingerprints | src/androidapm_server/query.py:467-526 | the builder with its loops computes the fingerprint page |
| QueryLoops.CountEvidence | src/androidapm_server/query.py:623-632 | one pass fills the availability counters and the labelled groups |
| QueryLoops.BuildIssueDistribution | src/androidapm_server/query.py:613-676 | the builder with its loops computes the distribution |
| QueryLoops.BuildIssueTrend | src/androidapm_server/query.py:679-708 | the two loops compute the issue trend |
| QueryLoops.BuildIncidentTrend | src/androidapm_server/query.py:711-748 | the two loops compute the release trend |
| QueryLoops.FactCounts | src/androidapm_server/query.py:1421-1426 | the counter loop counts each value's events |
| QueryLoops.BuildReleaseHealth | src/androidapm_server/query.py:388-464 | overwriting the slices in place gives the release comparison |
| Pagination.FetchSplits | src/androidapm_server/db/query.py:214-230 | a page and the rows after its cursor are together the rows after the previous cursor |
| Pagination.FollowReturnsAll | src/androidapm_server/api/query.py:256-281 | following cursors over a fixed table returns every row once, newest first, and ends |
| Pagination.WalkNeverRepeats | src/androidapm_server/db/query.py:214-230 | with insertions between pages nothing repeats |
| Pagination.WalkSkipsNothing | src/androidapm_server/db/query.py:214-230 | with insertions between pages no row of the start is skipped |
| Cursors.Base64RoundTrip | src/androidapm_server/query.py:1493-1507 | decoding inverts encoding and accepts nothing but canonical text |
| Cursors.ThreeAreSpelled | src/androidapm_server/query.py:1493-1495 | three bytes are spelled as one 24-bit number in four characters, and the rest follows (section 4 of RFC 4648) |
| Cursors.CursorRoundTrip | src/androidapm_server/query.py:949-1003 | a cursor is read back by its own query and rejected under any other filter |
| Cursors.AcceptedIsSigned | src/androidapm_server/query.py:966-1003 | a cursor is accepted iff it is a signed payload with this filter and positive coordinates |
| Cursors.OpaqueCursorsChain | src/androidapm_server/api/query.py:256-281 | a page's opaque cursor continues exactly after that page, on any later table |
| NativeFrames.RunNative | src/androidapm_server/symbolization.py:138-268 | grouping, one run per module and reordering compute the symbolization function, failures in order |
| NativeFrames.AllFilled | src/androidapm_server/symbolization.py:245 | every frame index has a result when no module failed |
| NativeFrames.BatchedEqualsAlone | src/androidapm_server/symbolization.py:146-268 | a batched run gives each frame the result it has alone, in order; full iff all are resolved |
| NativeFrames.BatchSucceedsIff | src/androidapm_server/symbolization.py:154-250 | a run succeeds iff every module passes, the output fits and some frame resolves |
| NativeLaws.StatesAre | src/androidapm_server/symbolization.py:221-230 | a frame is resolved iff it has a function name and a location path:line:column with a known path and a line above zero, function-only iff it has the name alone, else unresolved |
| NativeLaws.ArtifactIsUsed | src/androidapm_server/symbolization.py:154-187 | an artifact is used iff it was uploaded for the event's tenant, app, version, build and variant, for the frame's ABI and build id, and its file is there |
| NativeLaws.RunReports | src/androidapm_server/symbolization.py:138-268 | a successful run reports each frame's own two lines from its own module's artifact of the event's own release, counts the named frames and is full iff all have a source line |
| NativeLaws.RunFails | src/androidapm_server/symbolization.py:154-250 | a failed run names a reason that holds: of some frame's module, of the combined output, or that no frame has a function name |
| NativeLaws.ModulesAreDistinct | src/androidapm_server/symbolization.py:146-150 | every module is run once, in order of its first frame |
| NativeFrames.ResolvedNeverMissing | src/androidapm_server/db/symbolization.py:205-234 | after a non-empty resolution no artifact is missing or mismatched |
| NativeFrames.ResolvesIffComplete | src/androidapm_server/db/symbolization.py:213-234 | resolution is non-empty iff every frame's module has an exact active artifact |
| Framing.DecodeBatch | src/androidapm_server/protocol/protobuf.py:15-53 | the cursor loop computes the decoding function, errors in order |
| Framing.DecodeInverts | src/androidapm_server/protocol/protobuf.py:20-53 | decoding inverts encoding for all frames within the limits |
| Framing.DecodesIff | src/androidapm_server/protocol/protobuf.py:15-53 | a payload decodes to some events iff it is a non-empty concatenation of frames that parse to them |
| Framing.FirstFaultDecides | src/androidapm_server/protocol/protobuf.py:20-53 | the first frame that cannot be read decides the error and its index, whatever follows |
| Framing.DigestInput | src/androidapm_server/protocol/envelope_v2.py:119-127 | the digest is fed exactly the pre-image |
| Framing.PreImageInjective | src/androidapm_server/protocol/envelope_v3.py:108-116 | pre-images determine version and ordered ids, so V2 and V3 never meet |
| AuthBudget.AuthAttemptBudget.Consume | src/androidapm_server/auth_budget.py:41-49 | one call refills, caps and charges exactly as the bucket function says |
| AuthBudget.StaysSound | src/androidapm_server/auth_budget.py:41-49 | tokens stay within [0, burst] over every call sequence |
| AuthBudget.SegmentBound | src/androidapm_server/auth_budget.py:41-49 | every contiguous segment accepts at most burst plus rate times elapsed calls |
| AuthBudget.AcceptsIffAffordable | src/androidapm_server/auth_budget.py:41-49 | a call is refused iff accepting it would overdraw the tokens at the start, or burst plus refill of some segment of calls that ends with it |
| AuthBudget.IdleTimeAdmits | src/androidapm_server/auth_budget.py:45-49 | one token's worth of idle time always admits a call |
| IssueAliases.FingerprintColumns.Upgrade | alembic/versions/20260912_0007_issue_fingerprints.py:17-48 | the raw column becomes what every event was accepted with, and an identity is replaced iff it is not null and its job is a symbolized Java one with a result |
| IssueAliases.FingerprintColumns.Downgrade | alembic/versions/20260912_0007_issue_fingerprints.py:62-66 | every event has the identity it was accepted with again, including those that came after the upgrade |
| IssueAliases.FingerprintColumns.UpWorkDown | alembic/versions/20260912_0007_issue_fingerprints.py:17-66 | upgrading, any new events, job moves and completions, and downgrading leave every identity as accepted |
| IssueAliases.FingerprintColumns.Change | src/androidapm_server/db/symbolization.py:343-377 | new events, enqueued, moved, completed and expired jobs of either server version keep the columns valid and change nothing else |
| IssueAliases.FinishedColumn | src/androidapm_server/db/symbolization.py:366-376 | publishing a finished Java job's identity gives the column that upgrading with that job would give |
| IssueAliases.RunsAgreeWithMigration | alembic/versions/20260912_0007_issue_fingerprints.py:33-66 | after any run the column is what the migration computes from the raw column and the jobs, and the raw column is what each event was accepted with |
| IssueAliases.StepsAreChanges | src/androidapm_server/db/symbolization.py:134-417 | every step of the delivery protocol changes a job only in the ways `Change` covers, so the migration meets no other work |
| IssueAliases.LinkedIff | src/androidapm_server/db/query.py:65-74 | a link is looked up under its own tenant, app and environment, in the half-open window, among events that have an issue |
| IssueAliases.ResolvesIffOneIssue | src/androidapm_server/db/query.py:58-83 | a link resolves iff one issue covers every event behind it, and resolves to that issue |
| IssueAliases.ResolvedLinkCoversAll | src/androidapm_server/api/query.py:165-176 | the resolved issue's query matches every event behind the link |
| ExportBatch.EncodeIsolated | src/androidapm_server/worker.py:102-118 | every row is exported or rejected; none is rejected when the whole batch encodes, else exactly those that cannot be mapped alone; the payload encodes exactly the exported ones |
| ExportBatch.BothPathsAgree | src/androidapm_server/worker.py:102-118 | when mapping is event by event, the whole-batch path is taken iff no row is rejected, and the isolated payload can always be built |

## Left out

- Cryptography (Argon2, Ed25519, SHA-256, HMAC), web sessions and CSRF: function values or absent.
- HTTP routing, headers, logging, metrics, health endpoints, the web console and the admin tools: no deep invariant.
- Subprocess handling, gzip, ELF parsing and the artifact file store: the tool and file presence are parameters.
- Parsing of native backtraces in `native_frames_for_job`: frames are taken as already matched; output lines are taken
  as already stripped.
- Protobuf message decoding and Pydantic validators: `parse` is a parameter of the framing loop.
- Fingerprint text scrubbing (`_incident_fingerprint`): regular expressions; the fingerprint is part of an event's content.
- OTLP mapping and export transport: one encoder parameter and one success or failure per batch.
- Quotas (`db/quota.py`) and the line protocol (`line.py`): easier than the chosen members.
- SQL isolation beyond atomic guarded statements, row locks held to commit and the advisory lock: assumed. The capacity
  lock exists on PostgreSQL only, and the model is of that path.
- Statement timeouts, `event_id` and `received_at` aggregates of a group, and audit rows: no builder reads them.
- JSON numbers that are not finite, and integer-to-float overflow, are decided by the `Floats` parameter.
- AuthBudget.SegmentBound: the clock must not run backwards, as `time.monotonic` promises; `StaysSound` needs no such condition.
- Cursors.CursorRoundTrip: JSON rendering and parsing of the four-field payload is a parameter that must round-trip.
- NativeFrames.RunNative: backtrace matching, `llvm-symbolizer` command lines and the shared deadline are parameters or absent; grouping, ordering, error order and output limits are modelled.
- DeliveryStore.InboxStore.MaintainOnce: the rewritten payload and normalized document are modelled in `Normalization`; deleting expired rate windows, audit rows and error messages is absent.
- DeliveryStore.InboxStore.EnqueueSymbolizationJobs: `input_sha256` is absent, and new jobs are numbered in row order where the source leaves the order of one INSERT open.
