# Verified model of qq-index

qq-index keeps a derived index of session histories. A feeder projects session logs into documents
and commits them in batches to a storage engine; a daemon serves bounded searches over it, with
cancellation; materialized views are kept up to date by a reconciler of their own; a history
selector looks for files that change together; and a bounded excerpt of a README is injected into
sessions. This project models the closed state machines behind these in Dafny 4.11 and proves what
they keep, over every input, every run and every interleaving.

`dafny verify dfyconfig.toml` checks the whole project.

## How it is laid out

| files | part of the system |
|---|---|
| `RuntimeProtocol`, `RuntimeInvariants`, `RuntimeSteps`, `RuntimeSafety`, `RuntimeAnswers` | cancellation and lease protocol of the daemon: a transition relation with one step per atomic operation or lock section, an inductive invariant proved by rely and guarantee, and what follows for every run |
| `Ingest`, `IngestTheorems` | the storage engine: class `SessionIndex` over four tables, and what any history of batches keeps |
| `Chunking`, `Feeder`, `FeederSync` | the feeder: cutting a log into bounded batches, resuming from durable cursors, synchronizing a corpus, crashes |
| `LiveDrain` | notifications, the serial job queue and the drain of the feeder |
| `Views`, `ViewTheorems`, `ViewLifecycle` | materialized views: class `ViewStore`, partition mutations and lifecycle, increments against rebuilds |
| `Reconciler`, `ReconcilerEffects` | the source of a view: subscribe, list, reconcile, catch up, activate, follow |
| `Scan`, `Fusion`, `Pipelines`, `RankOrder` | both versions of the search pipeline, and what the ranks decide |
| `History`, `HistorySelector`, `HistoryWindow` | the history selector and its window of events |
| `Markdown`, `Projection`, `Cutoffs`, `LineGrammar` | the README projection and its fence scanner |
| `Framing` | newline framing of server and client |
| `Supervisor` | the runtime that keeps one source attached |
| `Snippet` | the snippet window around a match |
| `Texts`, `SortedTexts`, `Sorting`, `Wrappers` | bytes in order, canonical lists, sorting, option and result |

Code that updates state in one call is a class or a method proved against a specification function;
the theorems are then about that function. Code whose steps interleave (threads in the daemon,
stretches between two awaits in the clients) is a transition relation over values, and the theorems
are about its runs. Wall-clock time is an event that may happen at any moment. SHA-256 digests are
free constructors, so equal digests have equal inputs. The measured sizes of serialized documents and
rows, the directory of a path, the exclusion of a path and the handler of a received line are
parameters, so every statement holds for all of them. Scores of the rank fusion are exact rationals.

## What the code does not keep

Where a promise turned out not to hold of the code, the code is modelled as it is.

- The runtime can report ready with unvalidated capabilities: an outage reported while the new source
  starts clears the flag, and the restart does not set it again (`Supervisor.ReadyWithoutValidation`).
  It happens exactly when an event after the last validation marks an outage
  (`Supervisor.ReadyMeansAttached`), and lasts until an outage, another binding, a restart or the end
  (`Supervisor.UnvalidatedLasts`).
- The cut of a log passes its byte limit, or begins with an empty chunk, exactly when some event
  leaves no room for its separator and the two brackets (`Chunking.CleanCutExactly`,
  `Chunking.TightDocument`).
- Trimming reopens a fence exactly when the last line that is not blank opens one once its trailing
  white space is gone (`Markdown.TrimmingExactly`), which takes a line terminator other than LF and CRLF
  (`Markdown.ReopeningHoldsTerminator`, `Markdown.TrimmingCanOpen`). The projection of such a text can
  leave a fence open (`Projection.ProjectionCanStayOpen`), and does exactly then
  (`Projection.ProjectedOpensExactly`); for all other texts it is closed (`Projection.ProjectedIsClosed`).
- The final budget check of the projection can fail (`Projection.BudgetCanBeExceeded`), but only for
  budgets that leave fewer than twelve code points beside the marker, and exactly when one fence
  swallows the excerpt (`Projection.ProjectedFits`).
- A delta can be refused although the rows it leads to are acceptable, as when two rows trade
  coordinates (`ViewTheorems.TradingPlacesIsRefused`): upserts are placed one by one, and a delta is
  accepted exactly when each has a place at its turn (`ViewTheorems.DeltaExactly`).
- A comment at lines 428-429 of `src/session-index-dsh-source.mjs` says that no await separates the
  observation of an empty queue from going live. The call that observes it is itself awaited, so
  notifications can arrive in between; the test of the buffer right after going live is what catches
  them, and the model lets events happen there.
- The duplicate check at line 280 of `src/dsh-alpha4-view-source.mjs` tests the value of `Set.add`,
  which is always true, so listed records may repeat a session. The model allows that.

## Model

| member | source | states |
|---|---|---|
| `RuntimeSafety.RunInv` | crates/session-indexd/src/runtime.rs:365-591 | the one inductive invariant of registry, queue, controls, handles, connection owners and event log holds in every state of every interleaving of submitting calls, workers, view callers and cancellers |
| `RuntimeSafety.InterruptsReachTheirTarget` | crates/session-indexd/src/runtime.rs:570-577 | every interrupt ever delivered reached a connection that was at that instant serving the very request that was cancelled |
| `RuntimeSafety.HandlesNameTheServingConnection` | crates/session-indexd/src/runtime.rs:113-143 | a published interrupt handle names the reader connection (or view mutex) that serves its request right now |
| `RuntimeSafety.IdleConnectionsAreQuiet` | crates/session-indexd/src/runtime.rs:713-746 | no request owns the connection of a worker that takes its next job; an interrupt pending on it ends with the request that it served, which stands for the reset that SQLite makes and not for a line of this code |
| `RuntimeSafety.AtMostOneCompletion` | crates/session-indexd/src/runtime.rs:103-109 | no two completions are ever sent for one request |
| `RuntimeSafety.QueuedMeansNeverSearched` | crates/session-indexd/src/runtime.rs:552-569 | a cancel answered `Queued` belongs to a request that never enters a search and whose one answer is that of its stored reason |
| `RuntimeSafety.FallbacksAreUnreachable` | crates/session-indexd/src/runtime.rs:93-101 | the "no cancellation reason" answer is never given, and no interrupted search is reported as a plain response |
| `RuntimeSafety.StepEvolves` | crates/session-indexd/src/runtime.rs:537-551 | a step never takes back a reason, a claim, an answer or a terminal phase |
| `RuntimeSafety.FirstReasonStands` | crates/session-indexd/src/runtime.rs:538-543 | along a run the first cancel reason, the one claimant and the one answer of a request never change |
| `RuntimeSafety.RegistryIsHeld` | crates/session-indexd/src/runtime.rs:462-490 | the registry stays within readers plus queue capacity, maps each id to a control of that id, and each entry has a thread inside the call or job that will remove it |
| `RuntimeSafety.QuiescentRegistryIsEmpty` | crates/session-indexd/src/runtime.rs:690-707 | once no thread is inside a call or a job the registry is empty: entries cannot leak |
| `RuntimeSafety.RemovalIsExact` | crates/session-indexd/src/runtime.rs:583-591 | a step removes an entry only on behalf of the control stored in it, and never replaces one, so a finished request cannot evict a later one that reuses its id |
| `RuntimeAnswers.ReasonDecidesTheAnswer` | crates/session-indexd/src/runtime.rs:747-753 | once a search request has a reason that nobody has read yet, its worker still before reading it included, every later answer is the error of that reason and never a response |
| `RuntimeAnswers.ViewCallsAreToldTheReason` | crates/session-indexd/src/runtime.rs:413-426 | from the moment a view request has a reason, its call returns the error of that reason and nothing else |
| `RuntimeAnswers.AnswersAreExplained` | crates/session-indexd/src/runtime.rs:491-517 | a search call returns the completion sent to it, or the deadline error once that has passed; a view call its result or an error that its reason or passed deadline explains; "cancelled" is for a reason of a caller or a disconnect alone |
| `RuntimeAnswers.CancelAnswersMean` | crates/session-indexd/src/runtime.rs:552-580 | queued: the cancel itself took and answered the request; active: a worker or a view call has it; terminal: it is over; in each case it carries a reason and a time of cancellation |
| `RuntimeAnswers.NoCancelIsLost` | crates/session-indexd/src/runtime.rs:716-726 | when a cancel was answered active, a search of that request under way runs on a published connection with an interrupt pending: the flag is looked at after the handle is published, so the race between the two is closed |
| `RuntimeAnswers.ReasonsComeFromCancels` | crates/session-indexd/src/runtime.rs:537-543 | only a cancel of the request sets its reason: that of a client, or the deadline once passed where a submitting call or a worker cancels |
| `RuntimeAnswers.ExpiredJobsAreCancelled` | crates/session-indexd/src/runtime.rs:690-695 | a job past its deadline when a worker takes it is not served: until ready for another, the worker does nothing but cancel it for its deadline |
| `RuntimeAnswers.CancelledViewsDoNotBegin` | crates/session-index-core/src/view_platform/mod.rs:748-763 | a view query that is cancelled or past its deadline before its search never begins it |
| `RuntimeAnswers.AdmissionExactly` | crates/session-indexd/src/runtime.rs:462-473 | a call is admitted exactly when its id is free and the registry has room, and is then registered; a refused one leaves no trace |
| `RuntimeAnswers.QueueingExactly` | crates/session-indexd/src/runtime.rs:479-489 | a search is queued exactly when the queue has room, and is rejected by its call otherwise |
| `RuntimeAnswers.QueueIsFifo` | crates/session-indexd/src/runtime.rs:479-489 | along a run the queue only grows at its end and shrinks at its front |
| `RuntimeAnswers.RetirementsFollowCancels` | crates/session-indexd/src/runtime.rs:759-772 | a worker gives up its connection, or ends, only behind a request that was cancelled |
| `Ingest.SessionIndex.ValidateDocuments` | crates/session-index-core/src/lib.rs:975-993 | one pass that remembers the last number of each session accepts exactly the lists whose documents are valid and count up by one between neighbours of a session |
| `Ingest.SessionIndex.ReplayReceipt` | crates/session-index-core/src/lib.rs:827-868 | the stored receipt for an exact repetition, a conflict for another batch under its key, nothing for a new key |
| `Ingest.SessionIndex.IngestDocuments` | crates/session-index-core/src/lib.rs:560-611 | the document loop computes the fold that the theorems below are about, the first refused document deciding the answer |
| `Ingest.SessionIndex.ApplyBatch` | crates/session-index-core/src/lib.rs:542-643 | one call takes the whole tables, generation, watermark and batch log to the state and answer of the specification |
| `IngestTheorems.VerdictExactly` | crates/session-index-core/src/lib.rs:563-611 | exactly when a document is a foreign workspace, a gap (naming the number of stored documents as expected), a conflict, a replay, out of range or inserted, in terms of the documents stored |
| `IngestTheorems.AcceptedIsStored` | crates/session-index-core/src/lib.rs:886-907 | after an accepted call each of its documents is found at its place with its own time, type, surface, workspace, body, fingerprint, revision and set of tokens, and a new call adds nothing else |
| `IngestTheorems.ReplayExactly` | crates/session-index-core/src/lib.rs:928-950 | a document is a replay exactly when the row at its place agrees with it in every one of these, and a conflict exactly when the row differs in one |
| `IngestTheorems.OneRowOneDocument` | crates/session-index-core/src/lib.rs:928-950 | two documents that match one stored row agree in all fields and in their sets of tokens |
| `IngestTheorems.StoredRowsAreWithinLimits` | crates/session-index-core/src/lib.rs:995-1026 | after any history every stored row is within the limits of its fields, with one to sixteen tokens |
| `IngestTheorems.LateExactly` | crates/session-index-core/src/lib.rs:552-558 | a valid batch under a new key is too late exactly when an accepted batch has its watermark or a later one, and the answer names the latest accepted watermark |
| `IngestTheorems.ReachableInv` | crates/session-index-core/src/lib.rs:886-950 | after any history of calls: documents of a session are exactly 0..next-1 in one workspace with the last revision as header, generation is the number of batches, watermarks rise, keys are distinct, and the document count is the sum of inserted counts |
| `IngestTheorems.ApplyKeepsInv` | crates/session-index-core/src/lib.rs:542-643 | one call keeps that invariant, never meets a uniqueness violation, and changes or loses nothing stored before |
| `IngestTheorems.ReplayAtAnyLaterTime` | crates/session-index-core/src/lib.rs:827-868 | an accepted batch sent again after any further calls returns its original generation and counts and changes nothing |
| `IngestTheorems.KeyIsTakenExactly` | crates/session-index-core/src/lib.rs:827-868 | under the key of an accepted batch, at any later time, another batch gets the original receipt exactly when payload, watermark and number of documents are the same and each document agrees with the stored row; otherwise a conflict |
| `IngestTheorems.SplitIndependence` | crates/session-index-core/src/lib.rs:975-991 | every cut of an accepted document list into non-empty batches with fresh keys and rising watermarks is accepted part by part and stores the same sessions and documents |
| `IngestTheorems.DisjointSessionsCommute` | crates/session-index-core/src/lib.rs:561-611 | document lists of disjoint sessions are accepted independently of one another and give the same tables and counts in both orders |
| `IngestTheorems.DisjointBatchesCommute` | crates/session-index-core/src/lib.rs:561-643 | two accepted batches on disjoint sessions leave the same tables in either order |
| `SortedTexts.CanonicalExactly` | crates/session-index-core/src/lib.rs:1042-1054 | the stored scope-term strings of two documents are equal exactly when their token sets are |
| `Chunking.ChunkDocuments` | src/session-index-dsh-source.mjs:1453-1470 | fails exactly when some event alone exceeds the byte limit; otherwise returns the greedy cut, whose chunks end only where the next event would not have fitted |
| `Chunking.GreedyCutIsUnique` | src/session-index-dsh-source.mjs:1460-1468 | the limits alone determine the cut |
| `Chunking.CleanCutExactly` | src/session-index-dsh-source.mjs:1456-1466 | no chunk is empty and all are within the byte limit if and only if every event leaves room for its separator and the two brackets |
| `Chunking.TightDocument` | src/session-index-dsh-source.mjs:1458-1462 | an event of one byte less than the limit is accepted after an empty chunk and over the limit |
| `FeederSync.Client.Commit` | src/session-index-dsh-source.mjs:510-531 | one chunk becomes one batch under the next watermark and its digests; the empty chunk is skipped |
| `FeederSync.Client.SyncSession` | src/session-index-dsh-source.mjs:463-508 | reads the plan from cursor and log, and sends exactly the greedy cut of the suffix, stopping at the first failure |
| `FeederSync.Client.SyncCorpus` | src/session-index-dsh-source.mjs:408-432 | over distinct sessions whose logs extend what is stored: on success every log is stored whole, nothing is replayed, no other session is touched, and nothing is sent when every cursor is at its end |
| `FeederSync.ShortcutAgrees` | src/session-index-dsh-source.mjs:1294-1343 | the shortcut by the production snapshot decides what projecting the whole log would have decided |
| `FeederSync.UnprojectableExactly` | src/session-index-dsh-source.mjs:463-498 | a log that cannot be projected sends nothing; each of its answers is characterised by cursor and snapshot, and it succeeds exactly where the snapshot states the stored count and workspace |
| `Feeder.ChunkIsCommitted` | src/session-index-dsh-source.mjs:510-531 | the next events of a stored prefix are accepted as a new batch with zero replays, other sessions untouched |
| `Feeder.ChunksAreCommitted` | src/session-index-dsh-source.mjs:500-507 | at every point between chunks the session is stored exactly up to the last committed event, until the watermarks run out |
| `Feeder.GenerationBelowWatermark` | crates/session-index-core/src/lib.rs:613-622 | the generation never passes the watermark, so a single writer cannot exhaust generations first |
| `FeederSync.SyncResumes` | src/session-index-dsh-source.mjs:463-508 | from any stored prefix a synchronization stores the whole log or stops at a longer prefix with an oversized event or exhausted watermarks as the only reasons; an equal cursor sends nothing |
| `FeederSync.CrashIsResumable` | src/session-index-dsh-source.mjs:500-507 | what any number of sent chunks leaves behind can be resumed by a new client |
| `FeederSync.CrashThenResume` | src/session-index-dsh-source.mjs:463-508 | a feed that crashes after any number of chunks and resumes under any limits ends with the same sessions and documents as one that never crashed |
| `LiveDrain.LiveMeansScheduled` | src/session-index-dsh-source.mjs:381-392 | while the source is active and live with a session buffered, a drain is queued or in progress |
| `LiveDrain.EveryNotificationIsRead` | src/session-index-dsh-source.mjs:357-448 | whenever an active live source has nothing queued or running, every notification it accepted was followed by a read of its session begun later, or the source left in between |
| `LiveDrain.StepKeepsInv` | src/session-index-dsh-source.mjs:394-432 | every stretch of code between two awaits keeps the drain flag, the queue, the buffer and the owed reads in step |
| `LiveDrain.LiveMeansEveryoneRead` | src/session-index-dsh-source.mjs:408-432 | whenever the source goes live, every session that its last corpus sync listed has been read |
| `LiveDrain.ClosedReadsNothing` | src/session-index-dsh-source.mjs:311-323 | once closed, a source stays closed and begins no read |
| `Views.ViewStore.InsertRows` | crates/session-index-core/src/view_platform/conversation.rs:317-365 | the insert loop is the fold of the upsert that updates a key of the same partition and refuses another one or a taken coordinate |
| `Views.ViewStore.DeleteKeys` | crates/session-index-core/src/view_platform/conversation.rs:193-198 | removes exactly the listed keys of the partition |
| `Views.ViewStore.Handle` | crates/session-index-core/src/view_platform/conversation.rs:167-214 | the handler part of a mutation, with the provisional parent that a replacement installs first |
| `Views.ViewStore.ApplyMutation` | crates/session-index-core/src/view_platform/mod.rs:537-656 | one mutation takes state row, checkpoints and rows to the state and receipt of the specification, publishing nothing on any failure |
| `Views.ViewStore.Step` | crates/session-index-core/src/view_platform/mod.rs:658-702 | a lifecycle step changes the state row alone and takes a generation |
| `ViewLifecycle.CallLeaves` | crates/session-index-core/src/view_platform/mod.rs:658-690 | an accepted lifecycle step leaves the requested state, fence and lag under the next generation and all rows and checkpoints; an accepted mutation leaves the state alone; a refused call leaves everything |
| `ViewLifecycle.StateRowAfterHistory` | crates/session-index-core/src/view_platform/mod.rs:658-690 | after any history the state is that of the last accepted lifecycle step, or building if there was none; fence and lag are those of the last accepted call; the generation counts the accepted calls |
| `ViewLifecycle.ReceiptsShowTheStore` | crates/session-index-core/src/view_platform/mod.rs:634-656 | a receipt shows the stored state and generation, and of a mutation its partition with the cursor and stamp that its checkpoint then has |
| `ViewLifecycle.AffectedRowsCount` | crates/session-index-core/src/view_platform/conversation.rs:205-214 | deleting a partition counts the rows it had, the other mutations count what they were given |
| `ViewLifecycle.StoredRowsAreWithinLimits` | crates/session-index-core/src/view_platform/conversation.rs:366-420 | after any history every stored row is within the limits of its fields and of the session of its partition |
| `ViewLifecycle.AcceptedIsBounded` | crates/session-index-core/src/view_platform/mod.rs:1016-1060 | an accepted mutation brings at most 1,024 rows of one mebibyte in all and at most 1,024 deletions |
| `ViewTheorems.RowsAfter` | crates/session-index-core/src/view_platform/conversation.rs:167-214 | key by key what a mutation leaves: the newest row given for the key, nothing where it was deleted, else what was there |
| `ViewTheorems.EveryHistoryKeepsInv` | crates/session-index-core/src/view_platform/mod.rs:969-985 | after any history each row has exactly one existing parent, the partition of its session, coordinates are unique, and partition stamps are positive, distinct and at most the view generation |
| `ViewTheorems.ProvisionalNeverSurvives` | crates/session-index-core/src/view_platform/conversation.rs:304-315 | no reachable store holds a provisional checkpoint |
| `ViewTheorems.OtherPartitionsUntouched` | crates/session-index-core/src/view_platform/conversation.rs:324-363 | a mutation leaves rows and checkpoint of every other partition alone |
| `ViewTheorems.ReplaceExactly` | crates/session-index-core/src/view_platform/conversation.rs:167-184 | a replacement with distinct keys is accepted if and only if it is within bounds, its rows are valid, no key is foreign and no sequence number repeats, whatever the partition held |
| `ViewTheorems.DeltaExactly` | crates/session-index-core/src/view_platform/conversation.rs:186-203 | a delta is accepted if and only if it is within bounds, sits at the expected place of the same source without moving back, and each upsert at its turn is valid, has a key of no other partition, and a sequence number that no row then present holds, said of the stored rows and the list of upserts |
| `ViewTheorems.TradingPlacesIsRefused` | crates/session-index-core/src/view_platform/conversation.rs:199-201 | hence the order of upserts matters: two rows trading places are refused as a delta though they could replace the partition |
| `ViewTheorems.DeltaIsReplace` | crates/session-index-core/src/view_platform/mod.rs:571-601 | an accepted delta leaves exactly the store that replacing the partition by its resulting rows, in any order, leaves |
| `ViewTheorems.RebuildEqualsHistory` | crates/session-index-core/src/view_platform/mod.rs:537-656 | whatever history led to a view, one replacement a partition, in any order of partitions and rows, builds the same rows and source places from an empty store |
| `Reconciler.ReadyMeansReconciled` | src/dsh-alpha4-view-source.mjs:99-121 | ready is sent only once every listed record was skipped on an exact identity, revision and cursor match or its partition replaced, with no change buffered at that instant |
| `Reconciler.LastDeliveredIsLastReconciled` | src/dsh-alpha4-view-source.mjs:59-74 | at rest, unless failed or closed, the last change delivered for a session is the last one reconciled, also when delivered during activation |
| `ReconcilerEffects.LastEffectMatches` | src/dsh-alpha4-view-source.mjs:171-196 | at rest, unless failed or closed, the last change delivered for a session was settled by a later event that sent the replacement of its partition, or for a deletion its removal unless it was found missing, and nothing that changes the partition was sent after |
| `ReconcilerEffects.FailureIsDeclared` | src/dsh-alpha4-view-source.mjs:253-260 | whenever a start or a live reconciliation has failed and the source is not closed, the last thing sent is the declaration of the failure |
| `ReconcilerEffects.ClosedDeclaresNothing` | src/dsh-alpha4-view-source.mjs:240-260 | from the call of close on the source is closed, accepts no change and declares no failure, so the last committed build stays |
| `Reconciler.NoMutationAfterFailure` | src/dsh-alpha4-view-source.mjs:253-260 | after a failed live reconciliation no partition mutation is sent any more |
| `Reconciler.ActivationRun` | src/dsh-alpha4-view-source.mjs:115-126 | a run in which a change arrives while the view is being activated and is reconciled after |
| `Scan.SearchOneLiteral` | crates/session-index-core/src/search.rs:317-359 | ranks the first row of each session among the rows read, which is the prefix of the requested depth, and stops as exhausted exactly when fewer rows than the budget match and fewer sessions than the depth occur |
| `Scan.SearchLiteral` | crates/session-index-core/src/view_platform/conversation.rs:463-490 | the second version of the scan ranks the same rows at its fixed depth |
| `Scan.UntruncatedIsComplete` | crates/session-index-core/src/search.rs:353-356 | an untruncated scan has every matching session, at its first row |
| `Scan.FirstsAreFirst` | crates/session-index-core/src/search.rs:326-343 | each ranked row is the first row of its session |
| `Fusion.FuseSources` | crates/session-index-core/src/search.rs:409-453 | the fused list is the top of all sessions by score and then id, with the score and contributions of each session in source order and the truncation flag |
| `Fusion.TopIsUnique` | crates/session-index-core/src/search.rs:435-441 | there is only one list of the k best |
| `Pipelines.ScansContributeOnce` | crates/session-index-core/src/search.rs:411-431 | each source contributes at most once to a session |
| `Pipelines.OneContribution` | crates/session-index-core/src/search.rs:413-421 | a source that ranks no session twice contributes to each once, by the rank of its one hit |
| `Pipelines.SearchBatch` | crates/session-index-core/src/search.rs:201-226 | the session-index pipeline from row streams to answer |
| `Pipelines.FuseConversation` | crates/session-index-core/src/view_platform/conversation.rs:243-260 | each session is held with its score, the literals that matched and a best piece of evidence |
| `Pipelines.ExecuteConversation` | crates/session-index-core/src/view_platform/conversation.rs:234-291 | the conversation pipeline: the same top list, with the literals that matched and a best piece of evidence |
| `Pipelines.PipelinesAgree` | crates/session-index-core/src/view_platform/conversation.rs:243-270 | on the same row streams, at the depth of the view and equal limits, both pipelines give the same sessions, order, scores and truncation |
| `RankOrder.ScoresAreReciprocals` | crates/session-index-core/src/search.rs:411-431 | the score of an answered session is the sum, over the parts listed with it, of numbers whose product with 60 plus the rank of the part is one |
| `RankOrder.OneLiteralKeepsScanOrder` | crates/session-index-core/src/search.rs:435-441 | for one literal the session index answers with the sessions in the order of the scan, up to the limit |
| `RankOrder.OneLiteralKeepsScanOrderInView` | crates/session-index-core/src/view_platform/conversation.rs:261-270 | so does the conversation view |
| `RankOrder.DominantComesFirst` | crates/session-index-core/src/search.rs:435-441 | a session that another one is ranked no worse than by every scan, and better than by one, comes after it in the answer and is never there without it |
| `RankOrder.DominantComesFirstInView` | crates/session-index-core/src/view_platform/conversation.rs:261-270 | so it does in the conversation view |
| `RankOrder.AnswerIsOrdered` | crates/session-index-core/src/search.rs:436-441 | sessions are listed by falling score, equal scores by the smaller id |
| `RankOrder.ViewAnswerExplained` | crates/session-index-core/src/view_platform/conversation.rs:246-260 | an answer of the view names exactly the literals whose scans rank the session, and as evidence the hit of the smallest rank, then earliest literal, then smallest sequence number |
| `Pipelines.DocumentKeyIsInjective` | crates/session-index-core/src/search.rs:401-407 | the document key is unambiguous whatever separators ids and fingerprints contain |
| `HistoryWindow.RetainEligibleEvents` | src/history-shadow.mjs:175-274 | too many tracked files, an unsafe one, or the first change that cannot be looked at while the window has room, each by its name; otherwise the newest 200 retainable events among the newest 400 and the count of every reason for omission |
| `HistoryWindow.Classify` | src/history-shadow.mjs:214-249 | one change fails, is omitted for one reason, or is retained with its surviving paths |
| `HistoryWindow.VerdictExactly` | src/history-shadow.mjs:214-249 | empty, no tracked path, only excluded ones, too many eligible ones, or retained as the set of these: each exactly when, in terms of the sets of paths |
| `HistoryWindow.OmissionsAreCounted` | src/history-shadow.mjs:203-251 | each counter is the number of changes left out for its reason |
| `HistoryWindow.EveryChangeIsCounted` | src/history-shadow.mjs:203-251 | every scanned change is retained or counted under exactly one reason |
| `HistoryWindow.WindowIsGood` | src/history-shadow.mjs:225-250 | retained events hold no path twice, at least one and at most a hundred paths, all tracked and none excluded |
| `HistoryWindow.WindowPathsAreSafe` | src/history-shadow.mjs:121-129 | the paths of a retained window are not empty, have at most 4,096 bytes and hold no NUL, as the pair keys need |
| `HistoryWindow.SelectFromHistory` | src/history-shadow.mjs:657-673 | retention decides the window from tracked files and changes, and on it the selector picks from the brute-force ranking without any assumption on the events |
| `History.CountPairEvents` | src/history-shadow.mjs:293-313 | one pass computes the direct counts of a pair |
| `History.OpportunitiesAddUp` | src/history-shadow.mjs:299-305 | opportunities are left plus right less shared |
| `History.BandsPartition` | src/history-shadow.mjs:284-291 | the three bands cover the scoped events in order, are thirds of them but for one event, and their counts sum to the totals |
| `History.UnrelatedEventsDoNotMatter` | src/history-shadow.mjs:315-320 | inserting an event that touches neither path leaves the pair-relative statistics and the shared count unchanged |
| `History.PrefilterIsSafe` | src/history-shadow.mjs:416-419 | the minimum support drops no pair that clears the gates |
| `History.GatesExactly` | src/history-shadow.mjs:344-360 | a candidate clears the gates exactly with twelve opportunities, six shared events, accompaniment of three fifths, overlap of three tenths, and a shared event in each band |
| `History.GatesAtTheirBounds` | src/history-shadow.mjs:44-52 | each gate is met at its bound and missed one event below it |
| `History.ScopeIsOldestFirst` | src/history-shadow.mjs:315-320 | the scope runs from oldest to newest: the window reversed, or the newest twenty-four events that touch either path, reversed |
| `History.PrecedesIsStrict` | src/history-shadow.mjs:362-381 | the candidate comparison, with its two cross-multiplied fractions, is a strict order for positive denominators, total but for candidates of the same pair |
| `HistorySelector.SupportIsShared` | src/history-shadow.mjs:390-413 | the support counted incrementally over sorted paths is the direct shared count |
| `HistorySelector.SelectScopeCandidates` | src/history-shadow.mjs:384-437 | abstains exactly above the observation limit, and otherwise, on duplicate-free events, picks from the ranking of exactly the pairs that clear the gates directly |
| `HistorySelector.RankingIsUnique` | src/history-shadow.mjs:421-421 | the ranking does not depend on the order in which pairs were found |
| `HistorySelector.PicksAreDisjoint` | src/history-shadow.mjs:423-430 | at most four picks, pairwise without a common path |
| `HistorySelector.PassedOver` | src/history-shadow.mjs:425-430 | a candidate is passed over only for a better pick that shares a path with it or after four better picks |
| `HistorySelector.PairKeyIsInjective` | src/history-shadow.mjs:280-282 | pair keys of NUL-free paths are unambiguous |
| `Projection.MarkdownBoundaries` | src/index.mjs:98-142 | one scan finds the section, block and line boundaries outside fences, and the fence left open |
| `Projection.CutoffIsSafe` | src/index.mjs:144-148 | the chosen cutoff lies right after a line feed with no fence open before it |
| `Cutoffs.CutoffExactly` | src/index.mjs:205-212 | the latest section start with something before it is the cutoff, else the latest such end of a block, else of a line, and else there is none |
| `LineGrammar.OpensExactly` | src/index.mjs:87-91 | a line opens a fence exactly when it is up to three spaces, three or more of one fence character, and a rest without line terminators |
| `LineGrammar.ClosesExactly` | src/index.mjs:93-96 | a line closes a fence exactly when it is such a run of its character, at least as long, with blanks behind it |
| `LineGrammar.HeadingExactly` | src/index.mjs:123-124 | a heading is up to three spaces, one to six hashes, and then white space or the end |
| `LineGrammar.ProjectionShape` | src/index.mjs:180-230 | a short text is injected as it is; of a longer one an excerpt and the marker behind a blank line; unless a fence swallows it, the excerpt is the text up to the cutoff, or all that the budget leaves, less the white space at its end |
| `Projection.FencedBlockFallback` | src/index.mjs:155-178 | the wrapper around the longest prefix of the source that fits with each line indented, and the indentation alone where nothing more of a line fits |
| `Projection.FallbackFits` | src/index.mjs:155-178 | the wrapped excerpt is closed once trimmed and fits its budget, or is the bare wrapper of 13 code points |
| `LineGrammar.FallbackShape` | src/index.mjs:155-178 | the wrapped excerpt stands between three of the fence character that the source does not use |
| `Projection.ProjectIndex` | src/index.mjs:187-230 | the whole text, the text cut at its cutoff, the wrapped excerpt or the plain prefix, with the marker, or the failure |
| `Projection.ProjectedFits` | src/index.mjs:199-229 | the result fits its budget; there is none if and only if the budget cannot hold the marker, or one fence swallows the excerpt and fewer than 12 code points remain for the bare wrapper |
| `Projection.BudgetCanBeExceeded` | src/index.mjs:226-228 | a text and a budget for which the final check fails |
| `Projection.ProjectedIsClosed` | src/index.mjs:187-230 | the projection of every longer text whose line terminators are LF and CRLF leaves no fence open |
| `Projection.ProjectedOpensExactly` | src/index.mjs:216-225 | for any longer text, a fence is left open if and only if no fence swallows the excerpt and trimming it reopens one |
| `Projection.ProjectionCanStayOpen` | src/index.mjs:220-225 | a text with a line separator and a budget for which the injected text leaves a fence open |
| `Markdown.TrimmingKeepsClosed` | src/index.mjs:180-184 | trimming an ordinary text whose fences are closed leaves them closed |
| `Markdown.TrimmingExactly` | src/index.mjs:180-184 | for any text whose fences are closed, trimming opens one if and only if the last line that is not blank stands outside every fence, opens none as it is, and opens one once trimmed |
| `Markdown.ReopeningHoldsTerminator` | src/index.mjs:87-96 | such a line holds a line separator, a paragraph separator or a carriage return that is not its own CRLF |
| `Markdown.TrimmingCanOpen` | src/index.mjs:87-96 | a text for which it happens |
| `Framing.Reader.ReadBoundedFrame` | crates/session-indexd/src/server.rs:674-719 | however the stream is cut into fills, and with retries, the result and the remaining bytes are those of the next line of the stream |
| `Framing.Reader.DiscardThroughNewline` | crates/session-indexd/src/server.rs:721-753 | skips exactly to the next line or the end |
| `Framing.Reader.ReadFrames` | crates/session-indexd/src/server.rs:347-395 | the frame loop of a connection yields exactly the frames of the stream, up to its end, an unterminated tail or the failure of a read |
| `Framing.FramesAreLines` | crates/session-indexd/src/server.rs:674-719 | repeated reads are splitting at newlines: a frame for each line within the bound, an oversized report for a longer one, an unterminated report for a short tail |
| `Framing.EveryStreamIsLines` | crates/session-indexd/src/server.rs:701-708 | every byte stream is some lines and a tail |
| `Framing.ClientInbox.OnData` | src/session-index-client.mjs:380-414 | a chunk takes the inbox to the state that its bytes behind the buffered ones determine |
| `Framing.ChunkingDoesNotMatter` | src/session-index-client.mjs:380-414 | what the client has delivered, and whether it has ended, depends on the bytes and not on how they were cut |
| `Framing.WalkDeliversLines` | src/session-index-client.mjs:391-413 | lines within the bound whose handling does not end the connection are delivered in order, whatever follows them |
| `Framing.LongLineEnds` | src/session-index-client.mjs:393-408 | from an over-long line on nothing is delivered, whether or not it is finished |
| `Framing.HandlerEnds` | src/session-index-client.mjs:409-412 | a handler that ends the connection at a line has been given that line and none after it |
| `Framing.ResponsesArrive` | crates/session-indexd/src/server.rs:755-774 | what the server writes the client receives, response by response, however the bytes are cut, as long as handling them does not end the connection |
| `Supervisor.OneSourceAtATime` | src/session-index-runtime.mjs:335-370 | a source is created only when the close of every source created before has settled |
| `Supervisor.ReadyMeansAttached` | src/session-index-runtime.mjs:378-385 | ready means a current binding and a source made for it; capabilities count as validated if and only if no event since the last validation marked an outage |
| `Supervisor.ReadyWithoutValidation` | src/session-index-runtime.mjs:419-426 | a run in which an outage reported while the source starts ends ready with unvalidated capabilities |
| `Supervisor.UnvalidatedLasts` | src/session-index-runtime.mjs:402-417 | that state lasts until an outage, another binding, a restart or the end: no probe of the monitor mends it |
| `Supervisor.DelaysAreBounded` | src/session-index-runtime.mjs:428-435 | retry delays start at the initial value and double up to the maximum until a success; an armed timer is immediate, that of the monitor, or waits for the last of these delays |
| `Supervisor.OutageArmsTheDelay` | src/session-index-runtime.mjs:419-435 | an outage that is noted leaves the runtime unready and arms the timer with one more delay |
| `Supervisor.FailureArmsTheDelay` | src/session-index-runtime.mjs:387-400 | a restart that fails for the current binding has closed its source and arms the timer with one more delay |
| `Supervisor.SuccessArmsTheMonitor` | src/session-index-runtime.mjs:365-385 | a restart that succeeds, or a good health check, arms the timer of the monitor |
| `Supervisor.UnboundIsQuiet` | src/session-index-runtime.mjs:313-333 | an unbound or disposed runtime has no source, no timer and no readiness |
| `Supervisor.NeverStranded` | src/session-index-runtime.mjs:299-308 | a bound runtime that is not ready always has a timer armed or a restart under way |
| `Snippet.CenteredSnippet` | src/session-index-dsh-source.mjs:1098-1146 | the snippet fits 320 units and 1280 bytes with its ellipses, holds the whole match whenever the match alone would fit, begins at the middle of the match otherwise, cannot be widened by a code point on either side, and was grown towards the side with less context |
| `Snippet.Widen` | src/session-index-dsh-source.mjs:1132-1143 | the growing loop terminates with a window that contains the start, cannot grow, and went past its start on one side only while that side had less context or the other was blocked |

## Left out

- Feeder.ChunksAreCommitted: one writer is assumed, as the feeder is deployed; with a second writer on the same index the engine refuses late watermarks and the feeder stops.
- FeederSync.Client.SyncCorpus: durable states are read in one step instead of in requests of 32 sessions; what a read returns does not depend on how it is divided.
- HistorySelector.SelectScopeCandidates: equality with the direct ranking is stated for events without duplicate paths, which is what the window produces; counting also covers other events.
- Views.ViewStore.ApplyMutation: rows arrive typed, so malformed JSON rows and the choice of the view by identity are not modelled; a size for each row stands for its serialization.
- RuntimeSafety.RunInv: disconnected channels, poisoned locks, the counters of active and peak readers and the forced retirements of tests are not part of the protocol; the steps of all threads are interleaved sequentially, while the source orders its atomics by acquire and release only; an interrupt is pending on a connection until its request releases it.
- LiveDrain.EveryNotificationIsRead: the order of sessions inside one snapshot of the buffer is arbitrary, and the read of durable states before a chunk is not a step of its own.
- Supervisor.OneSourceAtATime: the injected factory is taken to return a source with a close function.
- Framing.ChunkingDoesNotMatter: whether handling a line ends the connection is a function of the lines delivered so far; that a request may be issued between two chunks, which decides whether a further line finds one pending, is not modelled.
- Framing.Reader.ReadFrames: dispatching a frame and writing its response are not part of the loop, so neither a failed write nor a shutdown request ends it.
- Framing.Reader.ReadBoundedFrame: the process-wide shutdown flag, which ends reading early, is not modelled.
- SQLite itself (full-text matching, ranking scores, journal, pragmas, schema checks): a transaction is atomic, keys and uniqueness hold, and matching rows come as an ordered stream.
- Sockets, signals, file permissions, JSON and command-line shapes, telemetry and launcher code.
- Rounding of floating-point scores: both pipelines add the same terms in the same order.
- Git-driven code and the git part of the history selector: changed paths of revisions are given.
- Counters of path touches in the retention audit, and the report around the selector.
- The annotation policy for future use in the history selector, which production does not call.
- Field-by-field validators of the client and of the protocol, and the waiting of queued client calls.
- Grouped snapshot reads and the exact verification of search candidates in the feeder's module.
- The refusal of view queries by lifecycle state and lag, and the exact-range view, which exists for tests.
- Finality of `close` in the reconciler when a client call ignores its abort signal: a start in progress can still overwrite the phase, as in the code.
- Timing records, status snapshots and failure messages.
