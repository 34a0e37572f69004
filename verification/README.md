# mgate-agent: the command to result pipeline, verified

mgate-agent runs on a gateway device. It receives commands from a cloud over a WebSocket (or by
polling), checks them, runs a local program for each accepted one, and must get every result back
to the cloud although connections break and the process may stop at any moment.

This project models the parts that make that work and proves what they guarantee:

* **Outbox** (`Records`, `Directories`, `Draining`, `Retry`, `Outbox`, `OutboxLaws`): result records
  in a directory, written by temporary file and rename, recovered at start-up, bounded in number and
  bytes, with retry times. The directory is a map from file names to contents. Every file operation
  is one step that may fail; the class `Disk` records every state it passes through, so a stop at
  any point is covered, and counts the operations that failed, so every reported failure is tied to
  a real one and a run without faults has to do its work.
* **Dispatcher** (`Dispatcher`, `RetryHistory`, `LatestResult`, `Fates`, `Losses`, `Traces`, `Rounds`):
  any number of threads saving and delivering results, single flight, senders outside all locks,
  restarts between any two steps. `Fates` says what becomes of every saved result and when exactly.
  `Rounds` has the object itself, shows that its rounds are runs of the step machine, and proves how
  many rounds reach every due record.
* **WebSocket queues** (`Outbound`, `Delivery`, `Jobs`, `Pipeline`): the outbound channel with its
  write loop and confirmation channels, tied to the dispatcher; the bounded job queue with its
  workers, tied to the dispatcher from the arrival of a command to the fate of its result.
* **Command gate** (`Dedupe`, `DedupeWindow`, `Actions`, `Commands`): the TTL- and size-bounded memory
  of command ids, argument validation, the timeout rule, and the handler for one call and for any
  number of concurrent calls.
* **Output** (`OutputLimit`, `Redaction`, `Runner`): one byte budget for two streams, redaction of
  text and trees, and how the two combine in a result.
* **Reconnect delays** (`Backoff`), and the shared vocabulary (`Protocol`, `GoStrings`, `Sets`).

Code that updates state in place is modelled by classes and loops proved against specification
functions and predicates; the laws are lemmas about those. Concurrency is modelled by step machines
whose store steps are exactly the specifications the class methods are proved to meet.

Conventions. A `char` is one byte. Instants and durations are nanoseconds, instants counted from the
zero time, durations with their 64-bit wrap-around where the code can overflow. Ties in sorting and
eviction, jitter, map iteration order and I/O failures are nondeterministic.

## What the proofs brought to light

These are properties one might expect and the code does not have. Each comes with an input or a run
that shows the failure and with the exact condition.

* **A pending result can be replaced.** Record ids are not injective: the results of `abc:def` and
  `abc_def` share a file, and so do those of `unknown` and of a result that names no command; a second
  result of one command replaces the first. Runs: `Losses.CollidingCommandsReplaceEachOther`,
  `Losses.UnknownCommandCanBeOverwritten`, `Losses.RepeatedCommandReplacesItsResult`. A save replaces
  a pending result of another command if and only if its record id is listed under another command
  (`OutboxLaws.SaveReplacesExactly`); in a run, a put replaces the one before it if and only if
  nothing removed that one (`Fates.ReplacedExactly`). If no other result is saved, or was pending at
  the start, under its record id, a result is lost to nothing but the limits
  (`Fates.NothingIsLostSilently`).
* **A result can be removed with a delivery of its predecessor.** Whatever is saved after a thread has
  scanned the record and before it deletes it goes with the delete, whether the delivery had started
  or not (runs: `Losses.ResultSavedDuringDeliveryCanBeLost`). The envelope saved last and deleted
  since was delivered after it was saved if and only if the scan came after the save, or the delivery
  ended after the save and carried an equal envelope (`Fates.DeletedEnvelopeWasSentExactly`).
* **Limit enforcement need not end** when oldest records lie in files not named after them
  (`OutboxLaws.MismatchedDirectoryNeedNotDrain`), though it may (`OutboxLaws.MismatchedDirectoryMayDrain`).
  It ends if and only if the directory drains: the limits hold at once, or after dropping oldest
  records from their own files, or after one last removal for an oldest record in a foreign file
  (`Draining.LoopEndsExactly`, without ties `Draining.LoopEndsByDroppingExactly`). Directories in which
  every record lies in its own file always drain, and all operations keep them that way.
* **Recording a failed delivery can push the outbox over its byte limit**
  (`OutboxLaws.MarkCanExceedByteLimit`). No outcome does if and only if every record it may write fits
  in place of the old one (`OutboxLaws.MarkStaysWithinExactly`).
* **The record limit can be exceeded when dropping fails**, or when the process stops between the
  rename and the last drop (run: `Losses.FailedDropExceedsLimit`). By how much: at most by the number
  of saves that did not get their drops done since one did (`Dispatcher.CountStaysBounded`); after
  one such save the count is exactly that of the new listing less the drops made
  (`OutboxLaws.SaveCount`).
* **The truncation flag is also set by an empty write after the budget is used up**
  (`OutputLimit.EmptyWriteSetsTruncated`, exactly when: `OutputLimit.TruncatedExactly`).
* **A `timeout_sec` too large for a duration wraps around and is accepted** instead of refused
  (`Actions.OverlongTimeoutIsAccepted`, exactly when: `Actions.TimeoutRuleHoldsExactly`); the
  effective timeout is still within the action's.
* **The reconnect delay follows the capped-doubling law** if and only if the cap is below 2^62 ns
  (`Backoff.LawBreaksAbove`, `Backoff.LawHoldsExactly`).
* **The outbox changes rejections**, which do not pass through the runner's redaction, if and only if
  their text contains a sensitive word (`Commands.QuotedActionIsChanged`,
  `Commands.RejectionIsStoredAsIsExactly`), **and `null` payloads**, which become empty objects
  (`Records.NullPayloadIsChanged`). Exactly which payloads it leaves alone: `Records.PersistingPayloadExactly`.

## Model

| member | source | states |
|---|---|---|
| `Outbox.Store.constructor` | internal/outbox/store.go:44-55 | given positive limits are kept, others become 100 records and 5 MiB |
| `Outbox.NewStore` | internal/outbox/store.go:40-60 | refused without a directory name, and otherwise only after a disk fault; without a fault the directory is the recovered one; no listed record changes either way |
| `Outbox.Store.Load` | internal/outbox/store.go:62-97 | a failure is a disk fault and changes nothing; if no operation failed the directory becomes the recovered one; no state on the way lists anything else than before |
| `Outbox.Store.LoadEntry` | internal/outbox/store.go:73-95 | if no operation failed, a temporary is gone, an invalid record file moved aside, nothing else touched; the listing never changes |
| `Outbox.Store.WriteRecordAtomic` | internal/outbox/store.go:201-229 | success is exactly the atomic replacement, failure exactly a disk fault; failure and every intermediate state differ from before in the temporary only |
| `Outbox.Store.List` | internal/outbox/store.go:246-266 | for every directory: exactly the listed files, each once, in creation order; an error exactly for a disk fault |
| `Outbox.InsertByAge` | internal/outbox/store.go:262-264 | the record is inserted at one position, all others keep their order, and the scan stays sorted by creation time |
| `Outbox.Store.Due` | internal/outbox/store.go:129-146 | the first `limit` due records of a scan in creation order, all of them if the limit is not positive; an error exactly for a disk fault |
| `Outbox.TakeDue` | internal/outbox/store.go:136-145 | the filtering loop with its early exit is take-of-filter |
| `Outbox.Store.Snapshot` | internal/outbox/store.go:294-307 | the scan together with the sum, over its records, of the sizes of the files named after them; an error exactly for a disk fault |
| `Outbox.Store.EnforceLimits` | internal/outbox/store.go:268-292 | ends on every directory that drains; drops oldest records and only while a limit is exceeded; both limits hold unless an operation failed; every state on the way is the start with a first part of the drops done |
| `Draining.LoopEndsExactly` | internal/outbox/store.go:268-292 | for every directory and every choice among equally old records: there is no endless run of the loop if and only if the directory drains |
| `Draining.TurnIsADrop` | internal/outbox/store.go:280-283 | the turns of this loop are exactly the drops the store makes |
| `Draining.LoopEndsByDroppingExactly` | internal/outbox/store.go:268-292 | for distinct creation times: it ends if and only if the limits hold at some point while dropping oldest records from their own files, or after one more removal for the first one in a foreign file |
| `Draining.ForeignStays` | internal/outbox/store.go:280-283 | an oldest record in a foreign file survives its own removal, stays oldest, and a second removal changes nothing |
| `Draining.MatchedDrains` | internal/outbox/store.go:268-292 | a directory in which every record lies in its own file always drains |
| `Outbox.Store.Save` | internal/outbox/store.go:99-127 | wherever limit enforcement ends, all outcomes: refused without a trace, failed exactly for a disk fault and with at most a stray temporary or with drops left undone, or put in place with retry state kept and oldest records dropped until the limits hold; the possible crash states; matched names stay matched |
| `Outbox.Store.Install` | internal/outbox/store.go:114-126 | write followed by limit enforcement, each failing exactly for a disk fault, with the crash states of both |
| `Outbox.MatchedSaveEnds` | internal/outbox/store.go:99-127 | on a directory in which every record lies in its own file every save ends |
| `Outbox.Store.MarkFailure` | internal/outbox/store.go:154-170 | one more attempt, new retry time within the jitter band, everything else kept; failure exactly for an unlisted id or a disk fault, with at most a stray temporary; the crash states |
| `Outbox.Store.Delete` | internal/outbox/store.go:172-185 | success removes exactly that file (an absent one counts as removed); failure is exactly a disk fault and changes nothing |
| `Outbox.VisitOne` | internal/outbox/store.go:73-95 | visiting entries one by one computes the recovered directory, in any order |
| `Directories.RecoveryIsComplete` | internal/outbox/store.go:62-97 | after recovery no temporary and no invalid record file is left, every valid file is unchanged, and recovery is idempotent |
| `Directories.RecoveredFiles` | internal/outbox/store.go:73-95 | recovery, file by file: an invalid record file lies unchanged under its name with .bad added |
| `Directories.RecoveredListing` | internal/outbox/store.go:73-95 | recovery, however far it got, lists the same records |
| `Directories.WrittenListing` | internal/outbox/store.go:201-244 | an atomic write changes one entry of the listing; a record without a command id makes its entry disappear |
| `Directories.WrittenFiles` | internal/outbox/store.go:201-229 | an atomic write, file by file |
| `Directories.RemovalListing` | internal/outbox/store.go:176-178 | removing files removes exactly their records from the listing |
| `Directories.SameExceptListsTheSame` | internal/outbox/store.go:207-215 | no content of a temporary file, partial or not, is ever listed |
| `Directories.ListingCounts` | internal/outbox/store.go:246-266 | for every directory a scan has as many records as are listed |
| `Directories.ListedMeans` | internal/outbox/store.go:231-244 | a file is listed if and only if its contents decode to a record with both ids and a result envelope |
| `Directories.MatchedScan` | internal/outbox/store.go:246-266 | where records lie in their own files, a scan has every listed record exactly once, under its own id |
| `OutboxLaws.SaveIsCrashAtomic` | internal/outbox/store.go:99-127 | a stop anywhere inside Save and then recovery gives the listing before, or the listing after with a first part of the drops done, each drop an oldest record of what was left |
| `OutboxLaws.CrashedSaveIsAFailedSave` | internal/outbox/store.go:99-127 | every crash state of Save is an outcome of some failed Save, so the run theorems cover stops in the middle |
| `OutboxLaws.MarkIsCrashAtomic` | internal/outbox/store.go:154-170 | a stop inside MarkFailure and then recovery gives the listing before or after |
| `OutboxLaws.SaveListing` | internal/outbox/store.go:99-127 | the listing after each outcome of Save |
| `OutboxLaws.MarkListing` | internal/outbox/store.go:154-170 | the listing after each outcome of MarkFailure |
| `OutboxLaws.DeleteListing` | internal/outbox/store.go:172-185 | the listing after each outcome of Delete |
| `OutboxLaws.SaveCount` | internal/outbox/store.go:268-292 | the record count after each outcome of Save: within the limit, unchanged, or exactly that of the new listing less the drops made |
| `OutboxLaws.SavedRecordExactly` | internal/outbox/store.go:104-126 | the record a save returns, field by field: new envelope and update time, age and retry state of the listed one |
| `OutboxLaws.SaveDropsExactly` | internal/outbox/store.go:274-276 | a save drops nothing if and only if both limits hold with the record in place |
| `OutboxLaws.DropsOnlyOverLimits` | internal/outbox/store.go:274-276 | every drop is made while there are too many records or too many bytes |
| `OutboxLaws.MarkedRecordExactly` | internal/outbox/store.go:161-169 | the record MarkFailure returns, field by field |
| `OutboxLaws.MarkKeepsCount` | internal/outbox/store.go:154-170 | MarkFailure does not change the record count |
| `OutboxLaws.DeleteKeepsCount` | internal/outbox/store.go:172-185 | Delete does not increase the record count |
| `OutboxLaws.MarkCanExceedByteLimit` | internal/outbox/store.go:154-170 | a store within its limits that MarkFailure takes over the byte limit |
| `OutboxLaws.MarkStaysWithinExactly` | internal/outbox/store.go:154-170 | every outcome of MarkFailure keeps the limits if and only if every record it may write, whatever the jitter, fits in place of the old one |
| `OutboxLaws.MismatchedDirectoryNeedNotDrain` | internal/outbox/store.go:268-292 | two copies of a record under foreign names on which the loop runs forever |
| `OutboxLaws.MismatchedDirectoryMayDrain` | internal/outbox/store.go:268-292 | a directory over its limit with a foreign file name on which the loop ends |
| `OutboxLaws.SaveReplacesExactly` | internal/outbox/store.go:99-127 | a save that is put in place makes a pending result of another command disappear if and only if its record id is listed under another command |
| `OutboxLaws.DropsAreOldest` | internal/outbox/store.go:262-281 | no dropped record is younger than one that stays |
| `OutboxLaws.DueIsOldestDueRecords` | internal/outbox/store.go:129-146 | what Due returns is listed, due, sorted and without repetition; a due record is left out only if the batch is full of records no younger |
| `Retry.ComputeRetryDelay` | internal/outbox/store.go:325-337 | the loop computes min(60 s, 5 s * 2^(n-1)) |
| `Retry.RetryJitter` | internal/outbox/store.go:339-352 | at most a fifth of the delay either way |
| `Retry.RetryWindow` | internal/outbox/store.go:154-170 | after a failure at t: not due before t + 4 s, due from t + 72 s |
| `Retry.RetryDelayGrows` | internal/outbox/store.go:325-337 | delays never shrink, and are a minute from the fifth failure on |
| `Retry.RetryDelayTable` | internal/outbox/store.go:325-337 | the delays are 5, 10, 20, 40 and then 60 seconds |
| `Retry.MarkedExactly` | internal/outbox/store.go:161-165 | what a failed delivery changes, field by field; the error text is cut to 200 bytes |
| `Records.SanitizeYieldsCanonicalId` | internal/outbox/record.go:84-91 | record ids are never empty, use safe characters only and have no '.', '-' or '_' at the ends; ids of that form are exactly the fixed points; idempotence |
| `Records.SafeCharExactly` | internal/outbox/record.go:25 | the safe characters, by what they leave out of ASCII |
| `Records.ReplacesRunByRun` | internal/outbox/record.go:85 | each run of unsafe characters becomes one underscore and safe text stays |
| `Records.TrimsLeft` | internal/outbox/record.go:86 | trimming cuts trim characters at the start and nothing else |
| `Records.TrimsRight` | internal/outbox/record.go:86 | and at the end |
| `Records.RecordIdsCollide` | internal/outbox/record.go:84-91 | a whole family of distinct command ids with one record id |
| `Records.EmptyIdIsUnknown` | internal/outbox/record.go:87-89 | the empty id shares its record with the command `unknown` |
| `Records.NamesRoundTrip` | internal/outbox/store.go:197-208 | file names and their parsed form determine each other, so final, temporary and quarantine paths never collide |
| `Records.TextsAreNames` | internal/outbox/store.go:79-88 | every file name has a parsed form, and the suffix tests see its outermost layer |
| `Records.PathTexts` | internal/outbox/store.go:197-208 | the names of the three files of a record |
| `Records.SanitizeEnvelope` | internal/outbox/record.go:49-71 | the loop over the two text keys computes the cleaned envelope, for decodable, undecodable and null payloads |
| `Records.SanitizePayloadIdempotent` | internal/outbox/record.go:49-71 | cleaning twice is cleaning once, for every payload tree |
| `Records.PersistingRedactsTextOnly` | internal/outbox/record.go:49-71 | persisting a result rewrites its two text fields and nothing else |
| `Records.EncodedExactly` | internal/protocol/command.go:36-48 | an encoded result has exactly its eleven fields |
| `Records.EncodedText` | internal/protocol/command.go:37-42 | ids and texts under their names |
| `Records.EncodedOutcome` | internal/protocol/command.go:39-47 | outcome under its names |
| `Records.EncodedTimes` | internal/protocol/command.go:44-46 | times under their names |
| `Records.StateNames` | internal/protocol/command.go:8-14 | the states on the wire |
| `Records.PersistingResultExactly` | internal/outbox/record.go:49-71 | persisting leaves a result unchanged if and only if neither text contains a sensitive word |
| `Records.PersistingPayloadExactly` | internal/outbox/record.go:49-71 | for every payload: unchanged if and only if it does not decode, or is an object that is masked already and has no sensitive word in its texts |
| `Records.NullPayloadIsChanged` | internal/outbox/record.go:49-71 | a null payload becomes an empty object |
| `Records.NewRecord` | internal/outbox/record.go:27-47 | a new record has a canonical id, no attempts, and is due at once |
| `Records.NewRecordExactly` | internal/outbox/record.go:27-47 | which envelopes are refused, whose record the others become, and that only the payload is cleaned |
| `Records.CommandIdInPayload` | internal/outbox/record.go:73-82 | without a correlation id the command id comes from the payload: missing and null mean none, anything but text is refused |
| `Records.SanitizeKeepsCommandId` | internal/outbox/record.go:31-36 | cleaning never changes which command a result belongs to |
| `Dispatcher.StepListing` | internal/transport/result_dispatcher.go:51-136 | what each step of each thread does to the listing; matched names stay matched |
| `Dispatcher.SingleFlightStep` | internal/transport/result_dispatcher.go:75-87 | the flag is up exactly while one thread is past the gate, on every path |
| `Dispatcher.OnlyOneSender` | internal/transport/result_dispatcher.go:75-87 | in every reachable state at most one thread is past the gate |
| `Dispatcher.InvStep` | internal/transport/result_dispatcher.go:75-136 | every step keeps conservation, traceability, single flight and matched names |
| `Dispatcher.EverySavedRecordIsAccountedFor` | internal/transport/result_dispatcher.go:75-136 | by record id: in every reachable state of every interleaving the id of a saved record is listed, or was deleted after a successful delivery, or dropped by the limits, or overwritten in the file `unknown`; and unless saved again in between, what was deleted is what was sent |
| `Dispatcher.OverwritingLosesARecord` | internal/outbox/record.go:84-91 | whenever a result without a command id is put in place, no record of `unknown` is listed afterwards |
| `Dispatcher.UnlistedPutIsUnknown` | internal/outbox/store.go:240-242 | the only stored records that are never listed are those without a command id, and they lie in one file |
| `Dispatcher.SentEnvelopesWereStored` | internal/transport/result_dispatcher.go:51-57 | every envelope handed to a sender was in the store first |
| `Dispatcher.StartsOverFirstSender` | internal/transport/result_dispatcher.go:142-152 | a delivery starts over the connection's sender while there is one, over the pull sender only without, and with the first record left in the batch |
| `Dispatcher.EverySendUsesFirstSender` | internal/transport/result_dispatcher.go:142-152 | the same for every started delivery of every run |
| `Dispatcher.OutcomeDecides` | internal/transport/result_dispatcher.go:108-131 | a delivery ends over the sender it started over, and after success the thread can only delete, after failure only mark |
| `Dispatcher.CountStaysBounded` | internal/outbox/store.go:268-292 | over all runs the record count exceeds its limit by no more than the number of saves whose drops failed since one succeeded |
| `Dispatcher.CountStep` | internal/outbox/store.go:99-127 | a step lengthens the listing by at most one, and only a save whose drops failed does |
| `LatestResult.CurrentStep` | internal/outbox/store.go:108-114 | a listed record and a scanned record carry the envelope saved last |
| `Fates.FateStep` | internal/transport/result_dispatcher.go:75-136 | every step keeps: what is listed is decided by puts and removals, no thread delivers a record twice from one scan, and a deleted record that is not put again is delivered no more |
| `Fates.EveryResultIsAccountedFor` | internal/transport/result_dispatcher.go:75-136 | for every saved result, in every reachable state of every interleaving: its own envelope is still listed, or was delivered since, or dropped by the limits, or replaced while pending by a save with the same record id, or removed with a delivery scanned before it was saved |
| `Fates.DeletedEnvelopeWasSentExactly` | internal/transport/result_dispatcher.go:89-133 | the envelope saved last and deleted since was delivered after it was saved if and only if the scan behind the delete came after the save, or the delivery ended after the save and carried an equal envelope |
| `Fates.SentBeforeDeleteExactly` | internal/transport/result_dispatcher.go:89-133 | the same for every saved envelope up to the delete |
| `Fates.SavedWhileHeldIsLost` | internal/transport/result_dispatcher.go:93-133 | a result saved while a thread holds its predecessor, waiting, under way or delivered, is gone after that thread's delete, and was delivered only if it equals its predecessor and was saved before the delivery ended |
| `Fates.ReplacedExactly` | internal/outbox/store.go:108-114 | a put replaces a pending result if and only if nothing removed it since its own put |
| `Fates.NothingIsLostSilently` | internal/transport/result_dispatcher.go:51-57 | a result whose record id no other save shares is still listed, was delivered, or was dropped by the limits |
| `Losses.ResultSavedDuringDeliveryCanBeLost` | internal/transport/result_dispatcher.go:89-133 | complete runs from the empty store in which a result saved after the scan, before or after the delivery, is removed and only its predecessor was sent |
| `Losses.UnknownCommandCanBeOverwritten` | internal/outbox/record.go:84-91 | a complete run from the empty store in which a valid record disappears and nothing is listed, sent or dropped |
| `Losses.SecondSaveReplacesFirst` | internal/outbox/store.go:99-127 | of two saves with one record id only the second is left |
| `Losses.CollidingCommandsReplaceEachOther` | internal/outbox/record.go:84-91 | a complete run in which the result of one named command replaces that of another |
| `Losses.CollidingIdsAreWellFormed` | internal/commands/handler.go:16 | two different ids that pass the gate and share a record id |
| `Losses.RepeatedCommandReplacesItsResult` | internal/outbox/store.go:99-127 | a complete run in which a second result of a command replaces the first |
| `Losses.FailedDropExceedsLimit` | internal/outbox/store.go:280-283 | a complete run in which a failed drop leaves a store at its limit of one record with two |
| `RetryHistory.RetriesFollowTheLog` | internal/outbox/store.go:108-113 | in every reachable state age, attempts and retry time of a pending record are what its history says: saving again changes none of them |
| `RetryHistory.AttemptsCountFailures` | internal/outbox/store.go:161-170 | the attempt count is the number of failed deliveries since the record was new |
| `Rounds.ResultDispatcher.constructor` | internal/transport/result_dispatcher.go:29-37 | a dispatcher starts with no sender and not sending |
| `Rounds.ResultDispatcher.SetWebSocketSender` | internal/transport/result_dispatcher.go:39-43 | installs the sender of a connection, or clears it, and nothing else |
| `Rounds.ResultDispatcher.SetPullSender` | internal/transport/result_dispatcher.go:45-49 | sets or clears the pull sender and nothing else |
| `Rounds.ResultDispatcher.Enqueue` | internal/transport/result_dispatcher.go:51-57 | save first; no round if that failed, otherwise one round on the saved directory; a failed save is a refused result or a disk fault |
| `Rounds.ResultDispatcher.DispatchOnce` | internal/transport/result_dispatcher.go:75-136 | a second caller changes nothing; otherwise the flag is cleared, the call is a run of the step machine that scans and then tries the scanned records in order, over the connection while there is one and over pull only without, with the outcomes of the network; each handled record is gone if acknowledged and marked if failed, all others are untouched, a disk fault is always reported, where records lie in their own files nothing else is, and every early exit has its reason |
| `Rounds.ResultDispatcher.DrainBatch` | internal/transport/result_dispatcher.go:89-135 | the same for the part past the gate |
| `Rounds.ResultDispatcher.DeliverAll` | internal/transport/result_dispatcher.go:93-134 | the loop with its early exits is a chain of store operations, one per delivery in order, each by its own outcome; it reports every disk fault, and no other error but a record that is not listed any more |
| `Rounds.ResultDispatcher.Deliver` | internal/transport/result_dispatcher.go:108-133 | a failed delivery is marked, a successful one deleted; an error of either is a disk fault or an unlisted record |
| `Rounds.BatchRuns` | internal/transport/result_dispatcher.go:89-135 | such a chain is a run of the step machine; where records lie in their own files each record goes the way of its outcome |
| `Rounds.ResultDispatcher.Run` | internal/transport/result_dispatcher.go:59-73 | one round per tick, each from where the last one ended; and fairness: with a sender, no cancellation and no disk fault, ticks within 4 s of the first and enough for all stored records attempt every record due at the start, none twice, and touch no other |
| `Rounds.NoRecordTwice` | internal/transport/result_dispatcher.go:89-134 | within those rounds no record is attempted twice |
| `Rounds.StarvedRoundIsFull` | internal/outbox/store.go:136-145 | a round that passes over an initially due record is full |
| `Rounds.StarvationFillsRounds` | internal/transport/result_dispatcher.go:89-134 | while such a record waits, n rounds attempt n full batches of other records |
| `Rounds.EveryDueRecordIsAttempted` | internal/transport/result_dispatcher.go:89-134 | as many rounds as batches needed for all stored records attempt every initially due record |
| `Rounds.RoundIsWhole` | internal/transport/result_dispatcher.go:89-135 | a round without fault or cancellation deals with its whole batch |
| `Rounds.BatchIsSixteen` | internal/transport/result_dispatcher.go:89 | a round scans at most sixteen records, and leaves a due one out only if it scanned sixteen |
| `Traces.LeavingGate` | internal/transport/result_dispatcher.go:83-87 | whichever way a call ends, its run ends with the flag cleared and no thread past the gate |
| `Outbound.InvStep` | internal/transport/ws_client.go:284-306 | every step of senders, write loop and cancellation keeps the channel a FIFO that neither loses nor duplicates, and verdicts equal to what the connection really took or failed to take |
| `Outbound.ConfirmedMeansWritten` | internal/transport/ws_client.go:477-501 | a confirmed send returns success only if the connection took that very envelope, and an error, unless the context is done, only if encoding or writing it failed |
| `Outbound.ReplyIsTrueExactly` | internal/transport/ws_client.go:284-306 | a reply is positive if and only if its message is on the wire, and negative if and only if encoding or writing it failed |
| `Outbound.UnconfirmedMeansAccepted` | internal/transport/ws_client.go:468-475 | an unconfirmed send returns success if and only if the channel took the message, and an error only when the context is done |
| `Outbound.BrokenStaysSilent` | internal/transport/ws_client.go:292-301 | after a failed write nothing more is written, and the write loop ends only for that or a cancelled context, not for a message that cannot be encoded |
| `Outbound.WireKeepsChannelOrder` | internal/transport/ws_client.go:284-306 | what the connection took is, in order, what was accepted and reported written, each message at most once, and the channel stays within its capacity |
| `Delivery.InvStep` | internal/transport/ws_client.go:150-153 | dispatcher and connections agree about deliveries in flight and confirmed ones, across reconnects and restarts |
| `Delivery.DeletedOverWebSocketWasWritten` | internal/transport/result_dispatcher.go:108-133 | at-least-once: every record deleted after a WebSocket delivery had its envelope written to that connection |
| `Delivery.TicketIsFree` | internal/transport/ws_client.go:477-479 | each delivery has a reply channel of its own |
| `Jobs.PlacesStep` | internal/transport/ws_client.go:342-397 | a step moves a job from one place to the next or adds an arrival to exactly one |
| `Jobs.EachCommandIsInOnePlace` | internal/transport/ws_client.go:342-397 | in every reachable state each arrived command is exactly once in the queue, a worker, or the results |
| `Jobs.NothingElseIsAnywhere` | internal/transport/ws_client.go:342-397 | what is in these places arrived |
| `Jobs.QueueIsBoundedAndFair` | internal/transport/ws_client.go:355-397 | queue within capacity, no more running jobs than workers, jobs start in the order of admission, an accepting ack only for a queued command |
| `Jobs.ReceiveExactly` | internal/transport/ws_client.go:342-373 | what one envelope does: it arrives, is queued, or is rejected and why, each with its exact condition |
| `Jobs.CommandsAreSorted` | internal/transport/ws_client.go:342-373 | in every reachable state the arrivals are the good envelopes in order; those for this device were queued or found the queue full, all others were rejected as mismatches, and results of the read loop are exactly of these kinds |
| `Jobs.OnlyOwnCommandsRun` | internal/transport/ws_client.go:350-356 | every command a worker ever took, and every accepting ack, was addressed to this device |
| `Pipeline.EveryCommandIsAccountedFor` | internal/transport/ws_client.go:342-397 | in every reachable state each arrived command is queued, with a worker, about to be handed over, or its result was handed to the store exactly once and is accounted for there as above |
| `Pipeline.ResultsStep` | internal/transport/ws_client.go:375-397 | no result is let go of before it was handed to the store |
| `Dedupe.DedupeStore.constructor` | internal/commands/dedupe.go:21-34 | given positive settings are kept, others become 24 hours and 1024 entries |
| `Dedupe.DedupeStore.HasSeen` | internal/commands/dedupe.go:36-53 | true if and only if the id has an entry no older than the TTL; an older one is removed, nothing else |
| `Dedupe.DedupeStore.Mark` | internal/commands/dedupe.go:55-65 | prune, stamp, evict |
| `Dedupe.DedupeStore.Reserve` | internal/commands/dedupe.go:76-93 | refuses if and only if the id has an entry no older than the TTL; otherwise stamps and evicts |
| `Dedupe.DedupeStore.PruneLocked` | internal/commands/dedupe.go:95-101 | keeps exactly the entries no older than the TTL |
| `Dedupe.ExpiredExactly` | internal/commands/dedupe.go:97 | an entry expires when it is older than the TTL, and never under the largest TTL a duration can hold |
| `Dedupe.DedupeStore.TrimLocked` | internal/commands/dedupe.go:103-117 | evicts down to the limit, oldest entries only |
| `Dedupe.DedupeStore.Oldest` | internal/commands/dedupe.go:105-114 | the scan finds an oldest entry |
| `Dedupe.AtMostOnceWithinWindow` | internal/commands/dedupe.go:76-117 | in every run under a non-decreasing clock two successful reservations of one id are more than the TTL apart, or at least maxEntries other ids were stamped in that span |
| `DedupeWindow.ReserveFailsExactly` | internal/commands/dedupe.go:76-117 | in every run under an advancing clock Reserve refuses an id if and only if its last stamp is within the TTL and fewer than maxEntries other ids were stamped since |
| `DedupeWindow.ReserveFailsByTimeExactly` | internal/commands/dedupe.go:76-117 | the same in arithmetic: refused if and only if the last stamp is at most the TTL old and fewer than maxEntries other ids were stamped since |
| `DedupeWindow.OldStampCanBeReserved` | internal/commands/dedupe.go:76-101 | in every run an id all of whose stamps are older than the TTL can be reserved |
| `DedupeWindow.StampStep` | internal/commands/dedupe.go:95-117 | what eviction keeps has its last stamp and fewer than maxEntries younger ids, what it drops has not |
| `Dedupe.SizeIsBounded` | internal/commands/dedupe.go:103-117 | after every operation of every run the store is within its limit |
| `Dedupe.EvictionAllowsASecondRun` | internal/commands/dedupe.go:103-117 | the second half of that alternative does occur |
| `Dedupe.OnlyCrowdingEvictsLiveEntries` | internal/commands/dedupe.go:95-117 | expired entries never cause the eviction of a live one |
| `Dedupe.ExtraPrunesAreInvisible` | internal/commands/dedupe.go:36-101 | lazy and eager expiry agree: additional prunes anywhere change no answer |
| `Dedupe.CallsCannotTell` | internal/commands/dedupe.go:36-101 | stores with the same live entries answer alike and stay so |
| `Dedupe.TrimmedIsATrim` | internal/commands/dedupe.go:103-117 | evicting by a fixed tie-break is one of the evictions the store may perform |
| `Dedupe.EffectIsAStep` | internal/commands/dedupe.go:36-101 | every call under a fixed tie-break is one of the steps the store may take |
| `Dedupe.TieBreakExists` | internal/commands/dedupe.go:105-114 | there is such a tie-break |
| `Actions.ValidateArgs` | internal/actions/validators.go:12-52 | succeeds if and only if the declarative specification accepts, and then returns the arguments unchanged |
| `Actions.AcceptsExactly` | internal/actions/validators.go:12-73 | acceptance of arguments, spelled out |
| `Actions.AllDeclared` | internal/actions/validators.go:17-26 | the two loops find exactly the undeclared names |
| `Actions.ValidateEach` | internal/actions/validators.go:28-51 | the loop with early returns accepts exactly if every declaration does |
| `Actions.ValidateStringArg` | internal/actions/validators.go:54-73 | length, forbidden characters and pattern, in both directions |
| `Actions.ContainsDangerousToken` | internal/actions/validators.go:75-85 | finds exactly the forbidden characters and tokens |
| `Actions.DangerousExactly` | internal/actions/validators.go:75-85 | the forbidden characters and tokens |
| `Actions.TimeoutIsBounded` | internal/commands/handler.go:150-162 | handler and runner together: the effective timeout is positive and within the action's, even if the multiplication wraps |
| `Actions.EffectiveTimeoutExactly` | internal/runner/runner.go:26-32 | the first positive of the request, the action's timeout and 30 seconds |
| `Actions.TimeoutIsAsRequested` | internal/commands/handler.go:150-162 | without wrap-around a request is accepted exactly if positive and within the action's timeout, and is used as given |
| `Actions.TimeoutRuleHoldsExactly` | internal/commands/handler.go:150-162 | for every positive request, exactly when the rule is the one without wrap-around |
| `Actions.OverlongTimeoutIsAccepted` | internal/commands/handler.go:157-161 | with wrap-around an excessive request is accepted |
| `Commands.AdmittedRequestIsSound` | internal/commands/handler.go:94-129 | admitted exactly if registered, allowed, arguments accepted, timeout resolved; then the request is the one those checks approved |
| `Commands.Handler.Handle` | internal/commands/handler.go:77-141 | the error code on the wire is that of the first check the command fails, in a rejected result with exit code -1; a command that passes all of them gets what the runner makes of a sound request; the audit events of the call; what happens to the dedupe store, also for rejected commands |
| `Commands.Handler.Reject` | internal/commands/handler.go:164-186 | the rejected result with code, text and times, and exactly one rejection event |
| `Commands.DecisionIsFirstError` | internal/commands/handler.go:87-111 | a command runs if and only if it passes every check, and otherwise gets the code of the first it fails |
| `Commands.Handler.Check` | internal/commands/handler.go:94-111 | the checks after the reservation, in their order |
| `Commands.WellFormedIdExactly` | internal/commands/handler.go:16 | the id pattern, by length and by the characters it leaves out |
| `Commands.RejectionsAreDeserved` | internal/commands/handler.go:87-111 | in every interleaving a logged rejection names a check its command fails while all earlier ones hold; a duplicate was refused by the dedupe store |
| `Commands.RejectionIsStoredAsIsExactly` | internal/commands/handler.go:164-186 | the outbox leaves a rejection unchanged if and only if its text has no sensitive word |
| `Commands.QuotedActionIsChanged` | internal/commands/handler.go:94-97 | a rejection that quotes an action name and is changed |
| `Commands.InvStep` | internal/commands/handler.go:77-141 | every step of concurrent calls keeps audit trails, reservations and launches consistent |
| `Commands.RunnerStartsOncePerWindow` | internal/commands/handler.go:87-129 | in every interleaving two runner starts for one id lie outside the dedupe window |
| `Commands.ReservationBlocksLaterLaunches` | internal/commands/handler.go:90-98 | an id used up by any call, rejected ones included, blocks later ones within the window |
| `Commands.OnlySoundRequestsRun` | internal/commands/handler.go:87-129 | whatever reaches the runner has a well-formed id and passed every check |
| `Commands.AuditTrailIsComplete` | internal/commands/handler.go:77-141 | a finished call wrote exactly received, rejected or received, started, finished |
| `OutputLimit.LimitedStream.Write` | internal/runner/output.go:27-43 | one write: what is kept, what remains, when the flag is set; always reports full length |
| `OutputLimit.CaptureOutput` | internal/runner/output.go:19-55 | both streams over one limiter capture the projections of the first budget bytes of the merged output |
| `OutputLimit.LimiterRefinesMergedPrefix` | internal/runner/output.go:27-43 | for every interleaving the buffers are the projections of the merged prefix, and captured plus remaining is the budget |
| `OutputLimit.TruncatedExactly` | internal/runner/output.go:31-39 | exactly when the flag is set, for all writes |
| `OutputLimit.TruncatedMeansOverBudget` | internal/runner/output.go:31-39 | for non-empty writes: exactly when the input exceeds the budget |
| `OutputLimit.EmptyWriteSetsTruncated` | internal/runner/output.go:31-34 | the flag without anything cut off |
| `Redaction.RedactValue` | internal/audit/redact.go:7-28 | the recursive copy computes the redacted tree |
| `Redaction.RedactFields` | internal/audit/redact.go:9-18 | the loop over a map |
| `Redaction.RedactItems` | internal/audit/redact.go:19-24 | the loop over a list |
| `Redaction.RedactFixedPoints` | internal/audit/redact.go:7-36 | the result is masked at every depth, and redaction leaves a tree alone if and only if it is masked already |
| `Redaction.SensitiveKeyExactly` | internal/audit/redact.go:30-36 | the sensitive keys, in any case |
| `Redaction.RedactIdempotent` | internal/audit/redact.go:7-28 | idempotence |
| `Redaction.RedactIdentity` | internal/audit/redact.go:7-28 | identity on trees without sensitive keys |
| `Redaction.RedactKeepsPublicPaths` | internal/audit/redact.go:7-28 | what is reachable without passing a sensitive key is neither added to nor dropped |
| `Redaction.RedactMasksSensitivePaths` | internal/audit/redact.go:30-36 | a sensitive key on any path holds the mask and hides everything below |
| `Redaction.RedactText` | internal/audit/redact.go:38-53 | the in-place loop redacts line by line |
| `Redaction.SplitJoin` | internal/audit/redact.go:42-52 | splitting after newlines undoes joining |
| `Redaction.RedactTextLineByLine` | internal/audit/redact.go:38-53 | same number of lines, same line breaks, each line redacted |
| `Redaction.RedactLineExactly` | internal/audit/redact.go:43-51 | a sensitive line becomes the mask and keeps its line break, any other stays |
| `Redaction.SensitiveWordsExactly` | internal/audit/redact.go:55-72 | the sensitive words, in any case |
| `GoStrings.ToLowerAscii` | internal/audit/redact.go:56 | lower-casing of ASCII text, byte by byte |
| `GoStrings.LowerByteExactly` | internal/audit/redact.go:56 | capital ASCII letters move up by 32, every other byte stays |
| `GoStrings.NonAsciiLetters` | internal/audit/redact.go:56 | the two letters outside ASCII whose lower case is in ASCII |
| `Redaction.RedactTextIdempotent` | internal/audit/redact.go:38-53 | idempotence |
| `Redaction.RedactTextRemovesSensitiveWords` | internal/audit/redact.go:38-72 | no sensitive word is left anywhere in the text, and text changes exactly if it contained one |
| `Redaction.RedactTextGrowth` | internal/audit/redact.go:38-72 | text grows at most by the factor 14/3 |
| `Runner.Run` | internal/runner/runner.go:24-91 | effective timeout, state, exit code and error code for each process end, times and truncation flag; texts are the redacted projections; size bound; unchanged by the outbox |
| `Runner.RedactedResultSurvivesOutbox` | internal/runner/runner.go:79-91 | a redacted result goes through the outbox unchanged |
| `Runner.OutputSizeBound` | internal/runner/runner.go:60-91 | both texts together have at most 14/3 of the byte budget, for every process output |
| `Runner.OutputSizeBoundIsTight` | internal/audit/redact.go:38-53 | the factor is reached |
| `Backoff.Backoff.constructor` | internal/transport/backoff.go:16-32 | given positive minimum and jitter are kept, others become one second and none, and the maximum is never below the minimum |
| `Backoff.Backoff.Next` | internal/transport/backoff.go:34-53 | the base doubles and is capped, with 64-bit wrap-around, and the delay is its jittered form |
| `Backoff.Backoff.Reset` | internal/transport/backoff.go:55-57 | the next base is the minimum again |
| `Backoff.JitterBand` | internal/transport/backoff.go:46-52 | the delay is never negative and stays within the jitter band |
| `Backoff.SpreadExactly` | internal/transport/backoff.go:46-47 | the spread delay runs evenly from base * (1 - jitter) to base * (1 + jitter) |
| `Backoff.ClampedExactly` | internal/transport/backoff.go:48-52 | conversion drops the fraction, and a negative delay becomes none |
| `Backoff.LawHoldsBelow` | internal/transport/backoff.go:34-42 | the k-th base is min(max, min * 2^(k-1)) for a cap below 2^62 |
| `Backoff.LawBreaksAbove` | internal/transport/backoff.go:34-42 | for a larger cap some call breaks it |
| `Backoff.LawHoldsExactly` | internal/transport/backoff.go:34-42 | the law holds for every call if and only if the cap is below 2^62 |

## Left out

- Network I/O, WebSocket framing, HTTP and the pull client: only the success or failure of a delivery is modelled.
- HMAC signing and hashing: thin wrappers over libraries.
- JSON and YAML decoding: payloads are value trees, file contents either decode to a record or not, and the length of an encoding is a parameter. Not captured: loss of number precision, case-insensitive field names, and decoding errors caused by fields other than `command_id`.
- Configuration, identity, application wiring, command line and logging: flat checks and plumbing, easy members only.
- The mgate client and process execution: a process is an arbitrary interleaving of writes and an arbitrary end.
- Health switching between transports: health events may be discarded, so there is no strong invariant.
- Registry contents and argument vector builders: fixed tables; the registry is an arbitrary map and building the vector may fail.
- Audit events of the outbox and of the dispatcher, and audit write errors: they influence nothing that is modelled.
- Durability below the file operations (sync of file and directory): a stop keeps every completed operation and leaves a file being written with arbitrary contents.
- Subdirectories of the outbox directory, read errors of single files, and 64-bit overflow of byte totals.
- Nil receivers and nil arguments of the original's methods.
- `time.Now` and random numbers: parameters, or nondeterministic choices within their range.
- Outbox.Store.Save: requires that limit enforcement ends on the directory the save produces, as do Install and EnforceLimits for theirs; elsewhere the original does not return. Every directory in which records lie in their own files meets it.
- Outbox.NewStore: whether the directory name is blank is a parameter.
- Outbox.Store.List: inserts each record by age while scanning instead of sorting afterwards; the promised order leaves ties open in both.
- Dispatcher.StepListing: `Enqueue` appears as a save step followed by the steps of a dispatch; a dispatch may leave at any point where the original could, without saying why.
- Commands.Handler.Handle: the texts of rejections and the runner are parameters; the machine of concurrent calls takes the runner's result to carry the command's own id, as `Runner.Run` promises.
- Rounds.ResultDispatcher.DispatchOnce: a call on its own, without saves or sender changes in between; those are in the step machine.
- Rounds.ResultDispatcher.SetWebSocketSender: a sender is the number of its connection; what it does with a record is the network's outcome, a parameter.
- Rounds.ResultDispatcher.SetPullSender: a sender is its availability, likewise.
- Rounds.ResultDispatcher.Run: fairness is promised for directories in which records lie in their own files.
- Jobs.EachCommandIsInOnePlace: covers one connection, with its share of the client's counter of active jobs; commands still queued when the connection ends are dropped with it.
- Pipeline.EveryCommandIsAccountedFor: one connection and one lifetime of the process; a result whose envelope cannot be encoded is not modelled.
- Runner.Run: the program, its arguments and the working directory are represented by the process output and its end.
- Backoff.Backoff.Next: jitter is computed over real numbers, without floating-point rounding or conversion overflow.
- GoStrings: lower-casing is exact for ASCII results only, which is all that is ever compared.
