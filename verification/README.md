# Verification of the update service

A Dafny 4.11 model of the service's concurrent core, with proofs. Three subsystems are modelled:

1. **The chunked file transfer.** A dispatcher cuts the uploaded file into 64 KiB chunks and publishes
   them; a stream may lose, repeat and reorder them; the worker writes them into a preallocated staging
   file under a mutex, and once as many distinct indices as announced are stored it re-checks size and
   SHA-256 and closes ("seals") the file. Chunk storing and finalizing are separate critical sections
   and interleave freely. The main results hold for every sequence of messages (`TransferRuns`), for
   every history of an honest sender (`TransferEndToEnd`), and from the sender's loop to the sealed
   bytes (`TransferFromStream`).
2. **The operations table under optimistic concurrency.** Every use case reads a copy, edits it and
   writes it back with a compare-and-set on the version that reports success even when no row
   matched; Retry writes twice. `OperationRaces` runs any number of them, and `Transition`, in any
   interleaving. `OperationHistory` and `OperationLifecycle` hold the results.
3. **Supporting machines**: the status table, the worker's gate on active transfers, the indexer's
   bounded channel, keyset paging, overlapping uploads, the shared chunk table, and the number formats
   of the message headers and of the JSON announcement.

How it is written. Code that updates objects is modelled by classes whose methods are proved against
specification functions (`ActiveTransfer`, `StagingFile`, the sender loops, `Repository`, the use
cases, `RoleManager`, `AsyncIndexer`, `FileChunkRepository`); the runs and interleavings are sequences of
steps of those same functions. A disabled step leaves the state alone, so the theorems speak about
*every* sequence of steps. SHA-256 is a parameter `sha`: each theorem holds for any function in its
place, and none needs collision resistance. Products and quotients with the chunk size are recursive
functions, proved equal to multiplication and division (`Arithmetic`, `Tiling.ChunkArithmetic`).

What the proofs brought to light about the code (each is a proved statement, see the table):

- A transfer is sealed exactly if the first finalize step after its count was reached finds the announced
  size and digest (`SealedIff`, `PendingIff`, for any messages). `FinalizeTransfer` is not repeated, so one
  stray message with an index out of range, sent before the last chunk, strands the transfer for ever
  unless the image without that chunk already has the announced digest (`StrayIndexStrandsTransferIff`;
  `StrayMessageIsStray` shows such a message). A chunk whose message is not on the stream, which the sender
  only logs, does the same (`LostChunkPreventsSeal`).
- Size, count and digest are announced from the operation row. `SealedIffAllDelivered` says for every such
  announcement when the transfer seals: an empty one needs an empty staging file, because the file is
  opened without truncation and a size of zero is not truncated to, and a file longer than announced is
  only ever sealed, cut, if the announced size is a multiple of the chunk size.
- The event handlers of `internal/app/role.go` write with the version they read and therefore never
  change a row (`HandlersNeverWrite`). With the callers in the repository no operation gets past
  DISPATCHED (`StatusOnlyMovesForward`).
- Retry's second write replaces a row Retry has neither read nor written exactly if its first write matched
  nothing and the row is one version past the one it read (`RetryReplacesUnseenIff`); a cancel request is
  lost this way in a run from the empty table (`RetryOverwritesCancel`, `LostCancelIsReachable`). All other
  writes replace exactly the row they read (`SingleBumpIsAtomic`).
- No use case asks `TransitionGuard`; `WritesVersusGuard` says exactly which writes respect it, and
  `DispatchOfCancelledIsReachable` is a run in which a cancelled operation becomes DISPATCHED.
- Overlapping uploads with different bodies can leave a staged file that the row does not describe. In each
  run the two agree exactly if the last body moved into place is that of the recorded upload
  (`StagedMatchesRecordedIff`); over all interleavings, exactly if no two bodies differ
  (`StagedMatchesRowIff`).
- The worker's gate is shut for an operation exactly if a registration of one of its transfers has not been
  followed by a verification event (`ShutIffOutstanding`). A verification that overtakes the registration
  is lost, and the operation then waits for ever (`LateRegistrationBlocksForever`, `CanSucceedIff`).
- When `Indexer.Stop` returns, everything submitted before it was called, or before the context ended if
  that came first, is indexed or dead-lettered (`StopDrains`), and the channel is empty exactly if no `Index` call came after the last worker had gone
  (`StopDrainsIff`). Such a call is possible under `main`, because the message connection is closed after
  `Stop` (`IndexDuringStop`).

## Model

| member | source | states |
|---|---|---|
| Decimal.HeaderRoundTrip | internal/application/operations/dispatch.go:347-354 | a printed index, offset or length parses back to itself, exactly when it fits 64 bits |
| Decimal.FormatInjective | internal/application/operations/dispatch.go:349-351 | different numbers are printed differently |
| Decimal.ScanSigned | internal/infrastructure/transfer/receiver.go:174-188 | the receiver's parse of blanks, an optional sign, digits and a non-digit rest, with the 64-bit limits on both sides |
| Decimal.ScanWithoutDigits | internal/infrastructure/transfer/receiver.go:174-188 | without a digit after blanks and sign nothing is read |
| Decimal.ScanIgnoresBlanks | internal/infrastructure/transfer/receiver.go:174-188 | any run of blanks in front of a header number does not matter |
| Binary64.DecodeExactIff | internal/infrastructure/transfer/receiver.go:71-72 | a JSON number decoded as float64 comes back unchanged iff it has at most 53 significant bits |
| Binary64.DecodeExact | internal/infrastructure/transfer/receiver.go:128-129 | all sizes and counts up to 2^53 come back unchanged |
| Binary64.DecodeFirstLoss | internal/infrastructure/transfer/receiver.go:71-72 | 2^53 + 1 does not, so the bound is sharp |
| Binary64.DecodeRoundsToNearestEven | internal/infrastructure/transfer/receiver.go:71-72 | every value arrives as a nearest 53-bit multiple of its unit, off by at most half a unit, with ties going to the even one |
| Tiling.ChunkArithmetic | internal/application/operations/dispatch.go:145-146 | chunk counts and offsets are the ones the loops compute with division and multiplication |
| Tiling.ChunkExistsIff | internal/application/operations/dispatch.go:145-146 | chunk i is counted iff its offset lies inside the file iff it is not empty |
| Tiling.TotalChunksIsCeiling | internal/application/operations/dispatch.go:145-146 | the number of chunks is the ceiling of size / chunk size |
| Tiling.ChunkSizes | internal/application/operations/dispatch.go:317-365 | chunks are contiguous, all but the last are full, the last is non-empty and ends the file |
| Tiling.OwnerUnique | internal/application/operations/dispatch.go:317-365 | each byte lies in exactly one chunk: the chunks are disjoint and cover the file |
| Tiling.Reassembly | internal/application/operations/dispatch.go:317-365 | the payloads in index order are the file |
| TransferReceiver.OverwriteBytes | internal/infrastructure/transfer/receiver.go:224-228 | byte by byte meaning of a positioned write: payload, hole of zeros, old content |
| TransferReceiver.StagingFile.Truncate | internal/infrastructure/transfer/receiver.go:101-106 | preallocation cuts or pads with zeros |
| TransferReceiver.StagingFile.WriteAt | internal/infrastructure/transfer/receiver.go:224-228 | the write in place fails exactly for negative offsets and otherwise overwrites or grows the file |
| TransferReceiver.ActiveTransfer.constructor | internal/infrastructure/transfer/receiver.go:95-137 | an accepted transfer: preallocated file, nothing received, announced size, count and digest |
| TransferReceiver.ActiveTransfer.HandleMessage | internal/infrastructure/transfer/receiver.go:167-254 | a message is stored exactly when the file is open, the index reads and is new, length and digest match and the offset is not negative; then bytes, record, size and completion test, otherwise nothing changes |
| TransferReceiver.ActiveTransfer.StoreLocked | internal/infrastructure/transfer/receiver.go:203-254 | the critical section: closed file, duplicate and conflicting index are dropped |
| TransferReceiver.ActiveTransfer.FinalizeTransfer | internal/infrastructure/transfer/receiver.go:287-345 | reports closed, wrong size, wrong checksum or success, each exactly when; success closes the file and completes the transfer, a failure changes nothing |
| TransferRuns.FinalizeCalledAtMostOnce | internal/infrastructure/transfer/receiver.go:156-162 | for all messages: finalize is called at most once, and is called iff the stored count has reached the announced one (or none is announced) |
| TransferRuns.SealImpliesVerified | internal/infrastructure/transfer/receiver.go:299-345 | for all messages: a closed file has the announced size and digest, COMPLETED iff closed, receivedSize is the sum of the stored sizes |
| TransferRuns.SealedIff | internal/infrastructure/transfer/receiver.go:287-345 | for all messages: sealed iff some due finalize step found the announced size and digest |
| TransferRuns.PendingIff | internal/infrastructure/transfer/receiver.go:241-284 | a finalize call is due exactly from the moment the announced count is reached until the next finalize step |
| TransferRuns.DueFinalizeReports | internal/infrastructure/transfer/receiver.go:299-345 | in every run a due finalize call reports success iff it closes the file, the size iff that is wrong, and otherwise the checksum |
| TransferRuns.SealedForever | internal/infrastructure/transfer/receiver.go:203-207 | nothing delivered after the seal changes the staged bytes or any other field |
| TransferRuns.FailedFinalizeIsFinal | internal/infrastructure/transfer/receiver.go:241-284 | after a failed finalize no further messages ever complete the transfer, and no second call is made |
| TransferRuns.FirstChunkWins | internal/infrastructure/transfer/receiver.go:209-217 | duplicates and conflicting duplicates never replace a stored chunk |
| TransferRuns.StoredChunkWasChecked | internal/infrastructure/transfer/receiver.go:185-201 | each stored chunk goes back to a delivered message whose length and digest matched, and records its index, offset, size and digest |
| TransferRuns.UncoveredBytesKept | internal/infrastructure/transfer/receiver.go:101-106 | bytes no stored chunk covers are still the preallocated ones, for all messages |
| TransferRuns.CountIsCompleteness | internal/infrastructure/transfer/receiver.go:244-245 | pigeonhole: with indices in range the count equals totalChunks iff exactly 0..totalChunks-1 are stored |
| ChunkMessages.AnnouncementRoundTrip | internal/application/operations/dispatch.go:176-194 | the receiver's totalBytes and totalChunks are those announced from the row |
| ChunkMessages.MessageRoundTrip | internal/application/operations/dispatch.go:347-354 | the receiver accepts each published message, reads back its index, offset and length, and records the chunk of that transfer, received and acknowledged |
| ChunkMessages.HonestDelivery | internal/infrastructure/transfer/receiver.go:167-254 | delivering honest chunk i stores its payload at its offset under index i, unless closed or already stored |
| TransferEndToEnd.SealedIffAllDelivered | internal/infrastructure/transfer/receiver.go:167-345 | end to end, for any announced size and digest: with no finalize pending, sealed iff every announced chunk was delivered, the file fits the announced size, and the digest is that of the resulting image |
| TransferEndToEnd.SealedBytesAreTheFile | internal/infrastructure/transfer/receiver.go:167-345 | under any loss, duplication, reordering and interleaving sealed bytes are the image, which equals the source file iff the row gives its size |
| TransferEndToEnd.FinalizeDueIffAllDelivered | internal/infrastructure/transfer/receiver.go:244-284 | finalize is called, once, iff all announced chunks were delivered |
| TransferEndToEnd.Confluence | internal/infrastructure/transfer/receiver.go:203-245 | histories that deliver the same indices leave the same bytes, records and receivedSize |
| TransferEndToEnd.StagedBytes | internal/infrastructure/transfer/receiver.go:101-106 | each staged byte is the file's once its chunk arrived, and the preallocated one (zero in a fresh file) before |
| TransferEndToEnd.StrayIndexStrandsTransferIff | internal/infrastructure/transfer/receiver.go:241-245 | all chunks but one, a stray index and a finalize, then the missing chunk and anything else: never sealed iff the image without that chunk lacks the announced size or digest |
| TransferEndToEnd.StrayMessageIsStray | internal/infrastructure/transfer/receiver.go:167-201 | for each transfer there is a stray message that passes all checks |
| ChunkSender.InputFile.Read | internal/application/operations/dispatch.go:318-325 | a full sequential read into the reused buffer |
| ChunkSender.SendRound | internal/application/operations/dispatch.go:318-364 | one round stores the pending row and publishes the message of the next chunk, which may be acknowledged, stored with an error, or lost; it reads nothing iff there is no such chunk |
| ChunkSender.PublishFileChunks | internal/application/operations/dispatch.go:309-374 | for the first min(announced, existing) chunks: rows added as pending at version 1 with no other row touched, messages published, bytes counted |
| ChunkSender.TransferSenderLoop | internal/infrastructure/transfer/transfer.go:133-203 | the second loop adds the same pending rows, publishes the same messages and counts the acknowledged publications |
| ChunkSender.UpsertedRowsArePending | internal/application/operations/dispatch.go:331-345 | each row a sender loop adds has the chunk's index, offset, size and checksum, published, pending, version 1; no other row changes |
| ChunkSender.PublishedExactly | internal/application/operations/dispatch.go:347-362 | a chunk's message is on the stream iff it was attempted and not lost, and only once |
| ChunkSender.SenderLoopsAgree | internal/infrastructure/transfer/transfer.go:67-69 | both loops attempt all chunks iff the row does not announce too few |
| ChunkSender.PublishedIsHonest | internal/application/operations/dispatch.go:347-362 | every message on the stream is the message of an existing chunk that was not lost |
| ChunkSender.PublishedInOrder | internal/application/operations/dispatch.go:317-365 | without losses message i is the i-th on the stream |
| TransferFromStream.StreamIsHonest | internal/infrastructure/transfer/receiver.go:142-145 | any consumption of the filled stream is a history of honest deliveries |
| TransferFromStream.StreamSealsIff | internal/application/operations/dispatch.go:309-374 | from loop to seal, for any losses, announcement and earlier staging file: sealed iff the message of every announced chunk was taken and the announcement describes the image |
| TransferFromStream.SealedStreamIsTheFile | internal/application/operations/dispatch.go:309-374 | from loop to seal: sealed bytes are the image of the file the loop read, however the stream was consumed |
| TransferFromStream.LostChunkPreventsSeal | internal/application/operations/dispatch.go:359-362 | a chunk whose message is not on the stream keeps the transfer open for ever |
| TransferFromStream.LosslessStreamSealsIff | internal/application/operations/dispatch.go:309-374 | with nothing lost and everything received, sealed iff the file has all announced chunks and the row describes the image, for any earlier staging file |
| ChunkRows.FirstOffsetLastState | internal/infrastructure/mariadb/repositories/chunk_repository.go:18-31 | after any upserts a chunk's row has the first offset, the last size, checksum and states, and one version per further upsert |
| ChunkRows.FileChunkRepository.UpsertChunk | internal/infrastructure/mariadb/repositories/chunk_repository.go:18-31 | insert, or update size, checksum and states and count the version up |
| ChunkTableRuns.RowFollowsReceiver | internal/infrastructure/transfer/receiver.go:230-256 | in every interleaving a row is the sender's until the receiver's upsert ran, then the receiver's record |
| ChunkTableRuns.AcknowledgedRowIsFinal | internal/application/operations/dispatch.go:331-359 | an acknowledged row never changes again, under any duplicates |
| ChunkTableRuns.ReceiverStepFields | internal/infrastructure/transfer/receiver.go:230-256 | in every run: a successful receiver upsert puts the stored chunk's data at version 2 into its row only, a failed one leaves the table alone |
| ChunkTableRuns.SenderLoopIsRun | internal/application/operations/dispatch.go:331-359 | the table and stream of the sender loops are those of a run of single upsert and publish steps |
| ChunkTableRuns.EveryRowCanBeAcknowledged | internal/infrastructure/transfer/receiver.go:230-256 | with nothing lost, one delivery of each message takes every row from pending to acknowledged at version 2 |
| OperationStatus.TableInverse | internal/domain/operation/transition.go:20-63 | the guard accepts a step iff it stays or starts from a listed source, as a retry only from FAILED or TIMEOUT; the run properties are proved through this reading |
| OperationStatus.RefusalExactly | internal/domain/operation/transition.go:20-63 | which refusal the guard returns, exactly when |
| OperationStatus.StageNamesStatus | internal/infrastructure/mariadb/repositories/operation_repository.go:333-358 | a stage bears its status's name except while waiting for upload, acknowledgement or verification; no two statuses share a stage |
| OperationStatus.DispatchBound | internal/domain/operation/transition.go:39-63 | on guarded runs DISPATCHED is entered at most 1 + (requeues after failure) times |
| OperationStatus.DispatchesWithinBudget | internal/application/operations/retry.go:70-82 | hence at most MaxAttempts + 1 times when each requeue is paid for by Retry |
| OperationStatus.CreatedOnlyFirst | internal/domain/operation/transition.go:39-63 | CREATED is never re-entered |
| OperationStatus.TerminalIsFinal | internal/domain/operation/transition.go:25-27 | COMPLETED and CANCELLED are never left |
| OperationStatus.CompletedWentThroughPipeline | internal/domain/operation/transition.go:39-63 | a completed operation was queued, dispatched, transferring, transferred and processing, in this order |
| OperationRepository.Repository.CreateRow | internal/infrastructure/mariadb/repositories/operation_repository.go:21-52 | inserts unless the id exists |
| OperationRepository.Repository.UpdateRow | internal/infrastructure/mariadb/repositories/operation_repository.go:166-194 | compare-and-set on version - 1, silent when nothing matches; which columns are taken from the copy and which from the row |
| OperationRepository.Repository.TransitionRow | internal/infrastructure/mariadb/repositories/operation_repository.go:196-231 | takes effect iff id, status and version match, then changes status, stage, time and version, and returns the new row |
| OperationUseCases.CreateOperation | internal/application/operations/create.go:67-89 | each field of the initial row; a budget of three unless a positive one is asked for |
| OperationUseCases.UploadFile | internal/application/operations/file.go:70-142 | each refusal exactly when; otherwise the body replaces the staged file, and size and digest recorded are those of the body |
| OperationUseCases.CancelOperation | internal/application/operations/cancel.go:50-79 | refused exactly in terminal states, otherwise sets cancel time, update time and version, and no other field |
| OperationUseCases.RetryOperation | internal/application/operations/retry.go:60-136 | refused exactly outside FAILED/TIMEOUT or without budget; otherwise one charge, two versions, new job and attempt, cancel and error cleared; if job or attempt cannot be stored the charged row stays, with no job, attempt or transfer |
| OperationUseCases.DispatchOperation | internal/application/operations/dispatch.go:80-100 | no step without an input file; otherwise DISPATCHED whatever the status, with the new job and attempt, other fields kept |
| OperationUseCases.HandleOutcome | internal/app/role.go:391-431 | an event handler leaves the table unchanged even when undisturbed, and goes on with a copy that shows outcome, stage and error |
| OperationRaces.SingleBumpWrite | internal/infrastructure/mariadb/repositories/operation_repository.go:166-191 | a single-bump write takes effect iff the row is the one read |
| OperationRaces.HandlerWrite | internal/app/role.go:404-409 | a handler's copy never matches a row |
| OperationRaces.RetrySecondWrite | internal/application/operations/retry.go:130-136 | Retry's second write takes effect iff the row is the direct successor of what it read, whoever wrote it |
| OperationRaces.RunKeepsInv | internal/infrastructure/mariadb/repositories/operation_repository.go:112-231 | histories, rows and pending copies stay consistent over every interleaving |
| OperationHistory.StepEffect | internal/infrastructure/mariadb/repositories/operation_repository.go:166-203 | each step leaves a row alone or puts its next version, with at most one more retry |
| OperationHistory.VersionNamesContent | internal/infrastructure/mariadb/repositories/operation_repository.go:166-203 | in every run a version names one row content and versions never go down |
| OperationHistory.SingleBumpIsAtomic | internal/application/operations/file.go:135-142 | Upload, Dispatch, Cancel and Retry's first write replace exactly the row they read, or nothing |
| OperationHistory.EffectiveWriteFields | internal/application/operations/cancel.go:72-79 | in every run, the fields an effective Upload, Dispatch, Cancel or first Retry write changes, from which row, and that it changes no others |
| OperationHistory.SecondRetryWriteFields | internal/application/operations/retry.go:130-136 | what an effective second Retry write puts in the place of whatever row was there |
| OperationHistory.TransitionFields | internal/infrastructure/mariadb/repositories/operation_repository.go:196-231 | a transition takes effect iff id, status and version match, and what it changes |
| OperationHistory.ReadFields | internal/application/operations/retry.go:60-77 | a use case starts iff its row is there and passes its guard, with a copy of that row |
| OperationHistory.CreateFields | internal/application/operations/create.go:67-89 | the row a Create step adds, iff the id is new |
| OperationHistory.HandlersNeverWrite | internal/app/role.go:433-608 | the event handlers never change the table |
| OperationHistory.RetryBudget | internal/application/operations/retry.go:74-94 | 0 <= RetryCount <= MaxAttempts in all races, and each write adds at most one |
| OperationHistory.StageAgreesWithStatus | internal/infrastructure/mariadb/repositories/operation_repository.go:333-358 | every reachable row has the stage of its status |
| OperationHistory.WritesVersusGuard | internal/application/operations/dispatch.go:256-265 | exactly which effective writes make a change the status table accepts |
| OperationHistory.CancelRequestStep | internal/application/operations/cancel.go:72-79 | a cancel request is set by effective Cancel writes, erased by effective Retry writes, and otherwise kept |
| OperationHistory.CancelRequestKept | internal/application/operations/cancel.go:72-79 | in every interleaving a recorded request survives all writes but Retry's |
| OperationHistory.RetryOverwritesCancel | internal/application/operations/retry.go:84-136 | the lost update: Retry's second write replaces a cancel it has not seen, whatever the three clocks read |
| OperationHistory.RetryReplacesUnseenIff | internal/application/operations/retry.go:92-136 | with anything between the two writes: the second replaces a row Retry neither read nor wrote iff the first matched nothing and the row is one version past the one read |
| OperationHistory.LostCancelIsReachable | internal/application/operations/retry.go:60-94 | the lost cancel happens in a run from the empty table |
| OperationHistory.DispatchOfCancelledIsReachable | internal/application/operations/dispatch.go:92-100 | a run from the empty table in which Dispatch puts a cancelled operation to DISPATCHED |
| OperationLifecycle.PersistedChangesAreGuarded | internal/domain/operation/transition.go:20-63 | without Transition each persisted status change is allowed, and past CREATED the input file is there and fixed |
| OperationLifecycle.StatusOnlyMovesForward | internal/application/operations/file.go:79-142 | over any run of the existing callers the status only moves forward CREATED, QUEUED, DISPATCHED |
| UploadRaces.RecordedOnce | internal/application/operations/file.go:135-142 | at most one of several overlapping uploads is ever recorded, its size and digest stay in the row, and no upload is admitted afterwards |
| UploadRaces.StagedMatchesRecordedIff | internal/application/operations/file.go:122-142 | in each run: staged file and recorded body agree iff the last body moved into place is the recorded one |
| UploadRaces.StagedMatchesRowIff | internal/application/operations/file.go:122-142 | the staged file is the recorded one in all interleavings iff no two uploads differ |
| KeysetPaging.List | internal/infrastructure/mariadb/repositories/operation_repository.go:233-277 | one page: the rows that meet status, processor and cursor, ascending, at most limit (50 if not positive), nothing left out before a full page ends |
| KeysetPaging.LessExactly | internal/infrastructure/mariadb/repositories/operation_repository.go:256-261 | ids are ordered by their first difference, a proper prefix first |
| KeysetPaging.PageUnique | internal/infrastructure/mariadb/repositories/operation_repository.go:256-261 | that description determines the page |
| KeysetPaging.NoRowTwice | internal/infrastructure/mariadb/repositories/operation_repository.go:251-261 | no row is returned twice and order is kept across pages, while the table changes |
| KeysetPaging.SteadyRowsAreListed | internal/infrastructure/mariadb/repositories/operation_repository.go:251-261 | every row present and selected throughout is returned |
| KeysetPaging.FixedTableListedExactly | internal/infrastructure/mariadb/repositories/operation_repository.go:233-277 | over a fixed table exactly the selected rows are returned, each once, in order |
| KeysetPaging.FullPagesAreBounded | internal/infrastructure/mariadb/repositories/operation_repository.go:256-261 | paging over a fixed table ends |
| WorkerGate.TransferNamesItsOperation | internal/app/role.go:610-621 | a transfer id contains an operation id iff it is its own operation's |
| WorkerGate.BlockedExactly | internal/app/role.go:610-635 | the check waits iff a transfer of that operation is active |
| WorkerGate.VerifiedRemovesOwnTransfers | internal/app/role.go:560-572 | a verification event removes its operation's transfers and no others |
| WorkerGate.GateHolds | internal/app/role.go:264-287 | with a registered transfer an operation does not reach its success event without its verification |
| WorkerGate.ShutIffOutstanding | internal/app/role.go:560-635 | after any events the check makes an operation wait iff some registration of its transfers has no later verification event |
| WorkerGate.CanSucceedIff | internal/app/role.go:215-287 | between commands, an operation can still succeed without a further verification iff no registration is outstanding |
| WorkerGate.SuccessNeedsVerification | internal/app/role.go:215-218 | every success after a registration is preceded by that operation's verification event |
| WorkerGate.CommandsEndOnce | internal/app/role.go:222-299 | every command taken up is in progress, brought exactly one success event, or was given up; success events come from nothing else |
| WorkerGate.LateRegistrationBlocksForever | internal/app/role.go:195-219 | a registration not followed by a verification leaves the gate shut whatever came before, also a verification that overtook it |
| WorkerGate.RoleManager.HandleWorkerTransferVerified | internal/app/role.go:563-572 | the deleting loop removes exactly the matching transfers |
| WorkerGate.RoleManager.HasActiveTransfer | internal/app/role.go:612-621 | the search loop finds a match iff there is one |
| Indexer.NothingLost | internal/infrastructure/elasticsearch/indexer.go:66-107 | each document is in exactly one of channel, hands, index, dead letters; at most 1000 in the channel |
| Indexer.AnswersDecide | internal/infrastructure/elasticsearch/indexer.go:85-103 | a document is indexed once per acceptance by the server, and dead-lettered once per refusal and per submission to a full channel |
| Indexer.FirstInFirstOut | internal/infrastructure/elasticsearch/indexer.go:66-103 | workers receive documents in the order in which they entered the channel |
| Indexer.AllGoneMeansStranded | internal/infrastructure/elasticsearch/indexer.go:140-152 | with all workers gone the channel holds exactly what arrived since the last one left |
| Indexer.StopDrainsIff | internal/infrastructure/elasticsearch/indexer.go:79-83 | with all workers gone, the channel is empty iff no Index call came after the last worker had gone, in every run |
| Indexer.StopDrains | internal/infrastructure/elasticsearch/indexer.go:79-103 | with a worker serving when Stop is called, everything submitted before is indexed or dead-lettered when Stop returns, whatever Index calls come meanwhile or later |
| Indexer.StopCanReturn | internal/infrastructure/elasticsearch/indexer.go:79-103 | once closed, or with the context ended, there is always a way for all workers to leave with no further Index call, and the channel is then empty if a worker was left |
| Indexer.IndexDuringStop | internal/app/app.go:111-115 | a run under a context that never ends in which a document indexed during Stop stays in the channel for ever |
| Indexer.AsyncIndexer.Submit | internal/infrastructure/elasticsearch/indexer.go:66-77 | the Index step: a send that never waits; a full channel diverts to the dead letters |
| Indexer.AsyncIndexer.Drain | internal/infrastructure/elasticsearch/indexer.go:140-152 | the loop is the run of its single steps: an undisturbed drain empties the channel in order |
| Indexer.DrainEffect | internal/infrastructure/elasticsearch/indexer.go:140-152 | that run of steps indexes what the server accepts, buries the rest, and ends the worker |
| Indexer.KeptPartition | internal/infrastructure/elasticsearch/indexer.go:140-152 | drained documents are indexed or dead-lettered, none dropped |

## Left out

- HTTP handlers, router, middleware, configuration, bootstrap: plumbing.
- The NATS client, MariaDB and the file system appear only as a stream of messages, tables with atomic statements, and byte strings. Reads are full; a write fails only for a negative offset; sync, stat, seek and close succeed; each SQL statement is atomic.
- The database row of a transfer and the verification event it publishes: `FinalizeTransfer` cancels the context it then uses for the row update, so the results speak of the seal (file closed, status COMPLETED in memory).
- Integer overflow of `fileSize + chunkSize - 1`, of row versions and of chunk counts; header numbers are modelled with their 64-bit range.
- Blanks in header numbers other than space, tab and carriage return; collations other than character order for ids.
- The staged file a sender reads is taken to be unchanged while it sends.
- A second START_TRANSFER for the same transfer at the same time: one receiver per transfer is assumed. An earlier receiver's leftovers are covered by the `prior` content of the staging file.
- The payload slice of the reused read buffer is copied into the message, as the client does before a publish returns.
- Commands are handled one at a time by the worker's command consumer; verification events at any time. Whether the worker's wait loop ever ends is not stated.
- Decoding of events: their JSON names do not match the decoder's, so handlers are modelled as called with decoded fields.
- Statuses outside the ten constants, error details, attempt numbers and uniqueness of generated ids.
- The idempotency cache and `CountReceived`.
- Heartbeats, node registry, worker selection, document building, result lookup, deadlines and leases.
- The indexer's `buffer` and its flusher: nothing is ever put into the buffer.
- OperationUseCases.DispatchOperation: models the row read and written, not the published commands, which `ChunkSender` and `ChunkMessages` cover.
- UploadRaces.RecordedOnce: no `Transition` steps, which no caller makes; one of them could put a row back to CREATED and admit another upload. The same holds of the other members of `UploadRaces`.
