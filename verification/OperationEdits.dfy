/** What each use case does to the copy of the operation row it has read. */
module OperationEdits {
  import opened Common
  import opened OperationStatus
  import opened OperationRepository

  /** `CreateOperationUseCase.Execute`: the initial row; a non-positive policy leaves the budget at 3. */
  function NewOperation(id: string, processor: string, policy: Option<int>, clientReference: string,
                        deadline: Option<int>, now: int): Operation {
    var maxAttempts := if policy.Some? && policy.value > 0 then policy.value else 3;
    Operation(id, Header(processor, maxAttempts, clientReference, now, deadline), Created, WaitingForUpload, 0, now,
              None, Execution(None, None, None), None, None, 1)
  }

  /** `FileOperationUseCase.Execute`. */
  function UploadEdit(op: Operation, file: InputFile, now: int): Operation {
    op.(inputFile := Some(file), status := Queued, stage := StageQueued, updatedAt := now, version := op.version + 1)
  }

  /** `DispatchOperationUseCase.Execute`. */
  function DispatchEdit(op: Operation, job: string, attempt: string, now: int): Operation {
    op.(status := Dispatched, stage := WaitingForAck, updatedAt := now,
        current := op.current.(jobId := Some(job), attemptId := Some(attempt)), version := op.version + 1)
  }

  /** `CancelOperationUseCase.Execute`. */
  function CancelEdit(op: Operation, now: int): Operation {
    op.(cancelRequestedAt := Some(now), updatedAt := now, version := op.version + 1)
  }

  /** `RetryOperationUseCase.Execute`, before its first `Update`. */
  function RetryEdit(op: Operation, now: int): Operation {
    op.(retryCount := op.retryCount + 1, status := Queued, stage := StageQueued, updatedAt := now,
        version := op.version + 1, current := Execution(None, None, None), cancelRequestedAt := None,
        error := None)
  }

  /** The same copy before the second `Update`. */
  function RetryAttach(charged: Operation, job: string, attempt: string): Operation {
    charged.(current := charged.current.(jobId := Some(job), attemptId := Some(attempt)), version := charged.version + 1)
  }

  /** The event handlers of `internal/app/role.go` overwrite status and stage and do not count the version up. */
  function HandlerEdit(op: Operation, outcome: Status, now: int): Operation {
    var edited := op.(status := outcome, stage := StageForStatus(outcome), updatedAt := now);
    if outcome == Failed then
      edited.(error := Some(OperationError("PROCESSING_FAILED", "Worker reported processing failure")))
    else edited
  }

  // ----- the guards evaluated on the copy -----

  predicate UploadAdmitted(op: Operation) {
    op.status == Created
  }

  /** `Execute` has no status guard, but it dereferences the input file. */
  predicate DispatchAdmitted(op: Operation) {
    op.inputFile.Some?
  }

  predicate CancelAdmitted(op: Operation) {
    op.status != Completed && op.status != Cancelled
  }

  predicate RetryAdmitted(op: Operation) {
    (op.status == Failed || op.status == Timeout) && op.retryCount < op.header.maxAttempts
  }

  predicate HandlerOutcome(s: Status) {
    s in {Completed, Failed, Cancelled, Transferred}
  }
}
