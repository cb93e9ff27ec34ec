/**
 The use cases in the order of their statements, each run without interference: load the row, check
 the guard, edit the copy field by field, write it back. `OperationRaces` interleaves the same reads
 and writes.
 */
module OperationUseCases {
  import opened Common
  import opened OperationStatus
  import opened OperationRepository
  import opened OperationEdits

  datatype Outcome =
    | OperationNotFound
    | InvalidState
    | TooLarge
    | DigestMismatch
    | NilInputFile       // the process panics
    | CreateFailed       // the job or the attempt could not be stored
    | Done(op: Operation)

  /** Rows are stored under their own id, in the form they are read back. */
  predicate WellStored(t: Table) {
    forall id :: id in t ==> t[id].id == id && StoredError(t[id].error) == t[id].error
  }

  /** The staged input files, by operation. */
  class StagingArea {
    var files: map<string, Bytes>

    constructor ()
      ensures files == map[]
    {
      files := map[];
    }
  }

  datatype Attempt = Attempt(jobId: string, operationId: string, attemptNumber: int)

  /** The tables of jobs (with their operation) and attempts; an insert may fail. */
  class JobTables {
    var jobs: map<string, string>
    var attempts: map<string, Attempt>

    constructor ()
      ensures jobs == map[] && attempts == map[]
    {
      jobs, attempts := map[], map[];
    }

    method CreateJob(id: string, operationId: string, fails: bool) returns (ok: bool)
      modifies this`jobs
      ensures ok == !fails
      ensures jobs == if ok then old(jobs)[id := operationId] else old(jobs)
    {
      if !fails {
        jobs := jobs[id := operationId];
      }
      return !fails;
    }

    method CreateAttempt(id: string, attempt: Attempt, fails: bool) returns (ok: bool)
      modifies this`attempts
      ensures ok == !fails
      ensures attempts == if ok then old(attempts)[id := attempt] else old(attempts)
    {
      if !fails {
        attempts := attempts[id := attempt];
      }
      return !fails;
    }
  }

  method CreateOperation(repo: Repository, id: string, processor: string, policy: Option<int>, clientReference: string,
                         deadline: Option<int>, now: int)
    returns (created: bool)
    requires WellStored(repo.rows)
    modifies repo
    ensures WellStored(repo.rows)
    ensures created == (id !in old(repo.rows))
    ensures created ==> repo.rows == old(repo.rows)[id := NewOperation(id, processor, policy, clientReference, deadline, now)]
    ensures created ==>
              var maxAttempts := if policy.Some? && policy.value > 0 then policy.value else 3;
              repo.rows[id] == Operation(id, Header(processor, maxAttempts, clientReference, now, deadline), Created,
                                         WaitingForUpload, 0, now, None, Execution(None, None, None), None, None, 1)
    ensures !created ==> repo.rows == old(repo.rows)
  {
    var maxAttempts := 3;
    if policy.Some? && policy.value > 0 {
      maxAttempts := policy.value;
    }
    created := repo.CreateRow(Operation(id, Header(processor, maxAttempts, clientReference, now, deadline), Created,
                                        WaitingForUpload, 0, now, None, Execution(None, None, None), None, None, 1));
  }

  /**
   The body is read through a reader limited to one byte more than allowed, so an upload is refused
   exactly when it is too large, and otherwise the recorded size and digest are those of the body, which
   has replaced the staged file. A refused body leaves the staged file alone.
   */
  method UploadFile(repo: Repository, staging: StagingArea, sha: Digest, id: string, body: Bytes, digest: string, fileName: string,
                    maxFileSize: nat, now: int)
    returns (r: Outcome)
    requires WellStored(repo.rows)
    modifies repo, staging
    ensures WellStored(repo.rows)
    ensures r == OperationNotFound <==> id !in old(repo.rows)
    ensures r == InvalidState <==> id in old(repo.rows) && old(repo.rows)[id].status != Created
    ensures id in old(repo.rows) ==> (r.InvalidState? <==> !UploadAdmitted(old(repo.rows)[id]))
    ensures r == TooLarge <==> id in old(repo.rows) && old(repo.rows)[id].status == Created && maxFileSize < |body|
    ensures r.Done? <==> id in old(repo.rows) && old(repo.rows)[id].status == Created && |body| <= maxFileSize
                         && (digest == "" || digest == "SHA-256=" + sha(body))
    ensures r.Done? ==>
              repo.rows == old(repo.rows)[id := UploadEdit(old(repo.rows)[id], InputFile(|body|, sha(body), fileName), now)]
    ensures r.Done? ==>
              && repo.rows[id] == old(repo.rows)[id].(inputFile := Some(InputFile(|body|, sha(body), fileName)), status := Queued,
                                                      stage := StageQueued, updatedAt := now,
                                                      version := old(repo.rows)[id].version + 1)
              && r.op == repo.rows[id]
    ensures !r.Done? ==> repo.rows == old(repo.rows)
    ensures staging.files == if r.Done? then old(staging.files)[id := body] else old(staging.files)
  {
    var loaded := repo.GetByID(id);
    if loaded.None? {
      return OperationNotFound;
    }
    var op := loaded.value;
    if op.status != Created {
      return InvalidState;
    }
    var ingested := if |body| > maxFileSize + 1 then body[..maxFileSize + 1] else body;
    var n := |ingested|;
    if n > maxFileSize {
      return TooLarge;
    }
    var sum := sha(ingested);
    if digest != "" && digest != "SHA-256=" + sum {
      return DigestMismatch;
    }
    staging.files := staging.files[id := ingested];
    op := op.(inputFile := Some(InputFile(n, sum, fileName)));
    op := op.(status := Queued, stage := StageQueued, updatedAt := now);
    op := op.(version := op.version + 1);
    repo.UpdateRow(op);
    return Done(op);
  }

  method CancelOperation(repo: Repository, id: string, now: int) returns (r: Outcome)
    requires WellStored(repo.rows)
    modifies repo
    ensures WellStored(repo.rows)
    ensures r == OperationNotFound <==> id !in old(repo.rows)
    ensures r == InvalidState <==> id in old(repo.rows) && old(repo.rows)[id].status in {Completed, Cancelled}
    ensures id in old(repo.rows) ==> (r.Done? <==> CancelAdmitted(old(repo.rows)[id]))
    ensures r.OperationNotFound? || r.InvalidState? || r.Done?
    ensures repo.rows == if r.Done? then old(repo.rows)[id := CancelEdit(old(repo.rows)[id], now)] else old(repo.rows)
    ensures r.Done? ==>
              && repo.rows[id] == old(repo.rows)[id].(cancelRequestedAt := Some(now), updatedAt := now,
                                                      version := old(repo.rows)[id].version + 1)
              && r.op == repo.rows[id]
  {
    var loaded := repo.GetByID(id);
    if loaded.None? {
      return OperationNotFound;
    }
    var op := loaded.value;
    if op.status == Completed || op.status == Cancelled {
      return InvalidState;
    }
    op := op.(cancelRequestedAt := Some(now), updatedAt := now);
    op := op.(version := op.version + 1);
    repo.UpdateRow(op);
    return Done(op);
  }

  /**
   Undisturbed, Retry charges one attempt, requeues the row, stores a job and an attempt, and counts the
   version up twice. If the job or the attempt cannot be stored, the charged row stays without them.
   */
  method RetryOperation(repo: Repository, tables: JobTables, id: string, job: string, attempt: string,
                        jobFails: bool, attemptFails: bool, now: int)
    returns (r: Outcome)
    requires WellStored(repo.rows)
    modifies repo, tables
    ensures WellStored(repo.rows)
    ensures r == OperationNotFound <==> id !in old(repo.rows)
    ensures r == InvalidState <==>
              id in old(repo.rows) && (old(repo.rows)[id].status !in {Failed, Timeout}
                                       || old(repo.rows)[id].header.maxAttempts <= old(repo.rows)[id].retryCount)
    ensures id in old(repo.rows) ==> (r.InvalidState? <==> !RetryAdmitted(old(repo.rows)[id]))
    ensures r == CreateFailed <==> id in old(repo.rows) && RetryAdmitted(old(repo.rows)[id]) && (jobFails || attemptFails)
    ensures r.OperationNotFound? || r.InvalidState? || r.CreateFailed? || r.Done?
    ensures repo.rows == if r.Done? then old(repo.rows)[id := RetryAttach(RetryEdit(old(repo.rows)[id], now), job, attempt)]
                         else if r.CreateFailed? then old(repo.rows)[id := RetryEdit(old(repo.rows)[id], now)]
                         else old(repo.rows)
    ensures tables.jobs == if r.Done? || (r.CreateFailed? && !jobFails) then old(tables.jobs)[job := id] else old(tables.jobs)
    ensures tables.attempts == if r.Done? then old(tables.attempts)[attempt := Attempt(job, id, repo.rows[id].retryCount)]
                               else old(tables.attempts)
    ensures r.CreateFailed? ==>
              var before := old(repo.rows)[id];
              repo.rows[id] == before.(retryCount := before.retryCount + 1, status := Queued, stage := StageQueued,
                                       updatedAt := now, current := Execution(None, None, None), cancelRequestedAt := None,
                                       error := None, version := before.version + 1)
    ensures r.Done? ==>
              var before := old(repo.rows)[id];
              && repo.rows[id] == before.(retryCount := before.retryCount + 1, status := Queued, stage := StageQueued,
                                          updatedAt := now, current := Execution(Some(job), Some(attempt), None),
                                          cancelRequestedAt := None, error := None, version := before.version + 2)
              && r.op == repo.rows[id]
    ensures r.Done? || r.CreateFailed? ==> repo.rows[id].retryCount <= repo.rows[id].header.maxAttempts
  {
    var loaded := repo.GetByID(id);
    if loaded.None? {
      return OperationNotFound;
    }
    var op := loaded.value;
    if op.status != Failed && op.status != Timeout {
      return InvalidState;
    }
    if op.retryCount >= op.header.maxAttempts {
      return InvalidState;
    }
    op := op.(retryCount := op.retryCount + 1);
    op := op.(status := Queued, stage := StageQueued, updatedAt := now);
    op := op.(version := op.version + 1);
    op := op.(current := Execution(None, None, None), cancelRequestedAt := None, error := None);
    repo.UpdateRow(op);
    assert repo.rows == old(repo.rows)[id := op] && op == RetryEdit(old(repo.rows)[id], now);
    var jobStored := tables.CreateJob(job, id, jobFails);
    if !jobStored {
      return CreateFailed;
    }
    var attemptStored := tables.CreateAttempt(attempt, Attempt(job, id, op.retryCount), attemptFails);
    if !attemptStored {
      return CreateFailed;
    }
    op := op.(current := op.current.(jobId := Some(job), attemptId := Some(attempt)));
    op := op.(version := op.version + 1);
    repo.UpdateRow(op);
    return Done(op);
  }

  /** The row half of `DispatchOperationUseCase.Execute`; whatever the status, only the input file is needed. */
  method DispatchOperation(repo: Repository, id: string, job: string, attempt: string, now: int) returns (r: Outcome)
    requires WellStored(repo.rows)
    modifies repo
    ensures WellStored(repo.rows)
    ensures r == OperationNotFound <==> id !in old(repo.rows)
    ensures r == NilInputFile <==> id in old(repo.rows) && old(repo.rows)[id].inputFile.None?
    ensures id in old(repo.rows) ==> (r.Done? <==> DispatchAdmitted(old(repo.rows)[id]))
    ensures r.OperationNotFound? || r.NilInputFile? || r.Done?
    ensures repo.rows == if r.Done? then old(repo.rows)[id := DispatchEdit(old(repo.rows)[id], job, attempt, now)]
                         else old(repo.rows)
    ensures r.Done? ==>
              var before := old(repo.rows)[id];
              && repo.rows[id] == before.(status := Dispatched, stage := WaitingForAck, updatedAt := now,
                                          current := Execution(Some(job), Some(attempt), before.current.transferId),
                                          version := before.version + 1)
              && r.op == repo.rows[id]
  {
    var loaded := repo.GetByID(id);
    if loaded.None? {
      return OperationNotFound;
    }
    var op := loaded.value;
    if op.inputFile.None? {
      return NilInputFile;
    }
    op := op.(status := Dispatched, stage := WaitingForAck, updatedAt := now);
    op := op.(current := op.current.(jobId := Some(job), attemptId := Some(attempt)));
    op := op.(version := op.version + 1);
    repo.UpdateRow(op);
    return Done(op);
  }

  /**
   Even undisturbed, an event handler leaves the table as it was: its copy still carries the row's own
   version. It goes on with the edited copy, which the coordinator hands to the indexer.
   */
  method HandleOutcome(repo: Repository, id: string, outcome: Status, now: int) returns (r: Outcome)
    requires WellStored(repo.rows) && HandlerOutcome(outcome)
    modifies repo
    ensures repo.rows == old(repo.rows)
    ensures r == if id in repo.rows then Done(HandlerEdit(repo.rows[id], outcome, now)) else OperationNotFound
    ensures r.Done? ==>
              var row := repo.rows[id];
              && r.op == row.(status := outcome, updatedAt := now, stage := r.op.stage, error := r.op.error)
              && r.op.stage == (match outcome
                                case Completed => StageCompleted
                                case Failed => StageFailed
                                case Cancelled => StageCancelled
                                case _ => Verifying)
              && r.op.error == if outcome == Failed then Some(OperationError("PROCESSING_FAILED", "Worker reported processing failure"))
                               else row.error
  {
    var loaded := repo.GetByID(id);
    if loaded.None? {
      return OperationNotFound;
    }
    var op := loaded.value;
    op := op.(status := outcome, stage := StageForStatus(outcome), updatedAt := now);
    if outcome == Failed {
      op := op.(error := Some(OperationError("PROCESSING_FAILED", "Worker reported processing failure")));
    }
    repo.UpdateRow(op);
    return Done(op);
  }
}
