/**
 The statuses of an operation and the table of `TransitionGuard` in
 `internal/domain/operation/transition.go`.
 */
module OperationStatus {
  datatype Status =
    | Created | Queued | Dispatched | Transferring | Transferred | Processing
    | Completed | Failed | Timeout | Cancelled

  datatype Stage =
    | WaitingForUpload | StageQueued | WaitingForAck | StageTransferring | Verifying | StageProcessing
    | StageCompleted | StageFailed | StageTimeout | StageCancelled

  /** `stageForStatus` of the operation repository. */
  function StageForStatus(s: Status): Stage {
    match s
    case Created => WaitingForUpload
    case Queued => StageQueued
    case Dispatched => WaitingForAck
    case Transferring => StageTransferring
    case Transferred => Verifying
    case Processing => StageProcessing
    case Completed => StageCompleted
    case Failed => StageFailed
    case Timeout => StageTimeout
    case Cancelled => StageCancelled
  }

  /** The status and stage constants of `internal/domain/operation/operation.go`. */
  function StatusName(s: Status): string {
    match s
    case Created => "CREATED"
    case Queued => "QUEUED"
    case Dispatched => "DISPATCHED"
    case Transferring => "TRANSFERRING"
    case Transferred => "TRANSFERRED"
    case Processing => "PROCESSING"
    case Completed => "COMPLETED"
    case Failed => "FAILED"
    case Timeout => "TIMEOUT"
    case Cancelled => "CANCELLED"
  }

  function StageName(s: Stage): string {
    match s
    case WaitingForUpload => "WAITING_FOR_UPLOAD"
    case StageQueued => "QUEUED"
    case WaitingForAck => "WAITING_FOR_ACK"
    case StageTransferring => "TRANSFERRING"
    case Verifying => "VERIFYING"
    case StageProcessing => "PROCESSING"
    case StageCompleted => "COMPLETED"
    case StageFailed => "FAILED"
    case StageTimeout => "TIMEOUT"
    case StageCancelled => "CANCELLED"
  }

  /**
   A stage bears the name of its status, except where the operation waits for something: for its upload,
   for the worker's acknowledgement, for the verification. No two statuses share a stage.
   */
  lemma StageNamesStatus(s: Status, t: Status)
    ensures StageName(StageForStatus(s)) == match s
                                            case Created => "WAITING_FOR_UPLOAD"
                                            case Dispatched => "WAITING_FOR_ACK"
                                            case Transferred => "VERIFYING"
                                            case _ => StatusName(s)
    ensures StageForStatus(s) == StageForStatus(t) ==> s == t
  {
    match s
    case Created =>
    case _ =>
  }

  /** The table; the source searches its rows for the target status. */
  function ValidTargets(from: Status): set<Status> {
    match from
    case Created => {Queued, Cancelled}
    case Queued => {Dispatched, Cancelled}
    case Dispatched => {Transferring, Timeout, Failed, Cancelled}
    case Transferring => {Transferred, Timeout, Failed, Cancelled}
    case Transferred => {Processing, Timeout, Cancelled}
    case Processing => {Completed, Failed, Timeout, Cancelled}
    case Failed => {Queued, Failed, Timeout, Cancelled}
    case Timeout => {Queued, Failed, Timeout, Cancelled}
    case Completed => {}
    case Cancelled => {}
  }

  datatype Verdict = Allowed | Terminal | RetryNotAllowed | NotAllowed

  function CanTransition(from: Status, to: Status, isRetry: bool): Verdict {
    if from == to then Allowed
    else if from == Completed || from == Cancelled then Terminal
    else if isRetry && from != Failed && from != Timeout then RetryNotAllowed
    else if to in ValidTargets(from) then Allowed
    else NotAllowed
  }

  // ----- runs the guard accepts -----

  /** The guard accepts the step, as a retry or not. */
  predicate Accepts(a: Status, b: Status) {
    CanTransition(a, b, false) == Allowed || CanTransition(a, b, true) == Allowed
  }

  /** The table read the other way: the statuses a status may be entered from. */
  function Sources(to: Status): set<Status> {
    match to
    case Created => {}
    case Queued => {Created, Failed, Timeout}
    case Dispatched => {Queued}
    case Transferring => {Dispatched}
    case Transferred => {Transferring}
    case Processing => {Transferred}
    case Completed => {Processing}
    case Failed => {Dispatched, Transferring, Processing, Failed, Timeout}
    case Timeout => {Dispatched, Transferring, Transferred, Processing, Failed, Timeout}
    case Cancelled => {Created, Queued, Dispatched, Transferring, Transferred, Processing, Failed, Timeout}
  }

  /**
   Staying is always accepted, and any other change exactly from a listed source; as a retry only from a
   failure. The run properties below look at a run from its end, so they use this reading.
   */
  lemma TableInverse(a: Status, b: Status)
    ensures Accepts(a, b) <==> a == b || a in Sources(b)
    ensures CanTransition(a, b, false) == Allowed <==> a == b || a in Sources(b)
    ensures CanTransition(a, b, true) == Allowed <==> a == b || (a in Sources(b) && a in {Failed, Timeout})
  {
    match a
    case Created =>
    case _ =>
  }

  /** Which refusal is returned: a terminal status first, then a retry of something that has not failed, then the table. */
  lemma RefusalExactly(a: Status, b: Status, isRetry: bool)
    ensures CanTransition(a, b, isRetry) == Terminal <==> a != b && a in {Completed, Cancelled}
    ensures CanTransition(a, b, isRetry) == RetryNotAllowed
       <==> a != b && isRetry && a !in {Completed, Cancelled, Failed, Timeout}
    ensures CanTransition(a, b, isRetry) == NotAllowed
       <==> a != b && a !in Sources(b) && (if isRetry then a in {Failed, Timeout} else a !in {Completed, Cancelled})
  {
    TableInverse(a, b);
  }

  /** A run from CREATED each step of which the guard accepts, as a retry or not. */
  ghost predicate Guarded(path: seq<Status>) {
    && path != [] && path[0] == Created
    && forall k :: 0 < k < |path| ==> Accepts(path[k - 1], path[k])
  }

  /** How many steps of the run change the status to `s`. */
  function Entries(path: seq<Status>, s: Status): nat {
    if |path| < 2 then 0
    else
      var a, b := path[|path| - 2], path[|path| - 1];
      Entries(path[..|path| - 1], s) + if a != s && b == s then 1 else 0
  }

  predicate IsRequeue(a: Status, b: Status) {
    (a == Failed || a == Timeout) && b == Queued
  }

  /** How many steps of the run take a failed or timed-out operation back to the queue. */
  function Requeues(path: seq<Status>): nat {
    if |path| < 2 then 0
    else
      Requeues(path[..|path| - 1]) + if IsRequeue(path[|path| - 2], path[|path| - 1]) then 1 else 0
  }

  /** A dispatch is owed for each arrival in the queue, and the queue is entered from failures or from CREATED. */
  lemma {:induction false} DispatchCredit(path: seq<Status>)
    requires Guarded(path)
    ensures Entries(path, Dispatched) + (if path[|path| - 1] in {Created, Queued} then 1 else 0) <= 1 + Requeues(path)
  {
    if |path| >= 2 {
      DispatchCredit(path[..|path| - 1]);
      TableInverse(path[|path| - 2], path[|path| - 1]);
    }
  }

  /** DISPATCHED is entered at most once more than the operation is requeued after a failure. */
  lemma DispatchBound(path: seq<Status>)
    requires Guarded(path)
    ensures Entries(path, Dispatched) <= 1 + Requeues(path)
  {
    DispatchCredit(path);
  }

  /** CREATED is never entered again. */
  lemma {:induction false} CreatedOnlyFirst(path: seq<Status>, j: nat, k: nat)
    requires Guarded(path) && j <= k < |path| && path[k] == Created
    ensures path[j] == Created
    decreases k
  {
    if j < k {
      TableInverse(path[k - 1], path[k]);
      CreatedOnlyFirst(path, j, k - 1);
    }
  }

  /** COMPLETED and CANCELLED are never left. */
  lemma {:induction false} TerminalIsFinal(path: seq<Status>, j: nat, k: nat)
    requires Guarded(path) && j <= k < |path| && path[j] in {Completed, Cancelled}
    ensures path[k] == path[j]
    decreases k - j
  {
    if j < k {
      TerminalIsFinal(path, j, k - 1);
      TableInverse(path[k - 1], path[k]);
    }
  }

  /** Every status but CREATED was entered from a status that lists it. */
  lemma {:induction false} EnteredFrom(path: seq<Status>, k: nat) returns (j: nat)
    requires Guarded(path) && k < |path| && path[k] != Created
    ensures j < k && Accepts(path[j], path[k]) && path[j] != path[k]
    decreases k
  {
    if path[k - 1] == path[k] {
      j := EnteredFrom(path, k - 1);
    } else {
      j := k - 1;
    }
  }

  /** A completed operation has gone through the whole pipeline, in order. */
  lemma CompletedWentThroughPipeline(path: seq<Status>, k: nat) returns (q: nat, d: nat, t: nat, v: nat, p: nat)
    requires Guarded(path) && k < |path| && path[k] == Completed
    ensures q < d < t < v < p < k
    ensures path[q] == Queued && path[d] == Dispatched && path[t] == Transferring && path[v] == Transferred
            && path[p] == Processing
  {
    p := EnteredFrom(path, k);
    TableInverse(path[p], path[k]);
    v := EnteredFrom(path, p);
    TableInverse(path[v], path[p]);
    t := EnteredFrom(path, v);
    TableInverse(path[t], path[v]);
    d := EnteredFrom(path, t);
    TableInverse(path[d], path[t]);
    q := EnteredFrom(path, d);
    TableInverse(path[q], path[d]);
  }

  // ----- runs budgeted by Retry -----

  datatype Charged = Charged(status: Status, retryCount: nat)

  /** A step is a guarded status change that charges nothing, or a requeue that Retry pays for within the budget. */
  predicate ChargedStep(a: Charged, b: Charged, maxAttempts: nat) {
    && CanTransition(a.status, b.status, IsRequeue(a.status, b.status)) == Allowed
    && if IsRequeue(a.status, b.status) then a.retryCount < maxAttempts && b.retryCount == a.retryCount + 1
       else b.retryCount == a.retryCount
  }

  ghost predicate ChargedRun(run: seq<Charged>, maxAttempts: nat) {
    && run != [] && run[0] == Charged(Created, 0)
    && forall k :: 0 < k < |run| ==> ChargedStep(run[k - 1], run[k], maxAttempts)
  }

  function Statuses(run: seq<Charged>): seq<Status> {
    seq(|run|, i requires 0 <= i < |run| => run[i].status)
  }

  lemma {:induction false} RequeuesArePaid(run: seq<Charged>, maxAttempts: nat)
    requires ChargedRun(run, maxAttempts)
    ensures Requeues(Statuses(run)) == run[|run| - 1].retryCount <= maxAttempts
  {
    if |run| >= 2 {
      var init := run[..|run| - 1];
      RequeuesArePaid(init, maxAttempts);
      assert Statuses(run)[..|run| - 1] == Statuses(init);
      assert ChargedStep(run[|run| - 2], run[|run| - 1], maxAttempts);
    }
  }

  /** With every requeue paid for by a retry, an operation is dispatched at most `maxAttempts + 1` times. */
  lemma DispatchesWithinBudget(run: seq<Charged>, maxAttempts: nat)
    requires ChargedRun(run, maxAttempts)
    ensures Entries(Statuses(run), Dispatched) <= run[|run| - 1].retryCount + 1 <= maxAttempts + 1
  {
    var path := Statuses(run);
    forall k | 0 < k < |path|
      ensures Accepts(path[k - 1], path[k])
    {
      assert ChargedStep(run[k - 1], run[k], maxAttempts);
    }
    DispatchBound(path);
    RequeuesArePaid(run, maxAttempts);
  }
}
