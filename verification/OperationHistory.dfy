/**
 What holds in every interleaving of the use cases of `OperationRaces`, including `Transition` steps
 taken by anyone at any time.
 */
module OperationHistory {
  import opened Common
  import opened OperationStatus
  import opened OperationRepository
  import opened OperationEdits
  import opened OperationRaces

  lemma Reachable(steps: seq<Step>)
    ensures Inv(Run(EMPTY, steps))
  {
    RunKeepsInv(EMPTY, steps);
  }

  // ----- linear history -----

  /** Every step leaves a row alone or replaces it by its next version; the retry count grows by at most one. */
  lemma StepEffect(w: World, step: Step, id: string)
    requires Inv(w) && id in w.rows
    ensures var v := Apply(w, step);
            && id in v.rows
            && ((v.rows[id] == w.rows[id] && v.history[id] == w.history[id])
                || (Follows(w.rows[id], v.rows[id]) && v.history[id] == w.history[id] + [v.rows[id]]))
  {
    match step
    case WriteStep(pid, s) =>
      if Effective(w, pid, s) {
        WriteFollows(w, pid, s);
      }
    case _ =>
  }

  lemma {:induction false} HistoryGrows(w: World, steps: seq<Step>, k: nat, id: string)
    requires Inv(w) && k <= |steps| && id in Run(w, steps[..k]).rows
    ensures var u, v := Run(w, steps[..k]), Run(w, steps);
            id in v.rows && id in u.history && id in v.history && u.history[id] <= v.history[id]
    decreases |steps|
  {
    RunKeepsInv(w, steps[..k]);
    if k == |steps| {
      assert steps[..k] == steps;
    } else {
      var init := steps[..|steps| - 1];
      assert init[..k] == steps[..k];
      HistoryGrows(w, init, k, id);
      RunKeepsInv(w, init);
      StepEffect(Run(w, init), steps[|steps| - 1], id);
    }
  }

  lemma SameHistorySameVersion(w: World, v: World, id: string)
    requires RowsOk(w) && RowsOk(v) && id in w.rows && id in v.rows && w.history[id] <= v.history[id]
    ensures w.rows[id].version <= v.rows[id].version
    ensures v.rows[id].version == w.rows[id].version ==> v.rows[id] == w.rows[id]
  {
    TopVersion(w, id);
    TopVersion(v, id);
    assert RowAt(w, id) && RowAt(v, id);
  }

  /** Two observations of a row, the later one after `steps`, agree if they show the same version. */
  lemma LaterVersion(w: World, steps: seq<Step>, k: nat, id: string)
    requires Inv(w) && k <= |steps| && id in Run(w, steps[..k]).rows
    ensures var u, v := Run(w, steps[..k]), Run(w, steps);
            && id in v.rows && u.rows[id].version <= v.rows[id].version
            && (v.rows[id].version == u.rows[id].version ==> v.rows[id] == u.rows[id])
  {
    RunKeepsInv(w, steps[..k]);
    RunKeepsInv(w, steps);
    HistoryGrows(w, steps, k, id);
    SameHistorySameVersion(Run(w, steps[..k]), Run(w, steps), id);
  }

  /** A version names one row content: whenever a row is observed twice in a run at the same version, it is the same row. */
  lemma VersionNamesContent(steps: seq<Step>, j: nat, k: nat, id: string)
    requires j <= k <= |steps| && id in Run(EMPTY, steps[..j]).rows
    ensures var u, v := Run(EMPTY, steps[..j]), Run(EMPTY, steps[..k]);
            && id in v.rows && u.rows[id].version <= v.rows[id].version
            && (v.rows[id].version == u.rows[id].version ==> v.rows[id] == u.rows[id])
  {
    assert steps[..k][..j] == steps[..j];
    LaterVersion(EMPTY, steps[..k], j, id);
  }

  /**
   The write of Upload, Dispatch and Cancel, and the first write of Retry, takes effect exactly when
   the row still is the one that was read, and then it puts the edited copy in its place.
   */
  lemma SingleBumpIsAtomic(steps: seq<Step>, pid: nat, s: Stamp)
    requires pid in Run(EMPTY, steps).processes && SingleBump(Run(EMPTY, steps).processes[pid].kind)
    ensures var w := Run(EMPTY, steps);
            var p := w.processes[pid];
            var v := Apply(w, WriteStep(pid, s));
            && p.base.id in w.rows
            && v.rows == if w.rows[p.base.id] == p.base then w.rows[p.base.id := Edited(p, s)] else w.rows
  {
    var w := Run(EMPTY, steps);
    Reachable(steps);
    assert ProcessAt(w, pid);
    SingleBumpWrite(w, w.processes[pid], s);
  }

  /** The handlers of `internal/app/role.go` never change the table. */
  lemma HandlersNeverWrite(steps: seq<Step>, pid: nat, s: Stamp)
    requires pid in Run(EMPTY, steps).processes && Run(EMPTY, steps).processes[pid].kind.Handler?
    ensures Apply(Run(EMPTY, steps), WriteStep(pid, s)).rows == Run(EMPTY, steps).rows
  {
    var w := Run(EMPTY, steps);
    Reachable(steps);
    assert ProcessAt(w, pid);
    HandlerWrite(w, w.processes[pid], s);
  }

  // ----- what the steps do to a row, field by field -----

  /** `after` may replace the row `before` when use case `kind` writes with stamp `s`. Fields not named are kept. */
  predicate WritesRow(kind: Kind, before: Operation, after: Operation, s: Stamp) {
    match kind
    case Upload(file) =>
      && before.status == Created
      && after == before.(inputFile := Some(file), status := Queued, stage := StageQueued, updatedAt := s.now,
                          version := before.version + 1)
    case Dispatch =>
      && before.inputFile.Some?
      && after == before.(status := Dispatched, stage := WaitingForAck, updatedAt := s.now,
                          current := Execution(Some(s.job), Some(s.attempt), before.current.transferId),
                          version := before.version + 1)
    case Cancel =>
      && before.status !in {Completed, Cancelled}
      && after == before.(cancelRequestedAt := Some(s.now), updatedAt := s.now, version := before.version + 1)
    case RetryFirst =>
      && before.status in {Failed, Timeout} && before.retryCount < before.header.maxAttempts
      && after == before.(retryCount := before.retryCount + 1, status := Queued, stage := StageQueued, updatedAt := s.now,
                          current := Execution(None, None, None), cancelRequestedAt := None, error := None,
                          version := before.version + 1)
    case _ => false
  }

  /** An effective write of a single-bump use case changes these fields of the row it has read, and no others; handlers have none. */
  lemma EffectiveWriteFields(steps: seq<Step>, pid: nat, s: Stamp)
    requires Effective(Run(EMPTY, steps), pid, s) && !Run(EMPTY, steps).processes[pid].kind.RetrySecond?
    ensures var w := Run(EMPTY, steps);
            var p := w.processes[pid];
            var v := Apply(w, WriteStep(pid, s));
            && p.base.id in w.rows && w.rows[p.base.id] == p.base && p.base.id in v.rows
            && v.rows == w.rows[p.base.id := v.rows[p.base.id]]
            && WritesRow(p.kind, w.rows[p.base.id], v.rows[p.base.id], s)
  {
    var w := Run(EMPTY, steps);
    var p := w.processes[pid];
    Reachable(steps);
    assert ProcessAt(w, pid);
    if p.kind.Handler? {
      HandlerWrite(w, p, s);
    } else {
      SingleBumpWrite(w, p, s);
    }
  }

  /**
   An effective second write of Retry puts back the row Retry has read, charged, requeued and without
   cancel request and error, now with the new job and attempt; whatever row was there is replaced.
   */
  lemma SecondRetryWriteFields(steps: seq<Step>, pid: nat, s: Stamp)
    requires Effective(Run(EMPTY, steps), pid, s) && Run(EMPTY, steps).processes[pid].kind.RetrySecond?
    ensures var w := Run(EMPTY, steps);
            var p := w.processes[pid];
            var v := Apply(w, WriteStep(pid, s));
            && p.base.id in v.rows && v.rows == w.rows[p.base.id := v.rows[p.base.id]]
            && p.base.status in {Failed, Timeout} && p.base.retryCount < p.base.header.maxAttempts
            && v.rows[p.base.id]
               == p.base.(retryCount := p.base.retryCount + 1, status := Queued, stage := StageQueued,
                          updatedAt := p.kind.charged.updatedAt,
                          current := Execution(Some(s.job), Some(s.attempt), None), cancelRequestedAt := None, error := None,
                          version := p.base.version + 2)
  {
    var w := Run(EMPTY, steps);
    var p := w.processes[pid];
    Reachable(steps);
    assert ProcessAt(w, pid);
    RetrySecondWrite(w, p, s);
  }

  /** A transition takes effect exactly on the row with that id, status and version, and changes status, stage, time and version. */
  lemma TransitionFields(steps: seq<Step>, id: string, from: Status, to: Status, version: int, now: int)
    ensures var w := Run(EMPTY, steps);
            var v := Apply(w, TransitionStep(id, from, to, version, now));
            && v.processes == w.processes
            && v.rows == if id in w.rows && w.rows[id].status == from && w.rows[id].version == version then
                           w.rows[id := w.rows[id].(status := to, stage := StageForStatus(to), updatedAt := now,
                                                    version := version + 1)]
                         else w.rows
  {
  }

  /** The condition under which a use case goes on after reading `row`. */
  predicate MayStart(kind: Kind, row: Operation) {
    match kind
    case Upload(_) => row.status == Created
    case Dispatch => row.inputFile.Some?
    case Cancel => row.status !in {Completed, Cancelled}
    case RetryFirst => row.status in {Failed, Timeout} && row.retryCount < row.header.maxAttempts
    case RetrySecond(_) => false
    case Handler(outcome) => outcome in {Completed, Failed, Cancelled, Transferred}
  }

  /** A use case starts exactly when its row is there and passes its guard, and it then holds a copy of that row. */
  lemma ReadFields(steps: seq<Step>, pid: nat, kind: Kind, id: string)
    requires pid !in Run(EMPTY, steps).processes
    ensures var w := Run(EMPTY, steps);
            var v := Apply(w, ReadStep(pid, kind, id));
            && v.rows == w.rows
            && (pid in v.processes <==> id in w.rows && MayStart(kind, w.rows[id]))
            && (pid in v.processes ==> v.processes == w.processes[pid := Process(kind, w.rows[id])])
  {
  }

  /** A new operation waits for its upload, with a budget of three retries unless the request asks for a positive one. */
  lemma CreateFields(steps: seq<Step>, id: string, processor: string, policy: Option<int>, clientReference: string,
                     deadline: Option<int>, now: int)
    ensures var w := Run(EMPTY, steps);
            var v := Apply(w, CreateStep(id, processor, policy, clientReference, deadline, now));
            var maxAttempts := if policy.Some? && policy.value > 0 then policy.value else 3;
            && v.processes == w.processes
            && v.rows == if id in w.rows then w.rows
                         else w.rows[id := Operation(id, Header(processor, maxAttempts, clientReference, now, deadline), Created,
                                                     WaitingForUpload, 0, now, None, Execution(None, None, None), None, None, 1)]
  {
  }

  // ----- budget and stage -----

  /** The retry budget survives all races, and no step charges more than one retry. */
  lemma RetryBudget(steps: seq<Step>, step: Step, id: string)
    requires id in Run(EMPTY, steps).rows
    ensures var r := Run(EMPTY, steps).rows[id];
            var n := Apply(Run(EMPTY, steps), step).rows[id];
            && 0 <= r.retryCount <= r.header.maxAttempts
            && n.header == r.header
            && (n.retryCount == r.retryCount || n.retryCount == r.retryCount + 1)
  {
    var w := Run(EMPTY, steps);
    Reachable(steps);
    StepEffect(w, step, id);
    RowIsOk(w, id);
  }

  /** Every row of every reachable table shows the stage that belongs to its status. */
  lemma StageAgreesWithStatus(steps: seq<Step>, id: string)
    requires id in Run(EMPTY, steps).rows
    ensures Run(EMPTY, steps).rows[id].stage == StageForStatus(Run(EMPTY, steps).rows[id].status)
  {
    var w := Run(EMPTY, steps);
    Reachable(steps);
    RowIsOk(w, id);
  }

  // ----- the use cases against the status table -----

  /**
   None of the use cases asks `TransitionGuard`. An effective write still makes a change the guard
   accepts, except that Dispatch does so exactly from QUEUED or DISPATCHED, and Retry's second write
   exactly if the row it overwrites is waiting or has failed.
   */
  lemma WritesVersusGuard(w: World, pid: nat, s: Stamp)
    requires Inv(w) && Effective(w, pid, s)
    ensures w.processes[pid].base.id in w.rows && w.processes[pid].base.id in Apply(w, WriteStep(pid, s)).rows
    ensures var p := w.processes[pid];
            var before, after := w.rows[p.base.id].status, Apply(w, WriteStep(pid, s)).rows[p.base.id].status;
            Accepts(before, after) <==> GuardRespecting(p.kind, before)
  {
    var p := w.processes[pid];
    assert ProcessAt(w, pid);
    WriteFollows(w, pid, s);
    if p.kind.Handler? {
      HandlerWrite(w, p, s);
    } else if p.kind.RetrySecond? {
      RetrySecondWrite(w, p, s);
    } else {
      SingleBumpWrite(w, p, s);
    }
    TableInverse(w.rows[p.base.id].status, Queued);
    TableInverse(w.rows[p.base.id].status, Dispatched);
  }

  predicate GuardRespecting(kind: Kind, from: Status) {
    match kind
    case Dispatch => from in {Queued, Dispatched}
    case RetrySecond(_) => from in {Created, Queued, Failed, Timeout}
    case _ => true
  }

  // ----- cancel requests -----

  predicate WritesAs(w: World, step: Step, id: string, retry: bool) {
    && step.WriteStep? && Effective(w, step.pid, step.stamp)
    && var p := w.processes[step.pid];
       p.base.id == id && if retry then p.kind.RetryFirst? || p.kind.RetrySecond? else p.kind.Cancel?
  }

  /** A cancel request is recorded by effective Cancel writes, erased by effective Retry writes, and by nothing else. */
  lemma CancelRequestStep(w: World, step: Step, id: string)
    requires Inv(w) && id in w.rows
    ensures Apply(w, step).rows[id].cancelRequestedAt.Some?
       <==> WritesAs(w, step, id, false) || (w.rows[id].cancelRequestedAt.Some? && !WritesAs(w, step, id, true))
  {
    if step.WriteStep? && Effective(w, step.pid, step.stamp) {
      var p := w.processes[step.pid];
      assert ProcessAt(w, step.pid);
      WriteFollows(w, step.pid, step.stamp);
      if p.kind.Handler? {
        HandlerWrite(w, p, step.stamp);
      } else if p.kind.RetrySecond? {
        RetrySecondWrite(w, p, step.stamp);
      } else {
        SingleBumpWrite(w, p, step.stamp);
      }
    }
  }

  /** Without an effective Retry write a recorded cancel request stays recorded, in every interleaving. */
  lemma {:induction false} CancelRequestKept(w: World, steps: seq<Step>, id: string)
    requires Inv(w) && id in w.rows && w.rows[id].cancelRequestedAt.Some?
    requires forall k :: 0 <= k < |steps| ==> !WritesAs(Run(w, steps[..k]), steps[k], id, true)
    ensures id in Run(w, steps).rows && Run(w, steps).rows[id].cancelRequestedAt.Some?
  {
    if steps != [] {
      var init, last := steps[..|steps| - 1], steps[|steps| - 1];
      forall k | 0 <= k < |init|
        ensures !WritesAs(Run(w, init[..k]), init[k], id, true)
      {
        assert init[..k] == steps[..k];
      }
      CancelRequestKept(w, init, id);
      RunKeepsInv(w, init);
      assert steps[..0] == [];
      HistoryGrows(w, steps, 0, id);
      CancelRequestStep(Run(w, init), last, id);
    }
  }

  // ----- Retry's two writes -----

  predicate NotWrittenBy(steps: seq<Step>, pid: nat) {
    forall k :: 0 <= k < |steps| ==> !(steps[k].WriteStep? && steps[k].pid == pid)
  }

  lemma {:induction false} ProcessStays(w: World, steps: seq<Step>, pid: nat)
    requires pid in w.processes && NotWrittenBy(steps, pid)
    ensures pid in Run(w, steps).processes && Run(w, steps).processes[pid] == w.processes[pid]
  {
    if steps != [] {
      ProcessStays(w, steps[..|steps| - 1], pid);
    }
  }

  /** What a Retry has ready for its second write, after its first one with stamp `s`. */
  function AfterFirstWrite(p: Process, s: Stamp): Process {
    Process(RetrySecond(RetryEdit(p.base, s.now)), p.base)
  }

  /** The write of `pid` takes effect on a row that stood there already in world `w`, and that is not the one `pid` has read. */
  predicate ReplacesUnseen(w: World, later: World, pid: nat, s: Stamp) {
    && Effective(later, pid, s)
    && var base := later.processes[pid].base;
       base.id in w.rows && base.id in later.rows && later.rows[base.id] == w.rows[base.id] != base
  }

  /**
   The two writes of a Retry, with anything between them. The second one replaces a row that Retry has
   neither read nor written exactly if the first matched nothing and the row then is the direct
   successor of the one it read. If the first took effect, the second replaces only Retry's own row.
   */
  lemma RetryReplacesUnseenIff(w: World, pid: nat, s1: Stamp, between: seq<Step>, s2: Stamp)
    requires Inv(w) && pid in w.processes && w.processes[pid].kind.RetryFirst? && NotWrittenBy(between, pid)
    ensures var base := w.processes[pid].base;
            var later := Run(Apply(w, WriteStep(pid, s1)), between);
            && base.id in later.rows
            && pid in later.processes && later.processes[pid] == AfterFirstWrite(w.processes[pid], s1)
            && (ReplacesUnseen(w, later, pid, s2)
                <==> !Effective(w, pid, s1) && later.rows[base.id].version == base.version + 1)
            && (Effective(w, pid, s1) && Effective(later, pid, s2) ==> later.rows[base.id] == RetryEdit(base, s1.now))
            && (Effective(later, pid, s2) ==>
                  Apply(later, WriteStep(pid, s2)).rows[base.id] == RetryAttach(RetryEdit(base, s1.now), s2.job, s2.attempt))
  {
    var p := w.processes[pid];
    var id := p.base.id;
    var first := Apply(w, WriteStep(pid, s1));
    var later := Run(first, between);
    assert ProcessAt(w, pid);
    CopyVersusRow(w, p);
    SingleBumpWrite(w, p, s1);
    ApplyKeepsInv(w, WriteStep(pid, s1));
    RunKeepsInv(first, between);
    ProcessStays(first, between, pid);
    assert ProcessAt(later, pid);
    RetrySecondWrite(later, later.processes[pid], s2);
    assert between[..0] == [];
    LaterVersion(first, between, 0, id);
  }

  /**
   Retry can lose somebody else's update. Cancel and Retry hold the same failed row; Cancel's write
   takes effect, Retry's first write silently matches nothing, and its second write, one version
   further, replaces the cancelled row that Retry never saw.
   */
  lemma RetryOverwritesCancel(w: World, row: Operation, canceller: nat, retrier: nat, s: Stamp, s1: Stamp, s2: Stamp)
    requires Inv(w) && row.id in w.rows && w.rows[row.id] == row
    requires canceller in w.processes && w.processes[canceller] == Process(Cancel, row)
    requires retrier in w.processes && w.processes[retrier] == Process(RetryFirst, row)
    ensures var cancelled := Apply(w, WriteStep(canceller, s));
            var first := Apply(cancelled, WriteStep(retrier, s1));
            var second := Apply(first, WriteStep(retrier, s2));
            && row.id in second.rows
            && cancelled.rows[row.id] == CancelEdit(row, s.now)
            && first.rows == cancelled.rows
            && ReplacesUnseen(cancelled, first, retrier, s2)
            && second.rows[row.id] == RetryAttach(RetryEdit(row, s1.now), s2.job, s2.attempt)
  {
    var cancelled := Apply(w, WriteStep(canceller, s));
    assert ProcessAt(w, canceller);
    SingleBumpWrite(w, w.processes[canceller], s);
    ApplyKeepsInv(w, WriteStep(canceller, s));
    assert ProcessAt(cancelled, retrier);
    SingleBumpWrite(cancelled, Process(RetryFirst, row), s1);
    RetryReplacesUnseenIff(cancelled, retrier, s1, [], s2);
  }

  // ----- runs that get there -----

  lemma RunStep(w: World, steps: seq<Step>, step: Step)
    ensures Run(w, steps + [step]) == Apply(Run(w, steps), step)
  {
    assert (steps + [step])[..|steps|] == steps;
  }

  function CreatedRow(create: Step): Operation
    requires create.CreateStep?
  {
    NewOperation(create.id, create.processor, create.policy, create.clientReference, create.deadline, create.now)
  }

  /** The table holds `row` and nothing else, and these processes are under way. */
  predicate Shows(w: World, row: Operation, processes: map<nat, Process>) {
    w.rows == map[row.id := row] && w.processes == processes
  }

  lemma CreatedFirst(create: Step)
    requires create.CreateStep?
    ensures Shows(Run(EMPTY, [create]), CreatedRow(create), map[])
  {
    RunStep(EMPTY, [], create);
    assert [] + [create] == [create];
  }

  lemma ReadShown(w: World, row: Operation, processes: map<nat, Process>, pid: nat, kind: Kind)
    requires Shows(w, row, processes) && pid !in processes && Admits(kind, row)
    ensures Shows(Apply(w, ReadStep(pid, kind, row.id)), row, processes[pid := Process(kind, row)])
  {
  }

  lemma TransitionShown(w: World, row: Operation, processes: map<nat, Process>, to: Status, now: int)
    requires Shows(w, row, processes)
    ensures Shows(Apply(w, TransitionStep(row.id, row.status, to, row.version, now)), Transitioned(row, to, now), processes)
  {
  }

  lemma UploadShown(w: World, row: Operation, pid: nat, file: InputFile, s: Stamp)
    requires Shows(w, row, map[pid := Process(Upload(file), row)]) && row.error == None
    ensures Shows(Apply(w, WriteStep(pid, s)), UploadEdit(row, file, s.now), map[])
  {
  }

  /** The situation of `RetryOverwritesCancel` is reached from the empty table, for any operation. */
  lemma LostCancelIsReachable(create: Step, now: int) returns (steps: seq<Step>, row: Operation)
    requires create.CreateStep?
    ensures Inv(Run(EMPTY, steps)) && row.status == Failed
    ensures var w := Run(EMPTY, steps);
            && row.id == create.id && row.id in w.rows && w.rows[row.id] == row
            && 0 in w.processes && w.processes[0] == Process(Cancel, row)
            && 1 in w.processes && w.processes[1] == Process(RetryFirst, row)
  {
    var id := create.id;
    var fail := TransitionStep(id, Created, Failed, 1, now);
    var cancel, retry := ReadStep(0, Cancel, id), ReadStep(1, RetryFirst, id);
    row := Transitioned(CreatedRow(create), Failed, now);
    var s2 := [create] + [fail];
    var s3 := s2 + [cancel];
    steps := s3 + [retry];
    Reachable(steps);
    CreatedFirst(create);
    RunStep(EMPTY, [create], fail);
    TransitionShown(Run(EMPTY, [create]), CreatedRow(create), map[], Failed, now);
    RunStep(EMPTY, s2, cancel);
    ReadShown(Run(EMPTY, s2), row, map[], 0, Cancel);
    RunStep(EMPTY, s3, retry);
    ReadShown(Run(EMPTY, s3), row, map[0 := Process(Cancel, row)], 1, RetryFirst);
  }

  /**
   `WritesVersusGuard` leaves Dispatch a forbidden change, and it is reached: an operation is cancelled
   after its upload, and a Dispatch that reads the cancelled row puts it back to DISPATCHED.
   */
  lemma DispatchOfCancelledIsReachable(create: Step, file: InputFile, s: Stamp, now: int) returns (steps: seq<Step>)
    requires create.CreateStep?
    ensures var w := Run(EMPTY, steps);
            var v := Apply(w, WriteStep(1, s));
            && Inv(w) && Effective(w, 1, s)
            && create.id in w.rows && w.rows[create.id].status == Cancelled
            && create.id in v.rows && v.rows[create.id].status == Dispatched
            && !Accepts(w.rows[create.id].status, v.rows[create.id].status)
  {
    var id := create.id;
    var read, write := ReadStep(0, Upload(file), id), WriteStep(0, s);
    var cancel, dispatch := TransitionStep(id, Queued, Cancelled, 2, now), ReadStep(1, Dispatch, id);
    var created := CreatedRow(create);
    var queued := UploadEdit(created, file, s.now);
    var cancelled := Transitioned(queued, Cancelled, now);
    var s2 := [create] + [read];
    var s3 := s2 + [write];
    var s4 := s3 + [cancel];
    steps := s4 + [dispatch];
    Reachable(steps);
    CreatedFirst(create);
    RunStep(EMPTY, [create], read);
    ReadShown(Run(EMPTY, [create]), created, map[], 0, Upload(file));
    RunStep(EMPTY, s2, write);
    UploadShown(Run(EMPTY, s2), created, 0, file, s);
    RunStep(EMPTY, s3, cancel);
    TransitionShown(Run(EMPTY, s3), queued, map[], Cancelled, now);
    RunStep(EMPTY, s4, dispatch);
    ReadShown(Run(EMPTY, s4), cancelled, map[], 1, Dispatch);
  }
}
