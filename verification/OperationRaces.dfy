/**
 Any number of use cases working on the operations table at the same time. Each reads a copy of a
 row, edits it, and writes it back later; Retry writes twice. `history` remembers every row content.
 */
module OperationRaces {
  import opened Common
  import opened OperationStatus
  import opened OperationRepository
  import opened OperationEdits

  datatype Kind =
    | Upload(file: InputFile)
    | Dispatch
    | Cancel
    | RetryFirst
    | RetrySecond(charged: Operation)
    | Handler(outcome: Status)

  /** A use case that has read `base` and has a write ahead of it. */
  datatype Process = Process(kind: Kind, base: Operation)

  datatype Stamp = Stamp(now: int, job: string, attempt: string)

  datatype World = World(rows: Table, history: map<string, seq<Operation>>, processes: map<nat, Process>)

  datatype Step =
    | CreateStep(id: string, processor: string, policy: Option<int>, clientReference: string, deadline: Option<int>, now: int)
    | ReadStep(pid: nat, kind: Kind, id: string)
    | WriteStep(pid: nat, stamp: Stamp)
    | TransitionStep(id: string, from: Status, to: Status, version: int, now: int)

  /** The guard a use case evaluates on the row it has read. */
  predicate Admits(kind: Kind, row: Operation) {
    match kind
    case Upload(_) => UploadAdmitted(row)
    case Dispatch => DispatchAdmitted(row)
    case Cancel => CancelAdmitted(row)
    case RetryFirst => RetryAdmitted(row)
    case RetrySecond(_) => false
    case Handler(outcome) => HandlerOutcome(outcome)
  }

  /** The copy a process hands to `Update`. */
  function Edited(p: Process, s: Stamp): Operation {
    match p.kind
    case Upload(file) => UploadEdit(p.base, file, s.now)
    case Dispatch => DispatchEdit(p.base, s.job, s.attempt, s.now)
    case Cancel => CancelEdit(p.base, s.now)
    case RetryFirst => RetryEdit(p.base, s.now)
    case RetrySecond(charged) => RetryAttach(charged, s.job, s.attempt)
    case Handler(outcome) => HandlerEdit(p.base, outcome, s.now)
  }

  /** After its first write Retry goes on with the edited copy, whether or not a row matched. */
  function Continue(processes: map<nat, Process>, pid: nat, s: Stamp): map<nat, Process>
    requires pid in processes
  {
    var p := processes[pid];
    if p.kind.RetryFirst? then processes[pid := Process(RetrySecond(Edited(p, s)), p.base)] else processes - {pid}
  }

  predicate Effective(w: World, pid: nat, s: Stamp) {
    pid in w.processes && Matches(w.rows, Edited(w.processes[pid], s))
  }

  function Contents(history: map<string, seq<Operation>>, id: string): seq<Operation> {
    if id in history then history[id] else []
  }

  /** Replace one row and remember the new content. */
  function PutAt(w: World, id: string, row: Operation): World {
    w.(rows := w.rows[id := row], history := w.history[id := Contents(w.history, id) + [row]])
  }

  /** One call of `Update`. */
  function Save(w: World, op: Operation): World {
    if Matches(w.rows, op) then PutAt(w, op.id, Written(w.rows[op.id], op)) else w
  }

  function Apply(w: World, step: Step): World {
    match step
    case CreateStep(id, processor, policy, clientReference, deadline, now) =>
      if id in w.rows then w
      else
        var op := NewOperation(id, processor, policy, clientReference, deadline, now);
        w.(rows := w.rows[id := op], history := w.history[id := [op]])
    case ReadStep(pid, kind, id) =>
      if pid in w.processes || id !in w.rows || !Admits(kind, w.rows[id]) then w
      else w.(processes := w.processes[pid := Process(kind, w.rows[id])])
    case WriteStep(pid, s) =>
      if pid !in w.processes then w
      else
        Save(w, Edited(w.processes[pid], s)).(processes := Continue(w.processes, pid, s))
    case TransitionStep(id, from, to, version, now) =>
      if TransitionMatches(w.rows, id, from, version) then PutAt(w, id, Transitioned(w.rows[id], to, now)) else w
  }

  function Run(w: World, steps: seq<Step>): World {
    if steps == [] then w else Apply(Run(w, steps[..|steps| - 1]), steps[|steps| - 1])
  }

  const EMPTY := World(map[], map[], map[])

  // ----- the invariant -----

  /** The budget is respected and the stage is the one of the status. */
  predicate RowOk(r: Operation) {
    && 0 <= r.retryCount <= r.header.maxAttempts
    && r.stage == StageForStatus(r.status)
    && r.error != Some(OperationError("", ""))
  }

  predicate SameIdentity(a: Operation, b: Operation) {
    a.id == b.id && a.header == b.header
  }

  /** `b` is a legal next content of the row `a`. */
  predicate Follows(a: Operation, b: Operation) {
    && SameIdentity(a, b)
    && b.version == a.version + 1
    && (b.retryCount == a.retryCount || b.retryCount == a.retryCount + 1)
  }

  ghost predicate HistoryOk(id: string, h: seq<Operation>) {
    && h != [] && h[0].version == 1 && h[0].id == id
    && (forall k :: 0 <= k < |h| ==> RowOk(h[k]))
    && (forall j, k :: 0 <= j && k == j + 1 < |h| ==> Follows(h[j], h[k]))
  }

  ghost predicate RowAt(w: World, id: string) {
    && id in w.rows && id in w.history && HistoryOk(id, w.history[id])
    && w.rows[id] == w.history[id][|w.history[id]| - 1]
  }

  ghost predicate RowsOk(w: World) {
    && (forall id {:trigger RowAt(w, id)} :: id in w.rows ==> RowAt(w, id))
    && w.rows.Keys == w.history.Keys
  }

  /** Every process holds a content its row once had; a Retry past its first write holds the charged copy of it. */
  ghost predicate ProcessOk(w: World, p: Process) {
    && p.base.id in w.history
    && var h := w.history[p.base.id];
    && 1 <= p.base.version <= |h| && p.base == h[p.base.version - 1]
    && match p.kind
       case RetrySecond(charged) =>
         && RetryAdmitted(p.base)
         && charged == RetryEdit(p.base, charged.updatedAt)
         && p.base.version < |h|
       case kind => Admits(kind, p.base)
  }

  ghost predicate ProcessAt(w: World, pid: nat) {
    pid in w.processes && ProcessOk(w, w.processes[pid])
  }

  ghost predicate Inv(w: World) {
    && RowsOk(w)
    && (forall pid {:trigger ProcessAt(w, pid)} :: pid in w.processes ==> ProcessAt(w, pid))
  }

  lemma {:induction false} HistoryVersions(id: string, h: seq<Operation>, k: nat)
    requires HistoryOk(id, h) && k < |h|
    ensures h[k].version == k + 1 && SameIdentity(h[0], h[k])
  {
    if k > 0 {
      HistoryVersions(id, h, k - 1);
      assert Follows(h[k - 1], h[k]);
    }
  }

  /** The version of a row is the number of contents it has had. */
  lemma TopVersion(w: World, id: string)
    requires RowsOk(w) && id in w.rows
    ensures id in w.history && w.rows[id].id == id && w.rows[id].version == |w.history[id]| > 0
    ensures w.rows[id] == w.history[id][|w.history[id]| - 1]
  {
    assert RowAt(w, id);
    HistoryVersions(id, w.history[id], |w.history[id]| - 1);
  }

  lemma RowIsOk(w: World, id: string)
    requires RowsOk(w) && id in w.rows
    ensures RowOk(w.rows[id])
  {
    assert RowAt(w, id);
    var h := w.history[id];
    assert RowOk(h[|h| - 1]);
  }

  /** A row is never below a copy of it, and equal versions mean equal contents. */
  lemma CopyVersusRow(w: World, p: Process)
    requires RowsOk(w) && ProcessOk(w, p)
    ensures var id := p.base.id;
            && id in w.rows && w.rows[id].version == |w.history[id]| >= p.base.version
            && SameIdentity(p.base, w.rows[id])
            && RowOk(p.base)
            && (w.rows[id].version == p.base.version ==> w.rows[id] == p.base)
            && (w.rows[id].version == p.base.version + 1 ==> Follows(p.base, w.rows[id]))
  {
    var id := p.base.id;
    assert RowAt(w, id);
    CopyVersusTop(id, w.history[id], p.base.version);
  }

  lemma CopyVersusTop(id: string, h: seq<Operation>, v: nat)
    requires HistoryOk(id, h) && 1 <= v <= |h|
    ensures var copy, top := h[v - 1], h[|h| - 1];
            && top.version == |h| && SameIdentity(copy, top) && RowOk(copy) && top.id == id
            && (v == |h| - 1 ==> Follows(copy, top))
  {
    HistoryVersions(id, h, |h| - 1);
    HistoryVersions(id, h, v - 1);
  }

  // ----- what one write does -----

  /** Use cases that count the version up once between reading and writing. */
  predicate SingleBump(kind: Kind) {
    kind.Upload? || kind.Dispatch? || kind.Cancel? || kind.RetryFirst?
  }

  /** Exactly when a single-bump write takes effect, and what it replaces. */
  lemma SingleBumpWrite(w: World, p: Process, s: Stamp)
    requires RowsOk(w) && ProcessOk(w, p) && SingleBump(p.kind)
    ensures var op := Edited(p, s);
            && op.id in w.rows
            && (Matches(w.rows, op) <==> w.rows[op.id] == p.base)
            && (Matches(w.rows, op) ==> Written(w.rows[op.id], op) == op && Follows(p.base, op) && RowOk(op))
  {
    CopyVersusRow(w, p);
  }

  /** A handler's copy looks for a version below the row's, so its `Update` never matches. */
  lemma HandlerWrite(w: World, p: Process, s: Stamp)
    requires RowsOk(w) && ProcessOk(w, p) && p.kind.Handler?
    ensures !Matches(w.rows, Edited(p, s))
  {
    CopyVersusRow(w, p);
  }

  /**
   Retry's second write takes effect exactly when the row is the direct successor of what Retry read,
   whoever wrote that successor, and then it replaces it by the charged copy.
   */
  lemma RetrySecondWrite(w: World, p: Process, s: Stamp)
    requires RowsOk(w) && ProcessOk(w, p) && p.kind.RetrySecond?
    ensures var op := Edited(p, s);
            && op.id in w.rows
            && (Matches(w.rows, op) <==> w.rows[op.id].version == p.base.version + 1)
            && (Matches(w.rows, op) ==>
                  && Follows(p.base, w.rows[op.id])
                  && Written(w.rows[op.id], op) == op
                  && Follows(w.rows[op.id], op) && RowOk(op)
                  && op.retryCount == p.base.retryCount + 1)
  {
    CopyVersusRow(w, p);
  }

  /** Whatever process writes, an effective write puts a legal successor. */
  lemma WriteFollows(w: World, pid: nat, s: Stamp)
    requires Inv(w) && Effective(w, pid, s)
    ensures var op := Edited(w.processes[pid], s);
            && Written(w.rows[op.id], op) == op && Follows(w.rows[op.id], op) && RowOk(op)
  {
    var p := w.processes[pid];
    assert ProcessAt(w, pid);
    if p.kind.Handler? {
      HandlerWrite(w, p, s);
    } else if p.kind.RetrySecond? {
      RetrySecondWrite(w, p, s);
    } else {
      SingleBumpWrite(w, p, s);
    }
  }

  // ----- preservation -----

  lemma AppendKeepsHistory(id: string, h: seq<Operation>, row: Operation)
    requires HistoryOk(id, h) && Follows(h[|h| - 1], row) && RowOk(row)
    ensures HistoryOk(id, h + [row])
  {
  }

  /** No content is ever forgotten. */
  ghost predicate Grows(w: World, v: World) {
    forall id :: id in w.history ==> id in v.history && w.history[id] <= v.history[id]
  }

  lemma PutKeepsRows(w: World, id: string, row: Operation)
    requires RowsOk(w) && id in w.rows && Follows(w.rows[id], row) && RowOk(row)
    ensures RowsOk(PutAt(w, id, row)) && Grows(w, PutAt(w, id, row))
  {
    assert RowAt(w, id);
    AppendKeepsHistory(id, w.history[id], row);
    var v := PutAt(w, id, row);
    forall x | x in v.rows
      ensures RowAt(v, x)
    {
      assert RowAt(w, x);
    }
  }

  lemma GrowthKeepsProcess(w: World, v: World, p: Process)
    requires ProcessOk(w, p) && Grows(w, v)
    ensures ProcessOk(v, p)
  {
    assert w.history[p.base.id] <= v.history[p.base.id];
  }

  /** Processes only care that histories grow. */
  lemma GrowthKeepsInv(w: World, v: World)
    requires Inv(w) && RowsOk(v) && Grows(w, v) && v.processes == w.processes
    ensures Inv(v)
  {
    forall q | q in v.processes
      ensures ProcessAt(v, q)
    {
      assert ProcessAt(w, q);
      GrowthKeepsProcess(w, v, w.processes[q]);
    }
  }

  lemma SaveKeepsRows(w: World, pid: nat, s: Stamp)
    requires Inv(w) && pid in w.processes
    ensures var v := Save(w, Edited(w.processes[pid], s)); RowsOk(v) && Grows(w, v)
  {
    var op := Edited(w.processes[pid], s);
    if Matches(w.rows, op) {
      WriteFollows(w, pid, s);
      PutKeepsRows(w, op.id, op);
    }
  }

  /** After Retry's first write the row is at least one version past what Retry read. */
  lemma ChargedProcessOk(w: World, pid: nat, s: Stamp)
    requires Inv(w) && pid in w.processes && w.processes[pid].kind.RetryFirst?
    ensures var p := w.processes[pid];
            ProcessOk(Save(w, Edited(p, s)), Process(RetrySecond(Edited(p, s)), p.base))
  {
    var p := w.processes[pid];
    assert ProcessAt(w, pid);
    CopyVersusRow(w, p);
    SingleBumpWrite(w, p, s);
    SaveKeepsRows(w, pid, s);
    GrowthKeepsProcess(w, Save(w, Edited(p, s)), p);
  }

  /** The processes do not occur in `ProcessOk`. */
  lemma ProcessOkFrame(w: World, v: World, p: Process)
    requires w.history == v.history
    ensures ProcessOk(w, p) <==> ProcessOk(v, p)
  {
  }

  lemma WithProcesses(w: World, processes: map<nat, Process>)
    requires RowsOk(w) && forall q :: q in processes ==> ProcessOk(w, processes[q])
    ensures Inv(w.(processes := processes))
  {
    var v := w.(processes := processes);
    forall q | q in v.processes
      ensures ProcessAt(v, q)
    {
      ProcessOkFrame(w, v, v.processes[q]);
    }
    forall id | id in v.rows
      ensures RowAt(v, id)
    {
      assert RowAt(w, id);
    }
  }

  lemma SaveKeepsProcess(w: World, op: Operation, p: Process)
    requires RowsOk(w) && ProcessOk(w, p)
    ensures ProcessOk(Save(w, op), p)
  {
    assert Grows(w, Save(w, op));
    GrowthKeepsProcess(w, Save(w, op), p);
  }

  lemma ContinuedProcessOk(w: World, pid: nat, s: Stamp, q: nat)
    requires Inv(w) && pid in w.processes && q in Continue(w.processes, pid, s)
    ensures ProcessOk(Save(w, Edited(w.processes[pid], s)), Continue(w.processes, pid, s)[q])
  {
    if q == pid {
      ChargedProcessOk(w, pid, s);
    } else {
      assert ProcessAt(w, q);
      SaveKeepsProcess(w, Edited(w.processes[pid], s), w.processes[q]);
    }
  }

  lemma WriteKeepsInv(w: World, pid: nat, s: Stamp)
    requires Inv(w) && pid in w.processes
    ensures Inv(Apply(w, WriteStep(pid, s)))
  {
    var saved := Save(w, Edited(w.processes[pid], s));
    var processes := Continue(w.processes, pid, s);
    SaveKeepsRows(w, pid, s);
    forall q | q in processes
      ensures ProcessOk(saved, processes[q])
    {
      ContinuedProcessOk(w, pid, s, q);
    }
    WithProcesses(saved, processes);
  }

  lemma TransitionKeepsInv(w: World, id: string, from: Status, to: Status, version: int, now: int)
    requires Inv(w)
    ensures Inv(Apply(w, TransitionStep(id, from, to, version, now)))
  {
    if TransitionMatches(w.rows, id, from, version) {
      RowIsOk(w, id);
      PutKeepsRows(w, id, Transitioned(w.rows[id], to, now));
      GrowthKeepsInv(w, PutAt(w, id, Transitioned(w.rows[id], to, now)));
    }
  }

  lemma ReadKeepsInv(w: World, pid: nat, kind: Kind, id: string)
    requires Inv(w)
    ensures Inv(Apply(w, ReadStep(pid, kind, id)))
  {
    if pid !in w.processes && id in w.rows && Admits(kind, w.rows[id]) {
      var processes := w.processes[pid := Process(kind, w.rows[id])];
      TopVersion(w, id);
      forall q | q in processes
        ensures ProcessOk(w, processes[q])
      {
        assert q == pid || ProcessAt(w, q);
      }
      WithProcesses(w, processes);
    }
  }

  lemma CreateKeepsInv(w: World, step: Step)
    requires Inv(w) && step.CreateStep?
    ensures Inv(Apply(w, step))
  {
    var v := Apply(w, step);
    forall id | id in v.rows
      ensures RowAt(v, id)
    {
      assert id == step.id || RowAt(w, id);
    }
    GrowthKeepsInv(w, v);
  }

  lemma ApplyKeepsInv(w: World, step: Step)
    requires Inv(w)
    ensures Inv(Apply(w, step))
  {
    match step
    case CreateStep(_, _, _, _, _, _) => CreateKeepsInv(w, step);
    case ReadStep(pid, kind, id) => ReadKeepsInv(w, pid, kind, id);
    case WriteStep(pid, s) => if pid in w.processes { WriteKeepsInv(w, pid, s); }
    case TransitionStep(id, from, to, version, now) => TransitionKeepsInv(w, id, from, to, version, now);
  }

  lemma {:induction false} RunKeepsInv(w: World, steps: seq<Step>)
    requires Inv(w)
    ensures Inv(Run(w, steps))
  {
    if steps != [] {
      RunKeepsInv(w, steps[..|steps| - 1]);
      ApplyKeepsInv(Run(w, steps[..|steps| - 1]), steps[|steps| - 1]);
    }
  }
}
