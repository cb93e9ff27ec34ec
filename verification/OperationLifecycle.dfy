/**
 Interleavings of the callers that exist in the repository: Create, Upload, Dispatch, Cancel, Retry
 and the event handlers, without `Transition` steps.
 */
module OperationLifecycle {
  import opened Common
  import opened OperationStatus
  import opened OperationRepository
  import opened OperationEdits
  import opened OperationRaces
  import opened OperationHistory

  /** Nothing but a row waiting for its upload lacks an input file, and no row is past DISPATCHED. */
  predicate LiveRow(r: Operation) {
    && r.status in {Created, Queued, Dispatched}
    && (r.inputFile.None? <==> r.status == Created)
  }

  ghost predicate LiveHistories(w: World) {
    forall id {:trigger LiveHistory(w, id)} :: id in w.history ==> LiveHistory(w, id)
  }

  ghost predicate LiveHistory(w: World, id: string) {
    id in w.history && forall k :: 0 <= k < |w.history[id]| ==> LiveRow(w.history[id][k])
  }

  predicate NoTransition(steps: seq<Step>) {
    forall k :: 0 <= k < |steps| ==> !steps[k].TransitionStep?
  }

  /** What a use case holds was a live row, so Retry is never admitted. */
  lemma LiveProcess(w: World, p: Process)
    requires ProcessOk(w, p) && LiveHistories(w)
    ensures LiveRow(p.base)
    ensures !p.kind.RetryFirst? && !p.kind.RetrySecond?
  {
    assert LiveHistory(w, p.base.id);
    var h := w.history[p.base.id];
    assert LiveRow(h[p.base.version - 1]);
  }

  /** The admissible change of a row: forward or not at all, with the input file fixed once it is there. */
  predicate LiveStep(a: Operation, b: Operation) {
    && LiveRow(b)
    && CanTransition(a.status, b.status, false) == Allowed
    && (a.inputFile.Some? ==> b.inputFile == a.inputFile)
  }

  lemma LiveWrite(w: World, pid: nat, s: Stamp)
    requires Inv(w) && LiveHistories(w) && Effective(w, pid, s)
    ensures var op := Edited(w.processes[pid], s);
            && w.rows[op.id] == w.processes[pid].base
            && Written(w.rows[op.id], op) == op && LiveStep(w.rows[op.id], op)
  {
    var p := w.processes[pid];
    assert ProcessAt(w, pid);
    LiveProcess(w, p);
    if p.kind.Handler? {
      HandlerWrite(w, p, s);
    } else {
      SingleBumpWrite(w, p, s);
    }
  }

  lemma LiveRowAt(w: World, id: string)
    requires Inv(w) && LiveHistories(w) && id in w.rows
    ensures LiveRow(w.rows[id])
  {
    assert RowAt(w, id);
    assert LiveHistory(w, id);
  }

  lemma StepIsLive(w: World, step: Step, id: string)
    requires Inv(w) && LiveHistories(w) && !step.TransitionStep? && id in w.rows
    ensures id in Apply(w, step).rows
    ensures LiveStep(w.rows[id], Apply(w, step).rows[id])
  {
    LiveRowAt(w, id);
    if step.WriteStep? && Effective(w, step.pid, step.stamp) {
      LiveWrite(w, step.pid, step.stamp);
    }
  }

  lemma StepKeepsLive(w: World, step: Step)
    requires Inv(w) && LiveHistories(w) && !step.TransitionStep?
    ensures LiveHistories(Apply(w, step))
  {
    var v := Apply(w, step);
    ApplyKeepsInv(w, step);
    forall id | id in v.history
      ensures LiveHistory(v, id)
    {
      if id in w.rows {
        assert LiveHistory(w, id);
        StepEffect(w, step, id);
        StepIsLive(w, step, id);
      }
    }
  }

  lemma {:induction false} RunKeepsLive(steps: seq<Step>)
    requires NoTransition(steps)
    ensures Inv(Run(EMPTY, steps)) && LiveHistories(Run(EMPTY, steps))
  {
    if steps != [] {
      var init := steps[..|steps| - 1];
      RunKeepsLive(init);
      ApplyKeepsInv(Run(EMPTY, init), steps[|steps| - 1]);
      StepKeepsLive(Run(EMPTY, init), steps[|steps| - 1]);
    }
  }

  /** Each persisted status change is one the guard allows, and an input file once recorded never changes. */
  lemma PersistedChangesAreGuarded(steps: seq<Step>, step: Step, id: string)
    requires NoTransition(steps) && !step.TransitionStep? && id in Run(EMPTY, steps).rows
    ensures var a := Run(EMPTY, steps).rows[id];
            var v := Apply(Run(EMPTY, steps), step);
            && id in v.rows
            && CanTransition(a.status, v.rows[id].status, false) == Allowed
            && (a.status != Created ==> a.inputFile.Some? && v.rows[id].inputFile == a.inputFile)
  {
    RunKeepsLive(steps);
    LiveRowAt(Run(EMPTY, steps), id);
    StepIsLive(Run(EMPTY, steps), step, id);
  }

  function Rank(s: Status): nat {
    match s
    case Created => 0
    case Queued => 1
    case Dispatched => 2
    case _ => 3
  }

  /** Over any run the status only moves forward along CREATED, QUEUED, DISPATCHED. */
  lemma {:induction false} StatusOnlyMovesForward(xs: seq<Step>, ys: seq<Step>, id: string)
    requires NoTransition(xs) && NoTransition(ys) && id in Run(EMPTY, xs).rows
    ensures id in Run(EMPTY, xs + ys).rows
    ensures Rank(Run(EMPTY, xs).rows[id].status) <= Rank(Run(EMPTY, xs + ys).rows[id].status) <= 2
    ensures Run(EMPTY, xs).rows[id].status != Created ==>
              Run(EMPTY, xs + ys).rows[id].inputFile == Run(EMPTY, xs).rows[id].inputFile
  {
    if ys == [] {
      assert xs + ys == xs;
      RunKeepsLive(xs);
      LiveRowAt(Run(EMPTY, xs), id);
    } else {
      var init, last := ys[..|ys| - 1], ys[|ys| - 1];
      StatusOnlyMovesForward(xs, init, id);
      RunKeepsLive(xs + init);
      LiveRowAt(Run(EMPTY, xs + init), id);
      StepIsLive(Run(EMPTY, xs + init), last, id);
      assert (xs + ys)[..|xs + ys| - 1] == xs + init;
      assert (xs + ys)[|xs + ys| - 1] == last;
    }
  }
}
