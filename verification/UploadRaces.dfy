/**
 Uploads of one operation that overlap. `FileOperationUseCase.Execute` reads the row, moves its body
 over the staged input file, and only then writes the row; the dispatcher later sends the staged file
 under the size and digest the row recorded. Reads and writes are those of `OperationRaces`, in any
 interleaving with the other use cases.
 */
module UploadRaces {
  import opened Common
  import opened OperationStatus
  import opened OperationRepository
  import opened OperationLifecycle
  import Races = OperationRaces

  /** The request body of an upload; `moved` once it is the staged file. */
  datatype Ingest = Ingest(id: string, body: Bytes, fileName: string, moved: bool)

  /**
   `ingests` remembers all uploads that were admitted, by process; `staged` names the upload whose body
   is the staged file of an operation, `recorded` the one whose size and digest its row was given.
   */
  datatype State = State(world: Races.World, ingests: map<nat, Ingest>, staged: map<string, nat>, recorded: map<string, nat>)

  datatype Step =
    | Begin(pid: nat, id: string, body: Bytes, fileName: string)
    | Move(pid: nat)
    | Table(step: Races.Step)    // any step of `OperationRaces`; an upload writes only after its move

  const FRESH := State(Races.EMPTY, map[], map[], map[])

  function FileOf(sha: Digest, u: Ingest): InputFile {
    InputFile(|u.body|, sha(u.body), u.fileName)
  }

  /** The upload whose body step `step` puts in place. */
  function MovedBy(s: State, step: Step): Option<Ingest> {
    if step.Move? && step.pid in s.ingests && !s.ingests[step.pid].moved then Some(s.ingests[step.pid]) else None
  }

  /** Process numbers of uploads are not used again, and `Begin` is the only way to start one. */
  predicate TableStepEnabled(s: State, step: Races.Step) {
    match step
    case ReadStep(pid, kind, _) => !kind.Upload? && pid !in s.ingests
    case WriteStep(pid, _) => pid in s.ingests ==> s.ingests[pid].moved
    case _ => true
  }

  predicate Records(s: State, step: Races.Step) {
    step.WriteStep? && step.pid in s.ingests && Races.Effective(s.world, step.pid, step.stamp)
  }

  function Apply(sha: Digest, s: State, step: Step): State {
    match step
    case Begin(pid, id, body, fileName) =>
      var u := Ingest(id, body, fileName, false);
      var kind := Races.Upload(FileOf(sha, u));
      if pid in s.ingests || pid in s.world.processes || id !in s.world.rows || !Races.Admits(kind, s.world.rows[id]) then s
      else s.(world := Races.Apply(s.world, Races.ReadStep(pid, kind, id)), ingests := s.ingests[pid := u])
    case Move(pid) =>
      if MovedBy(s, step).None? then s
      else s.(staged := s.staged[s.ingests[pid].id := pid], ingests := s.ingests[pid := s.ingests[pid].(moved := true)])
    case Table(t) =>
      if !TableStepEnabled(s, t) then s
      else
        s.(world := Races.Apply(s.world, t),
           recorded := if Records(s, t) then s.recorded[s.ingests[t.pid].id := t.pid] else s.recorded)
  }

  function Run(sha: Digest, steps: seq<Step>): State {
    if steps == [] then FRESH else Apply(sha, Run(sha, steps[..|steps| - 1]), steps[|steps| - 1])
  }

  predicate NoTransitions(steps: seq<Step>) {
    forall k :: 0 <= k < |steps| ==> !(steps[k].Table? && steps[k].step.TransitionStep?)
  }

  // ----- the invariant -----

  predicate ProcessLinked(sha: Digest, s: State, pid: nat) {
    pid in s.ingests && pid in s.world.processes ==>
      && s.world.processes[pid].kind == Races.Upload(FileOf(sha, s.ingests[pid]))
      && s.world.processes[pid].base.id == s.ingests[pid].id
  }

  /** The row of a recorded upload describes its body. */
  predicate RecordedOk(sha: Digest, s: State, id: string) {
    id in s.recorded ==>
      && s.recorded[id] in s.ingests && s.ingests[s.recorded[id]].id == id && s.ingests[s.recorded[id]].moved
      && id in s.world.rows && s.world.rows[id].inputFile == Some(FileOf(sha, s.ingests[s.recorded[id]]))
  }

  predicate StagedOk(s: State, id: string) {
    && (id in s.staged ==> s.staged[id] in s.ingests && s.ingests[s.staged[id]].id == id)
    && (forall pid :: pid in s.ingests && s.ingests[pid].moved ==> s.ingests[pid].id in s.staged)
  }

  ghost predicate Inv(sha: Digest, s: State) {
    && Races.Inv(s.world) && LiveHistories(s.world)
    && (forall pid {:trigger ProcessLinked(sha, s, pid)} :: ProcessLinked(sha, s, pid))
    && (forall id {:trigger RecordedOk(sha, s, id)} :: RecordedOk(sha, s, id))
    && (forall id {:trigger StagedOk(s, id)} :: StagedOk(s, id))
  }

  lemma BeginKeepsInv(sha: Digest, s: State, step: Step)
    requires Inv(sha, s) && step.Begin?
    ensures Inv(sha, Apply(sha, s, step))
  {
    var t := Apply(sha, s, step);
    if t != s {
      var u := Ingest(step.id, step.body, step.fileName, false);
      var read := Races.ReadStep(step.pid, Races.Upload(FileOf(sha, u)), step.id);
      WorldKeepsLive(s.world, read);
      TopId(s.world, step.id);
      forall pid
        ensures ProcessLinked(sha, t, pid)
      {
        assert ProcessLinked(sha, s, pid);
      }
      FrameKeepsRest(sha, s, t);
    }
  }

  lemma TopId(w: Races.World, id: string)
    requires Races.Inv(w) && id in w.rows
    ensures w.rows[id].id == id
  {
    Races.TopVersion(w, id);
  }

  lemma WorldKeepsLive(w: Races.World, step: Races.Step)
    requires Races.Inv(w) && LiveHistories(w) && !step.TransitionStep?
    ensures Races.Inv(Races.Apply(w, step)) && LiveHistories(Races.Apply(w, step))
  {
    Races.ApplyKeepsInv(w, step);
    StepKeepsLive(w, step);
  }

  /** Rows, recorded and staged uploads are untouched, and no upload is forgotten. */
  lemma FrameKeepsRest(sha: Digest, s: State, t: State)
    requires Inv(sha, s) && t.world.rows == s.world.rows && t.recorded == s.recorded && t.staged == s.staged
    requires s.ingests.Keys <= t.ingests.Keys
    requires forall pid :: pid in t.ingests ==> if pid in s.ingests then t.ingests[pid] == s.ingests[pid] else !t.ingests[pid].moved
    ensures forall id {:trigger RecordedOk(sha, t, id)} :: RecordedOk(sha, t, id)
    ensures forall id {:trigger StagedOk(t, id)} :: StagedOk(t, id)
  {
    forall id
      ensures RecordedOk(sha, t, id)
    {
      assert RecordedOk(sha, s, id);
    }
    forall id
      ensures StagedOk(t, id)
    {
      assert StagedOk(s, id);
    }
  }

  lemma MoveKeepsInv(sha: Digest, s: State, pid: nat)
    requires Inv(sha, s)
    ensures Inv(sha, Apply(sha, s, Move(pid)))
  {
    var t := Apply(sha, s, Move(pid));
    forall q
      ensures ProcessLinked(sha, t, q)
    {
      assert ProcessLinked(sha, s, q);
    }
    forall id
      ensures RecordedOk(sha, t, id)
    {
      assert RecordedOk(sha, s, id);
    }
    forall id
      ensures StagedOk(t, id)
    {
      assert StagedOk(s, id);
    }
  }

  /** A write that records an upload finds the row still waiting, so no other upload was recorded before. */
  lemma RecordingWrite(sha: Digest, s: State, t: Races.Step)
    requires Inv(sha, s) && Records(s, t)
    ensures var u := s.ingests[t.pid];
            && u.id !in s.recorded
            && u.id in Races.Apply(s.world, t).rows
            && Races.Apply(s.world, t).rows[u.id].inputFile == Some(FileOf(sha, u))
  {
    var u := s.ingests[t.pid];
    assert ProcessLinked(sha, s, t.pid);
    assert Races.ProcessAt(s.world, t.pid);
    Races.SingleBumpWrite(s.world, s.world.processes[t.pid], t.stamp);
    assert RecordedOk(sha, s, u.id);
    LiveRowAt(s.world, u.id);
  }

  lemma TableKeepsInv(sha: Digest, s: State, step: Races.Step)
    requires Inv(sha, s) && !step.TransitionStep?
    ensures Inv(sha, Apply(sha, s, Table(step)))
    ensures forall id :: id in s.recorded ==> id in Apply(sha, s, Table(step)).recorded && Apply(sha, s, Table(step)).recorded[id] == s.recorded[id]
  {
    var t := Apply(sha, s, Table(step));
    if TableStepEnabled(s, step) {
      WorldKeepsLive(s.world, step);
      if Records(s, step) {
        RecordingWrite(sha, s, step);
      }
      forall pid
        ensures ProcessLinked(sha, t, pid)
      {
        assert ProcessLinked(sha, s, pid);
      }
      forall id
        ensures RecordedOk(sha, t, id)
      {
        assert RecordedOk(sha, s, id);
        if id in s.recorded {
          StepIsLive(s.world, step, id);
        }
      }
      forall id
        ensures StagedOk(t, id)
      {
        assert StagedOk(s, id);
      }
    }
  }

  lemma {:induction false} RunKeepsInv(sha: Digest, steps: seq<Step>)
    requires NoTransitions(steps)
    ensures Inv(sha, Run(sha, steps))
  {
    if steps == [] {
      FreshInv(sha);
    } else {
      RunKeepsInv(sha, steps[..|steps| - 1]);
      StepKeepsInv(sha, Run(sha, steps[..|steps| - 1]), steps[|steps| - 1]);
    }
  }

  lemma FreshInv(sha: Digest)
    ensures Inv(sha, FRESH)
  {
  }

  lemma StepKeepsInv(sha: Digest, s: State, step: Step)
    requires Inv(sha, s) && !(step.Table? && step.step.TransitionStep?)
    ensures Inv(sha, Apply(sha, s, step))
    ensures forall id :: id in s.recorded ==> id in Apply(sha, s, step).recorded && Apply(sha, s, step).recorded[id] == s.recorded[id]
  {
    match step
    case Begin(_, _, _, _) => BeginKeepsInv(sha, s, step);
    case Move(pid) => MoveKeepsInv(sha, s, pid);
    case Table(t) => TableKeepsInv(sha, s, t);
  }

  // ----- main results -----

  /**
   At most one of several overlapping uploads is ever recorded: it stays the recorded one, the row gives
   the size and digest of its body for ever after, and no further upload is admitted.
   */
  lemma {:induction false} RecordedOnce(sha: Digest, steps: seq<Step>, k: nat, id: string)
    requires NoTransitions(steps) && k <= |steps| && id in Run(sha, steps[..k]).recorded
    ensures var early, late := Run(sha, steps[..k]), Run(sha, steps);
            && id in late.recorded && late.recorded[id] == early.recorded[id]
            && late.recorded[id] in late.ingests && id in late.world.rows
            && late.world.rows[id].inputFile == Some(FileOf(sha, late.ingests[late.recorded[id]]))
            && forall pid, body, fileName :: Apply(sha, late, Begin(pid, id, body, fileName)) == late
    decreases |steps|
  {
    RunKeepsInv(sha, steps);
    var late := Run(sha, steps);
    if k == |steps| {
      assert steps[..k] == steps;
    } else {
      var init := steps[..|steps| - 1];
      assert init[..k] == steps[..k];
      RecordedOnce(sha, init, k, id);
      RunKeepsInv(sha, init);
      StepKeepsInv(sha, Run(sha, init), steps[|steps| - 1]);
    }
    assert RecordedOk(sha, late, id);
    LiveRowAt(late.world, id);
  }

  function StagedBody(s: State, id: string): Option<Bytes> {
    if id in s.staged && s.staged[id] in s.ingests then Some(s.ingests[s.staged[id]].body) else None
  }

  function RecordedBody(s: State, id: string): Option<Bytes> {
    if id in s.recorded && s.recorded[id] in s.ingests then Some(s.ingests[s.recorded[id]].body) else None
  }

  /** The body that step `k` puts in place as the staged file of `id`. */
  function BodyMoved(sha: Digest, steps: seq<Step>, k: int, id: string): Option<Bytes>
    requires 0 <= k < |steps|
  {
    var u := MovedBy(Run(sha, steps[..k]), steps[k]);
    if u.Some? && u.value.id == id then Some(u.value.body) else None
  }

  /** Step `j` is the last one to put a body in place for `id`, and that body is `body`. */
  ghost predicate LastMoved(sha: Digest, steps: seq<Step>, id: string, j: int, body: Bytes) {
    && 0 <= j < |steps| && BodyMoved(sha, steps, j, id) == Some(body)
    && forall k :: j < k < |steps| ==> BodyMoved(sha, steps, k, id).None?
  }

  ghost predicate LastBodyIs(sha: Digest, steps: seq<Step>, id: string, body: Bytes) {
    exists j :: LastMoved(sha, steps, id, j, body)
  }

  lemma BodyMovedBefore(sha: Digest, steps: seq<Step>, step: Step, k: nat, id: string)
    requires k < |steps|
    ensures BodyMoved(sha, steps + [step], k, id) == BodyMoved(sha, steps, k, id)
  {
    assert (steps + [step])[..k] == steps[..k];
  }

  lemma LastBodyStep(sha: Digest, steps: seq<Step>, step: Step, id: string, body: Bytes)
    ensures var moved := BodyMoved(sha, steps + [step], |steps|, id);
            LastBodyIs(sha, steps + [step], id, body) <==> if moved.Some? then moved == Some(body) else LastBodyIs(sha, steps, id, body)
  {
    var all, n := steps + [step], |steps|;
    forall k | 0 <= k < n
      ensures BodyMoved(sha, all, k, id) == BodyMoved(sha, steps, k, id)
    {
      BodyMovedBefore(sha, steps, step, k, id);
    }
    var moved := BodyMoved(sha, all, n, id);
    if moved.Some? {
      assert moved == Some(body) ==> LastMoved(sha, all, id, n, body);
    } else {
      if j :| LastMoved(sha, steps, id, j, body) {
        LastMovedFrame(sha, steps, all, id, j, body);
      }
      if j :| LastMoved(sha, all, id, j, body) {
        LastMovedFrame(sha, steps, all, id, j, body);
      }
    }
  }

  lemma LastMovedFrame(sha: Digest, init: seq<Step>, steps: seq<Step>, id: string, j: nat, body: Bytes)
    requires |steps| == |init| + 1 && j < |init| && BodyMoved(sha, steps, |init|, id).None?
    requires forall k :: 0 <= k < |init| ==> BodyMoved(sha, steps, k, id) == BodyMoved(sha, init, k, id)
    ensures LastMoved(sha, steps, id, j, body) <==> LastMoved(sha, init, id, j, body)
  {
  }

  lemma {:induction false} StagedIsLastMoved(sha: Digest, steps: seq<Step>, id: string, body: Bytes)
    requires NoTransitions(steps)
    ensures StagedBody(Run(sha, steps), id) == Some(body) <==> LastBodyIs(sha, steps, id, body)
  {
    if steps != [] {
      var init, last := steps[..|steps| - 1], steps[|steps| - 1];
      StagedIsLastMoved(sha, init, id, body);
      RunKeepsInv(sha, init);
      StagedStep(sha, Run(sha, init), last, id);
      assert steps == init + [last];
      LastBodyStep(sha, init, last, id, body);
    }
  }

  lemma StagedStep(sha: Digest, s: State, step: Step, id: string)
    requires Inv(sha, s)
    ensures var u := MovedBy(s, step);
            StagedBody(Apply(sha, s, step), id) == if u.Some? && u.value.id == id then Some(u.value.body) else StagedBody(s, id)
  {
    assert StagedOk(s, id);
  }

  /**
   In each single run: the staged file of a recorded upload is the one the row describes exactly if the
   last body moved into place, by whichever upload, is that of the recorded one.
   */
  lemma StagedMatchesRecordedIff(sha: Digest, steps: seq<Step>, id: string)
    requires NoTransitions(steps) && id in Run(sha, steps).recorded
    ensures RecordedBody(Run(sha, steps), id).Some?
    ensures StagedBody(Run(sha, steps), id) == RecordedBody(Run(sha, steps), id)
       <==> LastBodyIs(sha, steps, id, RecordedBody(Run(sha, steps), id).value)
  {
    RunKeepsInv(sha, steps);
    assert RecordedOk(sha, Run(sha, steps), id);
    StagedIsLastMoved(sha, steps, id, RecordedBody(Run(sha, steps), id).value);
  }

  // ----- over all interleavings -----

  predicate Matching(s: State, id: string) {
    RecordedBody(s, id).Some? ==> StagedBody(s, id) == RecordedBody(s, id)
  }

  predicate BodiesFrom(steps: seq<Step>, bodies: set<Bytes>) {
    NoTransitions(steps) && forall k :: 0 <= k < |steps| && steps[k].Begin? ==> steps[k].body in bodies
  }

  lemma {:induction false} BodiesKept(sha: Digest, steps: seq<Step>, bodies: set<Bytes>)
    requires BodiesFrom(steps, bodies)
    ensures forall pid :: pid in Run(sha, steps).ingests ==> Run(sha, steps).ingests[pid].body in bodies
  {
    if steps != [] {
      BodiesKept(sha, steps[..|steps| - 1], bodies);
    }
  }

  lemma OneBodyMatches(sha: Digest, steps: seq<Step>, bodies: set<Bytes>, id: string)
    requires BodiesFrom(steps, bodies) && forall a, b :: a in bodies && b in bodies ==> a == b
    ensures Matching(Run(sha, steps), id)
  {
    BodiesKept(sha, steps, bodies);
    RunKeepsInv(sha, steps);
    var s := Run(sha, steps);
    assert RecordedOk(sha, s, id) && StagedOk(s, id);
  }

  const STAMP := Races.Stamp(0, "", "")

  function Creation(id: string): Step {
    Table(Races.CreateStep(id, "", None, "", None, 0))
  }

  /** Both uploads have read the waiting row. */
  function BothBegun(id: string, a: Bytes, b: Bytes): seq<Step> {
    [] + [Creation(id)] + [Begin(0, id, a, "")] + [Begin(1, id, b, "")]
  }

  /** Two overlapping uploads of different bodies: the loser's move comes after the winner's. */
  function Overlap(id: string, a: Bytes, b: Bytes): seq<Step> {
    BothBegun(id, a, b) + [Move(0)] + [Move(1)] + [Table(Races.WriteStep(0, STAMP))]
  }

  lemma RunStep(sha: Digest, steps: seq<Step>, step: Step)
    ensures Run(sha, steps + [step]) == Apply(sha, Run(sha, steps), step)
  {
    assert (steps + [step])[..|steps|] == steps;
  }

  lemma BothBegunState(sha: Digest, id: string, a: Bytes, b: Bytes)
    ensures var s := Run(sha, BothBegun(id, a, b));
            && s.ingests == map[0 := Ingest(id, a, "", false), 1 := Ingest(id, b, "", false)]
            && s.staged == map[] && s.recorded == map[]
            && id in s.world.rows && s.world.rows[id].id == id && 0 in s.world.processes
            && s.world.processes[0] == Races.Process(Races.Upload(FileOf(sha, Ingest(id, a, "", false))), s.world.rows[id])
  {
    var s1 := [] + [Creation(id)];
    var s2 := s1 + [Begin(0, id, a, "")];
    RunStep(sha, [], Creation(id));
    RunStep(sha, s1, Begin(0, id, a, ""));
    RunStep(sha, s2, Begin(1, id, b, ""));
  }

  lemma FirstWriteRecords(sha: Digest, s: State, id: string)
    requires 0 in s.ingests && s.ingests[0].moved && s.ingests[0].id == id
    requires id in s.world.rows && s.world.rows[id].id == id && 0 in s.world.processes
    requires s.world.processes[0] == Races.Process(Races.Upload(FileOf(sha, s.ingests[0])), s.world.rows[id])
    ensures var t := Apply(sha, s, Table(Races.WriteStep(0, STAMP)));
            t.ingests == s.ingests && t.staged == s.staged && t.recorded == s.recorded[id := 0]
  {
  }

  lemma OverlapMismatch(sha: Digest, id: string, a: Bytes, b: Bytes)
    ensures RecordedBody(Run(sha, Overlap(id, a, b)), id) == Some(a)
    ensures StagedBody(Run(sha, Overlap(id, a, b)), id) == Some(b)
  {
    BothBegunState(sha, id, a, b);
    var s3 := BothBegun(id, a, b);
    var s4 := s3 + [Move(0)];
    var s5 := s4 + [Move(1)];
    var begun := Run(sha, s3);
    var ua, ub := Ingest(id, a, "", true), Ingest(id, b, "", true);
    assert Run(sha, s5) == begun.(staged := map[id := 1], ingests := map[0 := ua, 1 := ub]) by {
      RunStep(sha, s3, Move(0));
      RunStep(sha, s4, Move(1));
    }
    RunStep(sha, s5, Table(Races.WriteStep(0, STAMP)));
    FirstWriteRecords(sha, Run(sha, s5), id);
  }

  /**
   The staged file is the one the row describes in every interleaving of uploads with bodies from
   `bodies`, exactly if there are no two different bodies.
   */
  lemma StagedMatchesRowIff(sha: Digest, bodies: set<Bytes>)
    ensures (forall steps: seq<Step>, id: string :: BodiesFrom(steps, bodies) ==> Matching(Run(sha, steps), id))
       <==> (forall a, b :: a in bodies && b in bodies ==> a == b)
  {
    if a, b :| a in bodies && b in bodies && a != b {
      OverlapMismatch(sha, "op", a, b);
      assert BodiesFrom(Overlap("op", a, b), bodies);
      assert !Matching(Run(sha, Overlap("op", a, b)), "op");
    } else {
      forall steps: seq<Step>, id: string | BodiesFrom(steps, bodies)
        ensures Matching(Run(sha, steps), id)
      {
        OneBodyMatches(sha, steps, bodies, id);
      }
    }
  }
}
