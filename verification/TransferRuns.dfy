/**
 Whole runs of one `ActiveTransfer`. A step either delivers a message, or lets a finalize call that
 is already due take the lock. Deliveries of any messages, in any number and order, may come before,
 between and after the finalize steps.
 */
module TransferRuns {
  import opened Common
  import opened TransferReceiver
  import Decimal

  datatype Step = Deliver(m: Message) | RunFinalize

  /** `pending` finalize calls are due but not run yet; `calls` were made so far. */
  datatype System = System(active: TransferState, pending: nat, calls: nat)

  /** `AcceptTransfer` itself calls `FinalizeTransfer` when no chunks are announced. */
  function Start(prior: Bytes, fileSize: int, totalChunks: int, fileSHA256: string): System {
    var calls := if totalChunks == 0 then 1 else 0;
    System(Accept(prior, fileSize, totalChunks, fileSHA256), calls, calls)
  }

  function Apply(sha: Digest, sys: System, step: Step): System {
    match step
    case Deliver(m) =>
      var (after, stored) := HandleChunk(sha, sys.active, m);
      var calls := if Completes(stored, after) then 1 else 0;
      System(after, sys.pending + calls, sys.calls + calls)
    case RunFinalize =>
      if sys.pending == 0 then sys
      else System(Finalize(sha, sys.active).0, sys.pending - 1, sys.calls)
  }

  function Run(sha: Digest, sys: System, steps: seq<Step>): System {
    if steps == [] then sys
    else Apply(sha, Run(sha, sys, steps[..|steps| - 1]), steps[|steps| - 1])
  }

  lemma RunStep(sha: Digest, sys: System, steps: seq<Step>, step: Step)
    ensures Run(sha, sys, steps + [step]) == Apply(sha, Run(sha, sys, steps), step)
  {
    var all := steps + [step];
    assert all[..|all| - 1] == steps;
  }

  // ----- the sizes of the stored chunks -----

  /** The sizes recorded under `keys`, added up in any order. */
  ghost function SumSizes(received: map<int, FileChunk>, keys: set<int>): nat
    requires keys <= received.Keys
  {
    if exists k :: k in keys then
      var k :| k in keys;
      received[k].chunkSize + SumSizes(received, keys - {k})
    else 0
  }

  ghost function StoredBytes(received: map<int, FileChunk>): nat {
    SumSizes(received, received.Keys)
  }

  lemma {:induction false} SumSizesRemove(received: map<int, FileChunk>, keys: set<int>, k: int)
    requires keys <= received.Keys && k in keys
    ensures SumSizes(received, keys) == received[k].chunkSize + SumSizes(received, keys - {k})
  {
    var j :| j in keys && SumSizes(received, keys) == received[j].chunkSize + SumSizes(received, keys - {j});
    if j != k {
      SumSizesRemove(received, keys - {j}, k);
      SumSizesRemove(received, keys - {k}, j);
      assert keys - {j} - {k} == keys - {k} - {j};
    }
  }

  lemma {:induction false} SumSizesFrame(a: map<int, FileChunk>, b: map<int, FileChunk>, keys: set<int>)
    requires keys <= a.Keys && keys <= b.Keys
    requires forall k :: k in keys ==> a[k] == b[k]
    ensures SumSizes(a, keys) == SumSizes(b, keys)
  {
    if exists k :: k in keys {
      var k :| k in keys && SumSizes(a, keys) == a[k].chunkSize + SumSizes(a, keys - {k});
      SumSizesFrame(a, b, keys - {k});
      SumSizesRemove(b, keys, k);
    }
  }

  lemma StoredBytesAdd(received: map<int, FileChunk>, k: int, c: FileChunk)
    requires k !in received
    ensures StoredBytes(received[k := c]) == StoredBytes(received) + c.chunkSize
  {
    var grown := received[k := c];
    SumSizesRemove(grown, grown.Keys, k);
    assert grown.Keys - {k} == received.Keys;
    SumSizesFrame(grown, received, received.Keys);
  }

  // ----- the invariant -----

  function DueCalls(s: TransferState): nat {
    if s.totalChunks == 0 || 0 < s.totalChunks <= |s.received| then 1 else 0
  }

  /** What the sealing branch of `FinalizeTransfer` checked still holds. */
  ghost predicate Verified(sha: Digest, s: TransferState) {
    |s.disk| == s.totalBytes && sha(s.disk) == s.fileSHA256
  }

  ghost predicate Inv(sha: Digest, sys: System) {
    var s := sys.active;
    && sys.pending <= sys.calls == DueCalls(s)
    && s.receivedSize == StoredBytes(s.received)
    && (s.open ==> s.status == Accepted && s.receivedChunks == 0)
    && (!s.open ==> sys.calls == 1 && sys.pending == 0 && Verified(sha, s)
                    && s.status == Completed && s.receivedChunks == s.totalChunks)
  }

  lemma StoreKeepsInv(sha: Digest, sys: System, m: Message)
    requires Inv(sha, sys)
    ensures Inv(sha, Apply(sha, sys, Deliver(m)))
  {
    var s := sys.active;
    var (after, stored) := HandleChunk(sha, s, m);
    if stored.Some? {
      var index := stored.value.chunkIndex;
      StoredBytesAdd(s.received, index, stored.value);
      assert |after.received| == |s.received| + 1;
    }
  }

  lemma ApplyKeepsInv(sha: Digest, sys: System, step: Step)
    requires Inv(sha, sys)
    ensures Inv(sha, Apply(sha, sys, step))
    ensures SameAnnouncement(sys.active, Apply(sha, sys, step).active)
  {
    if step.Deliver? {
      StoreKeepsInv(sha, sys, step.m);
    }
  }

  predicate SameAnnouncement(s: TransferState, t: TransferState) {
    s.totalChunks == t.totalChunks && s.totalBytes == t.totalBytes && s.fileSHA256 == t.fileSHA256
  }

  lemma {:induction false} RunKeepsInv(sha: Digest, sys: System, steps: seq<Step>)
    requires Inv(sha, sys)
    ensures Inv(sha, Run(sha, sys, steps))
    ensures SameAnnouncement(sys.active, Run(sha, sys, steps).active)
  {
    if steps != [] {
      RunKeepsInv(sha, sys, steps[..|steps| - 1]);
      ApplyKeepsInv(sha, Run(sha, sys, steps[..|steps| - 1]), steps[|steps| - 1]);
    }
  }

  lemma StartInv(sha: Digest, prior: Bytes, fileSize: int, totalChunks: int, fileSHA256: string)
    ensures Inv(sha, Start(prior, fileSize, totalChunks, fileSHA256))
  {
  }

  // ----- main results, for every sequence of messages -----

  /**
   `FinalizeTransfer` is called at most once per transfer, counting the call of the zero-chunk path,
   and it is called exactly when the number of distinct stored indices has reached the announced count.
   */
  lemma FinalizeCalledAtMostOnce(sha: Digest, prior: Bytes, fileSize: int, totalChunks: int, fileSHA256: string,
                                 steps: seq<Step>)
    ensures var r := Run(sha, Start(prior, fileSize, totalChunks, fileSHA256), steps);
            && r.calls <= 1
            && (r.calls == 1 <==> totalChunks == 0 || 0 < totalChunks <= |r.active.received|)
  {
    StartInv(sha, prior, fileSize, totalChunks, fileSHA256);
    RunKeepsInv(sha, Start(prior, fileSize, totalChunks, fileSHA256), steps);
  }

  /** A sealed file has the announced size and the announced digest, whatever was delivered. */
  lemma SealImpliesVerified(sha: Digest, prior: Bytes, fileSize: int, totalChunks: int, fileSHA256: string,
                            steps: seq<Step>)
    ensures var s := Run(sha, Start(prior, fileSize, totalChunks, fileSHA256), steps).active;
            && (!s.open <==> s.status == Completed)
            && (!s.open ==> |s.disk| == fileSize && sha(s.disk) == fileSHA256)
            && s.receivedSize == StoredBytes(s.received)
  {
    StartInv(sha, prior, fileSize, totalChunks, fileSHA256);
    RunKeepsInv(sha, Start(prior, fileSize, totalChunks, fileSHA256), steps);
  }

  lemma ClosedStep(sha: Digest, sys: System, step: Step)
    requires Inv(sha, sys) && !sys.active.open
    ensures Apply(sha, sys, step) == sys
  {
  }

  lemma {:induction false} ClosedIsFrozen(sha: Digest, sys: System, steps: seq<Step>)
    requires Inv(sha, sys) && !sys.active.open
    ensures Run(sha, sys, steps) == sys
  {
    if steps != [] {
      ClosedIsFrozen(sha, sys, steps[..|steps| - 1]);
      ClosedStep(sha, sys, steps[|steps| - 1]);
    }
  }

  /** Nothing delivered after the seal changes the staged bytes, or anything else of the transfer. */
  lemma {:induction false} SealedForever(sha: Digest, prior: Bytes, fileSize: int, totalChunks: int, fileSHA256: string,
                                         steps: seq<Step>, k: nat)
    requires k <= |steps| && !Run(sha, Start(prior, fileSize, totalChunks, fileSHA256), steps[..k]).active.open
    ensures Run(sha, Start(prior, fileSize, totalChunks, fileSHA256), steps)
         == Run(sha, Start(prior, fileSize, totalChunks, fileSHA256), steps[..k])
    decreases |steps|
  {
    var start := Start(prior, fileSize, totalChunks, fileSHA256);
    if k == |steps| {
      assert steps[..k] == steps;
    } else {
      var init := steps[..|steps| - 1];
      assert init[..k] == steps[..k];
      SealedForever(sha, prior, fileSize, totalChunks, fileSHA256, init, k);
      StartInv(sha, prior, fileSize, totalChunks, fileSHA256);
      RunKeepsInv(sha, start, init);
      ClosedStep(sha, Run(sha, start, init), steps[|steps| - 1]);
    }
  }

  /** The finalize call has been made, has returned, and has failed. */
  predicate Spent(sys: System) {
    sys.active.open && sys.calls == 1 && sys.pending == 0
  }

  lemma SpentStep(sha: Digest, sys: System, step: Step)
    requires Inv(sha, sys) && Spent(sys)
    ensures Spent(Apply(sha, sys, step))
  {
    ApplyKeepsInv(sha, sys, step);
  }

  lemma {:induction false} SpentStaysOpen(sha: Digest, sys: System, steps: seq<Step>)
    requires Inv(sha, sys) && Spent(sys)
    ensures Spent(Run(sha, sys, steps))
  {
    if steps != [] {
      SpentStaysOpen(sha, sys, steps[..|steps| - 1]);
      RunKeepsInv(sha, sys, steps[..|steps| - 1]);
      SpentStep(sha, Run(sha, sys, steps[..|steps| - 1]), steps[|steps| - 1]);
    }
  }

  /** The one finalize call is not repeated: once it has failed, no later message can complete the transfer. */
  lemma {:induction false} FailedFinalizeIsFinal(sha: Digest, prior: Bytes, fileSize: int, totalChunks: int, fileSHA256: string,
                                                 steps: seq<Step>, k: nat)
    requires k <= |steps| && Spent(Run(sha, Start(prior, fileSize, totalChunks, fileSHA256), steps[..k]))
    ensures Spent(Run(sha, Start(prior, fileSize, totalChunks, fileSHA256), steps))
    decreases |steps|
  {
    var start := Start(prior, fileSize, totalChunks, fileSHA256);
    if k == |steps| {
      assert steps[..k] == steps;
    } else {
      var init := steps[..|steps| - 1];
      assert init[..k] == steps[..k];
      FailedFinalizeIsFinal(sha, prior, fileSize, totalChunks, fileSHA256, init, k);
      StartInv(sha, prior, fileSize, totalChunks, fileSHA256);
      RunKeepsInv(sha, start, init);
      SpentStep(sha, Run(sha, start, init), steps[|steps| - 1]);
    }
  }

  // ----- exactly when a run seals -----

  /** Step `k` is a due finalize call that finds a file of the announced size and digest. */
  ghost predicate SealsAt(sha: Digest, start: System, steps: seq<Step>, k: int)
    requires 0 <= k < |steps|
  {
    && steps[k].RunFinalize?
    && var before := Run(sha, start, steps[..k]); before.pending > 0 && Verified(sha, before.active)
  }

  ghost predicate Seals(sha: Digest, start: System, steps: seq<Step>) {
    exists k :: 0 <= k < |steps| && SealsAt(sha, start, steps, k)
  }

  lemma SealsStep(sha: Digest, start: System, steps: seq<Step>, step: Step)
    ensures var before := Run(sha, start, steps);
            Seals(sha, start, steps + [step])
            <==> Seals(sha, start, steps) || (step.RunFinalize? && before.pending > 0 && Verified(sha, before.active))
  {
    var all, n := steps + [step], |steps|;
    assert all[..n] == steps;
    forall k | 0 <= k < n
      ensures SealsAt(sha, start, all, k) <==> SealsAt(sha, start, steps, k)
    {
      assert all[..k] == steps[..k];
    }
    var before := Run(sha, start, steps);
    assert SealsAt(sha, start, all, n) <==> step.RunFinalize? && before.pending > 0 && Verified(sha, before.active);
  }

  lemma FinalizeSeals(sha: Digest, sys: System, step: Step)
    requires Inv(sha, sys)
    ensures !Apply(sha, sys, step).active.open
       <==> !sys.active.open || (step.RunFinalize? && sys.pending > 0 && Verified(sha, sys.active))
  {
  }

  /** For all messages in any order: the transfer is sealed exactly if a due finalize call has found the announced size and digest. */
  lemma {:induction false} SealedIff(sha: Digest, prior: Bytes, fileSize: int, totalChunks: int, fileSHA256: string,
                                     steps: seq<Step>)
    ensures !Run(sha, Start(prior, fileSize, totalChunks, fileSHA256), steps).active.open
       <==> Seals(sha, Start(prior, fileSize, totalChunks, fileSHA256), steps)
  {
    if steps != [] {
      var start := Start(prior, fileSize, totalChunks, fileSHA256);
      var init, last := steps[..|steps| - 1], steps[|steps| - 1];
      SealedIff(sha, prior, fileSize, totalChunks, fileSHA256, init);
      assert steps == init + [last];
      StartInv(sha, prior, fileSize, totalChunks, fileSHA256);
      RunKeepsInv(sha, start, init);
      FinalizeSeals(sha, Run(sha, start, init), last);
      SealsStep(sha, start, init, last);
    }
  }

  /** The first `j` steps bring the announced count, and the first `j - 1` do not. */
  predicate CompletesAt(sha: Digest, start: System, steps: seq<Step>, j: int)
    requires 0 <= j <= |steps|
  {
    && DueCalls(Run(sha, start, steps[..j]).active) == 1
    && (j > 0 ==> DueCalls(Run(sha, start, steps[..j - 1]).active) == 0)
  }

  predicate AwaitsSince(sha: Digest, start: System, steps: seq<Step>, j: int)
    requires 0 <= j <= |steps|
  {
    CompletesAt(sha, start, steps, j) && RunFinalize !in steps[j..]
  }

  ghost predicate AwaitsFinalize(sha: Digest, start: System, steps: seq<Step>) {
    exists j :: 0 <= j <= |steps| && AwaitsSince(sha, start, steps, j)
  }

  lemma AwaitsSinceBefore(sha: Digest, start: System, steps: seq<Step>, step: Step, j: nat)
    requires j <= |steps|
    ensures AwaitsSince(sha, start, steps + [step], j) <==> AwaitsSince(sha, start, steps, j) && step != RunFinalize
  {
    var all := steps + [step];
    assert all[..j] == steps[..j] && all[j..] == steps[j..] + [step];
    if j > 0 {
      assert all[..j - 1] == steps[..j - 1];
    }
  }

  lemma AwaitsStep(sha: Digest, start: System, steps: seq<Step>, step: Step)
    ensures AwaitsFinalize(sha, start, steps + [step])
       <==> (AwaitsFinalize(sha, start, steps) && step != RunFinalize)
            || (DueCalls(Run(sha, start, steps).active) == 0 && DueCalls(Run(sha, start, steps + [step]).active) == 1)
  {
    var all, n := steps + [step], |steps|;
    forall j | 0 <= j <= n
      ensures AwaitsSince(sha, start, all, j) <==> AwaitsSince(sha, start, steps, j) && step != RunFinalize
    {
      AwaitsSinceBefore(sha, start, steps, step, j);
    }
    assert all[..n + 1] == all && all[..n] == steps && all[n + 1..] == [];
    assert AwaitsSince(sha, start, all, n + 1)
      <==> DueCalls(Run(sha, start, steps).active) == 0 && DueCalls(Run(sha, start, all).active) == 1;
  }

  /**
   A finalize call is due exactly from the moment the announced number of distinct indices is stored (at
   once, if it is zero) until the next finalize step. So the call that decides the transfer is the first
   one after its count was reached.
   */
  lemma {:induction false} PendingIff(sha: Digest, prior: Bytes, fileSize: int, totalChunks: int, fileSHA256: string,
                                      steps: seq<Step>)
    ensures Run(sha, Start(prior, fileSize, totalChunks, fileSHA256), steps).pending > 0
       <==> AwaitsFinalize(sha, Start(prior, fileSize, totalChunks, fileSHA256), steps)
  {
    var start := Start(prior, fileSize, totalChunks, fileSHA256);
    if steps == [] {
      assert AwaitsSince(sha, start, [], 0) <==> start.pending > 0;
    } else {
      var init, last := steps[..|steps| - 1], steps[|steps| - 1];
      PendingIff(sha, prior, fileSize, totalChunks, fileSHA256, init);
      assert steps == init + [last];
      StartInv(sha, prior, fileSize, totalChunks, fileSHA256);
      RunKeepsInv(sha, start, init);
      AwaitsStep(sha, start, init, last);
      PendingStep(sha, Run(sha, start, init), last);
    }
  }

  lemma PendingStep(sha: Digest, sys: System, step: Step)
    requires Inv(sha, sys)
    ensures Apply(sha, sys, step).pending > 0
       <==> (sys.pending > 0 && step != RunFinalize)
            || (DueCalls(sys.active) == 0 && DueCalls(Apply(sha, sys, step).active) == 1)
  {
    ApplyKeepsInv(sha, sys, step);
  }

  /** The first chunk stored under an index stays: duplicates and conflicting duplicates are dropped. */
  lemma {:induction false} FirstChunkWins(sha: Digest, sys: System, steps: seq<Step>, k: int)
    requires k in sys.active.received
    ensures var r := Run(sha, sys, steps).active.received; k in r && r[k] == sys.active.received[k]
  {
    if steps != [] {
      FirstChunkWins(sha, sys, steps[..|steps| - 1], k);
    }
  }

  /**
   What a due finalize call reports in any run: success exactly if it closes the file, the size if that
   is wrong, otherwise the checksum. It never finds the file closed already.
   */
  lemma DueFinalizeReports(sha: Digest, prior: Bytes, fileSize: int, totalChunks: int, fileSHA256: string, steps: seq<Step>)
    requires Run(sha, Start(prior, fileSize, totalChunks, fileSHA256), steps).pending > 0
    ensures var before := Run(sha, Start(prior, fileSize, totalChunks, fileSHA256), steps);
            var after := Apply(sha, before, RunFinalize);
            var report := Finalize(sha, before.active).1;
            && (report == Sealed <==> !after.active.open)
            && (report == Sealed <==> after.active.status == Completed)
            && (report == SizeMismatch <==> |before.active.disk| != fileSize)
            && (report == ChecksumMismatch <==> |before.active.disk| == fileSize && sha(before.active.disk) != fileSHA256)
            && report != NotOpen
            && after.active.disk == before.active.disk && after.active.received == before.active.received
  {
    StartInv(sha, prior, fileSize, totalChunks, fileSHA256);
    RunKeepsInv(sha, Start(prior, fileSize, totalChunks, fileSHA256), steps);
  }

  // ----- where stored chunks and staged bytes come from -----

  predicate IsRecordOf(sha: Digest, m: Message, k: int, c: FileChunk) {
    && Decimal.Scan(m.chunkIndex) == Some(k) && c.chunkIndex == k
    && |m.payload| == c.chunkSize && ScanOrZero(m.payloadLength) == c.chunkSize
    && sha(m.payload) == c.checksum && m.chunkSHA256 == c.checksum
    && ScanOrZero(m.offset) == c.chunkOffset && c.chunkOffset >= 0
    && m.transferId == c.transferId && c.publishState == "received" && c.ackState == "acknowledged" && c.version == 1
  }

  /**
   Every stored chunk goes back to a delivered message whose payload had the announced length and the
   announced digest; transfer, index, offset, size and checksum of the record are that message's.
   */
  lemma {:induction false} StoredChunkWasChecked(sha: Digest, sys: System, steps: seq<Step>, k: int) returns (j: nat)
    requires sys.active.received == map[] && k in Run(sha, sys, steps).active.received
    ensures j < |steps| && steps[j].Deliver?
    ensures IsRecordOf(sha, steps[j].m, k, Run(sha, sys, steps).active.received[k])
  {
    var init, last := steps[..|steps| - 1], steps[|steps| - 1];
    var before := Run(sha, sys, init);
    if k in before.active.received {
      j := StoredChunkWasChecked(sha, sys, init, k);
      ReceivedKept(sha, before, last, k);
    } else {
      j := |steps| - 1;
      NewChunkWasChecked(sha, before, last, k);
    }
  }

  lemma NewChunkWasChecked(sha: Digest, sys: System, step: Step, k: int)
    requires k !in sys.active.received && k in Apply(sha, sys, step).active.received
    ensures step.Deliver? && IsRecordOf(sha, step.m, k, Apply(sha, sys, step).active.received[k])
  {
  }

  lemma ReceivedKept(sha: Digest, sys: System, step: Step, k: int)
    requires k in sys.active.received
    ensures k in Apply(sha, sys, step).active.received
    ensures Apply(sha, sys, step).active.received[k] == sys.active.received[k]
  {
  }

  predicate Covers(c: FileChunk, p: nat) {
    c.chunkOffset <= p < c.chunkOffset + c.chunkSize
  }

  predicate Uncovered(received: map<int, FileChunk>, p: nat) {
    forall k :: k in received ==> !Covers(received[k], p)
  }

  lemma UncoveredBefore(sha: Digest, sys: System, step: Step, p: nat)
    requires Uncovered(Apply(sha, sys, step).active.received, p)
    ensures Uncovered(sys.active.received, p)
  {
    forall k | k in sys.active.received
      ensures !Covers(sys.active.received[k], p)
    {
      ReceivedKept(sha, sys, step, k);
    }
  }

  lemma UncoveredByStep(sha: Digest, s: TransferState, m: Message, p: nat)
    requires p < |s.disk| && Uncovered(HandleChunk(sha, s, m).0.received, p)
    ensures var t := HandleChunk(sha, s, m).0; p < |t.disk| && t.disk[p] == s.disk[p]
  {
    var (t, stored) := HandleChunk(sha, s, m);
    if stored.Some? && m.payload != [] {
      var c := stored.value;
      assert t.received[c.chunkIndex] == c;
      OverwriteBytes(s.disk, m.payload, c.chunkOffset, p);
    }
  }

  /** Bytes that no stored chunk covers are still the preallocated ones, and the file never shrinks. */
  lemma {:induction false} UncoveredBytesKept(sha: Digest, sys: System, steps: seq<Step>, p: nat)
    requires p < |sys.active.disk| && Uncovered(Run(sha, sys, steps).active.received, p)
    ensures p < |Run(sha, sys, steps).active.disk| && Run(sha, sys, steps).active.disk[p] == sys.active.disk[p]
  {
    if steps != [] {
      var init, last := steps[..|steps| - 1], steps[|steps| - 1];
      UncoveredBefore(sha, Run(sha, sys, init), last, p);
      UncoveredBytesKept(sha, sys, init, p);
      if last.Deliver? {
        UncoveredByStep(sha, Run(sha, sys, init).active, last.m, p);
      }
    }
  }

  // ----- the completion test -----

  /** The indices `0..n-1`. */
  function Below(n: nat): (r: set<int>)
    ensures forall i :: i in r <==> 0 <= i < n
    ensures |r| == n
  {
    if n == 0 then {} else Below(n - 1) + {n - 1}
  }

  lemma SubsetOfSameSize(a: set<int>, b: set<int>)
    requires a <= b && |a| == |b|
    ensures a == b
  {
    assert |b - a| == |b| - |a|;
    assert b == a + (b - a);
  }

  /** Pigeonhole: with indices in range, counting `totalChunks` of them means having all of them. */
  lemma CountIsCompleteness(received: map<int, FileChunk>, n: nat)
    requires forall k :: k in received ==> 0 <= k < n
    ensures |received| == n <==> received.Keys == Below(n)
    ensures |received| <= n
  {
    assert received.Keys <= Below(n);
    assert |received| == |received.Keys|;
    assert |Below(n) - received.Keys| == n - |received.Keys|;
    if |received| == n {
      SubsetOfSameSize(received.Keys, Below(n));
    }
  }
}
