/**
 Sender and receiver of one transfer at work on the shared `file_chunks` table. The sender stores the
 row of a chunk before it publishes the message; the receiver stores its own row after it has left
 the critical section of `handleChunk`, so other deliveries may come in between. Receiver upserts may
 fail, which `handleChunk` ignores.
 */
module ChunkTableRuns {
  import opened Common
  import opened TransferReceiver
  import opened Tiling
  import opened ChunkMessages
  import opened ChunkRows
  import opened ChunkSender

  datatype World = World(
    upserted: nat,              // chunks whose row the sender has stored
    published: nat,             // chunks whose publication was attempted
    onStream: set<nat>,         // published and not lost
    active: TransferState,
    waiting: map<nat, FileChunk>, // stored chunks whose upsert the receiver has not made yet
    acknowledged: set<nat>,     // upserts the receiver has made
    rows: Rows)

  datatype Step =
    | SenderUpserts
    | SenderPublishes(lost: bool)
    | Arrives(i: nat)
    | ReceiverUpserts(i: nat)
    | ReceiverUpsertFails(i: nat)
    | Finalizes

  function Apply(sha: Digest, src: Source, w: World, step: Step): World
    requires src.chunkSize > 0
  {
    match step
    case SenderUpserts =>
      if w.upserted == w.published && w.upserted < src.Count() then
        w.(upserted := w.upserted + 1, rows := Upsert(w.rows, PendingChunk(sha, src, w.upserted)))
      else w
    case SenderPublishes(lost) =>
      if w.published < w.upserted then
        w.(published := w.published + 1, onStream := if lost then w.onStream else w.onStream + {w.published})
      else w
    case Arrives(i) =>
      if i in w.onStream then
        var (after, stored) := HandleChunk(sha, w.active, ChunkMessage(sha, src, i));
        w.(active := after, waiting := if stored.Some? then w.waiting[i := stored.value] else w.waiting)
      else w
    case ReceiverUpserts(i) =>
      if i in w.waiting then
        w.(waiting := w.waiting - {i}, acknowledged := w.acknowledged + {i}, rows := Upsert(w.rows, w.waiting[i]))
      else w
    case ReceiverUpsertFails(i) =>
      w.(waiting := w.waiting - {i})
    case Finalizes =>
      w.(active := Finalize(sha, w.active).0)
  }

  function Run(sha: Digest, src: Source, w: World, steps: seq<Step>): World
    requires src.chunkSize > 0
  {
    if steps == [] then w
    else Apply(sha, src, Run(sha, src, w, steps[..|steps| - 1]), steps[|steps| - 1])
  }

  /** Rows of other transfers may exist; this transfer has none yet and nothing was received. */
  predicate Fresh(src: Source, w: World) {
    && w.upserted == w.published == 0 && w.onStream == {} && w.waiting == map[] && w.acknowledged == {}
    && w.active.received == map[]
    && (forall k :: k in w.rows ==> k.0 != src.transferId)
  }

  /** What the row of chunk `i` must hold. */
  function RowOf(sha: Digest, src: Source, w: World, i: nat): FileChunk {
    if i in w.acknowledged then HonestChunk(sha, src, i).(version := 2) else PendingChunk(sha, src, i)
  }

  function RowKey(src: Source, i: nat): Key {
    (src.transferId, i as int)
  }

  ghost predicate RowsAgree(sha: Digest, src: Source, w: World) {
    && (forall i: nat :: i < w.upserted ==> RowKey(src, i) in w.rows && w.rows[RowKey(src, i)] == RowOf(sha, src, w, i))
    && (forall i: nat :: w.upserted <= i ==> RowKey(src, i) !in w.rows)
  }

  ghost predicate Inv(sha: Digest, src: Source, w: World)
    requires src.chunkSize > 0
  {
    && w.published <= w.upserted <= w.published + 1 && w.upserted <= src.Count()
    && (forall i :: i in w.onStream ==> i < w.published)
    && (forall i :: i in w.waiting ==> i in w.onStream && i as int in w.active.received && i !in w.acknowledged
                                       && w.waiting[i] == HonestChunk(sha, src, i))
    && (forall i :: i in w.acknowledged ==> i in w.onStream && i as int in w.active.received)
    && ReceivedHonest(sha, src, w.active)
    && RowsAgree(sha, src, w)
  }

  ghost predicate ReceivedHonest(sha: Digest, src: Source, s: TransferState)
    requires src.chunkSize > 0
  {
    forall k :: k in s.received ==> 0 <= k < src.Count() && s.received[k] == HonestChunk(sha, src, k)
  }

  lemma ArrivalKeepsInv(sha: Digest, src: Source, w: World, i: nat)
    requires Announceable(src) && Inv(sha, src, w) && i in w.onStream
    ensures Inv(sha, src, Apply(sha, src, w, Arrives(i)))
  {
    HonestDelivery(sha, src, w.active, i);
    var next := Apply(sha, src, w, Arrives(i));
    assert next.rows == w.rows && next.acknowledged == w.acknowledged && next.upserted == w.upserted;
    assert RowsAgree(sha, src, next);
    assert w.active.received.Keys <= next.active.received.Keys;
  }

  lemma SenderKeepsInv(sha: Digest, src: Source, w: World)
    requires src.chunkSize > 0 && Inv(sha, src, w)
    ensures Inv(sha, src, Apply(sha, src, w, SenderUpserts))
  {
  }

  lemma ReceiverKeepsInv(sha: Digest, src: Source, w: World, i: nat)
    requires src.chunkSize > 0 && Inv(sha, src, w) && i in w.waiting
    ensures Inv(sha, src, Apply(sha, src, w, ReceiverUpserts(i)))
  {
    assert w.rows[RowKey(src, i)] == PendingChunk(sha, src, i);
  }

  lemma ApplyKeepsInv(sha: Digest, src: Source, w: World, step: Step)
    requires Announceable(src) && Inv(sha, src, w)
    ensures Inv(sha, src, Apply(sha, src, w, step))
    ensures w.acknowledged <= Apply(sha, src, w, step).acknowledged
  {
    match step
    case SenderUpserts => SenderKeepsInv(sha, src, w);
    case Arrives(i) => if i in w.onStream { ArrivalKeepsInv(sha, src, w, i); }
    case ReceiverUpserts(i) => if i in w.waiting { ReceiverKeepsInv(sha, src, w, i); }
    case _ =>
  }

  lemma {:induction false} RunKeepsInv(sha: Digest, src: Source, w: World, steps: seq<Step>)
    requires Announceable(src) && Inv(sha, src, w)
    ensures Inv(sha, src, Run(sha, src, w, steps))
    ensures w.acknowledged <= Run(sha, src, w, steps).acknowledged
  {
    if steps != [] {
      RunKeepsInv(sha, src, w, steps[..|steps| - 1]);
      ApplyKeepsInv(sha, src, Run(sha, src, w, steps[..|steps| - 1]), steps[|steps| - 1]);
    }
  }

  /**
   In every interleaving the row of a chunk is the sender's until the receiver's upsert has run, and
   from then on it holds the receiver's checksum, size, offset and acknowledged state.
   */
  lemma RowFollowsReceiver(sha: Digest, src: Source, w: World, steps: seq<Step>, i: nat)
    requires Announceable(src) && Fresh(src, w) && i < Run(sha, src, w, steps).upserted
    ensures var r := Run(sha, src, w, steps);
            && RowKey(src, i) in r.rows
            && (i in r.acknowledged ==> i as int in r.active.received && r.rows[RowKey(src, i)] == r.active.received[i as int].(version := 2))
            && (i !in r.acknowledged ==> r.rows[RowKey(src, i)] == PendingChunk(sha, src, i))
  {
    RunKeepsInv(sha, src, w, steps);
  }

  lemma {:induction false} AcknowledgedGrow(sha: Digest, src: Source, w: World, steps: seq<Step>, k: nat)
    requires src.chunkSize > 0 && k <= |steps|
    ensures Run(sha, src, w, steps[..k]).acknowledged <= Run(sha, src, w, steps).acknowledged
    ensures Run(sha, src, w, steps[..k]).upserted <= Run(sha, src, w, steps).upserted
    decreases |steps|
  {
    if k == |steps| {
      assert steps[..k] == steps;
    } else {
      var init := steps[..|steps| - 1];
      assert init[..k] == steps[..k];
      AcknowledgedGrow(sha, src, w, init, k);
    }
  }

  /** Once acknowledged, a row never changes again, whatever duplicates still arrive. */
  lemma AcknowledgedRowIsFinal(sha: Digest, src: Source, w: World, steps: seq<Step>, k: nat, i: nat)
    requires Announceable(src) && Fresh(src, w) && k <= |steps| && i in Run(sha, src, w, steps[..k]).acknowledged
    ensures var before, after := Run(sha, src, w, steps[..k]).rows, Run(sha, src, w, steps).rows;
            RowKey(src, i) in before && RowKey(src, i) in after && after[RowKey(src, i)] == before[RowKey(src, i)]
  {
    RunKeepsInv(sha, src, w, steps[..k]);
    RunKeepsInv(sha, src, w, steps);
    AcknowledgedGrow(sha, src, w, steps, k);
  }

  // ----- the sender's loop as a run, and a run that acknowledges everything -----

  lemma RunStep(sha: Digest, src: Source, w: World, steps: seq<Step>, step: Step)
    requires src.chunkSize > 0
    ensures Run(sha, src, w, steps + [step]) == Apply(sha, src, Run(sha, src, w, steps), step)
  {
    assert (steps + [step])[..|steps|] == steps;
  }

  /** `n` rounds of a sender loop, with nothing in between. */
  function SenderSteps(n: nat, outcome: nat -> Publication): seq<Step> {
    if n == 0 then [] else SenderSteps(n - 1, outcome) + [SenderUpserts] + [SenderPublishes(outcome(n - 1).Lost?)]
  }

  /** What the loops of `ChunkSender` promise after `n` rounds. */
  function AfterRounds(sha: Digest, src: Source, w: World, n: nat, outcome: nat -> Publication): World {
    w.(upserted := n, published := n, onStream := StoredOnes(n, outcome), rows := UpsertedRows(w.rows, sha, src, n))
  }

  lemma NoRounds(sha: Digest, src: Source, w: World, outcome: nat -> Publication)
    requires Fresh(src, w)
    ensures AfterRounds(sha, src, w, 0, outcome) == w
  {
    assert StoredOnes(0, outcome) == {};
  }

  lemma OneMoreRound(sha: Digest, src: Source, w: World, n: nat, outcome: nat -> Publication)
    requires src.chunkSize > 0 && n < src.Count()
    ensures Apply(sha, src, Apply(sha, src, AfterRounds(sha, src, w, n, outcome), SenderUpserts), SenderPublishes(outcome(n).Lost?))
         == AfterRounds(sha, src, w, n + 1, outcome)
  {
    StoredStep(n, outcome);
  }

  lemma RunTwoSteps(sha: Digest, src: Source, w: World, steps: seq<Step>, a: Step, b: Step)
    requires src.chunkSize > 0
    ensures Run(sha, src, w, steps + [a] + [b]) == Apply(sha, src, Apply(sha, src, Run(sha, src, w, steps), a), b)
  {
    RunStep(sha, src, w, steps, a);
    RunStep(sha, src, w, steps + [a], b);
  }

  lemma SenderLoopStep(sha: Digest, src: Source, w: World, n: nat, outcome: nat -> Publication, before: World)
    requires src.chunkSize > 0 && n < src.Count()
    requires before == AfterRounds(sha, src, w, n, outcome) == Run(sha, src, w, SenderSteps(n, outcome))
    ensures Run(sha, src, w, SenderSteps(n + 1, outcome)) == AfterRounds(sha, src, w, n + 1, outcome)
  {
    RunTwoSteps(sha, src, w, SenderSteps(n, outcome), SenderUpserts, SenderPublishes(outcome(n).Lost?));
    OneMoreRound(sha, src, w, n, outcome);
  }

  /**
   The table and the stream that the loops of `ChunkSender` promise are those of a run of the sender's
   steps: one upsert and one publication a chunk, the upsert first.
   */
  lemma {:induction false} SenderLoopIsRun(sha: Digest, src: Source, w: World, n: nat, outcome: nat -> Publication)
    requires src.chunkSize > 0 && Fresh(src, w) && n <= src.Count()
    ensures Run(sha, src, w, SenderSteps(n, outcome)) == AfterRounds(sha, src, w, n, outcome)
  {
    if n == 0 {
      NoRounds(sha, src, w, outcome);
    } else {
      SenderLoopIsRun(sha, src, w, n - 1, outcome);
      SenderLoopStep(sha, src, w, n - 1, outcome, AfterRounds(sha, src, w, n - 1, outcome));
    }
  }

  /**
   What the receiver's steps change in any reachable world: an upsert that succeeds leaves the stored
   chunk's data in its row, at version 2, and one that fails leaves the table alone; neither is made
   twice. A finalize touches the transfer only.
   */
  lemma ReceiverStepFields(sha: Digest, src: Source, w: World, steps: seq<Step>, i: nat)
    requires Announceable(src) && Fresh(src, w) && i in Run(sha, src, w, steps).waiting
    ensures var u := Run(sha, src, w, steps);
            var stored := Apply(sha, src, u, ReceiverUpserts(i));
            var failed := Apply(sha, src, u, ReceiverUpsertFails(i));
            var payload := Payload(src.file, src.chunkSize, i);
            && stored == u.(waiting := u.waiting - {i}, acknowledged := u.acknowledged + {i}, rows := stored.rows)
            && stored.rows == u.rows[RowKey(src, i) :=
                 FileChunk(src.transferId, i, Offset(src.chunkSize, i), |payload|, sha(payload), "received", "acknowledged", 2)]
            && failed == u.(waiting := u.waiting - {i})
            && i !in u.acknowledged
  {
    RunKeepsInv(sha, src, w, steps);
    var u := Run(sha, src, w, steps);
    assert u.rows[RowKey(src, i)] == PendingChunk(sha, src, i);
  }

  lemma FinalizeFields(sha: Digest, src: Source, w: World)
    requires src.chunkSize > 0
    ensures var s := w.active;
            var v := Apply(sha, src, w, Finalizes);
            && v == w.(active := v.active)
            && v.active == if s.open && |s.disk| == s.totalBytes && sha(s.disk) == s.fileSHA256 then
                             s.(open := false, status := Completed, receivedChunks := s.totalChunks)
                           else s
  {
  }

  /** Each of the first `m` messages arrives once and its row is stored. */
  function ReceiverSteps(m: nat): seq<Step> {
    if m == 0 then [] else ReceiverSteps(m - 1) + [Arrives(m - 1)] + [ReceiverUpserts(m - 1)]
  }

  /** All of the first `m` chunks have been stored and acknowledged, and nothing is waiting. */
  ghost predicate AcknowledgedUpTo(v: World, n: nat, m: nat) {
    && v.active.open && v.upserted == n && v.waiting == map[]
    && (forall i: nat :: i < n ==> i in v.onStream)
    && (forall k :: k in v.active.received <==> 0 <= k < m)
    && (forall i: nat :: i in v.acknowledged <==> i < m)
  }

  /** An honest message that arrives for the first time is stored and waits for its upsert. */
  lemma FirstArrival(sha: Digest, src: Source, w: World, i: nat)
    requires Announceable(src) && i < src.Count() && i in w.onStream && w.active.open && i as int !in w.active.received
    ensures var v := Apply(sha, src, w, Arrives(i));
            && v.active.open && v.active.received == w.active.received[i as int := HonestChunk(sha, src, i)]
            && v == w.(active := v.active, waiting := w.waiting[i := HonestChunk(sha, src, i)])
  {
    HonestDelivery(sha, src, w.active, i);
  }

  lemma ReceiverRound(sha: Digest, src: Source, w: World, n: nat, i: nat)
    requires Announceable(src) && i < n <= src.Count() && AcknowledgedUpTo(w, n, i)
    ensures AcknowledgedUpTo(Apply(sha, src, Apply(sha, src, w, Arrives(i)), ReceiverUpserts(i)), n, i + 1)
  {
    FirstArrival(sha, src, w, i);
    var v := Apply(sha, src, w, Arrives(i));
    assert v.waiting - {i} == map[];
  }

  lemma {:induction false} ReceiverRun(sha: Digest, src: Source, w: World, n: nat, m: nat)
    requires Announceable(src) && m <= n <= src.Count() && AcknowledgedUpTo(w, n, 0)
    ensures AcknowledgedUpTo(Run(sha, src, w, ReceiverSteps(m)), n, m)
  {
    if m > 0 {
      var i := m - 1;
      var steps := ReceiverSteps(i);
      ReceiverRun(sha, src, w, n, i);
      RunStep(sha, src, w, steps, Arrives(i));
      RunStep(sha, src, w, steps + [Arrives(i)], ReceiverUpserts(i));
      ReceiverRound(sha, src, Run(sha, src, w, steps), n, i);
    }
  }

  /** If nothing is lost, one delivery of each message brings every row to the acknowledged state. */
  lemma EveryRowCanBeAcknowledged(sha: Digest, src: Source, w: World, n: nat, outcome: nat -> Publication, i: nat)
    requires Announceable(src) && Fresh(src, w) && w.active.open && i < n <= src.Count()
    requires forall j: nat :: !outcome(j).Lost?
    ensures var sent := Run(sha, src, w, SenderSteps(n, outcome));
            var rows := Run(sha, src, sent, ReceiverSteps(n)).rows;
            && RowKey(src, i) in sent.rows && sent.rows[RowKey(src, i)].ackState == "pending"
            && RowKey(src, i) in rows
            && rows[RowKey(src, i)].ackState == "acknowledged" && rows[RowKey(src, i)].version == 2
  {
    var sent := Run(sha, src, w, SenderSteps(n, outcome));
    assert Inv(sha, src, sent) by {
      RunKeepsInv(sha, src, w, SenderSteps(n, outcome));
    }
    SenderLoopIsRun(sha, src, w, n, outcome);
    ReceiverRun(sha, src, sent, n, n);
    RunKeepsInv(sha, src, sent, ReceiverSteps(n));
    RowOfInv(sha, src, sent, i);
    RowOfInv(sha, src, Run(sha, src, sent, ReceiverSteps(n)), i);
  }

  lemma RowOfInv(sha: Digest, src: Source, w: World, i: nat)
    requires src.chunkSize > 0 && Inv(sha, src, w) && i < w.upserted
    ensures RowKey(src, i) in w.rows
    ensures w.rows[RowKey(src, i)].ackState == if i in w.acknowledged then "acknowledged" else "pending"
    ensures i in w.acknowledged ==> w.rows[RowKey(src, i)].version == 2
  {
  }
}
