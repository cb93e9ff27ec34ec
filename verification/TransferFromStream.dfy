/**
 From the sender's loop to the sealed file: the receiver consumes the stream that a sender loop has
 filled (`ChunkSender.Published`), taking messages at any positions, any number of times, in any order.
 */
module TransferFromStream {
  import opened Common
  import opened TransferReceiver
  import opened TransferRuns
  import opened ChunkMessages
  import opened ChunkSender
  import opened TransferEndToEnd

  datatype Reception = Receive(position: nat) | Finalizing

  predicate OnStream(stream: seq<Message>, receptions: seq<Reception>) {
    forall k :: 0 <= k < |receptions| && receptions[k].Receive? ==> receptions[k].position < |stream|
  }

  function StepOf(stream: seq<Message>, r: Reception): Step
    requires r.Receive? ==> r.position < |stream|
  {
    match r
    case Receive(p) => Deliver(stream[p])
    case Finalizing => RunFinalize
  }

  function Steps(stream: seq<Message>, receptions: seq<Reception>): seq<Step>
    requires OnStream(stream, receptions)
  {
    seq(|receptions|, k requires 0 <= k < |receptions| => StepOf(stream, receptions[k]))
  }

  /** What the dispatcher's loop leaves on the stream for an announcement, see `ChunkSender.PublishFileChunks`. */
  function Sent(sha: Digest, src: Source, row: Announced, outcome: nat -> Publication): seq<Message>
    requires src.chunkSize > 0
  {
    Published(sha, src, Attempts(src, row.Chunks(src.chunkSize)), outcome)
  }

  /** The receiver after it has consumed the stream in that way. */
  function Received(sha: Digest, src: Source, row: Announced, prior: Bytes, outcome: nat -> Publication,
                    receptions: seq<Reception>): System
    requires src.chunkSize > 0 && OnStream(Sent(sha, src, row, outcome), receptions)
  {
    Run(sha, Announce(src, row, prior), Steps(Sent(sha, src, row, outcome), receptions))
  }

  /** Some reception took a message equal to `m`. */
  predicate Taken(stream: seq<Message>, receptions: seq<Reception>, m: Message)
    requires OnStream(stream, receptions)
  {
    exists k :: 0 <= k < |receptions| && StepOf(stream, receptions[k]) == Deliver(m)
  }

  lemma ReceptionIsHonest(sha: Digest, src: Source, row: Announced, outcome: nat -> Publication, r: Reception)
    returns (e: Event)
    requires src.chunkSize > 0 && (r.Receive? ==> r.position < |Sent(sha, src, row, outcome)|)
    ensures ToStep(sha, src, e) == StepOf(Sent(sha, src, row, outcome), r)
    ensures e.Delivery? ==> IsSent(src, row, e.i) && !outcome(e.i).Lost?
  {
    match r
    case Receive(p) =>
      var i := PublishedIsHonest(sha, src, Attempts(src, row.Chunks(src.chunkSize)), outcome, p);
      e := Delivery(i);
    case Finalizing =>
      e := FinalizeRuns;
  }

  /** Whatever is taken from the stream is a history of honest deliveries of chunks that were not lost. */
  lemma {:induction false} StreamIsHonest(sha: Digest, src: Source, row: Announced, outcome: nat -> Publication,
                                          receptions: seq<Reception>)
    returns (events: seq<Event>)
    requires src.chunkSize > 0 && OnStream(Sent(sha, src, row, outcome), receptions)
    ensures FromSource(src, row, events)
    ensures ToSteps(sha, src, events) == Steps(Sent(sha, src, row, outcome), receptions)
    ensures forall k :: 0 <= k < |events| && events[k].Delivery? ==> !outcome(events[k].i).Lost?
  {
    var stream := Sent(sha, src, row, outcome);
    if receptions == [] {
      events := [];
    } else {
      var init, last := receptions[..|receptions| - 1], receptions[|receptions| - 1];
      var before := StreamIsHonest(sha, src, row, outcome, init);
      var e := ReceptionIsHonest(sha, src, row, outcome, last);
      events := before + [e];
      assert ToSteps(sha, src, events) == ToSteps(sha, src, before) + [ToStep(sha, src, e)];
      assert Steps(stream, receptions) == Steps(stream, init) + [StepOf(stream, last)];
    }
  }

  /** Taking the message of a chunk is delivering the chunk. */
  lemma TakenIsDelivered(sha: Digest, src: Source, stream: seq<Message>, receptions: seq<Reception>, events: seq<Event>, i: nat)
    requires OnStream(stream, receptions) && ToSteps(sha, src, events) == Steps(stream, receptions)
    ensures Taken(stream, receptions, ChunkMessage(sha, src, i)) <==> i as int in Delivered(events)
  {
    var m := ChunkMessage(sha, src, i);
    assert |events| == |ToSteps(sha, src, events)| == |receptions|;
    forall k | 0 <= k < |events|
      ensures StepOf(stream, receptions[k]) == Deliver(m) <==> events[k] == Delivery(i)
    {
      assert ToSteps(sha, src, events)[k] == Steps(stream, receptions)[k];
      if events[k].Delivery? && ChunkMessage(sha, src, events[k].i) == m {
        MessageInjective(sha, src, events[k].i, i);
      }
    }
    if Taken(stream, receptions, m) {
      var k :| 0 <= k < |receptions| && StepOf(stream, receptions[k]) == Deliver(m);
      assert events[k] == Delivery(i);
    }
    if i as int in Delivered(events) {
      var k :| 0 <= k < |events| && events[k].Delivery? && events[k].i as int == i;
      assert events[k] == Delivery(i);
    }
  }

  /**
   From loop to seal, for any announcement, any losses and any earlier staging file. However the stream
   is consumed, once no finalize is pending the transfer is sealed exactly if the message of every
   announced chunk was taken and the announcement describes the image.
   */
  lemma StreamSealsIff(sha: Digest, src: Source, row: Announced, prior: Bytes, outcome: nat -> Publication,
                       receptions: seq<Reception>)
    requires Sendable(src, row) && OnStream(Sent(sha, src, row, outcome), receptions)
    requires Received(sha, src, row, prior, outcome, receptions).pending == 0
    ensures !Received(sha, src, row, prior, outcome, receptions).active.open
       <==> AllTaken(sha, src, row, Sent(sha, src, row, outcome), receptions) && Described(sha, src, row, prior)
  {
    var stream := Sent(sha, src, row, outcome);
    var events := StreamIsHonest(sha, src, row, outcome, receptions);
    SealedIffAllDelivered(sha, src, row, prior, events);
    HonestRun(sha, src, row, prior, events);
    AllTakenIsAllDelivered(sha, src, row, stream, receptions, events);
  }

  predicate AllTaken(sha: Digest, src: Source, row: Announced, stream: seq<Message>, receptions: seq<Reception>)
    requires src.chunkSize > 0 && OnStream(stream, receptions)
  {
    forall i :: 0 <= i < row.Chunks(src.chunkSize) ==> Taken(stream, receptions, ChunkMessage(sha, src, i))
  }

  lemma AllTakenIsAllDelivered(sha: Digest, src: Source, row: Announced, stream: seq<Message>, receptions: seq<Reception>,
                               events: seq<Event>)
    requires src.chunkSize > 0
    requires OnStream(stream, receptions) && ToSteps(sha, src, events) == Steps(stream, receptions)
    ensures AllTaken(sha, src, row, stream, receptions) <==> AllChunks(src, row) <= Delivered(events)
  {
    forall i | 0 <= i < row.Chunks(src.chunkSize)
      ensures Taken(stream, receptions, ChunkMessage(sha, src, i)) <==> i in Delivered(events)
    {
      TakenIsDelivered(sha, src, stream, receptions, events, i);
    }
  }

  /** Sealed bytes are the image of the file the loop has read, however the stream was consumed. */
  lemma SealedStreamIsTheFile(sha: Digest, src: Source, row: Announced, prior: Bytes, outcome: nat -> Publication,
                              receptions: seq<Reception>)
    requires Sendable(src, row) && OnStream(Sent(sha, src, row, outcome), receptions)
    requires !Received(sha, src, row, prior, outcome, receptions).active.open
    ensures Received(sha, src, row, prior, outcome, receptions).active.disk == Image(src, row, prior)
    ensures Received(sha, src, row, prior, outcome, receptions).active.disk == src.file <==> row.size == |src.file|
  {
    var events := StreamIsHonest(sha, src, row, outcome, receptions);
    SealedBytesAreTheFile(sha, src, row, prior, events);
  }

  /** A chunk whose message is not on the stream, which the loops at most log, can never be made up for. */
  lemma LostChunkPreventsSeal(sha: Digest, src: Source, row: Announced, prior: Bytes, outcome: nat -> Publication,
                              receptions: seq<Reception>, i: nat)
    requires Sendable(src, row) && OnStream(Sent(sha, src, row, outcome), receptions)
    requires i < row.Chunks(src.chunkSize) && (src.Count() <= i || outcome(i).Lost?)
    ensures Received(sha, src, row, prior, outcome, receptions).active.open
  {
    var events := StreamIsHonest(sha, src, row, outcome, receptions);
    HonestRun(sha, src, row, prior, events);
    assert i as int in AllChunks(src, row);
    assert i as int !in Delivered(events);
  }

  /**
   With nothing lost, receiving every position at least once and letting the finalize run seals the file
   exactly if the file has all announced chunks and the announcement describes the image.
   */
  lemma LosslessStreamSealsIff(sha: Digest, src: Source, row: Announced, prior: Bytes, outcome: nat -> Publication,
                               receptions: seq<Reception>)
    requires Sendable(src, row) && (forall i: nat :: !outcome(i).Lost?)
    requires OnStream(Sent(sha, src, row, outcome), receptions)
    requires forall p: nat :: p < |Sent(sha, src, row, outcome)| ==> Receive(p) in receptions
    requires Received(sha, src, row, prior, outcome, receptions).pending == 0
    ensures !Received(sha, src, row, prior, outcome, receptions).active.open
       <==> row.Chunks(src.chunkSize) <= src.Count() && Described(sha, src, row, prior)
  {
    var stream := Sent(sha, src, row, outcome);
    var n := row.Chunks(src.chunkSize);
    StreamSealsIff(sha, src, row, prior, outcome, receptions);
    PublishedInOrder(sha, src, Attempts(src, n), outcome);
    if n <= src.Count() {
      forall i: nat | i < n
        ensures Taken(stream, receptions, ChunkMessage(sha, src, i))
      {
        var k :| 0 <= k < |receptions| && receptions[k] == Receive(i);
        assert StepOf(stream, receptions[k]) == Deliver(ChunkMessage(sha, src, i));
      }
    } else if !Received(sha, src, row, prior, outcome, receptions).active.open {
      LostChunkPreventsSeal(sha, src, row, prior, outcome, receptions, src.Count());
    }
  }
}
