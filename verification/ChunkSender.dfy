/**
 The two loops that cut the input file into chunk messages: `publishFileChunks` of
 `internal/application/operations/dispatch.go` and `TransferSender.Execute` of
 `internal/infrastructure/transfer/transfer.go`.
 */
module ChunkSender {
  import opened Common
  import opened Tiling
  import opened TransferReceiver
  import opened ChunkMessages
  import ChunkRows
  import Decimal

  const MAX_IN_FLIGHT := 10

  /** An open regular file: reads are full and sequential. */
  class InputFile {
    const content: Bytes
    var pos: nat

    constructor (content: Bytes)
      ensures this.content == content && pos == 0
    {
      this.content, pos := content, 0;
    }

    method Read(buf: array<byte>) returns (n: nat)
      requires pos <= |content|
      modifies this`pos, buf
      ensures pos <= |content|
      ensures n == if |content| - old(pos) < buf.Length then |content| - old(pos) else buf.Length
      ensures pos == old(pos) + n
      ensures buf[..n] == content[old(pos)..old(pos) + n]
    {
      n := if |content| - pos < buf.Length then |content| - pos else buf.Length;
      forall k | 0 <= k < n {
        buf[k] := content[pos + k];
      }
      pos := pos + n;
    }
  }

  /** How a publish ends: acknowledged, with an error although the message was stored, or with the message lost. */
  datatype Publication = Acknowledged | ErrorButStored | Lost

  /** The stream the chunk messages are published to. */
  class Stream {
    var published: seq<Message>

    constructor ()
      ensures published == []
    {
      published := [];
    }

    method PublishWithHeaders(m: Message, outcome: Publication) returns (ok: bool)
      modifies this
      ensures ok == outcome.Acknowledged?
      ensures published == if outcome.Lost? then old(published) else old(published) + [m]
    {
      if !outcome.Lost? {
        published := published + [m];
      }
      return outcome.Acknowledged?;
    }
  }

  /** The row the sender writes before it publishes chunk `i`. */
  function PendingChunk(sha: Digest, src: Source, i: nat): FileChunk {
    HonestChunk(sha, src, i).(publishState := "published", ackState := "pending")
  }

  /** The messages of chunks `0..n-1` that were not lost. */
  function Published(sha: Digest, src: Source, n: nat, outcome: nat -> Publication): seq<Message> {
    if n == 0 then []
    else
      Published(sha, src, n - 1, outcome) + if outcome(n - 1).Lost? then [] else [ChunkMessage(sha, src, n - 1)]
  }

  /** Which of the first `n` publications were acknowledged. */
  function AcknowledgedOnes(n: nat, outcome: nat -> Publication): set<nat> {
    set i: nat | i < n && outcome(i).Acknowledged?
  }

  /** Which of the first `n` messages are on the stream. */
  function StoredOnes(n: nat, outcome: nat -> Publication): set<nat> {
    set i: nat | i < n && !outcome(i).Lost?
  }

  function UpsertedRows(rows: ChunkRows.Rows, sha: Digest, src: Source, n: nat): ChunkRows.Rows {
    if n == 0 then rows
    else ChunkRows.Upsert(UpsertedRows(rows, sha, src, n - 1), PendingChunk(sha, src, n - 1))
  }

  /** The table has no rows of this transfer yet. */
  predicate NoRowsOf(rows: ChunkRows.Rows, transferId: string) {
    forall k :: k in rows ==> k.0 != transferId
  }

  /** Rows of the first `n` chunks, all still pending at version 1, and otherwise the table as it was. */
  ghost predicate PendingRowsAdded(before: ChunkRows.Rows, rows: ChunkRows.Rows, sha: Digest, src: Source, n: nat) {
    && (forall i: nat :: i < n ==> PendingRowAt(rows, sha, src, i))
    && (forall k: ChunkRows.Key :: k.0 != src.transferId || k.1 < 0 || n <= k.1 ==> SameAt(before, rows, k))
  }

  predicate PendingRowAt(rows: ChunkRows.Rows, sha: Digest, src: Source, i: nat) {
    var payload := Payload(src.file, src.chunkSize, i);
    && (src.transferId, i as int) in rows
    && rows[(src.transferId, i as int)]
       == FileChunk(src.transferId, i, Offset(src.chunkSize, i), |payload|, sha(payload), "published", "pending", 1)
  }

  predicate SameAt(before: ChunkRows.Rows, rows: ChunkRows.Rows, k: ChunkRows.Key) {
    (k in before <==> k in rows) && (k in before ==> before[k] == rows[k])
  }

  lemma {:induction false} UpsertedRowsArePending(rows: ChunkRows.Rows, sha: Digest, src: Source, n: nat)
    requires NoRowsOf(rows, src.transferId)
    ensures PendingRowsAdded(rows, UpsertedRows(rows, sha, src, n), sha, src, n)
  {
    if n > 0 {
      var before, c := UpsertedRows(rows, sha, src, n - 1), PendingChunk(sha, src, n - 1);
      UpsertedRowsArePending(rows, sha, src, n - 1);
      assert SameAt(rows, before, ChunkRows.KeyOf(c));
      forall i: nat | i < n
        ensures PendingRowAt(UpsertedRows(rows, sha, src, n), sha, src, i)
      {
        assert i < n - 1 ==> PendingRowAt(before, sha, src, i);
      }
      forall k: ChunkRows.Key | k.0 != src.transferId || k.1 < 0 || n <= k.1
        ensures SameAt(rows, UpsertedRows(rows, sha, src, n), k)
      {
        assert SameAt(rows, before, k);
      }
    }
  }

  /** How many chunks a loop of `announced` rounds gets out of the file. */
  function Attempts(src: Source, announced: nat): nat
    requires src.chunkSize > 0
  {
    if announced < src.Count() then announced else src.Count()
  }

  function ReadPosition(src: Source, i: nat): nat {
    var at := Offset(src.chunkSize, i);
    if |src.file| <= at then |src.file| else at
  }

  /** Round `i` finds the file at the offset of chunk `i`, and reads exactly that chunk. */
  lemma RoundReads(src: Source, i: nat)
    requires src.chunkSize > 0
    ensures var pos := ReadPosition(src, i);
            var left := |src.file| - pos;
            var n := if left < src.chunkSize then left else src.chunkSize;
            && src.file[pos..pos + n] == Payload(src.file, src.chunkSize, i)
            && (n == 0 <==> src.Count() <= i)
            && pos + n == ReadPosition(src, i + 1)
            && (n > 0 ==> pos == Offset(src.chunkSize, i))
  {
    ChunkExistsIff(|src.file|, src.chunkSize, i);
    assert Offset(src.chunkSize, i + 1) == Offset(src.chunkSize, i) + src.chunkSize;
  }

  /** The headers printed from the chunk record. */
  function HeadersOf(c: FileChunk, payload: Bytes): Message
    requires 0 <= c.chunkIndex && 0 <= c.chunkOffset
  {
    Message(Decimal.Format(c.chunkIndex), Decimal.Format(c.chunkOffset), Decimal.Format(|payload|), c.checksum,
            c.transferId, payload)
  }

  /** The records and messages built in round `i` are those of chunk `i`. */
  lemma RoundBuilds(sha: Digest, src: Source, i: nat, payload: Bytes)
    requires payload == Payload(src.file, src.chunkSize, i)
    ensures var c := FileChunk(src.transferId, i, Offset(src.chunkSize, i), |payload|, sha(payload), "published", "pending", 1);
            c == PendingChunk(sha, src, i) && HeadersOf(c, payload) == ChunkMessage(sha, src, i)
  {
  }

  lemma PublishedStep(before: seq<Message>, sha: Digest, src: Source, i: nat, outcome: nat -> Publication)
    ensures before + Published(sha, src, i + 1, outcome)
         == before + Published(sha, src, i, outcome) + if outcome(i).Lost? then [] else [ChunkMessage(sha, src, i)]
  {
  }

  /**
   One round, common to both loops: read into the reused buffer, store the row, then publish. Nothing
   is read exactly when there is no such chunk.
   */
  method SendRound(sha: Digest, ghost src: Source, file: InputFile, chunkBuf: array<byte>,
                   chunks: ChunkRows.FileChunkRepository, nats: Stream, transferId: string, i: nat, outcome: Publication)
    returns (n: nat, ok: bool)
    requires chunkBuf.Length > 0 && src == Source(file.content, chunkBuf.Length, transferId)
    requires file.pos == ReadPosition(src, i)
    modifies file, chunkBuf, chunks, nats
    ensures file.pos == ReadPosition(src, i + 1) == old(file.pos) + n
    ensures n == 0 <==> src.Count() <= i
    ensures n == 0 ==> nats.published == old(nats.published) && chunks.rows == old(chunks.rows)
    ensures n > 0 ==>
              && ok == outcome.Acknowledged?
              && chunks.rows == ChunkRows.Upsert(old(chunks.rows), PendingChunk(sha, src, i))
              && nats.published == old(nats.published) + if outcome.Lost? then [] else [ChunkMessage(sha, src, i)]
  {
    RoundReads(src, i);
    n := file.Read(chunkBuf);
    ok := false;
    if n > 0 {
      var payload := chunkBuf[..n];
      var chunkChecksum := sha(payload);
      ChunkArithmetic(|file.content|, chunkBuf.Length, i);
      var chunk := FileChunk(transferId, i, i * chunkBuf.Length, n, chunkChecksum, "published", "pending", 1);
      RoundBuilds(sha, src, i, payload);
      chunks.UpsertChunk(chunk);
      ok := nats.PublishWithHeaders(HeadersOf(chunk, payload), outcome);
    }
  }

  method PublishFileChunks(sha: Digest, ghost src: Source, file: InputFile, chunks: ChunkRows.FileChunkRepository,
                           nats: Stream, transferId: string, chunkSize: nat, totalChunks: nat, outcome: nat -> Publication)
    returns (publishedChunks: nat, totalBytes: nat)
    requires chunkSize > 0 && src == Source(file.content, chunkSize, transferId) && file.pos == 0
    modifies file, chunks, nats
    ensures publishedChunks == Attempts(src, totalChunks) == if totalChunks < src.Count() then totalChunks else src.Count()
    ensures totalBytes == if |src.file| <= publishedChunks * chunkSize then |src.file| else publishedChunks * chunkSize
    ensures nats.published == old(nats.published) + Published(sha, src, publishedChunks, outcome)
    ensures chunks.rows == UpsertedRows(old(chunks.rows), sha, src, publishedChunks)
    ensures NoRowsOf(old(chunks.rows), transferId) ==>
              PendingRowsAdded(old(chunks.rows), chunks.rows, sha, src, publishedChunks)
  {
    var chunkBuf := new byte[chunkSize];
    publishedChunks, totalBytes := 0, 0;
    var chunkIdx := 0;
    while chunkIdx < totalChunks
      invariant chunkIdx == publishedChunks <= Attempts(src, totalChunks)
      invariant file.pos == totalBytes == ReadPosition(src, chunkIdx)
      invariant nats.published == old(nats.published) + Published(sha, src, chunkIdx, outcome)
      invariant chunks.rows == UpsertedRows(old(chunks.rows), sha, src, chunkIdx)
    {
      PublishedStep(old(nats.published), sha, src, chunkIdx, outcome);
      var n, _ := SendRound(sha, src, file, chunkBuf, chunks, nats, transferId, chunkIdx, outcome(chunkIdx));
      if n == 0 {
        break;
      }
      publishedChunks := publishedChunks + 1;
      totalBytes := totalBytes + n;
      chunkIdx := chunkIdx + 1;
    }
    ChunkArithmetic(|src.file|, chunkSize, publishedChunks);
    if NoRowsOf(old(chunks.rows), transferId) {
      UpsertedRowsArePending(old(chunks.rows), sha, src, publishedChunks);
    }
  }

  /** The loop of `TransferSender.Execute`; it takes the size from the file itself. */
  method TransferSenderLoop(sha: Digest, ghost src: Source, file: InputFile, chunks: ChunkRows.FileChunkRepository,
                            nats: Stream, transferId: string, chunkSize: nat, outcome: nat -> Publication)
    returns (seqNo: nat)
    requires chunkSize > 0 && src == Source(file.content, chunkSize, transferId) && file.pos == 0
    modifies file, chunks, nats
    ensures nats.published == old(nats.published) + Published(sha, src, src.Count(), outcome)
    ensures chunks.rows == UpsertedRows(old(chunks.rows), sha, src, src.Count())
    ensures NoRowsOf(old(chunks.rows), transferId) ==>
              PendingRowsAdded(old(chunks.rows), chunks.rows, sha, src, src.Count())
    ensures seqNo == |AcknowledgedOnes(src.Count(), outcome)|
  {
    var totalChunks := (|file.content| + chunkSize - 1) / chunkSize;
    assert totalChunks == src.Count() by {
      ChunkArithmetic(|file.content|, chunkSize, 0);
    }
    var chunkBuf := new byte[chunkSize];
    seqNo := 0;
    var inFlight := 0;
    var chunkIdx := 0;
    while chunkIdx < totalChunks
      invariant chunkIdx <= src.Count()
      invariant file.pos == ReadPosition(src, chunkIdx)
      invariant 0 <= inFlight < MAX_IN_FLIGHT
      invariant nats.published == old(nats.published) + Published(sha, src, chunkIdx, outcome)
      invariant chunks.rows == UpsertedRows(old(chunks.rows), sha, src, chunkIdx)
      invariant seqNo == |AcknowledgedOnes(chunkIdx, outcome)|
    {
      PublishedStep(old(nats.published), sha, src, chunkIdx, outcome);
      var n, ok := SendRound(sha, src, file, chunkBuf, chunks, nats, transferId, chunkIdx, outcome(chunkIdx));
      if n == 0 {
        break;
      }
      AcknowledgedStep(chunkIdx, outcome);
      chunkIdx := chunkIdx + 1;
      if !ok {
        continue;
      }
      seqNo := seqNo + 1;
      inFlight := inFlight + 1;
      if inFlight >= MAX_IN_FLIGHT {
        inFlight := 0;
      }
    }
    if NoRowsOf(old(chunks.rows), transferId) {
      UpsertedRowsArePending(old(chunks.rows), sha, src, src.Count());
    }
  }

  lemma AcknowledgedStep(n: nat, outcome: nat -> Publication)
    ensures |AcknowledgedOnes(n + 1, outcome)| == |AcknowledgedOnes(n, outcome)| + if outcome(n).Acknowledged? then 1 else 0
  {
    if outcome(n).Acknowledged? {
      assert AcknowledgedOnes(n + 1, outcome) == AcknowledgedOnes(n, outcome) + {n};
    } else {
      assert AcknowledgedOnes(n + 1, outcome) == AcknowledgedOnes(n, outcome);
    }
  }

  lemma StoredStep(n: nat, outcome: nat -> Publication)
    ensures StoredOnes(n + 1, outcome) == StoredOnes(n, outcome) + if outcome(n).Lost? then {} else {n}
  {
  }

  /**
   The dispatcher takes the chunk count from the operation row, the transfer sender from the file:
   both loops attempt the same chunks exactly when the row does not announce too few of them.
   */
  lemma SenderLoopsAgree(src: Source, rowSize: nat)
    requires src.chunkSize > 0
    ensures Attempts(src, TotalChunks(rowSize, src.chunkSize)) == src.Count()
       <==> |src.file| <= Offset(src.chunkSize, TotalChunks(rowSize, src.chunkSize))
    ensures rowSize == |src.file| ==> Attempts(src, TotalChunks(rowSize, src.chunkSize)) == src.Count()
  {
    var announced := TotalChunks(rowSize, src.chunkSize);
    ChunkExistsIff(|src.file|, src.chunkSize, announced);
  }

  /** Every published message is the message of some chunk. */
  lemma {:induction false} PublishedIsHonest(sha: Digest, src: Source, n: nat, outcome: nat -> Publication, k: nat) returns (i: nat)
    requires k < |Published(sha, src, n, outcome)|
    ensures i < n && !outcome(i).Lost? && Published(sha, src, n, outcome)[k] == ChunkMessage(sha, src, i)
  {
    if k < |Published(sha, src, n - 1, outcome)| {
      i := PublishedIsHonest(sha, src, n - 1, outcome, k);
    } else {
      i := n - 1;
    }
  }

  /** Exactly the chunks that were attempted and not lost are on the stream, each once. */
  lemma {:induction false} PublishedExactly(sha: Digest, src: Source, n: nat, outcome: nat -> Publication, i: nat)
    ensures ChunkMessage(sha, src, i) in Published(sha, src, n, outcome) <==> i in StoredOnes(n, outcome)
    ensures |Published(sha, src, n, outcome)| == |StoredOnes(n, outcome)|
  {
    if n > 0 {
      PublishedExactly(sha, src, n - 1, outcome, i);
      StoredStep(n - 1, outcome);
      if ChunkMessage(sha, src, i) == ChunkMessage(sha, src, n - 1) {
        MessageInjective(sha, src, i, n - 1);
      }
    }
  }

  /** If no message is lost, message `i` is the `i`-th on the stream. */
  lemma {:induction false} PublishedInOrder(sha: Digest, src: Source, n: nat, outcome: nat -> Publication)
    requires forall i: nat :: i < n ==> !outcome(i).Lost?
    ensures |Published(sha, src, n, outcome)| == n
    ensures forall i: nat :: i < n ==> Published(sha, src, n, outcome)[i] == ChunkMessage(sha, src, i)
  {
    if n > 0 {
      PublishedInOrder(sha, src, n - 1, outcome);
    }
  }
}
