/** The messages an honest sender publishes for a file, and what the receiver reads back from them. */
module ChunkMessages {
  import opened Common
  import opened Tiling
  import opened TransferReceiver
  import Arithmetic
  import Binary64
  import Decimal

  datatype Source = Source(file: Bytes, chunkSize: nat, transferId: string)
  {
    function Count(): nat
      requires chunkSize > 0
    {
      TotalChunks(|file|, chunkSize)
    }
  }

  /** Payload, index, offset and length of chunk `i`, printed as the dispatcher prints them. */
  function ChunkMessage(sha: Digest, src: Source, i: nat): Message {
    var payload := Payload(src.file, src.chunkSize, i);
    Message(Decimal.Format(i), Decimal.Format(Offset(src.chunkSize, i)), Decimal.Format(|payload|),
            sha(payload), src.transferId, payload)
  }

  /** The chunk the receiver records for it. */
  function HonestChunk(sha: Digest, src: Source, i: nat): FileChunk {
    var payload := Payload(src.file, src.chunkSize, i);
    FileChunk(src.transferId, i, Offset(src.chunkSize, i), |payload|, sha(payload), "received", "acknowledged", 1)
  }

  /** Files up to 2^53 bytes. */
  predicate Announceable(src: Source) {
    src.chunkSize > 0 && |src.file| <= Binary64.EXACT_LIMIT
  }

  lemma CountFits(size: nat, chunkSize: nat)
    requires chunkSize > 0
    ensures TotalChunks(size, chunkSize) <= size
  {
    var n := TotalChunks(size, chunkSize);
    TotalChunksIsCeiling(size, chunkSize);
    if n > 0 {
      Arithmetic.TimesPositive(n - 1, chunkSize);
    }
  }

  /** What the dispatcher announces: size and digest recorded in the operation row, whatever the staged file holds. */
  datatype Announced = Announced(size: nat, digest: string)
  {
    function Chunks(chunkSize: nat): nat
      requires chunkSize > 0
    {
      TotalChunks(size, chunkSize)
    }
  }

  /** The announced size and count arrive unchanged, after `json.Marshal` and the decoding into `float64`. */
  lemma AnnouncementRoundTrip(row: Announced, chunkSize: nat)
    requires chunkSize > 0 && row.size <= Binary64.EXACT_LIMIT
    ensures Binary64.Decode(row.size) == row.size
    ensures Binary64.Decode(row.Chunks(chunkSize)) == row.Chunks(chunkSize)
  {
    CountFits(row.size, chunkSize);
    Binary64.DecodeExact(row.size);
    Binary64.DecodeExact(row.Chunks(chunkSize));
  }

  lemma PayloadLength(src: Source, i: nat)
    requires src.chunkSize > 0 && i < src.Count()
    ensures |Payload(src.file, src.chunkSize, i)| == ChunkLength(|src.file|, src.chunkSize, i) > 0
    ensures Offset(src.chunkSize, i) + |Payload(src.file, src.chunkSize, i)| <= |src.file|
  {
    ChunkExistsIff(|src.file|, src.chunkSize, i);
    ChunkSizes(|src.file|, src.chunkSize, i);
  }

  /** The receiver reads index, offset and length back, accepts the payload, and records the chunk under the sender's transfer. */
  lemma MessageRoundTrip(sha: Digest, src: Source, i: nat)
    requires Announceable(src) && i < src.Count()
    ensures var m := ChunkMessage(sha, src, i);
            && Parse(sha, m) == Some(i)
            && ScanOrZero(m.offset) == Offset(src.chunkSize, i)
            && ReceivedChunk(m, i) == HonestChunk(sha, src, i)
            && m.payload == Payload(src.file, src.chunkSize, i)
            && HonestChunk(sha, src, i) == FileChunk(src.transferId, i, Offset(src.chunkSize, i), |m.payload|, sha(m.payload),
                                                     "received", "acknowledged", 1)
  {
    PayloadLength(src, i);
    CountFits(|src.file|, src.chunkSize);
    Decimal.HeaderRoundTrip(i);
    Decimal.HeaderRoundTrip(Offset(src.chunkSize, i));
    Decimal.HeaderRoundTrip(|Payload(src.file, src.chunkSize, i)|);
    Decimal.FormatIsDecimal(i);
  }

  /** Messages of different chunks differ, in their index header. */
  lemma MessageInjective(sha: Digest, src: Source, i: nat, j: nat)
    requires ChunkMessage(sha, src, i) == ChunkMessage(sha, src, j)
    ensures i == j
  {
    Decimal.FormatInjective(i, j);
  }

  /** What a delivery of honest chunk `i` does. */
  lemma HonestDelivery(sha: Digest, src: Source, s: TransferState, i: nat)
    requires Announceable(src) && i < src.Count()
    ensures HandleChunk(sha, s, ChunkMessage(sha, src, i))
         == Place(s, Payload(src.file, src.chunkSize, i), Offset(src.chunkSize, i), HonestChunk(sha, src, i))
  {
    MessageRoundTrip(sha, src, i);
  }
}
