/**
 A transfer of an unchanged file by an honest sender. The network may lose, duplicate and reorder
 the published messages; `Delivery(i)` hands one copy of message `i` to the receiver. Size, chunk count
 and digest are announced from the operation row, which need not describe the file that is sent.
 */
module TransferEndToEnd {
  import opened Common
  import opened Tiling
  import opened TransferReceiver
  import opened TransferRuns
  import opened ChunkMessages
  import Binary64
  import Decimal

  datatype Event = Delivery(i: nat) | FinalizeRuns

  /** The dispatcher sends the chunks that exist and are announced. */
  predicate IsSent(src: Source, row: Announced, i: nat)
    requires src.chunkSize > 0
  {
    i < src.Count() && i < row.Chunks(src.chunkSize)
  }

  predicate FromSource(src: Source, row: Announced, events: seq<Event>)
    requires src.chunkSize > 0
  {
    forall k :: 0 <= k < |events| && events[k].Delivery? ==> IsSent(src, row, events[k].i)
  }

  /** Sizes that survive the JSON number format. */
  predicate Sendable(src: Source, row: Announced) {
    Announceable(src) && row.size <= Binary64.EXACT_LIMIT
  }

  function ToStep(sha: Digest, src: Source, e: Event): Step {
    match e
    case Delivery(i) => Deliver(ChunkMessage(sha, src, i))
    case FinalizeRuns => RunFinalize
  }

  function ToSteps(sha: Digest, src: Source, events: seq<Event>): seq<Step> {
    seq(|events|, k requires 0 <= k < |events| => ToStep(sha, src, events[k]))
  }

  /** The indices of which at least one copy arrived. */
  function Delivered(events: seq<Event>): set<int> {
    set k | 0 <= k < |events| && events[k].Delivery? :: events[k].i as int
  }

  /** The receiver of the announcement made by the dispatcher. */
  function Announce(src: Source, row: Announced, prior: Bytes): System
    requires src.chunkSize > 0
  {
    Start(prior, Binary64.Decode(row.size), Binary64.Decode(row.Chunks(src.chunkSize)), row.digest)
  }

  function Transfer(sha: Digest, src: Source, row: Announced, prior: Bytes, events: seq<Event>): System
    requires src.chunkSize > 0
  {
    Run(sha, Announce(src, row, prior), ToSteps(sha, src, events))
  }

  // ----- what the state must be, as a function of the set of delivered indices -----

  function ChunkEnd(src: Source, i: nat): nat {
    Offset(src.chunkSize, i) + ChunkLength(|src.file|, src.chunkSize, i)
  }

  /** Only the last announced chunk can reach beyond the announced size. */
  function StagedLength(src: Source, row: Announced, done: set<int>): nat
    requires src.chunkSize > 0 && row.size > 0
  {
    var last := row.Chunks(src.chunkSize) - 1;
    if last in done && 0 <= last && row.size < ChunkEnd(src, last) then ChunkEnd(src, last) else row.size
  }

  function Staged(src: Source, row: Announced, prior: Bytes, done: set<int>): Bytes
    requires src.chunkSize > 0
  {
    if row.size == 0 then prior
    else
      seq(StagedLength(src, row, done), p requires 0 <= p =>
        if p < |src.file| && Owner(src.chunkSize, p) in done then src.file[p]
        else if p < row.size then Resize(prior, row.size)[p]
        else 0)
  }

  function Records(sha: Digest, src: Source, done: set<int>): map<int, FileChunk> {
    map i | i in done && 0 <= i :: HonestChunk(sha, src, i)
  }

  function AllChunks(src: Source, row: Announced): set<int>
    requires src.chunkSize > 0
  {
    Below(row.Chunks(src.chunkSize))
  }

  /**
   Whether the staged file can have the announced size in the end: a size of zero is not truncated to,
   and a file longer than announced must be cut at the end of a chunk.
   */
  predicate Fits(src: Source, row: Announced, prior: Bytes)
    requires src.chunkSize > 0
  {
    && (row.size == 0 ==> prior == [])
    && (row.size < |src.file| ==> Offset(src.chunkSize, row.Chunks(src.chunkSize)) == row.size)
  }

  /** The file cut to the announced size, or extended to it by what preallocation left there. */
  function Image(src: Source, row: Announced, prior: Bytes): Bytes {
    if row.size <= |src.file| then src.file[..row.size] else src.file + Resize(prior, row.size)[|src.file|..]
  }

  /** The announcement describes the image the transfer can produce. */
  predicate Described(sha: Digest, src: Source, row: Announced, prior: Bytes)
    requires src.chunkSize > 0
  {
    Fits(src, row, prior) && row.digest == sha(Image(src, row, prior))
  }

  ghost predicate HonestInv(sha: Digest, src: Source, row: Announced, prior: Bytes, sys: System, done: set<int>)
    requires src.chunkSize > 0
  {
    var s := sys.active;
    && done <= AllChunks(src, row) && done <= Below(src.Count())
    && s.totalChunks == row.Chunks(src.chunkSize) && s.totalBytes == row.size && s.fileSHA256 == row.digest
    && s.received == Records(sha, src, done)
    && s.disk == Staged(src, row, prior, done)
    && (!s.open ==> done == AllChunks(src, row) && Described(sha, src, row, prior))
    && (s.open && sys.calls == 1 && sys.pending == 0 ==> !Described(sha, src, row, prior))
  }

  /** Where a chunk that is sent begins and ends, relative to the announced size. */
  lemma SentChunkEnds(src: Source, row: Announced, i: nat)
    requires src.chunkSize > 0 && IsSent(src, row, i)
    ensures Offset(src.chunkSize, i) < row.size && ChunkEnd(src, i) <= |src.file|
    ensures i + 1 < row.Chunks(src.chunkSize) ==> ChunkEnd(src, i) <= row.size
  {
    ChunkExistsIff(row.size, src.chunkSize, i);
    ChunkExistsIff(row.size, src.chunkSize, i + 1);
    ChunkSizes(|src.file|, src.chunkSize, i);
    assert Offset(src.chunkSize, i + 1) == Offset(src.chunkSize, i) + src.chunkSize;
  }

  /** Byte by byte. */
  lemma StagedAt(src: Source, row: Announced, prior: Bytes, done: set<int>, p: nat)
    requires src.chunkSize > 0 && row.size > 0 && p < StagedLength(src, row, done)
    ensures var staged := Staged(src, row, prior, done);
            && |staged| == StagedLength(src, row, done)
            && staged[p] == if p < |src.file| && Owner(src.chunkSize, p) in done then src.file[p]
                            else if p < |prior| && p < row.size then prior[p]
                            else 0
  {
    if p < row.size {
      assert Resize(prior, row.size)[p] == if p < |prior| then prior[p] else 0;
    }
  }

  lemma WriteKeepsLength(src: Source, row: Announced, done: set<int>, i: nat)
    requires src.chunkSize > 0 && IsSent(src, row, i)
    ensures row.size > 0 && Offset(src.chunkSize, i) < StagedLength(src, row, done)
    ensures StagedLength(src, row, done + {i})
         == if StagedLength(src, row, done) < ChunkEnd(src, i) then ChunkEnd(src, i) else StagedLength(src, row, done)
  {
    SentChunkEnds(src, row, i);
  }

  lemma WritePutsChunk(src: Source, row: Announced, prior: Bytes, done: set<int>, i: nat)
    requires src.chunkSize > 0 && IsSent(src, row, i)
    ensures Overwrite(Staged(src, row, prior, done), Payload(src.file, src.chunkSize, i), Offset(src.chunkSize, i))
         == Staged(src, row, prior, done + {i})
  {
    var before, after := Staged(src, row, prior, done), Staged(src, row, prior, done + {i});
    var written := Overwrite(before, Payload(src.file, src.chunkSize, i), Offset(src.chunkSize, i));
    PayloadLength(src, i);
    WriteKeepsLength(src, row, done, i);
    OverwriteBytes(before, Payload(src.file, src.chunkSize, i), Offset(src.chunkSize, i), 0);
    assert |written| == |after|;
    forall p | 0 <= p < |written|
      ensures written[p] == after[p]
    {
      WriteAtByte(src, row, prior, done, i, p);
    }
  }

  lemma WriteAtByte(src: Source, row: Announced, prior: Bytes, done: set<int>, i: nat, p: nat)
    requires src.chunkSize > 0 && IsSent(src, row, i) && p < |Staged(src, row, prior, done + {i})|
    ensures var written := Overwrite(Staged(src, row, prior, done), Payload(src.file, src.chunkSize, i), Offset(src.chunkSize, i));
            p < |written| && written[p] == Staged(src, row, prior, done + {i})[p]
  {
    var before := Staged(src, row, prior, done);
    var lo, payload := Offset(src.chunkSize, i), Payload(src.file, src.chunkSize, i);
    PayloadLength(src, i);
    WriteKeepsLength(src, row, done, i);
    StagedAt(src, row, prior, done + {i}, p);
    OverwriteBytes(before, payload, lo, p);
    if p < |src.file| {
      OwnerUnique(|src.file|, src.chunkSize, p, i);
    }
    if lo <= p < lo + |payload| {
      assert payload[p - lo] == src.file[p];
    } else {
      assert p < |before| && (p < |src.file| ==> Owner(src.chunkSize, p) != i);
      StagedAt(src, row, prior, done, p);
    }
  }

  /** Once all announced chunks are there, the staged bytes are the image if it fits, and otherwise of another size. */
  lemma FullIsImage(src: Source, row: Announced, prior: Bytes)
    requires src.chunkSize > 0 && row.Chunks(src.chunkSize) <= src.Count()
    ensures Fits(src, row, prior) ==> Staged(src, row, prior, AllChunks(src, row)) == Image(src, row, prior)
    ensures |Staged(src, row, prior, AllChunks(src, row))| == row.size <==> Fits(src, row, prior)
  {
    var n := row.Chunks(src.chunkSize);
    TotalChunksIsCeiling(row.size, src.chunkSize);
    if row.size > 0 {
      SentChunkEnds(src, row, n - 1);
      FullLength(src, row);
      if Fits(src, row, prior) {
        forall p | 0 <= p < row.size && p < |src.file|
          ensures Owner(src.chunkSize, p) in AllChunks(src, row)
        {
          OwnerUnique(row.size, src.chunkSize, p, 0);
        }
        assert |Staged(src, row, prior, AllChunks(src, row))| == |Image(src, row, prior)|;
      }
    }
  }

  lemma FullLength(src: Source, row: Announced)
    requires src.chunkSize > 0 && 0 < row.size && row.Chunks(src.chunkSize) <= src.Count()
    ensures row.Chunks(src.chunkSize) > 0
    ensures StagedLength(src, row, AllChunks(src, row)) == row.size
       <==> (row.size < |src.file| ==> Offset(src.chunkSize, row.Chunks(src.chunkSize)) == row.size)
  {
    var n := row.Chunks(src.chunkSize);
    TotalChunksIsCeiling(row.size, src.chunkSize);
    ChunkSizes(|src.file|, src.chunkSize, n - 1);
    TotalChunksIsCeiling(|src.file|, src.chunkSize);
    assert Offset(src.chunkSize, n) == Offset(src.chunkSize, n - 1) + src.chunkSize;
    assert n - 1 in AllChunks(src, row);
  }

  lemma RecordsCount(sha: Digest, src: Source, done: set<int>, n: nat)
    requires done <= Below(n)
    ensures Records(sha, src, done).Keys == done
    ensures |Records(sha, src, done)| == n <==> done == Below(n)
    ensures |Records(sha, src, done)| <= n
  {
    assert Records(sha, src, done).Keys == done;
    CountIsCompleteness(Records(sha, src, done), n);
  }

  lemma RecordsAdd(sha: Digest, src: Source, done: set<int>, i: nat)
    ensures Records(sha, src, done + {i}) == Records(sha, src, done)[i as int := HonestChunk(sha, src, i)]
    ensures i in done ==> done + {i} == done
  {
  }

  lemma DeliveryKeepsHonest(sha: Digest, src: Source, row: Announced, prior: Bytes, sys: System, done: set<int>, i: nat)
    requires Announceable(src) && IsSent(src, row, i)
    requires Inv(sha, sys) && HonestInv(sha, src, row, prior, sys, done)
    ensures HonestInv(sha, src, row, prior, Apply(sha, sys, Deliver(ChunkMessage(sha, src, i))), done + {i})
  {
    var s := sys.active;
    var n := row.Chunks(src.chunkSize);
    HonestDelivery(sha, src, s, i);
    RecordsCount(sha, src, done, n);
    RecordsAdd(sha, src, done, i);
    if i !in done && s.open {
      var after := Apply(sha, sys, Deliver(ChunkMessage(sha, src, i)));
      RecordsCount(sha, src, done + {i}, n);
      assert after.active.disk == Staged(src, row, prior, done + {i}) by {
        WritePutsChunk(src, row, prior, done, i);
      }
      assert after.active.received == Records(sha, src, done + {i});
      assert sys.calls == 0 by {
        assert DueCalls(s) == 0;
      }
      assert after.calls == after.pending;
    }
  }

  lemma FinalizeKeepsHonest(sha: Digest, src: Source, row: Announced, prior: Bytes, sys: System, done: set<int>)
    requires src.chunkSize > 0
    requires Inv(sha, sys) && HonestInv(sha, src, row, prior, sys, done)
    ensures HonestInv(sha, src, row, prior, Apply(sha, sys, RunFinalize), done)
  {
    var n := row.Chunks(src.chunkSize);
    RecordsCount(sha, src, done, n);
    if sys.pending > 0 {
      assert done == AllChunks(src, row);
      BelowMono(n, src.Count());
      FullIsImage(src, row, prior);
    }
  }

  lemma BelowMono(m: nat, n: nat)
    ensures Below(m) <= Below(n) <==> m <= n
  {
    if n < m {
      assert n in Below(m) && n !in Below(n);
    }
  }

  lemma StartIsHonest(sha: Digest, src: Source, row: Announced, prior: Bytes)
    requires Sendable(src, row)
    ensures Inv(sha, Announce(src, row, prior)) && HonestInv(sha, src, row, prior, Announce(src, row, prior), {})
  {
    AnnouncementRoundTrip(row, src.chunkSize);
    RecordsCount(sha, src, {}, row.Chunks(src.chunkSize));
    assert Announce(src, row, prior).active.disk == Staged(src, row, prior, {});
  }

  lemma EventKeepsHonest(sha: Digest, src: Source, row: Announced, prior: Bytes, sys: System, done: set<int>, e: Event)
    requires Announceable(src) && (e.Delivery? ==> IsSent(src, row, e.i))
    requires Inv(sha, sys) && HonestInv(sha, src, row, prior, sys, done)
    ensures var after := Apply(sha, sys, ToStep(sha, src, e));
            && Inv(sha, after)
            && HonestInv(sha, src, row, prior, after, if e.Delivery? then done + {e.i} else done)
  {
    ApplyKeepsInv(sha, sys, ToStep(sha, src, e));
    match e
    case Delivery(i) => DeliveryKeepsHonest(sha, src, row, prior, sys, done, i);
    case FinalizeRuns => FinalizeKeepsHonest(sha, src, row, prior, sys, done);
  }

  lemma DeliveredStep(events: seq<Event>, e: Event)
    ensures Delivered(events + [e]) == if e.Delivery? then Delivered(events) + {e.i} else Delivered(events)
  {
    var all := events + [e];
    forall x | x in Delivered(events)
      ensures x in Delivered(all)
    {
      var k :| 0 <= k < |events| && events[k].Delivery? && events[k].i == x;
      assert all[k] == events[k];
    }
    if e.Delivery? {
      assert all[|events|] == e;
    }
  }

  lemma TransferStep(sha: Digest, src: Source, row: Announced, prior: Bytes, events: seq<Event>, e: Event)
    requires src.chunkSize > 0
    ensures Transfer(sha, src, row, prior, events + [e])
         == Apply(sha, Transfer(sha, src, row, prior, events), ToStep(sha, src, e))
  {
    assert ToSteps(sha, src, events + [e]) == ToSteps(sha, src, events) + [ToStep(sha, src, e)];
    RunStep(sha, Announce(src, row, prior), ToSteps(sha, src, events), ToStep(sha, src, e));
  }

  lemma {:induction false} HonestRun(sha: Digest, src: Source, row: Announced, prior: Bytes, events: seq<Event>)
    requires Sendable(src, row) && FromSource(src, row, events)
    ensures Inv(sha, Transfer(sha, src, row, prior, events))
    ensures HonestInv(sha, src, row, prior, Transfer(sha, src, row, prior, events), Delivered(events))
  {
    if events == [] {
      assert Delivered(events) == {};
      StartIsHonest(sha, src, row, prior);
    } else {
      var init, last := events[..|events| - 1], events[|events| - 1];
      assert events == init + [last];
      HonestRun(sha, src, row, prior, init);
      DeliveredStep(init, last);
      TransferStep(sha, src, row, prior, init, last);
      EventKeepsHonest(sha, src, row, prior, Transfer(sha, src, row, prior, init), Delivered(init), last);
    }
  }

  // ----- main results -----

  /**
   End to end, for any announced size and digest. Once no finalize call is pending, the transfer is
   sealed exactly if every announced chunk was delivered at least once, the file fits the announced size,
   and the announced digest is that of the resulting image.
   */
  lemma SealedIffAllDelivered(sha: Digest, src: Source, row: Announced, prior: Bytes, events: seq<Event>)
    requires Sendable(src, row) && FromSource(src, row, events)
    requires Transfer(sha, src, row, prior, events).pending == 0
    ensures !Transfer(sha, src, row, prior, events).active.open
       <==> Delivered(events) == AllChunks(src, row) && Described(sha, src, row, prior)
  {
    HonestRun(sha, src, row, prior, events);
    RecordsCount(sha, src, Delivered(events), row.Chunks(src.chunkSize));
  }

  /**
   Whatever was lost, repeated or reordered: sealed bytes are the image, which is the source file if the
   row gives its size. If the row announces more chunks than the file has, nothing is ever sealed.
   */
  lemma SealedBytesAreTheFile(sha: Digest, src: Source, row: Announced, prior: Bytes, events: seq<Event>)
    requires Sendable(src, row) && FromSource(src, row, events)
    requires !Transfer(sha, src, row, prior, events).active.open
    ensures Transfer(sha, src, row, prior, events).active.disk == Image(src, row, prior)
    ensures Transfer(sha, src, row, prior, events).active.disk == src.file <==> row.size == |src.file|
    ensures row.Chunks(src.chunkSize) <= src.Count()
  {
    HonestRun(sha, src, row, prior, events);
    BelowMono(row.Chunks(src.chunkSize), src.Count());
    FullIsImage(src, row, prior);
    ImageOfDescribed(src, row, prior);
  }

  lemma ImageOfDescribed(src: Source, row: Announced, prior: Bytes)
    ensures |Image(src, row, prior)| == row.size
    ensures Image(src, row, prior) == src.file <==> row.size == |src.file|
  {
    if row.size == |src.file| {
      assert src.file[..|src.file|] == src.file;
    }
  }

  /** A finalize call is pending or spent exactly when everything has arrived, so every complete delivery is finalized once. */
  lemma FinalizeDueIffAllDelivered(sha: Digest, src: Source, row: Announced, prior: Bytes, events: seq<Event>)
    requires Sendable(src, row) && FromSource(src, row, events)
    ensures Transfer(sha, src, row, prior, events).calls == if Delivered(events) == AllChunks(src, row) then 1 else 0
  {
    HonestRun(sha, src, row, prior, events);
    RecordsCount(sha, src, Delivered(events), row.Chunks(src.chunkSize));
  }

  /**
   Confluence: two histories that delivered the same indices, in any order, any number of times and
   with finalize calls anywhere, leave the same staged bytes, the same records and the same count.
   */
  lemma Confluence(sha: Digest, src: Source, row: Announced, prior: Bytes, xs: seq<Event>, ys: seq<Event>)
    requires Sendable(src, row) && FromSource(src, row, xs) && FromSource(src, row, ys)
    requires Delivered(xs) == Delivered(ys)
    ensures var a, b := Transfer(sha, src, row, prior, xs).active, Transfer(sha, src, row, prior, ys).active;
            a.disk == b.disk && a.received == b.received && a.receivedSize == b.receivedSize
  {
    HonestRun(sha, src, row, prior, xs);
    HonestRun(sha, src, row, prior, ys);
  }

  /** Byte `p` is the file's once its chunk arrived, and until then what preallocation left there: zero in a fresh file. */
  lemma StagedBytes(sha: Digest, src: Source, row: Announced, prior: Bytes, events: seq<Event>, p: nat)
    requires Sendable(src, row) && FromSource(src, row, events) && p < row.size
    ensures var disk := Transfer(sha, src, row, prior, events).active.disk;
            && p < |disk|
            && (p < |src.file| && Owner(src.chunkSize, p) in Delivered(events) ==> disk[p] == src.file[p])
            && (p >= |src.file| || Owner(src.chunkSize, p) !in Delivered(events) ==>
                  disk[p] == if p < |prior| then prior[p] else 0)
  {
    HonestRun(sha, src, row, prior, events);
    StagedAt(src, row, prior, Delivered(events), p);
  }

  // ----- one message that is not the sender's -----

  /** An acceptable chunk without bytes, numbered outside the announced range. */
  predicate Stray(sha: Digest, src: Source, row: Announced, m: Message)
    requires src.chunkSize > 0
  {
    && m.payload == [] && ScanOrZero(m.offset) >= 0
    && Parse(sha, m).Some? && Parse(sha, m).value !in AllChunks(src, row)
  }

  /** There always are such messages: the first index behind the announced ones, and the digest of nothing. */
  function StrayMessage(sha: Digest, src: Source, row: Announced, transferId: string): Message
    requires src.chunkSize > 0
  {
    Message(Decimal.Format(row.Chunks(src.chunkSize)), "", "", sha([]), transferId, [])
  }

  lemma StrayMessageIsStray(sha: Digest, src: Source, row: Announced, transferId: string)
    requires Sendable(src, row)
    ensures Stray(sha, src, row, StrayMessage(sha, src, row, transferId))
  {
    var n := row.Chunks(src.chunkSize);
    CountFits(row.size, src.chunkSize);
    Decimal.HeaderRoundTrip(n);
    Decimal.FormatIsDecimal(n);
    assert ScanOrZero("") == 0;
  }

  /** The state after `events`, then the stray message and a finalize. */
  function AfterStray(sha: Digest, src: Source, row: Announced, prior: Bytes, events: seq<Event>, m: Message): System
    requires src.chunkSize > 0
  {
    Apply(sha, Apply(sha, Transfer(sha, src, row, prior, events), Deliver(m)), RunFinalize)
  }

  /** The image without chunk `i`. */
  function Incomplete(src: Source, row: Announced, prior: Bytes, i: nat): Bytes
    requires src.chunkSize > 0
  {
    Staged(src, row, prior, AllChunks(src, row) - {i as int})
  }

  /**
   Honesty of the sender matters: one stray message can use up the only finalize call. Let all chunks
   but `i` have arrived, in any history, then the stray, then a finalize. If at last chunk `i` arrives
   too, followed by anything, the transfer is never sealed, unless the image without chunk `i` already
   had the announced size and digest. The complete image is on disk and stays unsealed; it is the file
   if the row gives its size.
   */
  lemma StrayIndexStrandsTransferIff(sha: Digest, src: Source, row: Announced, prior: Bytes, events: seq<Event>, m: Message,
                                     i: nat, later: seq<Step>)
    requires Sendable(src, row) && FromSource(src, row, events) && Stray(sha, src, row, m)
    requires IsSent(src, row, i) && Delivered(events) == AllChunks(src, row) - {i as int}
    ensures var last := Apply(sha, AfterStray(sha, src, row, prior, events, m), Deliver(ChunkMessage(sha, src, i)));
            var incomplete := Incomplete(src, row, prior, i);
            && (Run(sha, last, later).active.open <==> |incomplete| != row.size || sha(incomplete) != row.digest)
            && (last.active.open ==> last.active.disk == Staged(src, row, prior, AllChunks(src, row)))
            && (last.active.open && row.size == |src.file| ==> last.active.disk == src.file)
  {
    var spent := AfterStray(sha, src, row, prior, events, m);
    var honest := Deliver(ChunkMessage(sha, src, i));
    StraySteps(sha, src, row, prior, events, m, i);
    ApplyKeepsInv(sha, spent, honest);
    var last := Apply(sha, spent, honest);
    HonestDelivery(sha, src, spent.active, i);
    if spent.active.open {
      WritePutsChunk(src, row, prior, AllChunks(src, row) - {i as int}, i);
      assert AllChunks(src, row) - {i as int} + {i} == AllChunks(src, row);
      if row.size == |src.file| {
        FullIsImage(src, row, prior);
        ImageOfDescribed(src, row, prior);
      }
      SpentStep(sha, spent, honest);
      SpentStaysOpen(sha, last, later);
    } else {
      ClosedStep(sha, spent, honest);
      ClosedIsFrozen(sha, last, later);
    }
  }

  lemma StraySteps(sha: Digest, src: Source, row: Announced, prior: Bytes, events: seq<Event>, m: Message, i: nat)
    requires Sendable(src, row) && FromSource(src, row, events) && Stray(sha, src, row, m)
    requires IsSent(src, row, i) && Delivered(events) == AllChunks(src, row) - {i as int}
    ensures var spent := AfterStray(sha, src, row, prior, events, m);
            var incomplete := Incomplete(src, row, prior, i);
            && Inv(sha, spent) && (spent.active.open ==> Spent(spent))
            && (spent.active.open <==> |incomplete| != row.size || sha(incomplete) != row.digest)
            && spent.active.disk == incomplete && i as int !in spent.active.received
  {
    var before := Transfer(sha, src, row, prior, events);
    HonestRun(sha, src, row, prior, events);
    AllButOneRecords(sha, src, row, i);
    assert before.active.open && before.calls == before.pending == 0;
    ApplyKeepsInv(sha, before, Deliver(m));
    StrayStored(sha, src, row, before, m);
    ApplyKeepsInv(sha, Apply(sha, before, Deliver(m)), RunFinalize);
  }

  lemma AllButOneRecords(sha: Digest, src: Source, row: Announced, i: nat)
    requires src.chunkSize > 0 && IsSent(src, row, i)
    ensures var done := AllChunks(src, row) - {i as int};
            && done != AllChunks(src, row)
            && Records(sha, src, done).Keys == done
            && |Records(sha, src, done)| + 1 == row.Chunks(src.chunkSize)
  {
    var done := AllChunks(src, row) - {i as int};
    RecordsCount(sha, src, done, row.Chunks(src.chunkSize));
    assert i as int in AllChunks(src, row);
    assert |Records(sha, src, done)| == |Records(sha, src, done).Keys|;
  }

  lemma StrayStored(sha: Digest, src: Source, row: Announced, sys: System, m: Message)
    requires src.chunkSize > 0 && Stray(sha, src, row, m) && sys.active.open && sys.calls == sys.pending == 0
    requires sys.active.received.Keys <= AllChunks(src, row)
    requires |sys.active.received| + 1 == sys.active.totalChunks
    ensures var strayed := Apply(sha, sys, Deliver(m));
            && strayed.active.open && strayed.calls == strayed.pending == 1 && strayed.active.disk == sys.active.disk
            && SameAnnouncement(sys.active, strayed.active)
            && strayed.active.received.Keys == sys.active.received.Keys + {Parse(sha, m).value}
  {
    var index := Parse(sha, m).value;
    var c := ReceivedChunk(m, index);
    assert |sys.active.received[index := c]| == |sys.active.received| + 1;
  }
}
