/**
 The worker's side of a chunked transfer: `ActiveTransfer`, `AcceptTransfer`, `handleChunk` and
 `FinalizeTransfer` of `internal/infrastructure/transfer/receiver.go`.

 The functions say what each critical section of the mutex does to a `TransferState`; the classes
 below do it in place.
 */
module TransferReceiver {
  import opened Common
  import Decimal

  /** A chunk message with its raw header values; an absent header is the empty string. */
  datatype Message = Message(
    chunkIndex: string,
    offset: string,
    payloadLength: string,
    chunkSHA256: string,
    transferId: string,
    payload: Bytes)

  datatype FileChunk = FileChunk(
    transferId: string,
    chunkIndex: int,
    chunkOffset: int,
    chunkSize: nat,
    checksum: string,
    publishState: string,
    ackState: string,
    version: nat)

  datatype TransferStatus = Accepted | Completed

  datatype TransferState = TransferState(
    totalChunks: int,
    totalBytes: int,
    fileSHA256: string,
    received: map<int, FileChunk>,
    receivedSize: nat,
    open: bool,            // `active.file != nil`
    disk: Bytes,           // what the staging file holds
    status: TransferStatus,
    receivedChunks: int)   // `transfer.ReceivedChunks`

  // ----- the staging file -----

  function Zeros(n: nat): Bytes {
    seq(n, _ => 0)
  }

  /** `File.Truncate`: cut or pad with zeros. */
  function Resize(content: Bytes, size: nat): Bytes {
    if size <= |content| then content[..size] else content + Zeros(size - |content|)
  }

  /** `File.WriteAt`: writing past the end leaves a hole of zeros, writing nothing changes nothing. */
  function Overwrite(content: Bytes, payload: Bytes, offset: nat): Bytes {
    if payload == [] then content
    else
      var end := offset + |payload|;
      var grown := if |content| < end then Resize(content, end) else content;
      grown[..offset] + payload + grown[end..]
  }

  /** Byte by byte: the payload where it was written, zeros in a hole, the old content elsewhere. */
  lemma OverwriteBytes(content: Bytes, payload: Bytes, offset: nat, p: nat)
    requires payload != []
    ensures var r := Overwrite(content, payload, offset);
            && |r| == (if |content| < offset + |payload| then offset + |payload| else |content|)
            && (p < |r| ==> r[p] == if offset <= p < offset + |payload| then payload[p - offset]
                                    else if p < |content| then content[p] else 0)
  {
  }

  // ----- critical sections -----

  /** The staging file is opened without truncation, so `prior` is what an earlier run left there. */
  function Accept(prior: Bytes, fileSize: int, totalChunks: int, fileSHA256: string): TransferState {
    TransferState(totalChunks, fileSize, fileSHA256, map[], 0, true,
                  if fileSize > 0 then Resize(prior, fileSize) else prior, Accepted, 0)
  }

  /** An optional number: absent or unreadable headers leave the default of zero. */
  function ScanOrZero(header: string): int {
    match Decimal.Scan(header)
    case Some(v) => v
    case None => 0
  }

  /** The checks made before the lock is taken: the chunk index of an acceptable message. */
  function Parse(sha: Digest, m: Message): Option<int> {
    if m.chunkIndex == "" then None
    else
      var index := Decimal.Scan(m.chunkIndex);
      if index.None? then None
      else if |m.payload| != ScanOrZero(m.payloadLength) then None
      else if sha(m.payload) != m.chunkSHA256 then None
      else index
  }

  function ReceivedChunk(m: Message, index: int): FileChunk {
    FileChunk(m.transferId, index, ScanOrZero(m.offset), |m.payload|, m.chunkSHA256, "received", "acknowledged", 1)
  }

  /** Write and record `chunk`, unless the file is closed or the index is taken. */
  function Place(s: TransferState, payload: Bytes, offset: nat, chunk: FileChunk): (TransferState, Option<FileChunk>) {
    if !s.open || chunk.chunkIndex in s.received then (s, None)
    else
      (s.(disk := Overwrite(s.disk, payload, offset),
          received := s.received[chunk.chunkIndex := chunk],
          receivedSize := s.receivedSize + |payload|),
       Some(chunk))
  }

  /** The critical section: the new state, and the chunk if it was stored. A negative offset fails the write. */
  function Store(s: TransferState, m: Message, index: int): (TransferState, Option<FileChunk>) {
    var offset := ScanOrZero(m.offset);
    if offset < 0 then (s, None) else Place(s, m.payload, offset, ReceivedChunk(m, index))
  }

  /** One delivery of `m`. */
  function HandleChunk(sha: Digest, s: TransferState, m: Message): (TransferState, Option<FileChunk>) {
    match Parse(sha, m)
    case None => (s, None)
    case Some(index) => Store(s, m, index)
  }

  /** `isComplete`: this delivery stored a chunk and the count is now the announced one. */
  predicate Completes(stored: Option<FileChunk>, after: TransferState) {
    stored.Some? && |after.received| == after.totalChunks
  }

  datatype FinalizeResult = Sealed | NotOpen | SizeMismatch | ChecksumMismatch

  function Finalize(sha: Digest, s: TransferState): (TransferState, FinalizeResult) {
    if !s.open then (s, NotOpen)
    else if |s.disk| != s.totalBytes then (s, SizeMismatch)
    else if sha(s.disk) != s.fileSHA256 then (s, ChecksumMismatch)
    else (s.(open := false, status := Completed, receivedChunks := s.totalChunks), Sealed)
  }

  // ----- the objects -----

  class StagingFile {
    var content: Bytes

    constructor (prior: Bytes)
      ensures content == prior
    {
      content := prior;
    }

    method Truncate(size: nat)
      modifies this
      ensures content == Resize(old(content), size)
      ensures |content| == size
      ensures forall p :: 0 <= p < size ==> content[p] == if p < |old(content)| then old(content)[p] else 0
    {
      if size <= |content| {
        content := content[..size];
      } else {
        content := content + Zeros(size - |content|);
      }
    }

    method WriteAt(payload: Bytes, offset: int) returns (ok: bool)
      modifies this
      ensures ok == (0 <= offset)
      ensures content == if ok then Overwrite(old(content), payload, offset) else old(content)
    {
      if offset < 0 {
        return false;
      }
      if payload != [] {
        if |content| < offset + |payload| {
          Truncate(offset + |payload|);
        }
        content := content[..offset] + payload + content[offset + |payload|..];
      }
      return true;
    }
  }

  class ActiveTransfer {
    const sha: Digest
    const totalChunks: int
    const totalBytes: int
    const fileSHA256: string
    const disk: StagingFile
    var file: StagingFile?
    var received: map<int, FileChunk>
    var receivedSize: nat
    var status: TransferStatus
    var receivedChunks: int

    ghost predicate Valid()
      reads this
    {
      file == null || file == disk
    }

    ghost function State(): TransferState
      reads this, disk
    {
      TransferState(totalChunks, totalBytes, fileSHA256, received, receivedSize, file != null, disk.content, status,
                    receivedChunks)
    }

    /** `AcceptTransfer`: open and preallocate the staging file. */
    constructor (sha: Digest, f: StagingFile, fileSize: int, totalChunks: int, fileSHA256: string)
      modifies f
      ensures Valid() && this.sha == sha && disk == f
      ensures State() == Accept(old(f.content), fileSize, totalChunks, fileSHA256)
      ensures this.totalChunks == totalChunks && totalBytes == fileSize && this.fileSHA256 == fileSHA256
      ensures file == f && received == map[] && receivedSize == 0 && status == Accepted && receivedChunks == 0
      ensures fileSize <= 0 ==> f.content == old(f.content)
      ensures fileSize > 0 ==>
                && |f.content| == fileSize
                && forall p :: 0 <= p < fileSize ==> f.content[p] == if p < |old(f.content)| then old(f.content)[p] else 0
    {
      this.sha, this.totalChunks, this.totalBytes, this.fileSHA256 := sha, totalChunks, fileSize, fileSHA256;
      disk, file := f, f;
      received, receivedSize, status, receivedChunks := map[], 0, Accepted, 0;
      new;
      if fileSize > 0 {
        f.Truncate(fileSize);
      }
    }

    /**
     `handleChunk` up to the release of the mutex. `stored` is the chunk handed to the chunk table
     and to the event log afterwards; `complete` tells the caller to run `FinalizeTransfer`.
     */
    method HandleMessage(m: Message) returns (stored: Option<FileChunk>, complete: bool)
      requires Valid()
      modifies this, disk
      ensures Valid()
      ensures (State(), stored) == HandleChunk(sha, old(State()), m)
      ensures stored.Some? <==>
                && old(file) != null
                && m.chunkIndex != "" && Decimal.Scan(m.chunkIndex).Some? && Decimal.Scan(m.chunkIndex).value !in old(received)
                && |m.payload| == ScanOrZero(m.payloadLength) && sha(m.payload) == m.chunkSHA256
                && 0 <= ScanOrZero(m.offset)
      ensures stored.Some? ==>
                var index, offset := Decimal.Scan(m.chunkIndex).value, ScanOrZero(m.offset);
                && stored.value == FileChunk(m.transferId, index, offset, |m.payload|, m.chunkSHA256, "received", "acknowledged", 1)
                && received == old(received)[index := stored.value]
                && receivedSize == old(receivedSize) + |m.payload|
                && disk.content == Overwrite(old(disk.content), m.payload, offset)
      ensures stored.None? ==>
                received == old(received) && receivedSize == old(receivedSize) && disk.content == old(disk.content)
      ensures file == old(file) && status == old(status) && receivedChunks == old(receivedChunks)
      ensures complete <==> stored.Some? && |received| == totalChunks
    {
      if m.chunkIndex == "" {
        return None, false;
      }
      var scanned := Decimal.Scan(m.chunkIndex);
      if scanned.None? {
        return None, false;
      }
      var expectedLen := ScanOrZero(m.payloadLength);
      if |m.payload| != expectedLen {
        return None, false;
      }
      var checksum := sha(m.payload);
      if checksum != m.chunkSHA256 {
        return None, false;
      }
      stored, complete := StoreLocked(m, scanned.value);
    }

    method StoreLocked(m: Message, index: int) returns (stored: Option<FileChunk>, complete: bool)
      requires Valid()
      modifies this, disk
      ensures Valid()
      ensures (State(), stored) == Store(old(State()), m, index)
      ensures complete == Completes(stored, State())
    {
      if file == null || index in received {
        return None, false;
      }
      var offset := ScanOrZero(m.offset);
      var written := file.WriteAt(m.payload, offset);
      if !written {
        return None, false;
      }
      var chunk := ReceivedChunk(m, index);
      received := received[index := chunk];
      receivedSize := receivedSize + |m.payload|;
      return Some(chunk), |received| == totalChunks;
    }

    /**
     `FinalizeTransfer`, under the same mutex. The result tells which check failed; only a successful
     call changes anything.
     */
    method FinalizeTransfer() returns (result: FinalizeResult)
      requires Valid()
      modifies this
      ensures Valid()
      ensures (State(), result) == Finalize(sha, old(State()))
      ensures result == NotOpen <==> old(file) == null
      ensures result == SizeMismatch <==> old(file) != null && |disk.content| != totalBytes
      ensures result == ChecksumMismatch <==>
                old(file) != null && |disk.content| == totalBytes && sha(disk.content) != fileSHA256
      ensures result == Sealed <==>
                old(file) != null && |disk.content| == totalBytes && sha(disk.content) == fileSHA256
      ensures received == old(received) && receivedSize == old(receivedSize)
      ensures result == Sealed ==> file == null && status == Completed && receivedChunks == totalChunks
      ensures result != Sealed ==> file == old(file) && status == old(status) && receivedChunks == old(receivedChunks)
    {
      if file == null {
        return NotOpen;
      }
      if |file.content| != totalBytes {
        return SizeMismatch;
      }
      if sha(file.content) != fileSHA256 {
        return ChecksumMismatch;
      }
      file := null;
      status := Completed;
      receivedChunks := totalChunks;
      return Sealed;
    }
  }
}
