/** The `file_chunks` table, shared by the sending and the receiving node. */
module ChunkRows {
  import opened Common
  import opened TransferReceiver

  /** The primary key `transfer:index` and the unique index `(transfer_id, chunk_index)` coincide. */
  type Key = (string, int)
  type Rows = map<Key, FileChunk>

  function KeyOf(c: FileChunk): Key {
    (c.transferId, c.chunkIndex)
  }

  /** `INSERT ... ON DUPLICATE KEY UPDATE`: an existing row keeps its offset and counts its version up. */
  function Upsert(rows: Rows, c: FileChunk): Rows {
    var k := KeyOf(c);
    if k in rows then
      rows[k := rows[k].(chunkSize := c.chunkSize, checksum := c.checksum, publishState := c.publishState,
                         ackState := c.ackState, version := rows[k].version + 1)]
    else rows[k := c]
  }

  function UpsertAll(rows: Rows, cs: seq<FileChunk>): Rows {
    if cs == [] then rows else Upsert(UpsertAll(rows, cs[..|cs| - 1]), cs[|cs| - 1])
  }

  /** The first of the upserts that is one of chunk `k`. */
  function FirstOf(cs: seq<FileChunk>, k: Key): Option<FileChunk> {
    if cs == [] then None
    else if KeyOf(cs[0]) == k then Some(cs[0])
    else FirstOf(cs[1..], k)
  }

  /** The last of them. */
  function LastOf(cs: seq<FileChunk>, k: Key): Option<FileChunk> {
    if cs == [] then None
    else if KeyOf(cs[|cs| - 1]) == k then Some(cs[|cs| - 1])
    else LastOf(cs[..|cs| - 1], k)
  }

  /** How many of the upserts are of chunk `k`. */
  function Upserts(cs: seq<FileChunk>, k: Key): nat {
    if cs == [] then 0 else Upserts(cs[..|cs| - 1], k) + if KeyOf(cs[|cs| - 1]) == k then 1 else 0
  }

  lemma {:induction false} FirstOfAppend(cs: seq<FileChunk>, c: FileChunk, k: Key)
    ensures FirstOf(cs + [c], k) == if FirstOf(cs, k).Some? || KeyOf(c) != k then FirstOf(cs, k) else Some(c)
  {
    if cs == [] {
      assert cs + [c] == [c];
      assert FirstOf([c][1..], k) == None;
    } else {
      FirstOfAppend(cs[1..], c, k);
      assert (cs + [c])[1..] == cs[1..] + [c];
    }
  }

  /**
   After any upserts into a table without chunk `k`, its row is there exactly if there was an upsert of
   it, and it has the offset of the first one, size, checksum and states of the last one, and as version
   the first one's counted up by each of the others.
   */
  lemma {:induction false} FirstOffsetLastState(rows: Rows, cs: seq<FileChunk>, k: Key)
    requires k !in rows
    ensures k in UpsertAll(rows, cs) <==> FirstOf(cs, k).Some?
    ensures FirstOf(cs, k).Some? <==> LastOf(cs, k).Some?
    ensures k in UpsertAll(rows, cs) ==>
              var first := FirstOf(cs, k).value;
              UpsertAll(rows, cs)[k]
              == LastOf(cs, k).value.(chunkOffset := first.chunkOffset, version := UpsertAll(rows, cs)[k].version)
    ensures k in UpsertAll(rows, cs) ==>
              UpsertAll(rows, cs)[k].version == FirstOf(cs, k).value.version + Upserts(cs, k) - 1
    ensures k !in UpsertAll(rows, cs) ==> Upserts(cs, k) == 0
  {
    if cs != [] {
      var init, last := cs[..|cs| - 1], cs[|cs| - 1];
      FirstOffsetLastState(rows, init, k);
      FirstOfAppend(init, last, k);
      assert cs == init + [last];
      LastOfKey(init, k);
    }
  }

  lemma {:induction false} LastOfKey(cs: seq<FileChunk>, k: Key)
    ensures LastOf(cs, k).Some? ==> KeyOf(LastOf(cs, k).value) == k
  {
    if cs != [] {
      LastOfKey(cs[..|cs| - 1], k);
    }
  }

  class FileChunkRepository {
    var rows: Rows

    constructor ()
      ensures rows == map[]
    {
      rows := map[];
    }

    method UpsertChunk(c: FileChunk)
      modifies this
      ensures rows == Upsert(old(rows), c)
    {
      var k := KeyOf(c);
      if k in rows {
        var row := rows[k];
        row := row.(chunkSize := c.chunkSize, checksum := c.checksum);
        row := row.(publishState := c.publishState, ackState := c.ackState);
        row := row.(version := row.version + 1);
        rows := rows[k := row];
      } else {
        rows := rows[k := c];
      }
    }
  }
}
