/**
 The chunk arithmetic of the two sender loops: how a file of `size` bytes is cut into pieces of
 `chunkSize` bytes (64 KiB in both loops; the results hold for every positive size).
 */
module Tiling {
  import opened Common
  import opened Arithmetic

  function TotalChunks(size: nat, chunkSize: nat): nat
    requires chunkSize > 0
  {
    Quotient(size + chunkSize - 1, chunkSize)
  }

  function Offset(chunkSize: nat, i: nat): nat {
    Times(i, chunkSize)
  }

  /** What one `Read` into a buffer of `chunkSize` bytes returns at the offset of chunk `i`. */
  function ChunkLength(size: nat, chunkSize: nat, i: nat): nat {
    if size <= Offset(chunkSize, i) then 0
    else if size - Offset(chunkSize, i) < chunkSize then size - Offset(chunkSize, i)
    else chunkSize
  }

  function Payload(file: Bytes, chunkSize: nat, i: nat): Bytes {
    var lo := Offset(chunkSize, i);
    if |file| <= lo then [] else file[lo..lo + ChunkLength(|file|, chunkSize, i)]
  }

  /** The chunk that carries byte `p`. */
  function Owner(chunkSize: nat, p: nat): nat
    requires chunkSize > 0
  {
    Quotient(p, chunkSize)
  }

  /** The expressions the loops compute. */
  lemma ChunkArithmetic(size: nat, chunkSize: nat, i: nat)
    requires chunkSize > 0
    ensures TotalChunks(size, chunkSize) == (size + chunkSize - 1) / chunkSize
    ensures Offset(chunkSize, i) == i * chunkSize
  {
    QuotientIsDivision(size + chunkSize - 1, chunkSize);
    TimesIsProduct(i, chunkSize);
  }

  /** Chunk `i` exists exactly when its offset lies inside the file. */
  lemma ChunkExistsIff(size: nat, chunkSize: nat, i: nat)
    requires chunkSize > 0
    ensures i < TotalChunks(size, chunkSize) <==> Offset(chunkSize, i) < size
    ensures i < TotalChunks(size, chunkSize) <==> ChunkLength(size, chunkSize, i) > 0
  {
    var n := TotalChunks(size, chunkSize);
    QuotientBounds(size + chunkSize - 1, chunkSize);
    if i < n {
      TimesMono(i + 1, n, chunkSize);
    } else {
      TimesMono(n, i, chunkSize);
    }
  }

  /** The number of chunks is the ceiling of the quotient. */
  lemma TotalChunksIsCeiling(size: nat, chunkSize: nat)
    requires chunkSize > 0
    ensures var n := TotalChunks(size, chunkSize);
            size <= Offset(chunkSize, n) && (n > 0 ==> Offset(chunkSize, n - 1) < size) && (n == 0 <==> size == 0)
  {
    var n := TotalChunks(size, chunkSize);
    ChunkExistsIff(size, chunkSize, n);
    if n > 0 {
      ChunkExistsIff(size, chunkSize, n - 1);
    }
  }

  /** All chunks but the last are full, the last one is not empty, and the last one ends the file. */
  lemma ChunkSizes(size: nat, chunkSize: nat, i: nat)
    requires chunkSize > 0 && i < TotalChunks(size, chunkSize)
    ensures Offset(chunkSize, i) + ChunkLength(size, chunkSize, i) <= size
    ensures i + 1 < TotalChunks(size, chunkSize) ==>
              ChunkLength(size, chunkSize, i) == chunkSize
              && Offset(chunkSize, i) + ChunkLength(size, chunkSize, i) == Offset(chunkSize, i + 1)
    ensures i + 1 == TotalChunks(size, chunkSize) ==>
              0 < ChunkLength(size, chunkSize, i) <= chunkSize
              && Offset(chunkSize, i) + ChunkLength(size, chunkSize, i) == size
  {
    ChunkExistsIff(size, chunkSize, i);
    ChunkExistsIff(size, chunkSize, i + 1);
    assert Offset(chunkSize, i + 1) == Offset(chunkSize, i) + chunkSize;
  }

  /** Every byte lies in exactly one chunk, namely its owner: the chunks are disjoint and cover the file. */
  lemma OwnerUnique(size: nat, chunkSize: nat, p: nat, i: nat)
    requires chunkSize > 0 && p < size
    ensures Owner(chunkSize, p) < TotalChunks(size, chunkSize)
    ensures Offset(chunkSize, i) <= p < Offset(chunkSize, i) + ChunkLength(size, chunkSize, i)
       <==> i == Owner(chunkSize, p)
  {
    var o := Owner(chunkSize, p);
    QuotientBounds(p, chunkSize);
    ChunkExistsIff(size, chunkSize, o);
    if Offset(chunkSize, i) <= p < Offset(chunkSize, i) + ChunkLength(size, chunkSize, i) {
      QuotientUnique(p, chunkSize, i);
    }
  }

  /** The first `n` payloads one after the other. */
  function Joined(file: Bytes, chunkSize: nat, n: nat): Bytes {
    if n == 0 then [] else Joined(file, chunkSize, n - 1) + Payload(file, chunkSize, n - 1)
  }

  /** How many bytes the first `n` chunks carry. */
  function Covered(size: nat, chunkSize: nat, n: nat): (r: nat)
    ensures r <= size
  {
    if Offset(chunkSize, n) < size then Offset(chunkSize, n) else size
  }

  lemma CoveredStep(file: Bytes, chunkSize: nat, n: nat)
    requires n > 0
    ensures file[..Covered(|file|, chunkSize, n)]
         == file[..Covered(|file|, chunkSize, n - 1)] + Payload(file, chunkSize, n - 1)
  {
    assert Offset(chunkSize, n) == Offset(chunkSize, n - 1) + chunkSize;
  }

  lemma {:induction false} JoinedPrefix(file: Bytes, chunkSize: nat, n: nat)
    ensures Joined(file, chunkSize, n) == file[..Covered(|file|, chunkSize, n)]
  {
    if n == 0 {
      assert Covered(|file|, chunkSize, 0) == 0;
    } else {
      JoinedPrefix(file, chunkSize, n - 1);
      CoveredStep(file, chunkSize, n);
    }
  }

  /** The payloads in index order are the file, whatever its size. */
  lemma Reassembly(file: Bytes, chunkSize: nat)
    requires chunkSize > 0
    ensures Joined(file, chunkSize, TotalChunks(|file|, chunkSize)) == file
  {
    JoinedPrefix(file, chunkSize, TotalChunks(|file|, chunkSize));
    TotalChunksIsCeiling(|file|, chunkSize);
  }
}
