/** Holographic files: blocks of 64 bytes decoded together at their exact sizes and corrected in place. */
module Holographic {
  import opened Bytes
  import opened Correction
  import opened Stores

  const REVERSIBLE_CHUNK_SIZE: nat := 64

  /** The position-aware encoder of the vector library, for one block. */
  datatype Encoder = Encoder(encode: bytes -> SparseVec, decode: (SparseVec, nat) -> bytes)
  {
    ghost predicate Sized() {
      forall v, n: nat :: |decode(v, n)| == n
    }
  }

  function Blocks(data: bytes): seq<bytes>
  {
    Chunks(data, REVERSIBLE_CHUNK_SIZE)
  }

  function BlockLength(size: nat, i: nat): nat
    requires 64 * i <= size
  {
    Min(REVERSIBLE_CHUNK_SIZE, size - REVERSIBLE_CHUNK_SIZE * i)
  }

  /** One vector per started block of 64 bytes. */
  predicate Fits(count: nat, size: nat)
  {
    64 * count - 64 < size <= 64 * count || count == size == 0
  }

  /** Block by block, the last one at what is left of the size. */
  function DecodeChunked(e: Encoder, vecs: seq<SparseVec>, size: nat): bytes
    requires Fits(|vecs|, size)
  {
    if vecs == [] then []
    else if |vecs| == 1 then e.decode(vecs[0], size)
    else e.decode(vecs[0], 64) + DecodeChunked(e, vecs[1..], size - 64)
  }

  lemma {:induction false} DecodedBlock(e: Encoder, vecs: seq<SparseVec>, size: nat, i: nat)
    requires e.Sized() && Fits(|vecs|, size) && i < |vecs|
    ensures |DecodeChunked(e, vecs, size)| == size
    ensures DecodeChunked(e, vecs, size)[64 * i..64 * i + BlockLength(size, i)] == e.decode(vecs[i], BlockLength(size, i))
    decreases |vecs|
  {
    var d := DecodeChunked(e, vecs, size);
    if |vecs| > 1 {
      var rest := DecodeChunked(e, vecs[1..], size - 64);
      DecodedBlock(e, vecs[1..], size - 64, if i == 0 then 0 else i - 1);
      if i > 0 {
        var from, n := 64 * (i - 1), BlockLength(size, i);
        assert d[64 + from..64 + from + n] == rest[from..from + n];
      }
    } else {
      assert d[0..size] == d;
    }
  }

  lemma DecodedLength(e: Encoder, vecs: seq<SparseVec>, size: nat)
    requires e.Sized() && Fits(|vecs|, size)
    ensures |DecodeChunked(e, vecs, size)| == size
  {
    if vecs != [] {
      DecodedBlock(e, vecs, size, 0);
    }
  }

  // Writing

  function EncodeBlocks(e: Encoder, data: bytes): (vecs: seq<SparseVec>)
    ensures |vecs| == |Blocks(data)|
    ensures forall i :: 0 <= i < |vecs| ==> vecs[i] == e.encode(Blocks(data)[i])
  {
    seq(|Blocks(data)|, i requires 0 <= i < |Blocks(data)| => e.encode(Blocks(data)[i]))
  }

  lemma BlockShape(data: bytes)
    ensures Fits(|Blocks(data)|, |data|) && Flatten(Blocks(data)) == data
    ensures forall i :: 0 <= i < |Blocks(data)| ==>
      64 * i < |data| && Blocks(data)[i] == data[64 * i..64 * i + BlockLength(|data|, i)]
  {
    ChunkCount(data, 64);
    ChunksSpec(data, 64);
    forall i | 0 <= i < |Blocks(data)|
      ensures 64 * i < |data| && Blocks(data)[i] == data[64 * i..64 * i + BlockLength(|data|, i)]
    {
      ChunkAt(data, 64, i);
    }
  }

  function BlockCorrection(e: Encoder, block: bytes): CorrectionType
    requires e.Sized()
  {
    CorrectionFor(block, e.decode(e.encode(block), |block|))
  }

  /** Each block and what it decodes to are slices of the data and of the decoded data. */
  lemma BlockSlices(e: Encoder, data: bytes, i: nat)
    requires e.Sized() && i < |Blocks(data)| && Fits(|Blocks(data)|, |data|)
    ensures var decoded := DecodeChunked(e, EncodeBlocks(e, data), |data|);
      var start, end := 64 * i, Min(64 * i + 64, |data|);
      && |decoded| == |data| && start <= end && data[start..end] == Blocks(data)[i]
      && |decoded[start..end]| == |data[start..end]|
      && CorrectionFor(data[start..end], decoded[start..end]) == BlockCorrection(e, Blocks(data)[i])
  {
    BlockShape(data);
    DecodedBlock(e, EncodeBlocks(e, data), |data|, i);
    hide CorrectionFor, DecodeChunked, Blocks;
  }

  /** What the write hands to the stores: one chunk and one correction per block, under consecutive new ids. */
  method EncodeFile(e: Encoder, data: bytes, nextId: nat)
    returns (ids: seq<nat>, chunkUpdates: seq<(nat, VersionedChunk)>, corrections: seq<(nat, CorrectionType)>)
    requires e.Sized()
    ensures |ids| == |chunkUpdates| == |corrections| == |Blocks(data)|
    ensures forall i :: 0 <= i < |ids| ==>
      && ids[i] == nextId + i
      && chunkUpdates[i] == (ids[i], VersionedChunk(e.encode(Blocks(data)[i]), |Blocks(data)[i]|))
      && corrections[i] == (ids[i], BlockCorrection(e, Blocks(data)[i]))
  {
    BlockShape(data);
    hide Blocks, CorrectionFor, Panics, DecodeChunked, EncodeBlocks, BlockCorrection;
    var encoded := EncodeBlocks(e, data);
    var decoded := DecodeChunked(e, encoded, |data|);
    DecodedLength(e, encoded, |data|);
    ids, chunkUpdates, corrections := [], [], [];
    for i := 0 to |encoded|
      invariant |ids| == |chunkUpdates| == |corrections| == i
      invariant forall j :: 0 <= j < i ==>
        && ids[j] == nextId + j
        && chunkUpdates[j] == (ids[j], VersionedChunk(e.encode(Blocks(data)[j]), |Blocks(data)[j]|))
        && corrections[j] == (ids[j], BlockCorrection(e, Blocks(data)[j]))
    {
      var start := i * REVERSIBLE_CHUNK_SIZE;
      var end := Min(start + REVERSIBLE_CHUNK_SIZE, |data|);
      BlockSlices(e, data, i);
      var correction := ComputeCorrection(data[start..end], decoded[start..end]);
      ids := ids + [nextId + i];
      chunkUpdates := chunkUpdates + [(nextId + i, VersionedChunk(encoded[i], |data[start..end]|))];
      corrections := corrections + [(nextId + i, correction.value)];
    }
  }

  // Reading

  datatype ReadError = ChunkNotFound(id: nat)

  function Fixed(corrections: map<nat, CorrectionType>, id: nat, block: bytes): bytes
  {
    if id in corrections then Apply(corrections[id], block) else block
  }

  /** The corrected block `i`. */
  function Restored(e: Encoder, chunks: map<nat, VersionedChunk>, corrections: map<nat, CorrectionType>,
                    ids: seq<nat>, size: nat, i: nat): bytes
    requires i < |ids| && ids[i] in chunks && 64 * i <= size
  {
    Fixed(corrections, ids[i], e.decode(chunks[ids[i]].vector, BlockLength(size, i)))
  }

  predicate Present(chunks: map<nat, VersionedChunk>, ids: seq<nat>)
  {
    forall i :: 0 <= i < |ids| ==> ids[i] in chunks
  }

  /** No correction shrinks its block: otherwise the slice of the corrected bytes panics. */
  ghost predicate NoShrink(e: Encoder, chunks: map<nat, VersionedChunk>, corrections: map<nat, CorrectionType>, ids: seq<nat>, size: nat)
    requires Fits(|ids|, size)
  {
    forall i :: 0 <= i < |ids| && ids[i] in chunks ==>
      |Restored(e, chunks, corrections, ids, size, i)| >= BlockLength(size, i)
  }

  ghost function RestoredBlocks(e: Encoder, chunks: map<nat, VersionedChunk>, corrections: map<nat, CorrectionType>,
                                ids: seq<nat>, size: nat): (r: seq<bytes>)
    requires Fits(|ids|, size) && Present(chunks, ids) && NoShrink(e, chunks, corrections, ids, size)
    ensures BlockLengths(r, size) && |r| == |ids|
    ensures forall i :: 0 <= i < |r| ==> r[i] == Restored(e, chunks, corrections, ids, size, i)[..BlockLength(size, i)]
  {
    seq(|ids|, i requires 0 <= i < |ids| => Restored(e, chunks, corrections, ids, size, i)[..BlockLength(size, i)])
  }

  ghost predicate BlockLengths(blocks: seq<bytes>, size: nat)
  {
    Fits(|blocks|, size) && forall i :: 0 <= i < |blocks| ==> |blocks[i]| == BlockLength(size, i)
  }

  lemma {:induction false} FlatLength(blocks: seq<bytes>, size: nat, i: nat)
    requires BlockLengths(blocks, size) && i <= |blocks|
    ensures |Flatten(blocks[..i])| == Min(64 * i, size)
  {
    if i > 0 {
      FlatLength(blocks, size, i - 1);
      assert blocks[..i] == blocks[..i - 1] + [blocks[i - 1]];
      FlattenSnoc(blocks[..i - 1], blocks[i - 1]);
    }
  }

  /** Corrects one slice of the decoded array in place. */
  method CorrectSlice(a: array<byte>, start: nat, end: nat, corrections: map<nat, CorrectionType>, id: nat)
    requires start <= end <= a.Length && end - start <= |Fixed(corrections, id, a[start..end])|
    modifies a
    ensures a[..] == old(a[..start]) + Fixed(corrections, id, old(a[start..end]))[..end - start] + old(a[end..])
  {
    if id in corrections {
      var corrected := Apply(corrections[id], a[start..end]);
      forall k | start <= k < end {
        a[k] := corrected[k - start];
      }
    }
  }

  /** Corrected as far as block `i`, decoded from there on. */
  ghost function Partly(blocks: seq<bytes>, decoded: bytes, i: nat): bytes
    requires i <= |blocks|
  {
    Flatten(blocks[..i]) + decoded[Min(64 * i, |decoded|)..]
  }

  /** Replacing block `i` by its correction is one step of the loop. */
  lemma NextBlock(blocks: seq<bytes>, decoded: bytes, i: nat)
    requires BlockLengths(blocks, |decoded|) && i < |blocks|
    ensures var all, start, end := Partly(blocks, decoded, i), 64 * i, Min(64 * i + 64, |decoded|);
      && |all| == |decoded| && start + |blocks[i]| == end && all[start..end] == decoded[start..end]
      && Partly(blocks, decoded, i + 1) == all[..start] + blocks[i] + all[end..]
  {
    FlatLength(blocks, |decoded|, i);
    FlattenSnoc(blocks[..i], blocks[i]);
    assert blocks[..i + 1] == blocks[..i] + [blocks[i]];
  }

  /** What the loop copies for block `i`. */
  lemma CopiedBlock(e: Encoder, vecs: seq<SparseVec>, chunks: map<nat, VersionedChunk>, corrections: map<nat, CorrectionType>,
                    ids: seq<nat>, size: nat, i: nat)
    requires e.Sized() && Fits(|ids|, size) && Present(chunks, ids) && NoShrink(e, chunks, corrections, ids, size) && i < |ids|
    requires |vecs| == |ids| && vecs[i] == chunks[ids[i]].vector
    ensures var decoded, start, end := DecodeChunked(e, vecs, size), 64 * i, Min(64 * i + 64, size);
      && |decoded| == size
      && end - start <= |Fixed(corrections, ids[i], decoded[start..end])|
      && RestoredBlocks(e, chunks, corrections, ids, size)[i] == Fixed(corrections, ids[i], decoded[start..end])[..end - start]
  {
    DecodedBlock(e, vecs, size, i);
    hide DecodeChunked, Fixed;
    assert |Restored(e, chunks, corrections, ids, size, i)| >= BlockLength(size, i);
  }

  method LoadVectors(chunks: map<nat, VersionedChunk>, ids: seq<nat>) returns (r: Result<seq<SparseVec>, ReadError>)
    ensures r.Ok? ==> Present(chunks, ids) && |r.value| == |ids| && forall j :: 0 <= j < |ids| ==> r.value[j] == chunks[ids[j]].vector
    ensures r.Err? ==> FirstMissing(chunks, ids, r.error.id)
  {
    var vecs: seq<SparseVec> := [];
    for i := 0 to |ids|
      invariant |vecs| == i && forall j :: 0 <= j < i ==> ids[j] in chunks && vecs[j] == chunks[ids[j]].vector
    {
      if ids[i] !in chunks {
        return Err(ChunkNotFound(ids[i]));
      }
      vecs := vecs + [chunks[ids[i]].vector];
    }
    r := Ok(vecs);
  }

  ghost predicate FirstMissing(chunks: map<nat, VersionedChunk>, ids: seq<nat>, id: nat)
  {
    exists i :: 0 <= i < |ids| && id == ids[i] && ids[i] !in chunks && Present(chunks, ids[..i])
  }

  /** One iteration of the read: block `i` of the decoded array is corrected. */
  method CorrectBlock(e: Encoder, ghost vecs: seq<SparseVec>, ghost chunks: map<nat, VersionedChunk>,
                      corrections: map<nat, CorrectionType>, ids: seq<nat>, size: nat, a: array<byte>, i: nat)
    requires e.Sized() && Fits(|ids|, size) && Present(chunks, ids) && NoShrink(e, chunks, corrections, ids, size) && i < |ids|
    requires |vecs| == |ids| && forall j :: 0 <= j < |ids| ==> vecs[j] == chunks[ids[j]].vector
    requires a[..] == Partly(RestoredBlocks(e, chunks, corrections, ids, size), DecodeChunked(e, vecs, size), i)
    modifies a
    ensures a[..] == Partly(RestoredBlocks(e, chunks, corrections, ids, size), DecodeChunked(e, vecs, size), i + 1)
  {
    hide DecodeChunked, NoShrink, Restored, RestoredBlocks, Fixed, Partly, Present;
    CopiedBlock(e, vecs, chunks, corrections, ids, size, i);
    NextBlock(RestoredBlocks(e, chunks, corrections, ids, size), DecodeChunked(e, vecs, size), i);
    var start := i * REVERSIBLE_CHUNK_SIZE;
    var end := Min(start + REVERSIBLE_CHUNK_SIZE, size);
    assert a[start..end] == a[..][start..end] && a[..start] == a[..][..start] && a[end..] == a[..][end..];
    CorrectSlice(a, start, end, corrections, ids[i]);
  }

  /** Loads all vectors, decodes them together, then corrects one block after another in the decoded array. */
  method ReadReversible(e: Encoder, chunks: map<nat, VersionedChunk>, corrections: map<nat, CorrectionType>, ids: seq<nat>, size: nat)
    returns (r: Result<bytes, ReadError>)
    requires e.Sized() && Fits(|ids|, size) && NoShrink(e, chunks, corrections, ids, size)
    ensures r.Ok? <==> Present(chunks, ids)
    ensures r.Err? ==> FirstMissing(chunks, ids, r.error.id)
    ensures r.Ok? ==> r.value == Flatten(RestoredBlocks(e, chunks, corrections, ids, size))
  {
    var vecs := LoadVectors(chunks, ids);
    if vecs.Err? {
      return Err(vecs.error);
    }
    hide DecodeChunked, NoShrink, Restored, RestoredBlocks, Flatten, FirstMissing, Fixed, Partly, Present;
    var decoded := DecodeChunked(e, vecs.value, size);
    DecodedLength(e, vecs.value, size);
    var a := new byte[size](i requires 0 <= i < |decoded| => decoded[i]);
    ghost var blocks := RestoredBlocks(e, chunks, corrections, ids, size);
    Ends(blocks, decoded);
    assert a[..] == decoded;
    for i := 0 to |ids|
      invariant a[..] == Partly(blocks, decoded, i)
    {
      CorrectBlock(e, vecs.value, chunks, corrections, ids, size, a, i);
    }
    r := Ok(a[..]);
  }

  lemma Ends(blocks: seq<bytes>, decoded: bytes)
    requires BlockLengths(blocks, |decoded|)
    ensures Partly(blocks, decoded, 0) == decoded && Partly(blocks, decoded, |blocks|) == Flatten(blocks)
  {
    assert blocks[..|blocks|] == blocks;
  }

  /** The stores hold what a write of `data` handed to them under `ids`. */
  ghost predicate Stored(e: Encoder, data: bytes, ids: seq<nat>, chunks: map<nat, VersionedChunk>, corrections: map<nat, CorrectionType>)
    requires e.Sized()
  {
    && |ids| == |Blocks(data)|
    && forall i :: 0 <= i < |ids| ==>
         && ids[i] in chunks && chunks[ids[i]].vector == e.encode(Blocks(data)[i])
         && ids[i] in corrections && corrections[ids[i]] == BlockCorrection(e, Blocks(data)[i])
  }

  lemma BlockRestored(e: Encoder, data: bytes, ids: seq<nat>, chunks: map<nat, VersionedChunk>,
                      corrections: map<nat, CorrectionType>, i: nat)
    requires e.Sized() && Stored(e, data, ids, chunks, corrections) && i < |ids| && Fits(|ids|, |data|)
    ensures Restored(e, chunks, corrections, ids, |data|, i) == Blocks(data)[i] && |Blocks(data)[i]| == BlockLength(|data|, i)
  {
    BlockShape(data);
    var block := Blocks(data)[i];
    hide Blocks, CorrectionFor, Apply;
    var approx := e.decode(e.encode(block), |block|);
    CorrectedPrefix(block, approx, approx);
  }

  /** Whatever the encoder loses, reading back what a write stored meets no error and gives the written bytes. */
  lemma HolographicRoundTrip(e: Encoder, data: bytes, ids: seq<nat>, chunks: map<nat, VersionedChunk>,
                             corrections: map<nat, CorrectionType>)
    requires e.Sized() && Stored(e, data, ids, chunks, corrections)
    ensures Fits(|ids|, |data|) && NoShrink(e, chunks, corrections, ids, |data|) && Present(chunks, ids)
    ensures Flatten(RestoredBlocks(e, chunks, corrections, ids, |data|)) == data
  {
    BlockShape(data);
    hide Blocks, Restored, BlockLength;
    forall i | 0 <= i < |ids|
      ensures Restored(e, chunks, corrections, ids, |data|, i) == Blocks(data)[i] && |Blocks(data)[i]| == BlockLength(|data|, i)
    {
      BlockRestored(e, data, ids, chunks, corrections, i);
      assert Blocks(data)[i][..|Blocks(data)[i]|] == Blocks(data)[i];
    }
    forall i | 0 <= i < |ids| ensures RestoredBlocks(e, chunks, corrections, ids, |data|)[i] == Blocks(data)[i] {
    }
    assert RestoredBlocks(e, chunks, corrections, ids, |data|) == Blocks(data);
  }
}
