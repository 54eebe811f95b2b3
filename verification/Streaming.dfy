/** Streaming ingestion, whose chunks do not depend on how the input arrives, and streaming decoding. */
module Streaming {
  import opened Bytes
  import opened Correction
  import opened Manifest
  import opened Stores
  import opened Protocol
  import Ranges
  import VersionedFS

  datatype PendingChunk = PendingChunk(id: nat, data: bytes, vector: SparseVec, correction: CorrectionType)

  function Datas(pending: seq<PendingChunk>): (r: seq<bytes>)
    ensures |r| == |pending|
    ensures forall i :: 0 <= i < |pending| ==> r[i] == pending[i].data
  {
    seq(|pending|, i requires 0 <= i < |pending| => pending[i].data)
  }

  /** The entry lists exactly the given chunks, encoded and corrected in the stores, as a file of their total size. */
  ghost predicate FileStored(codec: Codec, path: string, e: Entry, m: map<nat, VersionedChunk>, k: map<nat, CorrectionType>,
                         chunks: seq<bytes>)
    requires codec.Sized()
  {
    && e == NewEntry(path, |Flatten(chunks)|, e.chunks).(version := e.version) && |e.chunks| == |chunks|
    && forall i :: 0 <= i < |chunks| ==>
         && e.chunks[i] in m && m[e.chunks[i]] == StoredChunk(codec, path, chunks[i])
         && e.chunks[i] in k && k[e.chunks[i]] == StoredCorrection(codec, path, chunks[i])
  }

  /** What is read for an identifier: its chunk decoded at its own size and corrected, if there is one. */
  function Fetch(codec: Codec, path: string, m: map<nat, VersionedChunk>, k: map<nat, CorrectionType>, id: nat): Option<bytes>
  {
    if id in m then Some(VersionedFS.FetchAt(codec, m, k, path, id, m[id].originalSize)) else None
  }

  /** For any decoder, the stored chunks are fetched exactly; so every read that relies on them reads the file. */
  lemma StoredHolds(codec: Codec, path: string, e: Entry, m: map<nat, VersionedChunk>, k: map<nat, CorrectionType>,
                    chunks: seq<bytes>, fetch: nat -> Option<bytes>)
    requires codec.Sized() && FileStored(codec, path, e, m, k, chunks)
    requires forall id :: fetch(id) == Fetch(codec, path, m, k, id)
    ensures Ranges.Holds(e, fetch, chunks)
    ensures forall i :: 0 <= i < |chunks| ==> m[e.chunks[i]].originalSize == |chunks[i]|
  {
    hide Fetch, StoredChunk, StoredCorrection, Flatten;
    forall i | 0 <= i < |chunks|
      ensures fetch(e.chunks[i]) == Some(chunks[i]) && m[e.chunks[i]].originalSize == |chunks[i]|
    {
      FetchStored(codec, path, m, k, e.chunks[i], chunks[i]);
    }
  }

  lemma FetchStored(codec: Codec, path: string, m: map<nat, VersionedChunk>, k: map<nat, CorrectionType>, id: nat, data: bytes)
    requires codec.Sized() && id in m && m[id] == StoredChunk(codec, path, data)
    requires id in k && k[id] == StoredCorrection(codec, path, data)
    ensures m[id].originalSize == |data| && Fetch(codec, path, m, k, id) == Some(data)
  {
    hide CorrectionFor, Correction.Apply;
    var approx := codec.decode(codec.encode(data, path), path, |data|);
    CorrectedPrefix(data, approx, approx);
  }

  class StreamingIngester {
    const codec: Codec
    const path: string
    const chunkSize: nat
    const expectedVersion: Option<nat>
    const manifest: VersionedManifest
    const chunkStore: VersionedChunkStore
    const corrections: VersionedCorrectionStore
    var buffer: bytes
    var pendingChunks: seq<PendingChunk>
    var chunkIds: seq<nat>
    var totalBytes: nat
    var correctionBytes: nat
    /** The file system's counter. */
    var nextChunkId: nat
    /** Everything ingested so far. */
    ghost var input: bytes

    /** Each pending chunk is encoded and corrected, under a number of its own. */
    ghost predicate Encoded()
      reads this`pendingChunks, this`chunkIds, this`nextChunkId
      requires codec.Sized()
    {
      && |chunkIds| == |pendingChunks|
      && (forall i :: 0 <= i < |pendingChunks| ==>
           var p := pendingChunks[i];
           p.id == chunkIds[i] && p.vector == codec.encode(p.data, path) && p.correction == StoredCorrection(codec, path, p.data))
      && (forall i :: 0 <= i < |chunkIds| ==> chunkIds[i] < nextChunkId)
      && (forall i, j :: 0 <= i < j < |chunkIds| ==> chunkIds[i] < chunkIds[j])
    }

    /** Complete chunks are pending, and the rest of the input waits in the buffer. */
    ghost predicate Filling()
      reads this
    {
      && codec.Sized() && chunkSize > 0 && Encoded()
      && Flatten(Datas(pendingChunks)) + buffer == input && totalBytes == |input|
      && forall i :: 0 <= i < |pendingChunks| ==> |pendingChunks[i].data| == chunkSize
    }

    /** Less than a chunk waits. */
    ghost predicate Valid()
      reads this
    {
      Filling() && |buffer| < chunkSize
    }

    constructor (codec: Codec, path: string, size: nat, expectedVersion: Option<nat>, nextChunkId: nat,
                 manifest: VersionedManifest, chunkStore: VersionedChunkStore, corrections: VersionedCorrectionStore)
      requires codec.Sized()
      ensures Valid() && input == [] && this.codec == codec && this.path == path && this.expectedVersion == expectedVersion
      ensures this.manifest == manifest && this.chunkStore == chunkStore && this.corrections == corrections
      ensures chunkSize == if size < 512 then 512 else Min(size, 1024 * 1024)
    {
      this.codec, this.path, this.expectedVersion := codec, path, expectedVersion;
      this.manifest, this.chunkStore, this.corrections := manifest, chunkStore, corrections;
      chunkSize := if size < 512 then 512 else Min(size, 1024 * 1024);
      buffer, pendingChunks, chunkIds, totalBytes, correctionBytes := [], [], [], 0, 0;
      this.nextChunkId, input := nextChunkId, [];
    }

    method ProcessChunk(data: bytes)
      requires codec.Sized() && Encoded()
      modifies this`pendingChunks, this`chunkIds, this`correctionBytes, this`nextChunkId
      ensures Encoded() && |pendingChunks| == |old(pendingChunks)| + 1
      ensures pendingChunks[..|old(pendingChunks)|] == old(pendingChunks)
      ensures pendingChunks[|old(pendingChunks)|].data == data
    {
      hide CorrectionFor;
      var chunkId := nextChunkId;
      nextChunkId := nextChunkId + 1;
      var vector := codec.encode(data, path);
      var decoded := codec.decode(vector, path, |data|);
      var correction := ComputeCorrection(data, decoded);
      correctionBytes := correctionBytes + StorageSize(correction.value);
      pendingChunks := pendingChunks + [PendingChunk(chunkId, data, vector, correction.value)];
      chunkIds := chunkIds + [chunkId];
    }

    method IngestBytes(data: bytes)
      requires Valid()
      modifies this`buffer, this`pendingChunks, this`chunkIds, this`totalBytes, this`correctionBytes, this`nextChunkId, this`input
      ensures Valid() && input == old(input) + data
    {
      hide Encoded, Flatten;
      totalBytes := totalBytes + |data|;
      Regroup(Flatten(Datas(pendingChunks)), buffer, data);
      buffer := buffer + data;
      input := input + data;
      while |buffer| >= chunkSize
        invariant Filling() && input == old(input) + data
        decreases |buffer|
      {
        hide Filling;
        DrainChunk();
      }
    }

    /** Takes one chunk off the front of the buffer. */
    method DrainChunk()
      requires Filling() && |buffer| >= chunkSize
      modifies this`buffer, this`pendingChunks, this`chunkIds, this`correctionBytes, this`nextChunkId
      ensures Filling() && |buffer| < |old(buffer)|
    {
      hide Encoded, Flatten;
      var chunk, rest := buffer[..chunkSize], buffer[chunkSize..];
      ghost var before := pendingChunks;
      assert buffer == chunk + rest;
      buffer := rest;
      ProcessChunk(chunk);
      OneMore(before, pendingChunks);
      Regroup(Flatten(Datas(before)), chunk, rest);
    }

    /** What the manifest and the stores hold once the chunks are committed. */
    twostate predicate CommittedAs(version: nat)
      requires codec.Sized() && chunkSize > 0
      reads this, manifest, chunkStore, corrections
    {
      var e := Lookup(manifest.Snapshot(), path);
      && e.Some? && e.value.version == version && Points(old(manifest.Snapshot()), manifest.Snapshot(), path, e.value)
      && FileStored(codec, path, e.value, chunkStore.chunks, corrections.corrections, Chunks(input, chunkSize))
    }

    /** Cuts off the rest, checks the entry there is, and commits all chunks at once. */
    method Finalize() returns (r: Result<nat, FsError>)
      requires Valid() && Indexed(manifest.Snapshot())
      modifies this`buffer, this`pendingChunks, this`chunkIds, this`correctionBytes, this`nextChunkId
      modifies manifest, chunkStore, corrections
      ensures var found := Lookup(old(manifest.Snapshot()), path);
        && (r.Ok? <==> if expectedVersion.None? then found.None? else found.Some? && found.value.version == expectedVersion.value)
        && (r.Ok? ==> r.value == if expectedVersion.None? then 0 else expectedVersion.value + 1)
        && (r.Err? ==> r.error == if expectedVersion.None? then FileExists else if found.None? then FileNotFound
                                  else VersionMismatch(Mismatch(expectedVersion.value, found.value.version)))
      ensures r.Ok? ==> CommittedAs(r.value)
      ensures r.Err? ==> unchanged(manifest, chunkStore, corrections)
    {
      hide Encoded, Flatten, Chunks, Indexed, Points, FileStored;
      ghost var before := pendingChunks;
      if buffer != [] {
        ProcessChunk(buffer);
        OneMore(before, pendingChunks);
      }
      Committed(before, buffer, pendingChunks, chunkSize, input);
      var existing := manifest.Get(path);
      if existing.Some? && expectedVersion.Some? {
        if existing.value.0.version != expectedVersion.value {
          return Err(VersionMismatch(Mismatch(expectedVersion.value, existing.value.0.version)));
        }
      } else if existing.Some? {
        return Err(FileExists);
      } else if expectedVersion.Some? {
        return Err(FileNotFound);
      }
      var version := CommitPending(if existing.None? then None else Some(existing.value.0.version));
      r := Ok(version);
    }

    /** Stores the pending chunks and their corrections and installs the entry. */
    method CommitPending(existing: Option<nat>) returns (version: nat)
      requires codec.Sized() && chunkSize > 0 && Encoded() && Indexed(manifest.Snapshot())
      requires Datas(pendingChunks) == Chunks(input, chunkSize) && totalBytes == |Flatten(Datas(pendingChunks))|
      requires var found := Lookup(manifest.Snapshot(), path);
        if existing.None? then found.None? else found.Some? && found.value.version == existing.value
      modifies manifest, chunkStore, corrections
      ensures CommittedAs(version) && version == if existing.None? then 0 else existing.value + 1
    {
      hide Flatten, Chunks, Indexed, StoredChunk, StoredCorrection;
      var chunkUpdates, correctionUpdates := Updates();
      var chunkVersion := chunkStore.InsertNewBatch(chunkUpdates);
      var correctionVersion := corrections.AddBatch(correctionUpdates);
      var fileEntry := NewEntry(path, totalBytes, chunkIds);
      version := if existing.None? then 0 else existing.value + 1;
      hide Points, FileStored, Encoded;
      AllStored(codec, path, fileEntry.(version := version), chunkUpdates, correctionUpdates, old(chunkStore.chunks),
                old(corrections.corrections), Chunks(input, chunkSize));
      if existing.Some? {
        UpdateFileSpec(manifest.Snapshot(), path, fileEntry, existing.value);
        var updated := manifest.Update(path, fileEntry, existing.value);
      } else {
        AddFileSpec(manifest.Snapshot(), fileEntry);
        var added := manifest.Add(fileEntry);
      }
      PointsAt(old(manifest.Snapshot()), manifest.Snapshot(), path, fileEntry.(version := version));
    }

    method Updates() returns (chunkUpdates: seq<(nat, VersionedChunk)>, correctionUpdates: seq<(nat, CorrectionType)>)
      requires codec.Sized() && Encoded()
      ensures |chunkUpdates| == |correctionUpdates| == |pendingChunks| == |chunkIds|
      ensures forall i, j :: 0 <= i < j < |chunkIds| ==> chunkIds[i] != chunkIds[j]
      ensures forall i :: 0 <= i < |pendingChunks| ==>
        && chunkUpdates[i] == (chunkIds[i], StoredChunk(codec, path, pendingChunks[i].data))
        && correctionUpdates[i] == (chunkIds[i], StoredCorrection(codec, path, pendingChunks[i].data))
    {
      hide StoredCorrection;
      chunkUpdates, correctionUpdates := [], [];
      for i := 0 to |pendingChunks|
        invariant |chunkUpdates| == |correctionUpdates| == i
        invariant forall j :: 0 <= j < i ==>
          && chunkUpdates[j] == (chunkIds[j], StoredChunk(codec, path, pendingChunks[j].data))
          && correctionUpdates[j] == (chunkIds[j], StoredCorrection(codec, path, pendingChunks[j].data))
      {
        var p := pendingChunks[i];
        chunkUpdates := chunkUpdates + [(p.id, VersionedChunk(p.vector, |p.data|))];
        correctionUpdates := correctionUpdates + [(p.id, p.correction)];
      }
    }
  }

  lemma PointsAt(s: Manifest.State, t: Manifest.State, path: string, e: Entry)
    requires Points(s, t, path, e)
    ensures Lookup(t, path) == Some(e)
  {
    hide Lookup, Indexed;
  }

  lemma Regroup(a: bytes, b: bytes, c: bytes)
    ensures a + b + c == a + (b + c)
  {
  }

  lemma OneMore(before: seq<PendingChunk>, after: seq<PendingChunk>)
    requires |after| == |before| + 1 && after[..|before|] == before
    ensures Flatten(Datas(after)) == Flatten(Datas(before)) + after[|before|].data
  {
    assert Datas(after) == Datas(before) + [after[|before|].data];
    FlattenSnoc(Datas(before), after[|before|].data);
  }

  /** Once the batches are inserted, each identifier leads to its own chunk and correction: no two are the same. */
  lemma AllStored(codec: Codec, path: string, e: Entry, chunkUpdates: seq<(nat, VersionedChunk)>,
                  correctionUpdates: seq<(nat, CorrectionType)>, m: map<nat, VersionedChunk>, k: map<nat, CorrectionType>,
                  chunks: seq<bytes>)
    requires codec.Sized() && e == NewEntry(path, |Flatten(chunks)|, e.chunks).(version := e.version)
    requires |chunkUpdates| == |correctionUpdates| == |e.chunks| == |chunks|
    requires forall i :: 0 <= i < |chunks| ==>
      && chunkUpdates[i] == (e.chunks[i], StoredChunk(codec, path, chunks[i]))
      && correctionUpdates[i] == (e.chunks[i], StoredCorrection(codec, path, chunks[i]))
    requires forall i, j :: 0 <= i < j < |e.chunks| ==> e.chunks[i] != e.chunks[j]
    ensures FileStored(codec, path, e, InsertAll(m, chunkUpdates), InsertAll(k, correctionUpdates), chunks)
  {
    hide StoredChunk, StoredCorrection, InsertAll, Flatten;
    forall i | 0 <= i < |chunks|
      ensures e.chunks[i] in InsertAll(m, chunkUpdates) && InsertAll(m, chunkUpdates)[e.chunks[i]] == chunkUpdates[i].1
      ensures e.chunks[i] in InsertAll(k, correctionUpdates)
      ensures InsertAll(k, correctionUpdates)[e.chunks[i]] == correctionUpdates[i].1
    {
      Inserted(m, chunkUpdates, i);
      Inserted(k, correctionUpdates, i);
    }
  }

  /** Among distinct keys, each update is what its key leads to. */
  lemma {:induction false} Inserted<V>(m: map<nat, V>, updates: seq<(nat, V)>, i: nat)
    requires i < |updates| && forall a, b :: 0 <= a < b < |updates| ==> updates[a].0 != updates[b].0
    ensures updates[i].0 in InsertAll(m, updates) && InsertAll(m, updates)[updates[i].0] == updates[i].1
    decreases |updates|
  {
    var n := |updates| - 1;
    if i < n {
      Inserted(m, updates[..n], i);
    }
  }

  /** The committed chunks are the canonical chunking of the input, however it was split across calls. */
  lemma Committed(before: seq<PendingChunk>, buffer: bytes, after: seq<PendingChunk>, c: nat, input: bytes)
    requires c > 0 && |buffer| < c && Flatten(Datas(before)) + buffer == input
    requires forall i :: 0 <= i < |before| ==> |before[i].data| == c
    requires if buffer == [] then after == before
             else |after| == |before| + 1 && after[..|before|] == before && after[|before|].data == buffer
    ensures Datas(after) == Chunks(input, c) && Flatten(Datas(after)) == input
  {
    hide Chunks;
    var all := Datas(after);
    if buffer == [] {
      assert Flatten(all) + [] == Flatten(all);
    } else {
      OneMore(before, after);
    }
    forall i | 0 <= i < |before| ensures |all[i]| == c {
      assert after[i] == before[i];
    }
    CanonicalUnique(all, c);
  }

  // ---------------------------------------------------------------- decoding

  class StreamingDecoder {
    const codec: Codec
    const chunkStore: VersionedChunkStore
    const corrections: VersionedCorrectionStore
    const path: string
    const chunks: seq<nat>
    const fileSize: nat
    var currentChunkIdx: nat
    var currentChunkData: bytes
    var positionInChunk: nat
    var totalBytesRead: nat
    /** What the file's chunks should hold. */
    ghost const pieces: seq<bytes>

    ghost function Fetched(id: nat): Option<bytes>
      reads chunkStore, corrections
    {
      Fetch(codec, path, chunkStore.chunks, corrections.corrections, id)
    }

    /** A chunk that is in the store is what it should be. */
    ghost predicate Sound()
      reads chunkStore, corrections
    {
      && |chunks| == |pieces| && fileSize == |Flatten(pieces)|
      && forall i :: 0 <= i < |pieces| && Fetched(chunks[i]).Some? ==> Fetched(chunks[i]) == Some(pieces[i])
    }

    /** The current chunk is the last one fetched, and everything before the position in it has been read. */
    ghost predicate Valid()
      reads this, chunkStore, corrections
    {
      && Sound() && currentChunkIdx <= |chunks|
      && currentChunkData == (if currentChunkIdx == 0 then [] else pieces[currentChunkIdx - 1])
      && positionInChunk <= |currentChunkData|
      && totalBytesRead + |currentChunkData| == |Ranges.Prefix(pieces, currentChunkIdx)| + positionInChunk
    }

    /** The next chunk is not in the store. */
    ghost predicate Stuck(error: FsError)
      reads this`currentChunkIdx, chunkStore
    {
      currentChunkIdx < |chunks| && chunks[currentChunkIdx] !in chunkStore.chunks && error == ChunkNotFound(chunks[currentChunkIdx])
    }

    constructor (codec: Codec, e: Entry, chunkStore: VersionedChunkStore, corrections: VersionedCorrectionStore,
                 ghost pieces: seq<bytes>)
      requires |e.chunks| == |pieces| && e.size == |Flatten(pieces)|
      requires forall i :: 0 <= i < |pieces| && e.chunks[i] in chunkStore.chunks ==>
        Fetch(codec, e.path, chunkStore.chunks, corrections.corrections, e.chunks[i]) == Some(pieces[i])
      ensures Valid() && totalBytesRead == 0 && this.pieces == pieces && this.chunks == e.chunks
      ensures this.chunkStore == chunkStore && this.corrections == corrections
    {
      this.codec, path, chunks, fileSize := codec, e.path, e.chunks, e.size;
      this.chunkStore, this.corrections := chunkStore, corrections;
      currentChunkIdx, currentChunkData, positionInChunk, totalBytesRead := 0, [], 0, 0;
      this.pieces := pieces;
      new;
      Ranges.PrefixStart(pieces);
    }

    method DecodeNextChunk() returns (r: Result<Option<bytes>, FsError>)
      modifies this`currentChunkIdx
      ensures if old(currentChunkIdx) >= |chunks| then r == Ok(None) && currentChunkIdx == old(currentChunkIdx)
        else match Fetched(chunks[old(currentChunkIdx)])
          case None => r == Err(ChunkNotFound(chunks[old(currentChunkIdx)])) && currentChunkIdx == old(currentChunkIdx)
          case Some(data) => r == Ok(Some(data)) && currentChunkIdx == old(currentChunkIdx) + 1
    {
      if currentChunkIdx >= |chunks| {
        return Ok(None);
      }
      var id := chunks[currentChunkIdx];
      var chunk := chunkStore.Get(id);
      if chunk.None? {
        return Err(ChunkNotFound(id));
      }
      var decoded := codec.decode(chunk.value.0.vector, path, chunk.value.0.originalSize);
      var corrected := decoded;
      if id in corrections.corrections {
        corrected := ApplyCorrection(corrections.corrections[id], decoded);
      }
      currentChunkIdx := currentChunkIdx + 1;
      r := Ok(Some(corrected));
    }

    method LoadNextChunk() returns (error: Option<FsError>)
      requires Valid() && positionInChunk == |currentChunkData| && currentChunkIdx < |chunks|
      modifies this`currentChunkIdx, this`currentChunkData, this`positionInChunk
      ensures Valid()
      ensures error.None? ==> positionInChunk == 0 && currentChunkIdx == old(currentChunkIdx) + 1
      ensures error.Some? ==> Stuck(error.value)
    {
      hide Flatten, Ranges.Clip, VersionedFS.FetchAt;
      Ranges.PrefixStep(pieces, currentChunkIdx, 0, 0);
      var next := DecodeNextChunk();
      if next.Err? {
        return Some(next.error);
      }
      assert Fetched(chunks[currentChunkIdx - 1]) == Some(pieces[currentChunkIdx - 1]);
      currentChunkData := next.value.value;
      positionInChunk := 0;
      error := None;
    }

    /** Returns the next `n` bytes of the file, or what is left of it; fails only at a chunk that is not in the store. */
    method ReadNBytes(n: nat) returns (r: Result<bytes, FsError>)
      requires Valid()
      modifies this`currentChunkIdx, this`currentChunkData, this`positionInChunk, this`totalBytesRead
      ensures Valid()
      ensures match r
        case Ok(data) =>
          data == Ranges.ReadSlice(Flatten(pieces), old(totalBytesRead), n) && totalBytesRead == old(totalBytesRead) + |data|
        case Err(error) => Stuck(error)
    {
      hide Flatten, Ranges.Clip, Ranges.Prefix;
      Position(pieces, currentChunkIdx, positionInChunk, totalBytesRead);
      ghost var start := totalBytesRead;
      var result: bytes := [];
      var toRead := Min(n, if fileSize >= totalBytesRead then fileSize - totalBytesRead else 0);
      Ranges.ClipNone(Flatten(pieces), start, start);
      while |result| < toRead
        invariant Valid() && |result| <= toRead && totalBytesRead == start + |result|
        invariant result == Ranges.Clip(Flatten(pieces), start, totalBytesRead)
        decreases |chunks| - currentChunkIdx, |currentChunkData| - positionInChunk
      {
        if positionInChunk >= |currentChunkData| {
          NotDone(pieces, currentChunkIdx, positionInChunk, totalBytesRead);
          var error := LoadNextChunk();
          if error.Some? {
            return Err(error.value);
          }
        }
        var available := |currentChunkData| - positionInChunk;
        var needed := toRead - |result|;
        var count := Min(available, needed);
        CopyPiece(pieces, currentChunkIdx, positionInChunk, totalBytesRead, count, start, result);
        result := result + currentChunkData[positionInChunk..positionInChunk + count];
        positionInChunk := positionInChunk + count;
        totalBytesRead := totalBytesRead + count;
      }
      ReadEnd(Flatten(pieces), start, n, toRead);
      r := Ok(result);
    }
  }

  /** The position never lies beyond the end of the file. */
  lemma Position(pieces: seq<bytes>, idx: nat, pos: nat, total: nat)
    requires idx <= |pieces| && var current := if idx == 0 then [] else pieces[idx - 1];
      pos <= |current| && total + |current| == |Ranges.Prefix(pieces, idx)| + pos
    ensures total <= |Flatten(pieces)|
  {
    PrefixWithin(pieces, idx);
  }

  lemma PrefixWithin(pieces: seq<bytes>, idx: nat)
    requires idx <= |pieces|
    ensures |Ranges.Prefix(pieces, idx)| <= |Flatten(pieces)|
    ensures Ranges.Prefix(pieces, idx) == Flatten(pieces)[..|Ranges.Prefix(pieces, idx)|]
    ensures idx == |pieces| ==> Ranges.Prefix(pieces, idx) == Flatten(pieces)
  {
    assert pieces == pieces[..idx] + pieces[idx..];
    FlattenAppend(pieces[..idx], pieces[idx..]);
    assert idx == |pieces| ==> pieces[..idx] == pieces;
  }

  /** Bytes are missing, so there is another chunk. */
  lemma NotDone(pieces: seq<bytes>, idx: nat, pos: nat, total: nat)
    requires idx <= |pieces| && total < |Flatten(pieces)|
    requires var current := if idx == 0 then [] else pieces[idx - 1];
      pos == |current| && total + |current| == |Ranges.Prefix(pieces, idx)| + pos
    ensures idx < |pieces|
  {
    PrefixWithin(pieces, idx);
  }

  /** The bytes copied from the current chunk are the file's next ones. */
  lemma CopyPiece(pieces: seq<bytes>, idx: nat, pos: nat, total: nat, count: nat, start: nat, result: bytes)
    requires 0 < idx <= |pieces| && pos + count <= |pieces[idx - 1]|
    requires total + |pieces[idx - 1]| == |Ranges.Prefix(pieces, idx)| + pos
    requires start <= total && result == Ranges.Clip(Flatten(pieces), start, total)
    ensures result + pieces[idx - 1][pos..pos + count] == Ranges.Clip(Flatten(pieces), start, total + count)
    ensures total + count <= |Flatten(pieces)|
  {
    hide Flatten, Ranges.Prefix;
    var piece, before, whole := pieces[idx - 1], Ranges.Prefix(pieces, idx - 1), Flatten(pieces);
    PrefixWithin(pieces, idx);
    Ranges.PrefixStep(pieces, idx - 1, 0, 0);
    SliceOfPiece(whole, before, piece, pos, count);
    assert total == |before| + pos;
    hide *;
    SliceExtends(whole, start, total, total + count);
  }

  lemma SliceOfPiece(whole: bytes, before: bytes, piece: bytes, pos: nat, count: nat)
    requires |before| + |piece| <= |whole| && whole[..|before| + |piece|] == before + piece && pos + count <= |piece|
    ensures whole[|before| + pos..|before| + pos + count] == piece[pos..pos + count]
  {
    var a, b := |before| + pos, |before| + pos + count;
    SliceOfPrefix(whole, |before| + |piece|, a, b);
    Ranges.SliceRight(before, piece, a, b);
  }

  lemma SliceOfPrefix(s: bytes, n: nat, a: nat, b: nat)
    requires a <= b <= n <= |s|
    ensures s[..n][a..b] == s[a..b]
  {
  }

  lemma SliceExtends(whole: bytes, a: nat, b: nat, c: nat)
    requires a <= b <= c <= |whole|
    ensures Ranges.Clip(whole, a, c) == Ranges.Clip(whole, a, b) + whole[b..c]
  {
    assert whole[a..b] + whole[b..c] == whole[a..c];
  }

  lemma ReadEnd(data: bytes, start: nat, n: nat, toRead: nat)
    requires start <= |data| && toRead == Min(n, |data| - start)
    ensures Ranges.Clip(data, start, start + toRead) == Ranges.ReadSlice(data, start, n)
    ensures |Ranges.Clip(data, start, start + toRead)| == toRead
  {
  }

  /**
   * Any sequence of reads on a fresh decoder yields consecutive slices of the file, up to its end, as long as no chunk
   * is missing.
   */
  method ReadInPieces(d: StreamingDecoder, counts: seq<nat>) returns (results: Result<seq<bytes>, FsError>)
    requires d.Valid() && d.totalBytesRead == 0
    modifies d
    ensures match results
      case Ok(parts) =>
        && |parts| == |counts| && Flatten(parts) == Ranges.ReadSlice(Flatten(d.pieces), 0, Ranges.Start(counts, |counts|))
        && forall i :: 0 <= i < |counts| ==>
             parts[i] == Ranges.ReadSlice(Flatten(d.pieces), Min(Ranges.Start(counts, i), |Flatten(d.pieces)|), counts[i])
      case Err(error) => d.Stuck(error)
  {
    hide Flatten, Ranges.ReadSlice, Ranges.Start;
    var parts: seq<bytes> := [];
    ghost var data := Flatten(d.pieces);
    NothingRead(data, counts);
    for i := 0 to |counts|
      invariant d.Valid() && d.totalBytesRead == Min(Ranges.Start(counts, i), |data|) && |parts| == i
      invariant Flatten(parts) == Ranges.ReadSlice(data, 0, Ranges.Start(counts, i))
      invariant forall j :: 0 <= j < i ==>
        parts[j] == Ranges.ReadSlice(data, Min(Ranges.Start(counts, j), |data|), counts[j])
    {
      var r := d.ReadNBytes(counts[i]);
      if r.Err? {
        return Err(r.error);
      }
      NextSlice(data, Ranges.Start(counts, i), counts[i]);
      StartNext(counts, i);
      FlattenSnoc(parts, r.value);
      parts := parts + [r.value];
    }
    results := Ok(parts);
  }

  /**
   * The round trip: however the input is split across calls, and however many bytes each read asks for, what a fresh
   * decoder returns are consecutive slices of the input.
   */
  method IngestThenRead(s: StreamingIngester, inputs: seq<bytes>, counts: seq<nat>) returns (results: Result<seq<bytes>, FsError>)
    requires s.Valid() && s.input == [] && Indexed(s.manifest.Snapshot())
    modifies s, s.manifest, s.chunkStore, s.corrections
    ensures var found := Lookup(old(s.manifest.Snapshot()), s.path);
      results.Ok? <==>
        if s.expectedVersion.None? then found.None? else found.Some? && found.value.version == s.expectedVersion.value
    ensures var found := Lookup(old(s.manifest.Snapshot()), s.path);
      results.Err? ==> results.error == if s.expectedVersion.None? then FileExists else if found.None? then FileNotFound
                                        else VersionMismatch(Mismatch(s.expectedVersion.value, found.value.version))
    ensures results.Ok? ==>
        var data := Flatten(inputs);
        && |results.value| == |counts|
        && Flatten(results.value) == Ranges.ReadSlice(data, 0, Ranges.Start(counts, |counts|))
        && forall i :: 0 <= i < |counts| ==>
             results.value[i] == Ranges.ReadSlice(data, Min(Ranges.Start(counts, i), |data|), counts[i])
  {
    hide Flatten, Ranges.ReadSlice, Ranges.Start, Chunks, Fetch, StoredChunk, StoredCorrection, Points, Indexed;
    Ranges.PrefixStart(inputs);
    for i := 0 to |inputs|
      invariant s.Valid() && s.input == Ranges.Prefix(inputs, i) && s.manifest.Snapshot() == old(s.manifest.Snapshot())
    {
      Ranges.PrefixStep(inputs, i, 0, 0);
      s.IngestBytes(inputs[i]);
    }
    assert inputs[..|inputs|] == inputs;
    var version := s.Finalize();
    if version.Err? {
      return Err(version.error);
    }
    ghost var chunks := Chunks(s.input, s.chunkSize);
    ChunksSpec(s.input, s.chunkSize);
    var found := s.manifest.Get(s.path);
    var e := found.value.0;
    Readable(s.codec, s.path, e, s.chunkStore.chunks, s.corrections.corrections, chunks);
    var d := new StreamingDecoder(s.codec, e, s.chunkStore, s.corrections, chunks);
    results := ReadInPieces(d, counts);
  }

  lemma Readable(codec: Codec, path: string, e: Entry, m: map<nat, VersionedChunk>, k: map<nat, CorrectionType>, chunks: seq<bytes>)
    requires codec.Sized() && FileStored(codec, path, e, m, k, chunks)
    ensures |e.chunks| == |chunks| && e.size == |Flatten(chunks)| && e.path == path
    ensures forall i :: 0 <= i < |chunks| ==> e.chunks[i] in m && Fetch(codec, path, m, k, e.chunks[i]) == Some(chunks[i])
  {
    hide Fetch, StoredChunk, StoredCorrection, Flatten;
    var fetch := (id: nat) => Fetch(codec, path, m, k, id);
    StoredHolds(codec, path, e, m, k, chunks, fetch);
  }

  lemma NothingRead(data: bytes, counts: seq<nat>)
    ensures Ranges.Start(counts, 0) == 0 && Flatten([]) == Ranges.ReadSlice(data, 0, 0)
  {
  }

  lemma StartNext(counts: seq<nat>, i: nat)
    requires i < |counts|
    ensures Ranges.Start(counts, i + 1) == Ranges.Start(counts, i) + counts[i]
  {
  }

  lemma NextSlice(data: bytes, from: nat, n: nat)
    ensures var at := Min(from, |data|);
      && Ranges.ReadSlice(data, 0, from) + Ranges.ReadSlice(data, at, n) == Ranges.ReadSlice(data, 0, from + n)
      && at + |Ranges.ReadSlice(data, at, n)| == Min(from + n, |data|)
  {
    var at, end := Min(from, |data|), Min(from + n, |data|);
    assert data[0..at] + data[at..end] == data[0..end];
  }
}
