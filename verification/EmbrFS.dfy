/**
 * The sequential file system: files cut into numbered chunks, one bundled root, corrections beside it.
 * Every run of it refines a plain map from paths to bytes.
 */
module EmbrFS {
  import opened Bytes
  import opened Correction

  /**
   * What the file system is built on: the codec of `ingest_file`, the batch encoder that `compact` uses instead,
   * and the verification hash. None of them is assumed to have any property but decoding to the length asked for.
   */
  datatype Env = Env(codec: Codec, reencode: (bytes, string) -> SparseVec, hash: bytes -> bytes)

  datatype FileEntry = FileEntry(path: string, size: nat, chunks: seq<nat>, deleted: bool)

  datatype Engram = Engram(root: SparseVec, codebook: map<nat, SparseVec>, corrections: StoreState)

  datatype State = State(engram: Engram, files: seq<FileEntry>, totalChunks: nat)

  datatype IoError = AlreadyExists | NotFound | Unreadable

  const EmptyEngram := Engram(SparseVec([], []), map[], EmptyStore)
  const EmptyState := State(EmptyEngram, [], 0)

  type Encoder = (bytes, string) -> SparseVec

  // ---------------------------------------------------------------- ingestion

  function PutChunk(env: Env, enc: Encoder, e: Engram, path: string, id: nat, chunk: bytes): Engram
    requires env.codec.Sized()
  {
    var v := enc(chunk, path);
    Engram(env.codec.bundle(e.root, v), e.codebook[id := v],
           Add(e.corrections, env.hash, id, chunk, env.codec.decode(v, path, |chunk|)))
  }

  function PutChunks(env: Env, enc: Encoder, e: Engram, path: string, base: nat, chunks: seq<bytes>): Engram
    requires env.codec.Sized()
    decreases |chunks|
  {
    if chunks == [] then e
    else
      var n := |chunks| - 1;
      PutChunk(env, enc, PutChunks(env, enc, e, path, base, chunks[..n]), path, base + n, chunks[n])
  }

  /** `base`, `base + 1`, … */
  function Ids(base: nat, n: nat): (r: seq<nat>)
    ensures |r| == n
    ensures forall i :: 0 <= i < n ==> r[i] == base + i
  {
    seq(n, i requires 0 <= i < n => base + i)
  }

  /** Encodes the data under the next chunk numbers and records a file of the given size. */
  function Ingest(env: Env, enc: Encoder, c: nat, s: State, path: string, data: bytes, size: nat): State
    requires env.codec.Sized() && c > 0
  {
    var chunks := Chunks(data, c);
    State(PutChunks(env, enc, s.engram, path, s.totalChunks, chunks),
          s.files + [FileEntry(path, size, Ids(s.totalChunks, |chunks|), false)],
          s.totalChunks + |chunks|)
  }

  /** `ingest_file`; `content` is what the file on disk holds, if it can be read. */
  function IngestFile(env: Env, c: nat, s: State, path: string, content: Option<bytes>): (State, Option<IoError>)
    requires env.codec.Sized() && c > 0
  {
    if content.None? then (s, Some(Unreadable))
    else (Ingest(env, env.codec.encode, c, s, path, content.value, |content.value|), None)
  }

  /** The first live entry with the path. */
  function FindLive(files: seq<FileEntry>, path: string): (r: Option<nat>)
    ensures r.Some? ==> r.value < |files| && files[r.value].path == path && !files[r.value].deleted
    ensures r.None? ==> forall i :: 0 <= i < |files| && files[i].path == path ==> files[i].deleted
    decreases |files|
  {
    if files == [] then None
    else
      var n := |files| - 1;
      var before := FindLive(files[..n], path);
      if before.Some? then before
      else
        assert forall i :: 0 <= i < n ==> files[i] == files[..n][i];
        if files[n].path == path && !files[n].deleted then Some(n) else None
  }

  function AddFile(env: Env, c: nat, s: State, path: string, content: Option<bytes>): (State, Option<IoError>)
    requires env.codec.Sized() && c > 0
  {
    if FindLive(s.files, path).Some? then (s, Some(AlreadyExists)) else IngestFile(env, c, s, path, content)
  }

  function RemoveFile(s: State, path: string): (State, Option<IoError>)
  {
    var at := FindLive(s.files, path);
    if at.None? then (s, Some(NotFound))
    else (s.(files := s.files[at.value := s.files[at.value].(deleted := true)]), None)
  }

  /** Removes first, then ingests: if the new content cannot be read, the old one is gone all the same. */
  function ModifyFile(env: Env, c: nat, s: State, path: string, content: Option<bytes>): (State, Option<IoError>)
    requires env.codec.Sized() && c > 0
  {
    var (t, error) := RemoveFile(s, path);
    if error.Some? then (t, error) else IngestFile(env, c, t, path, content)
  }

  // ---------------------------------------------------------------- extraction and compaction

  /** The size that a file's `i`th chunk is decoded at. */
  function ChunkLength(f: FileEntry, c: nat, i: nat): nat
  {
    if i + 1 == |f.chunks| then if f.size >= c * i then Min(f.size - c * i, c) else 0 else c
  }

  /** One decoded and corrected chunk; nothing if the chunk is missing. */
  function ReadChunk(env: Env, e: Engram, path: string, id: nat, n: nat): bytes
  {
    if id !in e.codebook then []
    else
      var decoded := env.codec.decode(e.codebook[id], path, n);
      var corrected := ApplyStored(e.corrections, env.hash, id, decoded);
      if corrected.Some? then corrected.value else decoded
  }

  function ReadChunks(env: Env, e: Engram, c: nat, f: FileEntry, n: nat): bytes
    requires n <= |f.chunks|
  {
    if n == 0 then [] else ReadChunks(env, e, c, f, n - 1) + ReadChunk(env, e, f.path, f.chunks[n - 1], ChunkLength(f, c, n - 1))
  }

  function ReadFile(env: Env, e: Engram, c: nat, f: FileEntry): bytes
  {
    var data := ReadChunks(env, e, c, f, |f.chunks|);
    data[..Min(f.size, |data|)]
  }

  /** The output directory after the first `n` entries have been extracted. */
  function Extract(env: Env, c: nat, s: State, n: nat): map<string, bytes>
    requires n <= |s.files|
  {
    if n == 0 then map[]
    else
      var out, f := Extract(env, c, s, n - 1), s.files[n - 1];
      if f.deleted then out else out[f.path := ReadFile(env, s.engram, c, f)]
  }

  /** The rebuilt engram after the first `n` entries. */
  function Rebuild(env: Env, c: nat, s: State, n: nat): State
    requires env.codec.Sized() && c > 0 && n <= |s.files|
  {
    if n == 0 then EmptyState
    else
      var t, f := Rebuild(env, c, s, n - 1), s.files[n - 1];
      if f.deleted then t else Ingest(env, env.reencode, c, t, f.path, ReadFile(env, s.engram, c, f), f.size)
  }

  // ---------------------------------------------------------------- whole runs, and what they should mean

  datatype Op =
    | AddOp(path: string, content: Option<bytes>)
    | RemoveOp(path: string)
    | ModifyOp(path: string, content: Option<bytes>)
    | CompactOp

  function ApplyOp(env: Env, c: nat, s: State, op: Op): (State, Option<IoError>)
    requires env.codec.Sized() && c > 0
  {
    match op
    case AddOp(path, content) => AddFile(env, c, s, path, content)
    case RemoveOp(path) => RemoveFile(s, path)
    case ModifyOp(path, content) => ModifyFile(env, c, s, path, content)
    case CompactOp => (Rebuild(env, c, s, |s.files|), None)
  }

  function Run(env: Env, c: nat, ops: seq<Op>): State
    requires env.codec.Sized() && c > 0
    decreases |ops|
  {
    if ops == [] then EmptyState else ApplyOp(env, c, Run(env, c, ops[..|ops| - 1]), ops[|ops| - 1]).0
  }

  /** The plain map that the file system stands for. */
  function Spec(m: map<string, bytes>, op: Op): (map<string, bytes>, Option<IoError>)
  {
    match op
    case AddOp(path, content) =>
      if path in m then (m, Some(AlreadyExists))
      else if content.None? then (m, Some(Unreadable))
      else (m[path := content.value], None)
    case RemoveOp(path) => if path in m then (m - {path}, None) else (m, Some(NotFound))
    case ModifyOp(path, content) =>
      if path !in m then (m, Some(NotFound))
      else if content.None? then (m - {path}, Some(Unreadable))
      else (m[path := content.value], None)
    case CompactOp => (m, None)
  }

  function SpecRun(ops: seq<Op>): map<string, bytes>
    decreases |ops|
  {
    if ops == [] then map[] else Spec(SpecRun(ops[..|ops| - 1]), ops[|ops| - 1]).0
  }

  // ---------------------------------------------------------------- invariant

  /** The chunk can be read back exactly. */
  ghost predicate Recovers(env: Env, e: Engram, path: string, id: nat, chunk: bytes)
  {
    && id in e.codebook
    && ApplyStored(e.corrections, env.hash, id, env.codec.decode(e.codebook[id], path, |chunk|)) == Some(chunk)
  }

  ghost predicate FileOk(env: Env, e: Engram, c: nat, f: FileEntry, data: bytes)
    requires c > 0
  {
    && f.size == |data| && |f.chunks| == |Chunks(data, c)|
    && forall k :: 0 <= k < |f.chunks| ==> Recovers(env, e, f.path, f.chunks[k], Chunks(data, c)[k])
  }

  /** All files' chunk lists, one after another. */
  function AllChunks(files: seq<FileEntry>): seq<nat>
    decreases |files|
  {
    if files == [] then [] else AllChunks(files[..|files| - 1]) + files[|files| - 1].chunks
  }

  /** The root as the fold of `bundle` over the first `n` chunks in the order of their numbers. */
  function RootOf(codec: Codec, codebook: map<nat, SparseVec>, n: nat): SparseVec
  {
    if n == 0 then SparseVec([], [])
    else
      var root := RootOf(codec, codebook, n - 1);
      if n - 1 in codebook then codec.bundle(root, codebook[n - 1]) else root
  }

  /** The first `total` chunks, and no others, are stored, corrected, counted and in the root. */
  ghost predicate EngramOk(env: Env, e: Engram, total: nat)
  {
    && e.corrections.perfect + e.corrections.corrected == total
    && e.root == RootOf(env.codec, e.codebook, total)
    && (forall id: nat :: id in e.codebook <==> id < total)
    && forall id: nat :: id in e.corrections.corrections <==> id < total
  }

  ghost predicate LiveDistinct(files: seq<FileEntry>)
  {
    forall i, j :: 0 <= i < j < |files| && !files[i].deleted && !files[j].deleted ==> files[i].path != files[j].path
  }

  /** `contents` are the bytes that the entries, deleted ones included, were made from. */
  ghost predicate Inv(env: Env, c: nat, s: State, contents: seq<bytes>)
    requires c > 0
  {
    && |contents| == |s.files|
    && (forall i :: 0 <= i < |s.files| ==> FileOk(env, s.engram, c, s.files[i], contents[i]))
    && AllChunks(s.files) == Ids(0, s.totalChunks) && EngramOk(env, s.engram, s.totalChunks) && LiveDistinct(s.files)
  }

  /** The map that a list of entries stands for. */
  function Model(files: seq<FileEntry>, contents: seq<bytes>): map<string, bytes>
    requires |files| == |contents|
    decreases |files|
  {
    if files == [] then map[]
    else
      var n := |files| - 1;
      var m := Model(files[..n], contents[..n]);
      if files[n].deleted then m else m[files[n].path := contents[n]]
  }

  // ---------------------------------------------------------------- ingestion keeps and adds

  /** Chunks below `base` stay as they are. */
  ghost predicate SameBelow(e: Engram, f: Engram, base: nat)
  {
    forall id: nat :: id < base ==>
      && (id in f.codebook <==> id in e.codebook) && (id in e.codebook ==> f.codebook[id] == e.codebook[id])
      && (id in f.corrections.corrections <==> id in e.corrections.corrections)
      && (id in e.corrections.corrections ==> f.corrections.corrections[id] == e.corrections.corrections[id])
  }

  lemma RecoversKept(env: Env, e: Engram, f: Engram, base: nat, path: string, id: nat, chunk: bytes)
    requires SameBelow(e, f, base) && id < base && Recovers(env, e, path, id, chunk)
    ensures Recovers(env, f, path, id, chunk)
  {
  }

  lemma FileKept(env: Env, e: Engram, f: Engram, c: nat, base: nat, file: FileEntry, data: bytes)
    requires c > 0 && SameBelow(e, f, base) && FileOk(env, e, c, file, data)
    requires forall k :: 0 <= k < |file.chunks| ==> file.chunks[k] < base
    ensures FileOk(env, f, c, file, data)
  {
    hide Chunks, Recovers, SameBelow;
    forall k | 0 <= k < |file.chunks| ensures Recovers(env, f, file.path, file.chunks[k], Chunks(data, c)[k]) {
      RecoversKept(env, e, f, base, file.path, file.chunks[k], Chunks(data, c)[k]);
    }
  }

  lemma {:induction false} RootKept(codec: Codec, a: map<nat, SparseVec>, b: map<nat, SparseVec>, n: nat)
    requires forall id: nat :: id < n ==> (id in b <==> id in a) && (id in a ==> b[id] == a[id])
    ensures RootOf(codec, a, n) == RootOf(codec, b, n)
  {
    if n > 0 {
      RootKept(codec, a, b, n - 1);
    }
  }

  lemma PutChunkSpec(env: Env, enc: Encoder, e: Engram, path: string, id: nat, chunk: bytes)
    requires env.codec.Sized() && EngramOk(env, e, id)
    ensures var f := PutChunk(env, enc, e, path, id, chunk);
      SameBelow(e, f, id) && Recovers(env, f, path, id, chunk) && EngramOk(env, f, id + 1)
  {
    hide ApplyStored, CorrectionFor, StorageSize;
    var v := enc(chunk, path);
    var f := PutChunk(env, enc, e, path, id, chunk);
    AddThenApply(e.corrections, env.hash, id, chunk, env.codec.decode(v, path, |chunk|));
    RootKept(env.codec, e.codebook, f.codebook, id);
  }

  lemma SameBelowTrans(a: Engram, b: Engram, d: Engram, m: nat, n: nat)
    requires SameBelow(a, b, m) && SameBelow(b, d, n) && m <= n
    ensures SameBelow(a, d, m)
  {
  }

  lemma {:induction false} PutChunksSpec(env: Env, enc: Encoder, e: Engram, path: string, base: nat, chunks: seq<bytes>)
    requires env.codec.Sized() && EngramOk(env, e, base)
    ensures var f := PutChunks(env, enc, e, path, base, chunks);
      && SameBelow(e, f, base) && EngramOk(env, f, base + |chunks|)
      && forall k :: 0 <= k < |chunks| ==> Recovers(env, f, path, base + k, chunks[k])
    decreases |chunks|
  {
    hide PutChunk, Recovers, EngramOk;
    if chunks != [] {
      var n := |chunks| - 1;
      var before, f := PutChunks(env, enc, e, path, base, chunks[..n]), PutChunks(env, enc, e, path, base, chunks);
      PutChunksSpec(env, enc, e, path, base, chunks[..n]);
      PutChunkSpec(env, enc, before, path, base + n, chunks[n]);
      SameBelowTrans(e, before, f, base, base + n);
      forall k | 0 <= k < |chunks| ensures Recovers(env, f, path, base + k, chunks[k]) {
        if k < n {
          assert chunks[..n][k] == chunks[k];
          RecoversKept(env, before, f, base + n, path, base + k, chunks[k]);
        }
      }
    }
  }

  lemma {:induction false} ChunkNumbers(files: seq<FileEntry>, total: nat, i: nat, k: nat)
    requires AllChunks(files) == Ids(0, total) && i < |files| && k < |files[i].chunks|
    ensures files[i].chunks[k] < total
    decreases |files|
  {
    var at := ChunkPlace(files, i, k);
  }

  lemma {:induction false} ChunkPlace(files: seq<FileEntry>, i: nat, k: nat) returns (at: nat)
    requires i < |files| && k < |files[i].chunks|
    ensures at < |AllChunks(files)| && AllChunks(files)[at] == files[i].chunks[k]
    decreases |files|
  {
    var n := |files| - 1;
    if i == n {
      at := |AllChunks(files[..n])| + k;
    } else {
      at := ChunkPlace(files[..n], i, k);
    }
  }
}
