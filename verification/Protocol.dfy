/**
 * The concurrent versioned store as a state machine. Every step a thread takes between two lock
 * acquisitions is one transition; a run is any interleaving of the threads' steps.
 */
module Protocol {
  import opened Bytes
  import opened Correction
  import opened Manifest
  import opened Stores

  const DEFAULT_CHUNK_SIZE: nat := 4096

  datatype FsError =
    | FileNotFound
    | FileExists
    | ChunkNotFound(id: nat)
    | VersionMismatch(mismatch: Mismatch)

  /** The codec, and what a read-modify-write client makes of the data it read. */
  datatype Config = Config(codec: Codec, update: bytes -> bytes)

  // ---------------------------------------------------------------- what is stored for a chunk

  function StoredChunk(codec: Codec, path: string, data: bytes): VersionedChunk
  {
    VersionedChunk(codec.encode(data, path), |data|)
  }

  function StoredCorrection(codec: Codec, path: string, data: bytes): CorrectionType
    requires codec.Sized()
  {
    CorrectionFor(data, codec.decode(codec.encode(data, path), path, |data|))
  }

  function FileChunks(data: bytes): seq<bytes>
  {
    Chunks(data, DEFAULT_CHUNK_SIZE)
  }

  // ---------------------------------------------------------------- state

  /**
   * A write in progress. `origin` is set when the data was computed from a read: the commits then seen. `existing` is
   * the version of the entry that the check found, if it found one.
   */
  datatype Job = Job(op: nat, path: string, data: bytes, expected: Option<nat>, origin: Option<nat>, existing: Option<nat>)

  /** What an allocated chunk identifier stands for. */
  datatype Source = Source(path: string, data: bytes, op: nat)
  {
    function Encoded(codec: Codec): SparseVec { codec.encode(data, path) }
  }

  /** A change of the manifest, in the order in which the changes took effect. */
  datatype Commit = Commit(path: string, entry: Entry, data: bytes, expected: Option<nat>, op: nat, origin: Option<nat>)

  /**
   * What an operation returned. For the history, `at` is the number of the commit made, or the number of commits when
   * a read fetched its entry; `since` is the number of commits when the read began.
   */
  datatype Outcome =
    | Wrote(op: nat, version: nat, at: nat)
    | WriteFailed(op: nat, error: FsError)
    | Removed(op: nat, at: nat)
    | RemoveFailed(op: nat, error: FsError)
    | Got(path: string, data: bytes, version: nat, since: nat, at: nat)
    | ReadFailed(path: string, error: FsError, since: nat, at: nat)

  /** What the threads share; the fields from `nextOp` on record the history of the run. */
  datatype Shared = Shared(
    manifest: Manifest.State, chunkStore: ChunkState, corrStore: CorrectionState,
    root: SparseVec, rootVersion: nat, globalVersion: nat, nextId: nat,
    nextOp: nat, source: map<nat, Source>, commits: seq<Commit>, batches: seq<nat>, outcomes: seq<Outcome>)

  datatype Phase =
    | Idle
    | Checking(job: Job)
    | Versioning(job: Job)
    | Allocating(job: Job, storeVersion: nat, ids: seq<nat>)
    | Reversioning(job: Job, ids: seq<nat>)
    | Correcting(job: Job, ids: seq<nat>, corrVersion: nat)
    | Committing(job: Job, ids: seq<nat>)
    | Rooting(op: nat, at: nat, ids: seq<nat>, fileVersion: nat)
    | Bundling(op: nat, at: nat, ids: seq<nat>, fileVersion: nat, rootVersion: nat, newRoot: SparseVec, i: nat)
    | Bumping(op: nat, outcome: Outcome)
    | Fetching(path: string, again: bool, since: nat)
    | Decoding(path: string, again: bool, since: nat, entry: Entry, at: nat, i: nat, acc: bytes)
    | Fixing(path: string, again: bool, since: nat, entry: Entry, at: nat, i: nat, acc: bytes, decoded: bytes)
    | Removing(op: nat, path: string, expected: nat)

  datatype Request =
    | WriteFile(path: string, data: bytes, expected: Option<nat>)
    | ReadFile(path: string)
    | DeleteFile(path: string, expectedVersion: nat)
    | UpdateFile(path: string)

  datatype Label = Begin(tid: nat, request: Request) | Step(tid: nat)

  datatype World = World(shared: Shared, threads: map<nat, Phase>)

  const InitialShared :=
    Shared(EmptyManifest, ChunkState(map[], 0), CorrectionState(map[], 0, 0), SparseVec([], []), 0, 0, 1,
           0, map[], [], [], [])

  const InitialWorld := World(InitialShared, map[])

  // ---------------------------------------------------------------- history

  function Latest(commits: seq<Commit>, path: string): Option<Commit>
    decreases |commits|
  {
    if commits == [] then None
    else if commits[|commits| - 1].path == path then Some(commits[|commits| - 1])
    else Latest(commits[..|commits| - 1], path)
  }

  /** The content and version a path has after `commits`; nothing if it never existed or is deleted. */
  function View(commits: seq<Commit>, path: string): Option<(bytes, nat)>
  {
    var c := Latest(commits, path);
    if c.None? || c.value.entry.deleted then None else Some((c.value.data, c.value.entry.version))
  }

  /** The root after bundling chunks one after another. */
  function BundleAll(codec: Codec, path: string, root: SparseVec, chunks: seq<bytes>): SparseVec
    decreases |chunks|
  {
    if chunks == [] then root
    else
      var n := |chunks| - 1;
      codec.bundle(BundleAll(codec, path, root, chunks[..n]), codec.encode(chunks[n], path))
  }

  /** The fold of `bundle` over the committed batches; a batch names the commit whose chunks it bundles. */
  function RootOf(codec: Codec, commits: seq<Commit>, batches: seq<nat>): SparseVec
    decreases |batches|
  {
    if batches == [] then SparseVec([], [])
    else
      var n := |batches| - 1;
      var root := RootOf(codec, commits, batches[..n]);
      if batches[n] < |commits|
      then BundleAll(codec, commits[batches[n]].path, root, FileChunks(commits[batches[n]].data))
      else root
  }

  // ---------------------------------------------------------------- steps

  /** `write_file` returns an error; a read-modify-write client starts over on a version mismatch. */
  function Fail(g: Shared, job: Job, error: FsError): (Shared, Phase)
  {
    (g.(outcomes := g.outcomes + [WriteFailed(job.op, error)]),
     if job.origin.Some? && error.VersionMismatch? then Fetching(job.path, true, |g.commits|) else Idle)
  }

  function CheckEntry(g: Shared, job: Job): (Shared, Phase)
  {
    match (Lookup(g.manifest, job.path), job.expected)
    case (Some(e), Some(v)) =>
      if e.version != v then Fail(g, job, VersionMismatch(Mismatch(v, e.version)))
      else (g, Versioning(job.(existing := Some(e.version))))
    case (Some(_), None) => Fail(g, job, FileExists)
    case (None, Some(_)) => Fail(g, job, FileNotFound)
    case (None, None) => (g, Versioning(job.(existing := None)))
  }

  function AllocateId(g: Shared, job: Job, storeVersion: nat, ids: seq<nat>): (Shared, Phase)
    requires |ids| < |FileChunks(job.data)|
  {
    (g.(nextId := g.nextId + 1, source := g.source[g.nextId := Source(job.path, FileChunks(job.data)[|ids|], job.op)]),
     Allocating(job, storeVersion, ids + [g.nextId]))
  }

  function ChunkUpdates(codec: Codec, job: Job, ids: seq<nat>): (r: seq<(nat, VersionedChunk)>)
    requires |ids| == |FileChunks(job.data)|
    ensures |r| == |ids|
    ensures forall i :: 0 <= i < |ids| ==> r[i] == (ids[i], StoredChunk(codec, job.path, FileChunks(job.data)[i]))
  {
    seq(|ids|, i requires 0 <= i < |ids| => (ids[i], StoredChunk(codec, job.path, FileChunks(job.data)[i])))
  }

  function CorrectionUpdates(codec: Codec, job: Job, ids: seq<nat>): (r: seq<(nat, CorrectionType)>)
    requires codec.Sized() && |ids| == |FileChunks(job.data)|
    ensures |r| == |ids|
    ensures forall i :: 0 <= i < |ids| ==> r[i] == (ids[i], StoredCorrection(codec, job.path, FileChunks(job.data)[i]))
  {
    seq(|ids|, i requires 0 <= i < |ids| => (ids[i], StoredCorrection(codec, job.path, FileChunks(job.data)[i])))
  }

  function InsertChunks(cfg: Config, g: Shared, job: Job, storeVersion: nat, ids: seq<nat>): (Shared, Phase)
    requires |ids| == |FileChunks(job.data)|
  {
    var updates := ChunkUpdates(cfg.codec, job, ids);
    if job.expected.None? then (g.(chunkStore := BatchInsertNew(g.chunkStore, updates)), Correcting(job, ids, 0))
    else
      match BatchInsert(g.chunkStore, updates, storeVersion)
      case Ok(t) => (g.(chunkStore := t), Reversioning(job, ids))
      case Err(m) => Fail(g, job, VersionMismatch(m))
  }

  function InsertCorrections(cfg: Config, g: Shared, job: Job, ids: seq<nat>, corrVersion: nat): (Shared, Phase)
    requires cfg.codec.Sized() && |ids| == |FileChunks(job.data)|
  {
    var updates := CorrectionUpdates(cfg.codec, job, ids);
    if job.expected.None? then (g.(corrStore := BatchAdd(g.corrStore, updates)), Committing(job, ids))
    else
      match BatchUpdate(g.corrStore, updates, corrVersion)
      case Ok(t) => (g.(corrStore := t), Committing(job, ids))
      case Err(m) => Fail(g, job, VersionMismatch(m))
  }

  function Install(g: Shared, manifest: Manifest.State, c: Commit): Shared
  {
    g.(manifest := manifest, commits := g.commits + [c])
  }

  function CommitEntry(g: Shared, job: Job, ids: seq<nat>): (Shared, Phase)
    requires Valid(g.manifest)
  {
    var e := NewEntry(job.path, |job.data|, ids);
    match job.existing
    case None =>
      (match AddFile(g.manifest, e)
       case Ok(m) =>
         (Install(g, m, Commit(job.path, e, job.data, job.expected, job.op, job.origin)), Rooting(job.op, |g.commits|, ids, 0))
       case Err(m) => Fail(g, job, VersionMismatch(m)))
    case Some(v) =>
      match Manifest.UpdateFile(g.manifest, job.path, e, v)
      case Ok(m) =>
        (Install(g, m, Commit(job.path, e.(version := v + 1), job.data, job.expected, job.op, job.origin)),
         Rooting(job.op, |g.commits|, ids, v + 1))
      case Err(m) => Fail(g, job, VersionMismatch(m))
  }

  /** One turn of the bundling loop, or the compare-and-swap that ends it. */
  function BundleStep(cfg: Config, g: Shared, ph: Phase): (Shared, Phase)
    requires ph.Bundling?
  {
    if ph.i < |ph.ids| then
      var id := ph.ids[ph.i];
      var next :=
        if id in g.chunkStore.chunks then cfg.codec.bundle(ph.newRoot, g.chunkStore.chunks[id].vector) else ph.newRoot;
      (g, ph.(newRoot := next, i := ph.i + 1))
    else if g.rootVersion == ph.rootVersion then
      (g.(root := ph.newRoot, rootVersion := g.rootVersion + 1, batches := g.batches + [ph.at]),
       Bumping(ph.op, Wrote(ph.op, ph.fileVersion, ph.at)))
    else (g, Rooting(ph.op, ph.at, ph.ids, ph.fileVersion))
  }

  function FetchEntry(g: Shared, path: string, again: bool, since: nat): (Shared, Phase)
  {
    match Lookup(g.manifest, path)
    case None => (g.(outcomes := g.outcomes + [ReadFailed(path, FileNotFound, since, |g.commits|)]), Idle)
    case Some(e) =>
      if e.deleted then (g.(outcomes := g.outcomes + [ReadFailed(path, FileNotFound, since, |g.commits|)]), Idle)
      else (g, Decoding(path, again, since, e, |g.commits|, 0, []))
  }

  /** `truncate` */
  function Truncate(data: bytes, size: nat): bytes
  {
    data[..Min(size, |data|)]
  }

  /** Fetches and decodes the next chunk, always at 4096 bytes, or finishes the read. */
  function DecodeStep(cfg: Config, g: Shared, ph: Phase): (Shared, Phase)
    requires ph.Decoding?
  {
    if ph.i < |ph.entry.chunks| then
      var id := ph.entry.chunks[ph.i];
      if id in g.chunkStore.chunks then
        var decoded := cfg.codec.decode(g.chunkStore.chunks[id].vector, ph.entry.path, DEFAULT_CHUNK_SIZE);
        (g, Fixing(ph.path, ph.again, ph.since, ph.entry, ph.at, ph.i, ph.acc, decoded))
      else (g.(outcomes := g.outcomes + [ReadFailed(ph.path, ChunkNotFound(id), ph.since, ph.at)]), Idle)
    else
      var data := Truncate(ph.acc, ph.entry.size);
      var h := g.(outcomes := g.outcomes + [Got(ph.path, data, ph.entry.version, ph.since, ph.at)]);
      if ph.again
      then (h.(nextOp := g.nextOp + 1),
            Checking(Job(g.nextOp, ph.path, cfg.update(data), Some(ph.entry.version), Some(ph.at), None)))
      else (h, Idle)
  }

  /** Applies the stored correction, if there is one. */
  function FixStep(g: Shared, ph: Phase): (Shared, Phase)
    requires ph.Fixing? && ph.i < |ph.entry.chunks|
  {
    var id := ph.entry.chunks[ph.i];
    var corrected := if id in g.corrStore.corrections then Apply(g.corrStore.corrections[id], ph.decoded) else ph.decoded;
    (g, Decoding(ph.path, ph.again, ph.since, ph.entry, ph.at, ph.i + 1, ph.acc + corrected))
  }

  function RemoveStep(g: Shared, ph: Phase): (Shared, Phase)
    requires ph.Removing? && Valid(g.manifest)
  {
    match RemoveFile(g.manifest, ph.path, ph.expected)
    case Err(m) => (g.(outcomes := g.outcomes + [RemoveFailed(ph.op, VersionMismatch(m))]), Idle)
    case Ok(m) =>
      match Lookup(m, ph.path)
      case None => (g, Idle)
      case Some(e) =>
        var before := Latest(g.commits, ph.path);
        var data := if before.Some? then before.value.data else [];
        (Install(g, m, Commit(ph.path, e, data, Some(ph.expected), ph.op, None)),
         Bumping(ph.op, Removed(ph.op, |g.commits|)))
  }

  /** The phases are only ever reached in these shapes. */
  ghost predicate Shaped(g: Shared, ph: Phase)
  {
    && Valid(g.manifest)
    && (ph.Allocating? ==> |ph.ids| <= |FileChunks(ph.job.data)|)
    && (ph.Correcting? ==> |ph.ids| == |FileChunks(ph.job.data)|)
    && (ph.Fixing? ==> ph.i < |ph.entry.chunks|)
  }

  /** The one step a thread in phase `ph` can take. */
  function Act(cfg: Config, g: Shared, ph: Phase): (Shared, Phase)
    requires cfg.codec.Sized() && Shaped(g, ph)
  {
    match ph
    case Idle => (g, Idle)
    case Checking(job) => CheckEntry(g, job)
    case Versioning(job) => (g, Allocating(job, g.chunkStore.version, []))
    case Allocating(job, v, ids) =>
      if |ids| < |FileChunks(job.data)| then AllocateId(g, job, v, ids) else InsertChunks(cfg, g, job, v, ids)
    case Reversioning(job, ids) => (g, Correcting(job, ids, g.corrStore.version))
    case Correcting(job, ids, v) => InsertCorrections(cfg, g, job, ids, v)
    case Committing(job, ids) => CommitEntry(g, job, ids)
    case Rooting(op, at, ids, fileVersion) => (g, Bundling(op, at, ids, fileVersion, g.rootVersion, g.root, 0))
    case Bundling(_, _, _, _, _, _, _) => BundleStep(cfg, g, ph)
    case Bumping(_, outcome) =>
      (g.(globalVersion := g.globalVersion + 1, outcomes := g.outcomes + [outcome]), Idle)
    case Fetching(path, again, since) => FetchEntry(g, path, again, since)
    case Decoding(_, _, _, _, _, _, _) => DecodeStep(cfg, g, ph)
    case Fixing(_, _, _, _, _, _, _, _) => FixStep(g, ph)
    case Removing(_, _, _) => RemoveStep(g, ph)
  }

  function Start(g: Shared, request: Request): (Shared, Phase)
  {
    match request
    case WriteFile(path, data, expected) =>
      (g.(nextOp := g.nextOp + 1), Checking(Job(g.nextOp, path, data, expected, None, None)))
    case ReadFile(path) => (g, Fetching(path, false, |g.commits|))
    case UpdateFile(path) => (g, Fetching(path, true, |g.commits|))
    case DeleteFile(path, expected) => (g.(nextOp := g.nextOp + 1), Removing(g.nextOp, path, expected))
  }

  function PhaseOf(w: World, tid: nat): Phase
  {
    if tid in w.threads then w.threads[tid] else Idle
  }

  // ---------------------------------------------------------------- reading without interference

  function ReadChunks(cfg: Config, g: Shared, e: Entry, i: nat, acc: bytes): Result<bytes, FsError>
    requires i <= |e.chunks|
    decreases |e.chunks| - i
  {
    if i == |e.chunks| then Ok(Truncate(acc, e.size))
    else if e.chunks[i] !in g.chunkStore.chunks then Err(ChunkNotFound(e.chunks[i]))
    else ReadChunks(cfg, g, e, i + 1, acc + ReadChunk(cfg, g, e.path, e.chunks[i]))
  }

  function ReadChunk(cfg: Config, g: Shared, path: string, id: nat): bytes
    requires id in g.chunkStore.chunks
  {
    var decoded := cfg.codec.decode(g.chunkStore.chunks[id].vector, path, DEFAULT_CHUNK_SIZE);
    if id in g.corrStore.corrections then Apply(g.corrStore.corrections[id], decoded) else decoded
  }

  /** `read_file` of a store that nobody else is using: what a file's readable content is. */
  function ReadBack(cfg: Config, g: Shared, path: string): Result<(bytes, nat), FsError>
  {
    match Lookup(g.manifest, path)
    case None => Err(FileNotFound)
    case Some(e) =>
      if e.deleted then Err(FileNotFound)
      else
        match ReadChunks(cfg, g, e, 0, [])
        case Ok(data) => Ok((data, e.version))
        case Err(error) => Err(error)
  }
}
