/** What every reachable state of the concurrent store satisfies. */
module ProtocolInvariant {
  import opened Bytes
  import opened Correction
  import opened Manifest
  import opened Stores
  import opened Protocol

  ghost predicate Lawful(cfg: Config)
  {
    cfg.codec.Sized() && cfg.codec.PrefixStable()
  }

  /** The write-once memory: what each identifier stands for, and what is stored under it so far. */
  datatype Memory = Memory(source: map<nat, Source>, chunks: map<nat, VersionedChunk>, corrections: map<nat, CorrectionType>)

  function Mem(g: Shared): Memory
  {
    Memory(g.source, g.chunkStore.chunks, g.corrStore.corrections)
  }

  ghost predicate SourcesOk(source: map<nat, Source>, nextId: nat, nextOp: nat)
  {
    forall id :: id in source ==> id < nextId && source[id].op < nextOp
  }

  /** Whatever is stored under an identifier is determined by what the identifier stands for. */
  ghost predicate MemoryOk(cfg: Config, m: Memory)
    requires cfg.codec.Sized()
  {
    && (forall id :: id in m.chunks ==>
          id in m.source && m.chunks[id] == StoredChunk(cfg.codec, m.source[id].path, m.source[id].data))
    && (forall id :: id in m.corrections ==>
          id in m.source && m.corrections[id] == StoredCorrection(cfg.codec, m.source[id].path, m.source[id].data))
  }

  ghost predicate ChunkReady(m: Memory, id: nat, path: string, data: bytes)
  {
    && id in m.source && m.source[id].path == path && m.source[id].data == data
    && id in m.chunks && id in m.corrections
  }

  /** Everything a reader of the entry needs is in memory. */
  ghost predicate EntryReady(m: Memory, e: Entry, data: bytes)
  {
    && e.size == |data| && e.codec.None? && e.chunkOffsets.None? && |e.chunks| == |FileChunks(data)|
    && forall k :: 0 <= k < |e.chunks| ==> ChunkReady(m, e.chunks[k], e.path, FileChunks(data)[k])
  }

  ghost predicate CommitsReady(m: Memory, commits: seq<Commit>, nextOp: nat)
  {
    forall i :: 0 <= i < |commits| ==>
      commits[i].entry.path == commits[i].path && commits[i].op < nextOp && EntryReady(m, commits[i].entry, commits[i].data)
  }

  ghost predicate Uncommitted(commits: seq<Commit>, op: nat)
  {
    forall i :: 0 <= i < |commits| ==> commits[i].op != op
  }

  /** The commit follows its predecessor on the path: it replaced exactly the version it expected. */
  ghost predicate ChainStep(cfg: Config, before: seq<Commit>, c: Commit)
  {
    match Latest(before, c.path)
    case None => c.expected == None && c.entry.version == 0 && !c.entry.deleted && c.origin == None
    case Some(b) =>
      && c.expected == Some(b.entry.version) && c.entry.version == b.entry.version + 1
      && (c.entry.deleted ==> c.data == b.data && c.origin == None)
      && (c.origin.Some? ==> !b.entry.deleted && !c.entry.deleted && c.data == cfg.update(b.data))
  }

  ghost predicate Chain(cfg: Config, commits: seq<Commit>)
    decreases |commits|
  {
    commits == [] ||
    var n := |commits| - 1;
    Chain(cfg, commits[..n]) && ChainStep(cfg, commits[..n], commits[n]) && Uncommitted(commits[..n], commits[n].op)
  }

  function EntryOf(c: Option<Commit>): Option<Entry>
  {
    if c.None? then None else Some(c.value.entry)
  }

  ghost predicate ManifestOk(m: Manifest.State, commits: seq<Commit>)
  {
    Valid(m) && forall p :: Lookup(m, p) == EntryOf(Latest(commits, p))
  }

  ghost predicate RootOk(cfg: Config, commits: seq<Commit>, batches: seq<nat>, root: SparseVec, rootVersion: nat)
  {
    && rootVersion == |batches| && root == RootOf(cfg.codec, commits, batches)
    && (forall i :: 0 <= i < |batches| ==> batches[i] < |commits| && !commits[batches[i]].entry.deleted)
    && (forall i, j :: 0 <= i < j < |batches| ==> batches[i] != batches[j])
  }

  ghost predicate OutcomeOk(commits: seq<Commit>, batches: seq<nat>, nextOp: nat, o: Outcome)
  {
    match o
    case Wrote(op, version, at) =>
      && at < |commits| && commits[at].op == op && commits[at].entry.version == version && !commits[at].entry.deleted
      && at in batches
    case Removed(op, at) => at < |commits| && commits[at].op == op && commits[at].entry.deleted
    case WriteFailed(op, _) => op < nextOp && Uncommitted(commits, op)
    case RemoveFailed(op, _) => op < nextOp && Uncommitted(commits, op)
    case Got(path, data, version, since, at) => since <= at <= |commits| && View(commits[..at], path) == Some((data, version))
    case ReadFailed(path, error, since, at) =>
      since <= at <= |commits| && error == FileNotFound && View(commits[..at], path) == None
  }

  ghost predicate OutcomesOk(commits: seq<Commit>, batches: seq<nat>, nextOp: nat, outcomes: seq<Outcome>)
  {
    forall i :: 0 <= i < |outcomes| ==> OutcomeOk(commits, batches, nextOp, outcomes[i])
  }

  ghost predicate SharedInv(cfg: Config, g: Shared)
    requires cfg.codec.Sized()
  {
    && SourcesOk(g.source, g.nextId, g.nextOp)
    && MemoryOk(cfg, Mem(g)) && Counted(g.corrStore)
    && CommitsReady(Mem(g), g.commits, g.nextOp) && Chain(cfg, g.commits)
    && ManifestOk(g.manifest, g.commits)
    && RootOk(cfg, g.commits, g.batches, g.root, g.rootVersion)
    && OutcomesOk(g.commits, g.batches, g.nextOp, g.outcomes)
  }

  // ---------------------------------------------------------------- one thread

  predicate Failed(o: Outcome, op: nat)
  {
    (o.WriteFailed? || o.RemoveFailed?) && o.op == op
  }

  ghost predicate NotFailed(outcomes: seq<Outcome>, op: nat)
  {
    forall i :: 0 <= i < |outcomes| ==> !Failed(outcomes[i], op)
  }

  /** An operation that has been neither committed nor refused. */
  ghost predicate Open(g: Shared, op: nat)
  {
    op < g.nextOp && Uncommitted(g.commits, op) && NotFailed(g.outcomes, op)
  }

  /** The data of a read-modify-write was computed from what the path held after the first `at` commits. */
  ghost predicate OriginOk(cfg: Config, commits: seq<Commit>, job: Job, at: nat)
  {
    && at <= |commits|
    && var v := View(commits[..at], job.path);
       v.Some? && job.expected == Some(v.value.1) && job.data == cfg.update(v.value.0)
  }

  ghost predicate JobOk(cfg: Config, g: Shared, job: Job)
  {
    Open(g, job.op) && (job.origin.Some? ==> OriginOk(cfg, g.commits, job, job.origin.value))
  }

  /** The check found the version that was expected. */
  predicate Checked(job: Job)
  {
    job.existing == job.expected
  }

  ghost predicate NoneCorrected(m: Memory, op: nat)
  {
    forall id :: id in m.corrections && id in m.source ==> m.source[id].op != op
  }

  /** The identifiers allocated so far stand for the first chunks of the data. */
  ghost predicate IdsOk(source: map<nat, Source>, job: Job, ids: seq<nat>)
  {
    && |ids| <= |FileChunks(job.data)|
    && (forall k :: 0 <= k < |ids| ==> ids[k] in source && source[ids[k]] == Source(job.path, FileChunks(job.data)[k], job.op))
    && (forall j, k :: 0 <= j < k < |ids| ==> ids[j] < ids[k])
  }

  ghost predicate AllIn<V>(ids: seq<nat>, m: map<nat, V>)
  {
    forall k :: 0 <= k < |ids| ==> ids[k] in m
  }

  /** The thread is about to bundle the chunks of the commit at `at`, which nobody has bundled yet, and knows its version. */
  ghost predicate BundleOk(g: Shared, op: nat, at: nat, ids: seq<nat>, fileVersion: nat)
  {
    && at < |g.commits| && g.commits[at].op == op && g.commits[at].entry.chunks == ids && !g.commits[at].entry.deleted
    && g.commits[at].entry.version == fileVersion && at !in g.batches
  }

  /** The bytes gathered from the first `i` chunks; beyond the last chunk there may be padding. */
  ghost predicate Gathered(data: bytes, i: nat, acc: bytes)
  {
    if i < |FileChunks(data)| then DEFAULT_CHUNK_SIZE * i <= |data| && acc == data[..DEFAULT_CHUNK_SIZE * i] else data <= acc
  }

  ghost predicate ReaderOk(g: Shared, path: string, e: Entry, at: nat, i: nat, acc: bytes)
  {
    && at <= |g.commits| && e.path == path && i <= |e.chunks|
    && var v := View(g.commits[..at], path);
       v.Some? && v.value.1 == e.version && EntryReady(Mem(g), e, v.value.0) && Gathered(v.value.0, i, acc)
  }

  ghost predicate PhaseInv(cfg: Config, g: Shared, ph: Phase)
    requires cfg.codec.Sized()
  {
    match ph
    case Idle => true
    case Checking(job) => JobOk(cfg, g, job) && NoneCorrected(Mem(g), job.op)
    case Versioning(job) => JobOk(cfg, g, job) && Checked(job) && NoneCorrected(Mem(g), job.op)
    case Allocating(job, _, ids) => JobOk(cfg, g, job) && Checked(job) && NoneCorrected(Mem(g), job.op) && IdsOk(g.source, job, ids)
    case Reversioning(job, ids) =>
      && JobOk(cfg, g, job) && Checked(job) && NoneCorrected(Mem(g), job.op) && IdsOk(g.source, job, ids)
      && |ids| == |FileChunks(job.data)| && AllIn(ids, g.chunkStore.chunks)
    case Correcting(job, ids, _) =>
      && JobOk(cfg, g, job) && Checked(job) && NoneCorrected(Mem(g), job.op) && IdsOk(g.source, job, ids)
      && |ids| == |FileChunks(job.data)| && AllIn(ids, g.chunkStore.chunks)
    case Committing(job, ids) =>
      && JobOk(cfg, g, job) && Checked(job) && IdsOk(g.source, job, ids)
      && |ids| == |FileChunks(job.data)| && AllIn(ids, g.chunkStore.chunks) && AllIn(ids, g.corrStore.corrections)
    case Rooting(op, at, ids, fileVersion) => BundleOk(g, op, at, ids, fileVersion)
    case Bundling(op, at, ids, fileVersion, v, root, i) =>
      && BundleOk(g, op, at, ids, fileVersion) && i <= |ids| == |FileChunks(g.commits[at].data)| && v <= g.rootVersion
      && (v == g.rootVersion ==>
            root == BundleAll(cfg.codec, g.commits[at].path, g.root, FileChunks(g.commits[at].data)[..i]))
    case Bumping(op, o) => (o.Wrote? || o.Removed?) && o.op == op && OutcomeOk(g.commits, g.batches, g.nextOp, o)
    case Fetching(_, _, since) => since <= |g.commits|
    case Decoding(path, _, since, e, at, i, acc) => since <= at && ReaderOk(g, path, e, at, i, acc)
    case Fixing(path, _, since, e, at, i, acc, decoded) =>
      && since <= at && ReaderOk(g, path, e, at, i, acc) && i < |e.chunks| && e.chunks[i] in g.source
      && decoded == cfg.codec.decode(g.source[e.chunks[i]].Encoded(cfg.codec), path, DEFAULT_CHUNK_SIZE)
    case Removing(op, _, _) => Open(g, op)
  }

  /** The operation a phase works for. */
  function OpOf(ph: Phase): Option<nat>
  {
    match ph
    case Checking(job) => Some(job.op)
    case Versioning(job) => Some(job.op)
    case Allocating(job, _, _) => Some(job.op)
    case Reversioning(job, _) => Some(job.op)
    case Correcting(job, _, _) => Some(job.op)
    case Committing(job, _) => Some(job.op)
    case Rooting(op, _, _, _) => Some(op)
    case Bundling(op, _, _, _, _, _, _) => Some(op)
    case Bumping(op, _) => Some(op)
    case Removing(op, _, _) => Some(op)
    case Idle => None
    case Fetching(_, _, _) => None
    case Decoding(_, _, _, _, _, _, _) => None
    case Fixing(_, _, _, _, _, _, _, _) => None
  }

  // ---------------------------------------------------------------- what a step may do to the others

  ghost predicate Includes<V>(m: map<nat, V>, n: map<nat, V>)
  {
    forall id :: id in m ==> id in n && n[id] == m[id]
  }

  ghost predicate MemoryGrows(m: Memory, n: Memory, actor: Option<nat>)
  {
    && Includes(m.source, n.source) && m.chunks.Keys <= n.chunks.Keys && m.corrections.Keys <= n.corrections.Keys
    && (forall id :: id in n.corrections && id in n.source ==>
          (id in m.corrections && id in m.source) || Some(n.source[id].op) == actor)
  }

  ghost predicate CommitsGrow(a: seq<Commit>, b: seq<Commit>, actor: Option<nat>)
  {
    a <= b && forall i :: |a| <= i < |b| ==> Some(b[i].op) == actor
  }

  ghost predicate BatchesGrow(commits: seq<Commit>, a: seq<nat>, b: seq<nat>, actor: Option<nat>)
  {
    a <= b && forall i :: |a| <= i < |b| ==> b[i] < |commits| && Some(commits[b[i]].op) == actor
  }

  ghost predicate OutcomesGrow(a: seq<Outcome>, b: seq<Outcome>, actor: Option<nat>)
  {
    a <= b && forall i :: |a| <= i < |b| && (b[i].WriteFailed? || b[i].RemoveFailed?) ==> Some(b[i].op) == actor
  }

  /** Nothing is forgotten or overwritten, and what is new belongs to the acting operation. */
  ghost predicate Grows(g: Shared, h: Shared, actor: Option<nat>)
  {
    && g.nextOp <= h.nextOp && MemoryGrows(Mem(g), Mem(h), actor)
    && CommitsGrow(g.commits, h.commits, actor) && BatchesGrow(h.commits, g.batches, h.batches, actor)
    && OutcomesGrow(g.outcomes, h.outcomes, actor)
    && g.rootVersion <= h.rootVersion && (g.rootVersion == h.rootVersion ==> g.root == h.root)
  }
}
