/** Every step of every thread keeps the invariant, its own and the other threads'. */
module ProtocolSteps {
  import opened Bytes
  import opened Correction
  import opened Manifest
  import opened Stores
  import opened Protocol
  import opened ProtocolInvariant

  // ---------------------------------------------------------------- the other threads

  lemma PrefixSlice<T>(a: seq<T>, b: seq<T>, at: nat)
    requires a <= b && at <= |a|
    ensures at <= |b| && b[..at] == a[..at]
  {
  }

  lemma ReadyStable(m: Memory, n: Memory, actor: Option<nat>, e: Entry, data: bytes)
    requires MemoryGrows(m, n, actor) && EntryReady(m, e, data)
    ensures EntryReady(n, e, data)
  {
    hide FileChunks;
    forall k | 0 <= k < |e.chunks| ensures ChunkReady(n, e.chunks[k], e.path, FileChunks(data)[k]) {
      assert ChunkReady(m, e.chunks[k], e.path, FileChunks(data)[k]);
    }
  }

  lemma OpenStable(g: Shared, h: Shared, actor: Option<nat>, op: nat)
    requires Grows(g, h, actor) && Open(g, op) && actor != Some(op)
    ensures Open(h, op)
  {
  }

  lemma JobStable(cfg: Config, g: Shared, h: Shared, actor: Option<nat>, job: Job)
    requires Grows(g, h, actor) && JobOk(cfg, g, job) && actor != Some(job.op)
    ensures JobOk(cfg, h, job)
  {
    hide View;
    OpenStable(g, h, actor, job.op);
    if job.origin.Some? {
      PrefixSlice(g.commits, h.commits, job.origin.value);
    }
  }

  lemma NoneCorrectedStable(m: Memory, n: Memory, actor: Option<nat>, op: nat)
    requires MemoryGrows(m, n, actor) && NoneCorrected(m, op) && actor != Some(op)
    ensures NoneCorrected(n, op)
  {
  }

  lemma IdsStable(m: Memory, n: Memory, actor: Option<nat>, job: Job, ids: seq<nat>)
    requires MemoryGrows(m, n, actor) && IdsOk(m.source, job, ids)
    ensures IdsOk(n.source, job, ids)
    ensures AllIn(ids, m.chunks) ==> AllIn(ids, n.chunks)
    ensures AllIn(ids, m.corrections) ==> AllIn(ids, n.corrections)
  {
    hide FileChunks;
  }

  lemma ReaderStable(g: Shared, h: Shared, actor: Option<nat>, path: string, e: Entry, at: nat, i: nat, acc: bytes)
    requires Grows(g, h, actor) && ReaderOk(g, path, e, at, i, acc)
    ensures ReaderOk(h, path, e, at, i, acc)
  {
    hide View, EntryReady, Gathered;
    PrefixSlice(g.commits, h.commits, at);
    ReadyStable(Mem(g), Mem(h), actor, e, View(g.commits[..at], path).value.0);
  }

  lemma BundleStable(g: Shared, h: Shared, actor: Option<nat>, op: nat, at: nat, ids: seq<nat>, fileVersion: nat)
    requires Grows(g, h, actor) && BundleOk(g, op, at, ids, fileVersion) && actor != Some(op)
    ensures BundleOk(h, op, at, ids, fileVersion) && h.commits[at] == g.commits[at]
  {
    assert h.commits[at] == g.commits[at];
    forall i | 0 <= i < |h.batches| ensures h.batches[i] != at {
      if i < |g.batches| { assert h.batches[i] == g.batches[i]; }
    }
  }

  /** What an outcome says stays true as long as its operation does not go on to commit. */
  lemma OutcomeStable(a: seq<Commit>, b: seq<Commit>, batches: seq<nat>, more: seq<nat>, n: nat, m: nat, actor: Option<nat>, o: Outcome)
    requires CommitsGrow(a, b, actor) && batches <= more && n <= m && OutcomeOk(a, batches, n, o)
    requires (o.WriteFailed? || o.RemoveFailed?) ==> actor != Some(o.op)
    ensures OutcomeOk(b, more, m, o)
  {
    hide View;
    match o
    case Got(path, data, version, _, at) => PrefixSlice(a, b, at);
    case ReadFailed(path, error, _, at) => PrefixSlice(a, b, at);
    case Wrote(op, version, at) =>
      var i :| 0 <= i < |batches| && batches[i] == at;
      assert more[i] == at;
    case _ =>
  }

  lemma PhaseStable(cfg: Config, g: Shared, h: Shared, actor: Option<nat>, ph: Phase)
    requires cfg.codec.Sized() && Grows(g, h, actor) && PhaseInv(cfg, g, ph)
    requires OpOf(ph).Some? ==> OpOf(ph) != actor
    ensures PhaseInv(cfg, h, ph)
  {
    match ph
    case Idle => {}
    case Fetching(_, _, _) => {}
    case Removing(op, _, _) => OpenStable(g, h, actor, op);
    case Rooting(op, at, ids, fileVersion) => BundleStable(g, h, actor, op, at, ids, fileVersion);
    case Bundling(_, _, _, _, _, _, _) => BundlingStable(cfg, g, h, actor, ph);
    case Bumping(_, o) => OutcomeStable(g.commits, h.commits, g.batches, h.batches, g.nextOp, h.nextOp, actor, o);
    case Decoding(path, _, _, e, at, i, acc) => ReaderStable(g, h, actor, path, e, at, i, acc);
    case Fixing(path, _, _, e, at, i, acc, _) => ReaderStable(g, h, actor, path, e, at, i, acc);
    case _ => JobPhaseStable(cfg, g, h, actor, ph);
  }

  lemma BundlingStable(cfg: Config, g: Shared, h: Shared, actor: Option<nat>, ph: Phase)
    requires cfg.codec.Sized() && Grows(g, h, actor) && PhaseInv(cfg, g, ph) && ph.Bundling? && OpOf(ph) != actor
    ensures PhaseInv(cfg, h, ph)
  {
    hide BundleOk, BundleAll, FileChunks, MemoryGrows, CommitsGrow, BatchesGrow, OutcomesGrow;
    assert BundleOk(g, ph.op, ph.at, ph.ids, ph.fileVersion);
    BundleStable(g, h, actor, ph.op, ph.at, ph.ids, ph.fileVersion);
  }

  lemma JobPhaseStable(cfg: Config, g: Shared, h: Shared, actor: Option<nat>, ph: Phase)
    requires cfg.codec.Sized() && Grows(g, h, actor) && PhaseInv(cfg, g, ph) && OpOf(ph) != actor
    requires ph.Checking? || ph.Versioning? || ph.Allocating? || ph.Reversioning? || ph.Correcting? || ph.Committing?
    ensures PhaseInv(cfg, h, ph)
  {
    hide JobOk, NoneCorrected, IdsOk, AllIn, FileChunks, MemoryGrows, CommitsGrow, BatchesGrow, OutcomesGrow;
    JobStable(cfg, g, h, actor, ph.job);
    if !ph.Committing? {
      NoneCorrectedStable(Mem(g), Mem(h), actor, ph.job.op);
    }
    if !ph.Checking? && !ph.Versioning? {
      IdsStable(Mem(g), Mem(h), actor, ph.job, ph.ids);
    }
  }

  // ---------------------------------------------------------------- steps that change little

  /** The step keeps everything it should, and works on for the same operation, a new one, or none. */
  ghost predicate Kept(cfg: Config, g: Shared, actor: Option<nat>, next: (Shared, Phase))
    requires cfg.codec.Sized()
  {
    && SharedInv(cfg, next.0) && PhaseInv(cfg, next.0, next.1) && Grows(g, next.0, actor)
    && var op := OpOf(next.1);
       op.None? || op == actor || g.nextOp <= op.value < next.0.nextOp
  }

  lemma GrowsSelf(g: Shared, actor: Option<nat>)
    ensures Grows(g, g, actor)
  {
  }

  lemma SameShared(cfg: Config, g: Shared, actor: Option<nat>, ph: Phase)
    requires cfg.codec.Sized() && SharedInv(cfg, g) && PhaseInv(cfg, g, ph)
    requires OpOf(ph).None? || OpOf(ph) == actor
    ensures Kept(cfg, g, actor, (g, ph))
  {
    hide SharedInv, PhaseInv, Grows;
    GrowsSelf(g, actor);
  }

  lemma HigherOp(g: Shared, n: nat)
    requires g.nextOp <= n
    ensures SourcesOk(g.source, g.nextId, g.nextOp) ==> SourcesOk(g.source, g.nextId, n)
    ensures CommitsReady(Mem(g), g.commits, g.nextOp) ==> CommitsReady(Mem(g), g.commits, n)
    ensures OutcomesOk(g.commits, g.batches, g.nextOp, g.outcomes) ==> OutcomesOk(g.commits, g.batches, n, g.outcomes)
  {
    hide EntryReady, Uncommitted, View;
  }

  lemma OneMoreOutcome(commits: seq<Commit>, batches: seq<nat>, nextOp: nat, outcomes: seq<Outcome>, o: Outcome)
    requires OutcomesOk(commits, batches, nextOp, outcomes) && OutcomeOk(commits, batches, nextOp, o)
    ensures OutcomesOk(commits, batches, nextOp, outcomes + [o])
  {
    hide OutcomeOk;
  }

  /** Adding an outcome that is true, and perhaps drawing operation numbers. */
  lemma OutcomeAdded(cfg: Config, g: Shared, h: Shared, actor: Option<nat>, o: Outcome)
    requires cfg.codec.Sized() && SharedInv(cfg, g) && g.nextOp <= h.nextOp
    requires h == g.(outcomes := g.outcomes + [o], nextOp := h.nextOp, globalVersion := h.globalVersion)
    requires OutcomeOk(g.commits, g.batches, h.nextOp, o)
    requires (o.WriteFailed? || o.RemoveFailed?) ==> Some(o.op) == actor
    ensures SharedInv(cfg, h) && Grows(g, h, actor)
  {
    hide SourcesOk, MemoryOk, CommitsReady, Chain, ManifestOk, RootOk, OutcomesOk, OutcomeOk, Counted;
    HigherOp(g, h.nextOp);
    OneMoreOutcome(g.commits, g.batches, h.nextOp, g.outcomes, o);
    assert Mem(h) == Mem(g);
  }

  lemma FailKept(cfg: Config, g: Shared, job: Job, error: FsError)
    requires cfg.codec.Sized() && SharedInv(cfg, g) && JobOk(cfg, g, job)
    ensures Kept(cfg, g, Some(job.op), Fail(g, job, error))
  {
    hide SharedInv, Grows;
    OutcomeAdded(cfg, g, Fail(g, job, error).0, Some(job.op), WriteFailed(job.op, error));
  }

  lemma CheckKept(cfg: Config, g: Shared, job: Job)
    requires cfg.codec.Sized() && SharedInv(cfg, g) && PhaseInv(cfg, g, Checking(job))
    ensures Kept(cfg, g, Some(job.op), CheckEntry(g, job))
  {
    hide SharedInv, Grows, JobOk, NoneCorrected, Lookup;
    match (Lookup(g.manifest, job.path), job.expected)
    case (Some(e), Some(v)) =>
      if e.version != v {
        FailKept(cfg, g, job, VersionMismatch(Mismatch(v, e.version)));
      } else {
        CheckedJob(cfg, g, job, Some(v));
        SameShared(cfg, g, Some(job.op), Versioning(job.(existing := Some(v))));
      }
    case (Some(_), None) => FailKept(cfg, g, job, FileExists);
    case (None, Some(_)) => FailKept(cfg, g, job, FileNotFound);
    case (None, None) =>
      CheckedJob(cfg, g, job, None);
      SameShared(cfg, g, Some(job.op), Versioning(job.(existing := None)));
  }

  lemma CheckedJob(cfg: Config, g: Shared, job: Job, existing: Option<nat>)
    requires JobOk(cfg, g, job)
    ensures JobOk(cfg, g, job.(existing := existing))
  {
    hide View, Open;
  }

  lemma BumpKept(cfg: Config, g: Shared, op: nat, o: Outcome)
    requires cfg.codec.Sized() && SharedInv(cfg, g) && PhaseInv(cfg, g, Bumping(op, o))
    ensures Kept(cfg, g, Some(op), (g.(globalVersion := g.globalVersion + 1, outcomes := g.outcomes + [o]), Idle))
  {
    hide SharedInv, Grows, OutcomeOk;
    OutcomeAdded(cfg, g, g.(globalVersion := g.globalVersion + 1, outcomes := g.outcomes + [o]), Some(op), o);
  }

  // ---------------------------------------------------------------- allocation and insertion

  lemma AllocateKept(cfg: Config, g: Shared, job: Job, v: nat, ids: seq<nat>)
    requires cfg.codec.Sized() && SharedInv(cfg, g) && PhaseInv(cfg, g, Allocating(job, v, ids))
    requires |ids| < |FileChunks(job.data)|
    ensures Kept(cfg, g, Some(job.op), AllocateId(g, job, v, ids))
  {
    hide SharedInv, PhaseInv, Grows, FileChunks;
    AllocatePhase(cfg, g, job, v, ids);
    AllocateShared(cfg, g, job, v, ids);
  }

  lemma AllocateShared(cfg: Config, g: Shared, job: Job, v: nat, ids: seq<nat>)
    requires cfg.codec.Sized() && SharedInv(cfg, g) && job.op < g.nextOp && |ids| < |FileChunks(job.data)|
    ensures SharedInv(cfg, AllocateId(g, job, v, ids).0) && Grows(g, AllocateId(g, job, v, ids).0, Some(job.op))
  {
    var h := AllocateId(g, job, v, ids).0;
    hide FileChunks, CommitsReady, Chain, ManifestOk, RootOk, OutcomesOk, MemoryOk, MemoryGrows, Counted;
    assert g.nextId !in g.source;
    FreshId(cfg, Mem(g), g.nextId, h.source[g.nextId]);
    CommitsStillReady(Mem(g), Mem(h), Some(job.op), g.commits, g.nextOp);
  }

  lemma AllocatePhase(cfg: Config, g: Shared, job: Job, v: nat, ids: seq<nat>)
    requires cfg.codec.Sized() && SharedInv(cfg, g) && PhaseInv(cfg, g, Allocating(job, v, ids))
    requires |ids| < |FileChunks(job.data)|
    ensures PhaseInv(cfg, AllocateId(g, job, v, ids).0, AllocateId(g, job, v, ids).1) && job.op < g.nextOp
  {
    var h := AllocateId(g, job, v, ids).0;
    hide FileChunks, CommitsReady, Chain, ManifestOk, RootOk, OutcomesOk, View, MemoryOk, MemoryGrows, IdsOk, NoneCorrected, Counted;
    assert g.nextId !in g.source;
    FreshId(cfg, Mem(g), g.nextId, h.source[g.nextId]);
    NewIdOk(g.source, job, ids, g.nextId);
  }

  lemma FreshId(cfg: Config, m: Memory, id: nat, s: Source)
    requires cfg.codec.Sized() && MemoryOk(cfg, m) && id !in m.source
    ensures var n := m.(source := m.source[id := s]);
      && MemoryOk(cfg, n) && MemoryGrows(m, n, Some(s.op)) && (NoneCorrected(m, s.op) ==> NoneCorrected(n, s.op))
  {
    hide StoredChunk, StoredCorrection;
  }

  lemma NewIdOk(source: map<nat, Source>, job: Job, ids: seq<nat>, id: nat)
    requires IdsOk(source, job, ids) && id !in source && (forall i :: i in source ==> i < id)
    requires |ids| < |FileChunks(job.data)|
    ensures IdsOk(source[id := Source(job.path, FileChunks(job.data)[|ids|], job.op)], job, ids + [id])
  {
    hide FileChunks;
  }

  lemma CommitsStillReady(m: Memory, n: Memory, actor: Option<nat>, commits: seq<Commit>, nextOp: nat)
    requires MemoryGrows(m, n, actor) && CommitsReady(m, commits, nextOp)
    ensures CommitsReady(n, commits, nextOp)
  {
    hide EntryReady, MemoryGrows;
    forall i | 0 <= i < |commits| ensures EntryReady(n, commits[i].entry, commits[i].data) {
      ReadyStable(m, n, actor, commits[i].entry, commits[i].data);
    }
  }

  /** Storing the chunks that the identifiers stand for extends the memory as it must be. */
  lemma ChunksInserted(cfg: Config, g: Shared, job: Job, ids: seq<nat>, t: ChunkState)
    requires cfg.codec.Sized() && SharedInv(cfg, g) && IdsOk(g.source, job, ids) && |ids| == |FileChunks(job.data)|
    requires t.chunks == InsertAll(g.chunkStore.chunks, ChunkUpdates(cfg.codec, job, ids))
    ensures var h := g.(chunkStore := t);
      SharedInv(cfg, h) && Grows(g, h, Some(job.op)) && AllIn(ids, t.chunks)
  {
    var updates, h := ChunkUpdates(cfg.codec, job, ids), g.(chunkStore := t);
    hide InsertAll, FileChunks, ChunkReady, Chain, ManifestOk, RootOk, OutcomesOk, StoredChunk, StoredCorrection, ChunkUpdates,
         Counted;
    InsertAllSpec(g.chunkStore.chunks, updates);
    forall k | 0 <= k < |ids| ensures ids[k] in t.chunks { assert updates[k].0 == ids[k]; }
    forall id | id in t.chunks
      ensures id in g.source && t.chunks[id] == StoredChunk(cfg.codec, g.source[id].path, g.source[id].data)
    {
      if !(id in g.chunkStore.chunks && t.chunks[id] == g.chunkStore.chunks[id]) {
        var i :| 0 <= i < |updates| && updates[i] == (id, t.chunks[id]);
        assert ids[i] == id;
      }
    }
    assert MemoryGrows(Mem(g), Mem(h), Some(job.op));
    CommitsStillReady(Mem(g), Mem(h), Some(job.op), g.commits, g.nextOp);
  }

  lemma InsertKept(cfg: Config, g: Shared, job: Job, v: nat, ids: seq<nat>)
    requires cfg.codec.Sized() && SharedInv(cfg, g) && PhaseInv(cfg, g, Allocating(job, v, ids))
    requires |ids| == |FileChunks(job.data)|
    ensures Kept(cfg, g, Some(job.op), InsertChunks(cfg, g, job, v, ids))
  {
    hide SharedInv, Grows, JobOk, IdsOk, AllIn, InsertAll, FileChunks, NoneCorrected;
    var updates := ChunkUpdates(cfg.codec, job, ids);
    if job.expected.Some? && BatchInsert(g.chunkStore, updates, v).Err? {
      FailKept(cfg, g, job, VersionMismatch(BatchInsert(g.chunkStore, updates, v).error));
    } else {
      var t := BatchInsertNew(g.chunkStore, updates);
      ChunksInserted(cfg, g, job, ids, t);
      InsertedJob(cfg, g, g.(chunkStore := t), job);
    }
  }

  /** The acting thread's own obligations do not look at the stores' versions or at new chunks. */
  lemma InsertedJob(cfg: Config, g: Shared, h: Shared, job: Job)
    requires JobOk(cfg, g, job) && h.commits == g.commits && h.outcomes == g.outcomes && h.nextOp == g.nextOp
    ensures JobOk(cfg, h, job)
    ensures g.source == h.source && g.corrStore.corrections == h.corrStore.corrections && NoneCorrected(Mem(g), job.op)
            ==> NoneCorrected(Mem(h), job.op)
  {
    hide View;
  }

  lemma FreshCorrections(cfg: Config, m: Memory, job: Job, ids: seq<nat>)
    requires cfg.codec.Sized() && IdsOk(m.source, job, ids) && NoneCorrected(m, job.op) && |ids| == |FileChunks(job.data)|
    ensures FreshKeys(m.corrections, CorrectionUpdates(cfg.codec, job, ids))
  {
    hide FileChunks, StoredCorrection;
    var updates := CorrectionUpdates(cfg.codec, job, ids);
    forall i | 0 <= i < |updates| ensures updates[i].0 !in m.corrections {
      assert updates[i].0 == ids[i];
    }
  }

  /** Storing the corrections of the chunks that the identifiers stand for. */
  lemma CorrectionOrigins(cfg: Config, g: Shared, job: Job, ids: seq<nat>, t: CorrectionState, id: nat)
    requires cfg.codec.Sized() && MemoryOk(cfg, Mem(g)) && IdsOk(g.source, job, ids) && |ids| == |FileChunks(job.data)|
    requires t.corrections == InsertAll(g.corrStore.corrections, CorrectionUpdates(cfg.codec, job, ids)) && id in t.corrections
    ensures id in g.source && t.corrections[id] == StoredCorrection(cfg.codec, g.source[id].path, g.source[id].data)
    ensures id in g.corrStore.corrections || g.source[id].op == job.op
  {
    var updates := CorrectionUpdates(cfg.codec, job, ids);
    hide InsertAll, FileChunks, ChunkReady, StoredChunk, StoredCorrection, CorrectionUpdates;
    InsertAllSpec(g.corrStore.corrections, updates);
    if !(id in g.corrStore.corrections && t.corrections[id] == g.corrStore.corrections[id]) {
      var i :| 0 <= i < |updates| && updates[i] == (id, t.corrections[id]);
      assert ids[i] == id;
    }
  }

  /** The corrections of the acting operation extend the memory as it must be. */
  lemma MoreCorrections(cfg: Config, g: Shared, job: Job, ids: seq<nat>, t: CorrectionState)
    requires cfg.codec.Sized() && MemoryOk(cfg, Mem(g)) && IdsOk(g.source, job, ids) && |ids| == |FileChunks(job.data)|
    requires t.corrections == InsertAll(g.corrStore.corrections, CorrectionUpdates(cfg.codec, job, ids))
    ensures var n := Mem(g.(corrStore := t));
      MemoryOk(cfg, n) && MemoryGrows(Mem(g), n, Some(job.op)) && AllIn(ids, t.corrections)
  {
    var updates := CorrectionUpdates(cfg.codec, job, ids);
    hide InsertAll, FileChunks, StoredChunk, StoredCorrection, CorrectionUpdates, IdsOk;
    InsertAllSpec(g.corrStore.corrections, updates);
    forall k | 0 <= k < |ids| ensures ids[k] in t.corrections { assert updates[k].0 == ids[k]; }
    forall id | id in t.corrections
      ensures id in g.source && t.corrections[id] == StoredCorrection(cfg.codec, g.source[id].path, g.source[id].data)
      ensures id in g.corrStore.corrections || g.source[id].op == job.op
    {
      CorrectionOrigins(cfg, g, job, ids, t, id);
    }
  }

  lemma CorrectionsInserted(cfg: Config, g: Shared, job: Job, ids: seq<nat>, t: CorrectionState)
    requires cfg.codec.Sized() && SharedInv(cfg, g) && IdsOk(g.source, job, ids) && |ids| == |FileChunks(job.data)|
    requires t.corrections == InsertAll(g.corrStore.corrections, CorrectionUpdates(cfg.codec, job, ids)) && Counted(t)
    ensures var h := g.(corrStore := t);
      SharedInv(cfg, h) && Grows(g, h, Some(job.op)) && AllIn(ids, t.corrections)
  {
    hide MemoryOk, MemoryGrows, InsertAll, FileChunks, Chain, ManifestOk, RootOk, OutcomesOk, CorrectionUpdates, Counted, IdsOk,
         CommitsReady;
    MoreCorrections(cfg, g, job, ids, t);
    CommitsStillReady(Mem(g), Mem(g.(corrStore := t)), Some(job.op), g.commits, g.nextOp);
  }

  lemma CorrectKept(cfg: Config, g: Shared, job: Job, ids: seq<nat>, v: nat)
    requires cfg.codec.Sized() && SharedInv(cfg, g) && PhaseInv(cfg, g, Correcting(job, ids, v))
    ensures Kept(cfg, g, Some(job.op), InsertCorrections(cfg, g, job, ids, v))
  {
    var updates := CorrectionUpdates(cfg.codec, job, ids);
    FreshCorrections(cfg, Mem(g), job, ids);
    assert Counted(g.corrStore);
    CounterExact(g.corrStore, updates, v);
    CorrectCases(cfg, g, job, ids, v);
  }

  lemma CorrectCases(cfg: Config, g: Shared, job: Job, ids: seq<nat>, v: nat)
    requires cfg.codec.Sized() && SharedInv(cfg, g) && PhaseInv(cfg, g, Correcting(job, ids, v))
    requires var updates := CorrectionUpdates(cfg.codec, job, ids);
      && Counted(BatchAdd(g.corrStore, updates))
      && (BatchUpdate(g.corrStore, updates, v).Ok? ==> Counted(BatchUpdate(g.corrStore, updates, v).value))
    ensures Kept(cfg, g, Some(job.op), InsertCorrections(cfg, g, job, ids, v))
  {
    hide SharedInv, Grows, JobOk, IdsOk, AllIn, InsertAll, FileChunks, NoneCorrected, NewKeys, Counted;
    var updates := CorrectionUpdates(cfg.codec, job, ids);
    var checked := BatchUpdate(g.corrStore, updates, v);
    if job.expected.Some? && checked.Err? {
      FailKept(cfg, g, job, VersionMismatch(checked.error));
    } else {
      var t := if job.expected.None? then BatchAdd(g.corrStore, updates) else checked.value;
      CorrectionsInserted(cfg, g, job, ids, t);
      InsertedJob(cfg, g, g.(corrStore := t), job);
    }
  }

  // ---------------------------------------------------------------- commits

  lemma LatestSnoc(commits: seq<Commit>, c: Commit, path: string)
    ensures Latest(commits + [c], path) == if c.path == path then Some(c) else Latest(commits, path)
  {
    assert (commits + [c])[..|commits|] == commits;
  }

  lemma {:induction false} LatestMember(commits: seq<Commit>, path: string)
    ensures Latest(commits, path).Some? ==> Latest(commits, path).value in commits && Latest(commits, path).value.path == path
    decreases |commits|
  {
    if commits != [] {
      LatestMember(commits[..|commits| - 1], path);
    }
  }

  lemma ChainSnoc(cfg: Config, commits: seq<Commit>, c: Commit)
    requires Chain(cfg, commits) && ChainStep(cfg, commits, c) && Uncommitted(commits, c.op)
    ensures Chain(cfg, commits + [c])
  {
    hide ChainStep;
    assert (commits + [c])[..|commits|] == commits;
  }

  /** Versions only go up along a path, so an unchanged version means an unchanged path. */
  lemma {:induction false} SnapshotCurrent(cfg: Config, commits: seq<Commit>, at: nat, path: string)
    requires Chain(cfg, commits) && at <= |commits| && Latest(commits[..at], path).Some?
    ensures var b, c := Latest(commits[..at], path).value, Latest(commits, path);
      c.Some? && c.value.entry.version >= b.entry.version && (c.value.entry.version == b.entry.version ==> c.value == b)
    decreases |commits|
  {
    var n := |commits| - 1;
    if at == |commits| {
      assert commits[..at] == commits;
    } else {
      assert commits[..n][..at] == commits[..at];
      SnapshotCurrent(cfg, commits[..n], at, path);
    }
  }

  lemma {:induction false} RootOfPrefix(codec: Codec, a: seq<Commit>, b: seq<Commit>, batches: seq<nat>)
    requires a <= b && forall i :: 0 <= i < |batches| ==> batches[i] < |a|
    ensures RootOf(codec, a, batches) == RootOf(codec, b, batches)
    decreases |batches|
  {
    hide BundleAll, FileChunks;
    if batches != [] {
      var n := |batches| - 1;
      RootOfPrefix(codec, a, b, batches[..n]);
      assert a[batches[n]] == b[batches[n]];
    }
  }

  lemma RootStable(cfg: Config, a: seq<Commit>, b: seq<Commit>, batches: seq<nat>, root: SparseVec, v: nat)
    requires RootOk(cfg, a, batches, root, v) && a <= b
    ensures RootOk(cfg, b, batches, root, v)
  {
    hide RootOf;
    RootOfPrefix(cfg.codec, a, b, batches);
    forall i | 0 <= i < |batches| ensures batches[i] < |b| && !b[batches[i]].entry.deleted {
      assert a[batches[i]] == b[batches[i]];
    }
  }

  lemma OutcomesStable(a: seq<Commit>, b: seq<Commit>, batches: seq<nat>, nextOp: nat, outcomes: seq<Outcome>, op: nat)
    requires CommitsGrow(a, b, Some(op)) && OutcomesOk(a, batches, nextOp, outcomes) && NotFailed(outcomes, op)
    ensures OutcomesOk(b, batches, nextOp, outcomes)
  {
    hide OutcomeOk, CommitsGrow;
    forall i | 0 <= i < |outcomes| ensures OutcomeOk(b, batches, nextOp, outcomes[i]) {
      assert !Failed(outcomes[i], op);
      OutcomeStable(a, b, batches, batches, nextOp, nextOp, Some(op), outcomes[i]);
    }
  }

  lemma ManifestInstalled(m: Manifest.State, n: Manifest.State, commits: seq<Commit>, c: Commit)
    requires ManifestOk(m, commits) && Sets(m, n, c.path, c.entry)
    ensures ManifestOk(n, commits + [c])
  {
    hide Lookup, Valid, Latest;
    forall p ensures Lookup(n, p) == EntryOf(Latest(commits + [c], p)) {
      LatestSnoc(commits, c, p);
    }
  }

  lemma OneMoreCommit(m: Memory, commits: seq<Commit>, nextOp: nat, c: Commit)
    requires CommitsReady(m, commits, nextOp) && c.entry.path == c.path && c.op < nextOp && EntryReady(m, c.entry, c.data)
    ensures CommitsReady(m, commits + [c], nextOp)
  {
    hide EntryReady;
  }

  lemma Installed(cfg: Config, g: Shared, m: Manifest.State, c: Commit)
    requires cfg.codec.Sized() && SharedInv(cfg, g) && Open(g, c.op) && ChainStep(cfg, g.commits, c)
    requires c.entry.path == c.path && EntryReady(Mem(g), c.entry, c.data) && Sets(g.manifest, m, c.path, c.entry)
    ensures SharedInv(cfg, Install(g, m, c)) && Grows(g, Install(g, m, c), Some(c.op))
  {
    var h := Install(g, m, c);
    hide SourcesOk, MemoryOk, CommitsReady, Chain, ManifestOk, RootOk, OutcomesOk, Counted, EntryReady, ChainStep, Sets;
    assert Mem(h) == Mem(g);
    OneMoreCommit(Mem(g), g.commits, g.nextOp, c);
    ChainSnoc(cfg, g.commits, c);
    ManifestInstalled(g.manifest, m, g.commits, c);
    RootStable(cfg, g.commits, h.commits, g.batches, g.root, g.rootVersion);
    OutcomesStable(g.commits, h.commits, g.batches, g.nextOp, g.outcomes, c.op);
  }

  /** A freshly committed entry has not been bundled. */
  lemma NewBundle(cfg: Config, g: Shared, h: Shared, c: Commit, ids: seq<nat>)
    requires RootOk(cfg, g.commits, g.batches, g.root, g.rootVersion) && h.commits == g.commits + [c] && h.batches == g.batches
    requires c.entry.chunks == ids && !c.entry.deleted
    ensures BundleOk(h, c.op, |g.commits|, ids, c.entry.version)
  {
    hide RootOf;
  }

  lemma NewEntryReady(m: Memory, job: Job, ids: seq<nat>, version: nat)
    requires IdsOk(m.source, job, ids) && |ids| == |FileChunks(job.data)| && AllIn(ids, m.chunks) && AllIn(ids, m.corrections)
    ensures EntryReady(m, NewEntry(job.path, |job.data|, ids).(version := version), job.data)
  {
    hide FileChunks;
  }

  /** A write that was computed from a snapshot replaces exactly that snapshot. */
  lemma WriteFollows(cfg: Config, g: Shared, job: Job, c: Commit)
    requires Chain(cfg, g.commits) && JobOk(cfg, g, job)
    requires c.path == job.path && c.data == job.data && c.expected == job.expected && c.origin == job.origin && !c.entry.deleted
    requires match job.expected
      case None => Latest(g.commits, job.path).None? && c.entry.version == 0
      case Some(v) =>
        && Latest(g.commits, job.path).Some? && Latest(g.commits, job.path).value.entry.version == v && c.entry.version == v + 1
    ensures ChainStep(cfg, g.commits, c)
  {
    hide Latest, Chain;
    if job.origin.Some? {
      SnapshotCurrent(cfg, g.commits, job.origin.value, job.path);
    }
  }

  lemma ReadyToCommit(cfg: Config, g: Shared, job: Job, ids: seq<nat>)
    requires cfg.codec.Sized() && SharedInv(cfg, g) && PhaseInv(cfg, g, Committing(job, ids))
    ensures Valid(g.manifest) && job.existing == job.expected && JobOk(cfg, g, job)
  {
    hide MemoryOk, CommitsReady, Chain, RootOk, OutcomesOk, Valid, JobOk, IdsOk, AllIn;
  }

  lemma CommitKept(cfg: Config, g: Shared, job: Job, ids: seq<nat>)
    requires cfg.codec.Sized() && SharedInv(cfg, g) && PhaseInv(cfg, g, Committing(job, ids))
    ensures Kept(cfg, g, Some(job.op), CommitEntry(g, job, ids))
  {
    hide SharedInv, PhaseInv, JobOk, Kept, Valid, AddFile, Manifest.UpdateFile, Sets, Lookup;
    ReadyToCommit(cfg, g, job, ids);
    var e := NewEntry(job.path, |job.data|, ids);
    match job.existing
    case None =>
      AddFileSpec(g.manifest, e);
      var r := AddFile(g.manifest, e);
      if r.Ok? {
        InstallKept(cfg, g, job, ids, r.value, Commit(job.path, e, job.data, job.expected, job.op, job.origin));
      } else {
        FailKept(cfg, g, job, VersionMismatch(r.error));
      }
    case Some(v) =>
      UpdateFileSpec(g.manifest, job.path, e, v);
      var r := Manifest.UpdateFile(g.manifest, job.path, e, v);
      if r.Ok? {
        InstallKept(cfg, g, job, ids, r.value, Commit(job.path, e.(version := v + 1), job.data, job.expected, job.op, job.origin));
      } else {
        FailKept(cfg, g, job, VersionMismatch(r.error));
      }
  }

  lemma InstallKept(cfg: Config, g: Shared, job: Job, ids: seq<nat>, m: Manifest.State, c: Commit)
    requires cfg.codec.Sized() && SharedInv(cfg, g) && PhaseInv(cfg, g, Committing(job, ids))
    requires c == Commit(job.path, NewEntry(job.path, |job.data|, ids).(version := c.entry.version), job.data, job.expected,
                         job.op, job.origin)
    requires Sets(g.manifest, m, job.path, c.entry)
    requires match job.expected
      case None => Lookup(g.manifest, job.path).None? && c.entry.version == 0
      case Some(v) =>
        && Lookup(g.manifest, job.path).Some? && Lookup(g.manifest, job.path).value.version == v && c.entry.version == v + 1
    ensures Kept(cfg, g, Some(job.op), (Install(g, m, c), Rooting(job.op, |g.commits|, ids, c.entry.version)))
  {
    hide Lookup, Sets, Chain, RootOk, EntryReady, IdsOk, AllIn, JobOk, ChainStep, CommitsReady, OutcomesOk, MemoryOk, Grows,
         Latest, FileChunks, BundleOk;
    assert Lookup(g.manifest, job.path) == EntryOf(Latest(g.commits, job.path));
    WriteFollows(cfg, g, job, c);
    NewEntryReady(Mem(g), job, ids, c.entry.version);
    JobIsOpen(cfg, g, job);
    Installed(cfg, g, m, c);
    NewBundle(cfg, g, Install(g, m, c), c, ids);
  }

  lemma JobIsOpen(cfg: Config, g: Shared, job: Job)
    requires JobOk(cfg, g, job)
    ensures Open(g, job.op)
  {
  }

  lemma RemoveKept(cfg: Config, g: Shared, ph: Phase)
    requires cfg.codec.Sized() && SharedInv(cfg, g) && PhaseInv(cfg, g, ph) && ph.Removing?
    ensures Kept(cfg, g, Some(ph.op), RemoveStep(g, ph))
  {
    hide Lookup, Sets, Chain, RootOk, EntryReady, ChainStep, CommitsReady, OutcomesOk, MemoryOk, Grows, Latest, Open;
    RemoveFileSpec(g.manifest, ph.path, ph.expected);
    var r := RemoveFile(g.manifest, ph.path, ph.expected);
    if r.Err? {
      RefusedRemoval(cfg, g, ph.op, VersionMismatch(r.error));
    } else {
      var prior := Latest(g.commits, ph.path).value;
      assert Lookup(g.manifest, ph.path) == EntryOf(Latest(g.commits, ph.path));
      var c := Commit(ph.path, prior.entry.(deleted := true, version := ph.expected + 1), prior.data, Some(ph.expected), ph.op, None);
      SetsLookup(g.manifest, r.value, ph.path, c.entry);
      RemovalFollows(cfg, g, prior, c);
      Installed(cfg, g, r.value, c);
      RemovedOk(g.commits, g.batches, g.nextOp, c);
    }
  }

  lemma SetsLookup(m: Manifest.State, n: Manifest.State, path: string, e: Entry)
    requires Sets(m, n, path, e)
    ensures Lookup(n, path) == Some(e)
  {
    hide Lookup;
  }

  lemma RefusedRemoval(cfg: Config, g: Shared, op: nat, error: FsError)
    requires cfg.codec.Sized() && SharedInv(cfg, g) && Open(g, op)
    ensures Kept(cfg, g, Some(op), (g.(outcomes := g.outcomes + [RemoveFailed(op, error)]), Idle))
  {
    hide SharedInv, Grows;
    OutcomeAdded(cfg, g, g.(outcomes := g.outcomes + [RemoveFailed(op, error)]), Some(op), RemoveFailed(op, error));
  }

  lemma RemovalFollows(cfg: Config, g: Shared, prior: Commit, c: Commit)
    requires CommitsReady(Mem(g), g.commits, g.nextOp) && Latest(g.commits, c.path) == Some(prior)
    requires c == Commit(c.path, prior.entry.(deleted := true, version := prior.entry.version + 1), prior.data,
                         Some(prior.entry.version), c.op, None)
    ensures ChainStep(cfg, g.commits, c) && c.entry.path == c.path && EntryReady(Mem(g), c.entry, c.data)
  {
    hide Latest;
    LatestMember(g.commits, c.path);
  }

  lemma RemovedOk(commits: seq<Commit>, batches: seq<nat>, nextOp: nat, c: Commit)
    requires c.entry.deleted
    ensures OutcomeOk(commits + [c], batches, nextOp, Removed(c.op, |commits|))
  {
  }

  // ---------------------------------------------------------------- the root

  /** The chunk under the `i`th identifier of a commit is the encoding of the commit's `i`th chunk. */
  lemma StoredVector(cfg: Config, g: Shared, at: nat, i: nat)
    requires cfg.codec.Sized() && MemoryOk(cfg, Mem(g)) && CommitsReady(Mem(g), g.commits, g.nextOp)
    requires at < |g.commits| && i < |g.commits[at].entry.chunks|
    ensures var c, id := g.commits[at], g.commits[at].entry.chunks[i];
      && |c.entry.chunks| == |FileChunks(c.data)| && id in g.chunkStore.chunks
      && g.chunkStore.chunks[id].vector == cfg.codec.encode(FileChunks(c.data)[i], c.path)
  {
    hide FileChunks;
    var c := g.commits[at];
    assert ChunkReady(Mem(g), c.entry.chunks[i], c.entry.path, FileChunks(c.data)[i]);
  }

  lemma BundleSnoc(codec: Codec, path: string, root: SparseVec, chunks: seq<bytes>, i: nat)
    requires i < |chunks|
    ensures BundleAll(codec, path, root, chunks[..i + 1])
         == codec.bundle(BundleAll(codec, path, root, chunks[..i]), codec.encode(chunks[i], path))
  {
    assert chunks[..i + 1][..i] == chunks[..i];
  }

  lemma BundleTurnKept(cfg: Config, g: Shared, ph: Phase)
    requires cfg.codec.Sized() && SharedInv(cfg, g) && PhaseInv(cfg, g, ph) && ph.Bundling? && ph.i < |ph.ids|
    ensures Kept(cfg, g, Some(ph.op), BundleStep(cfg, g, ph))
  {
    hide BundleAll, FileChunks, Chain, ManifestOk, RootOk, OutcomesOk, Grows, Counted, EntryReady, ChunkReady, SourcesOk;
    StoredVector(cfg, g, ph.at, ph.i);
    BundleSnoc(cfg.codec, g.commits[ph.at].path, g.root, FileChunks(g.commits[ph.at].data), ph.i);
    SameShared(cfg, g, Some(ph.op), BundleStep(cfg, g, ph).1);
  }

  lemma RootSnoc(cfg: Config, commits: seq<Commit>, batches: seq<nat>, root: SparseVec, v: nat, at: nat, newRoot: SparseVec)
    requires RootOk(cfg, commits, batches, root, v) && at < |commits| && at !in batches && !commits[at].entry.deleted
    requires newRoot == BundleAll(cfg.codec, commits[at].path, root, FileChunks(commits[at].data))
    ensures RootOk(cfg, commits, batches + [at], newRoot, v + 1)
  {
    hide BundleAll, FileChunks;
    assert (batches + [at])[..|batches|] == batches;
  }

  lemma MoreBatches(commits: seq<Commit>, batches: seq<nat>, at: nat, nextOp: nat, outcomes: seq<Outcome>)
    requires OutcomesOk(commits, batches, nextOp, outcomes)
    ensures OutcomesOk(commits, batches + [at], nextOp, outcomes)
  {
    hide View, Uncommitted;
  }

  /** The compare-and-swap: it succeeds exactly on the root the thread started from. */
  lemma SwapKept(cfg: Config, g: Shared, ph: Phase)
    requires cfg.codec.Sized() && SharedInv(cfg, g) && PhaseInv(cfg, g, ph) && ph.Bundling? && ph.i == |ph.ids|
    ensures Kept(cfg, g, Some(ph.op), BundleStep(cfg, g, ph))
  {
    hide BundleAll, FileChunks, Chain, ManifestOk, RootOk, OutcomesOk, Counted, CommitsReady, SourcesOk, MemoryOk, MemoryGrows;
    if g.rootVersion == ph.rootVersion {
      var h := BundleStep(cfg, g, ph).0;
      assert FileChunks(g.commits[ph.at].data)[..ph.i] == FileChunks(g.commits[ph.at].data);
      RootSnoc(cfg, g.commits, g.batches, g.root, g.rootVersion, ph.at, ph.newRoot);
      MoreBatches(g.commits, g.batches, ph.at, g.nextOp, g.outcomes);
      SameMemory(Mem(g), Some(ph.op));
      assert h.batches[|g.batches|] == ph.at;
    } else {
      SameShared(cfg, g, Some(ph.op), Rooting(ph.op, ph.at, ph.ids, ph.fileVersion));
    }
  }

  lemma SameMemory(m: Memory, actor: Option<nat>)
    ensures MemoryGrows(m, m, actor)
  {
  }

  lemma RootingKept(cfg: Config, g: Shared, ph: Phase)
    requires cfg.codec.Sized() && SharedInv(cfg, g) && PhaseInv(cfg, g, ph) && ph.Rooting?
    ensures Kept(cfg, g, Some(ph.op), (g, Bundling(ph.op, ph.at, ph.ids, ph.fileVersion, g.rootVersion, g.root, 0)))
  {
    hide FileChunks, Chain, ManifestOk, RootOk, OutcomesOk, Grows, Counted, ChunkReady, SourcesOk, MemoryOk;
    assert g.commits[ph.at] in g.commits;
    assert FileChunks(g.commits[ph.at].data)[..0] == [];
    SameShared(cfg, g, Some(ph.op), Bundling(ph.op, ph.at, ph.ids, ph.fileVersion, g.rootVersion, g.root, 0));
  }

  // ---------------------------------------------------------------- readers

  /** Applied to the longer decoding that readers ask for, the stored correction restores the chunk as a prefix. */
  lemma CorrectedChunk(cfg: Config, path: string, data: bytes)
    requires Lawful(cfg) && |data| <= DEFAULT_CHUNK_SIZE
    ensures var corrected := Apply(StoredCorrection(cfg.codec, path, data),
                                   cfg.codec.decode(cfg.codec.encode(data, path), path, DEFAULT_CHUNK_SIZE));
      data <= corrected && (|data| == DEFAULT_CHUNK_SIZE ==> corrected == data)
  {
    var v := cfg.codec.encode(data, path);
    var approx, longer := cfg.codec.decode(v, path, |data|), cfg.codec.decode(v, path, DEFAULT_CHUNK_SIZE);
    assert longer[..|data|] == approx;
    CorrectedPrefix(data, approx, longer);
  }

  /** One more chunk, padded or not, is gathered. */
  lemma GatherStep(data: bytes, i: nat, acc: bytes, corrected: bytes)
    requires i < |FileChunks(data)| && Gathered(data, i, acc) && FileChunks(data)[i] <= corrected
    requires |FileChunks(data)[i]| == DEFAULT_CHUNK_SIZE ==> corrected == FileChunks(data)[i]
    ensures Gathered(data, i + 1, acc + corrected)
  {
    var c := DEFAULT_CHUNK_SIZE;
    ChunkAt(data, c, i);
    ChunkCount(data, c);
    var from, end := c * i, Min(c * i + c, |data|);
    assert data[..from] + data[from..end] == data[..end];
    if i + 1 < |FileChunks(data)| {
      assert c * (i + 1) == c * i + c;
      assert acc + corrected == data[..end];
    } else {
      assert data[..end] == data;
    }
  }

  lemma GatherStart(data: bytes)
    ensures Gathered(data, 0, [])
  {
    ChunksSpec(data, DEFAULT_CHUNK_SIZE);
    assert data[..DEFAULT_CHUNK_SIZE * 0] == [];
  }

  lemma ChunkSizes(data: bytes, i: nat)
    requires i < |FileChunks(data)|
    ensures |FileChunks(data)[i]| <= DEFAULT_CHUNK_SIZE
  {
    ChunkAt(data, DEFAULT_CHUNK_SIZE, i);
  }

  lemma FetchKept(cfg: Config, g: Shared, path: string, again: bool, since: nat)
    requires cfg.codec.Sized() && SharedInv(cfg, g) && since <= |g.commits|
    ensures Kept(cfg, g, None, FetchEntry(g, path, again, since))
  {
    hide Lookup, Chain, RootOk, EntryReady, OutcomesOk, MemoryOk, Grows, Latest, SourcesOk, Counted, Gathered;
    assert Lookup(g.manifest, path) == EntryOf(Latest(g.commits, path));
    assert g.commits[..|g.commits|] == g.commits;
    if Lookup(g.manifest, path).None? || Lookup(g.manifest, path).value.deleted {
      OutcomeAdded(cfg, g, FetchEntry(g, path, again, since).0, None, ReadFailed(path, FileNotFound, since, |g.commits|));
    } else {
      var c := Latest(g.commits, path).value;
      LatestMember(g.commits, path);
      GatherStart(c.data);
      SameShared(cfg, g, None, Decoding(path, again, since, c.entry, |g.commits|, 0, []));
    }
  }

  lemma Decoded(cfg: Config, g: Shared, ph: Phase)
    requires cfg.codec.Sized() && SharedInv(cfg, g) && PhaseInv(cfg, g, ph) && ph.Decoding? && ph.i < |ph.entry.chunks|
    ensures DecodeStep(cfg, g, ph).0 == g && PhaseInv(cfg, g, DecodeStep(cfg, g, ph).1) && OpOf(DecodeStep(cfg, g, ph).1).None?
  {
    hide Chain, ManifestOk, RootOk, OutcomesOk, CommitsReady, MemoryOk, ChunkReady, View, SourcesOk, Counted, Gathered, FileChunks;
    var data := View(g.commits[..ph.at], ph.path).value.0;
    VectorStored(cfg, Mem(g), ph.entry.chunks[ph.i], ph.entry.path, FileChunks(data)[ph.i]);
  }

  lemma VectorStored(cfg: Config, m: Memory, id: nat, path: string, data: bytes)
    requires cfg.codec.Sized() && MemoryOk(cfg, m) && ChunkReady(m, id, path, data)
    ensures id in m.source && id in m.chunks && m.chunks[id].vector == m.source[id].Encoded(cfg.codec)
  {
    hide StoredCorrection;
  }

  lemma DecodeKept(cfg: Config, g: Shared, ph: Phase)
    requires cfg.codec.Sized() && SharedInv(cfg, g) && PhaseInv(cfg, g, ph) && ph.Decoding? && ph.i < |ph.entry.chunks|
    ensures Kept(cfg, g, None, DecodeStep(cfg, g, ph))
  {
    hide *;
    Decoded(cfg, g, ph);
    SameShared(cfg, g, None, DecodeStep(cfg, g, ph).1);
  }

  lemma FixKept(cfg: Config, g: Shared, ph: Phase)
    requires Lawful(cfg) && SharedInv(cfg, g) && PhaseInv(cfg, g, ph) && ph.Fixing?
    ensures Kept(cfg, g, None, FixStep(g, ph))
  {
    hide Chain, ManifestOk, RootOk, OutcomesOk, CommitsReady, Grows, View, SourcesOk, Counted, Gathered, FileChunks,
         StoredChunk, StoredCorrection;
    var data := View(g.commits[..ph.at], ph.path).value.0;
    var id, chunk := ph.entry.chunks[ph.i], FileChunks(data)[ph.i];
    assert ChunkReady(Mem(g), id, ph.entry.path, chunk);
    ChunkSizes(data, ph.i);
    CorrectedChunk(cfg, ph.path, chunk);
    GatherStep(data, ph.i, ph.acc, Apply(g.corrStore.corrections[id], ph.decoded));
    SameShared(cfg, g, None, FixStep(g, ph).1);
  }

  lemma FinishKept(cfg: Config, g: Shared, ph: Phase)
    requires cfg.codec.Sized() && SharedInv(cfg, g) && PhaseInv(cfg, g, ph) && ph.Decoding? && ph.i == |ph.entry.chunks|
    ensures Kept(cfg, g, None, DecodeStep(cfg, g, ph))
  {
    hide SharedInv, Grows, View, FileChunks, ChunkReady;
    var data := View(g.commits[..ph.at], ph.path).value.0;
    assert Truncate(ph.acc, ph.entry.size) == data;
    var h := DecodeStep(cfg, g, ph).0;
    OutcomeAdded(cfg, g, h, None, Got(ph.path, data, ph.entry.version, ph.since, ph.at));
    if ph.again {
      NewOperation(cfg, g, h);
    }
  }

  /** A number that has never been drawn is open. */
  lemma NewOperation(cfg: Config, g: Shared, h: Shared)
    requires cfg.codec.Sized() && SharedInv(cfg, g) && h.nextOp == g.nextOp + 1 && h.commits == g.commits && Mem(h) == Mem(g)
    requires h.outcomes == g.outcomes || (exists o: Outcome :: h.outcomes == g.outcomes + [o] && o.Got?)
    ensures Open(h, g.nextOp) && NoneCorrected(Mem(h), g.nextOp)
  {
    hide EntryReady, View, Chain, ManifestOk, RootOk, MemoryOk;
  }

  lemma StartKept(cfg: Config, g: Shared, request: Request)
    requires cfg.codec.Sized() && SharedInv(cfg, g)
    ensures Kept(cfg, g, None, Start(g, request))
  {
    hide SourcesOk, MemoryOk, CommitsReady, Chain, ManifestOk, RootOk, OutcomesOk, Counted, Open, NoneCorrected;
    var h := Start(g, request).0;
    HigherOp(g, h.nextOp);
    assert Mem(h) == Mem(g);
    SameMemory(Mem(g), None);
    if request.WriteFile? || request.DeleteFile? {
      NewOperation(cfg, g, h);
    }
  }
}
