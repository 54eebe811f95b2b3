/** What the invariant means for clients of the concurrent store. */
module ProtocolTheorems {
  import opened Bytes
  import opened Correction
  import opened Manifest
  import opened Stores
  import opened Protocol
  import opened ProtocolInvariant
  import opened ProtocolSteps
  import opened ProtocolRuns

  ghost function SharedAfter(cfg: Config, labels: seq<Label>): Shared
    requires cfg.codec.Sized()
  {
    Run(cfg, labels).shared
  }

  lemma LawfulSized(cfg: Config)
    requires Lawful(cfg)
    ensures cfg.codec.Sized()
  {
  }

  lemma AfterInv(cfg: Config, labels: seq<Label>)
    requires Lawful(cfg)
    ensures SharedInv(cfg, SharedAfter(cfg, labels)) && WorldInv(cfg, Run(cfg, labels))
  {
    hide SharedInv, Run;
    RunInv(cfg, labels);
  }

  // ---------------------------------------------------------------- reads

  /**
   * Every finished read is a snapshot: it returns exactly what the path held when its entry was fetched, however
   * the file was overwritten or deleted since. No read ever misses a chunk.
   */
  lemma SnapshotReads(cfg: Config, labels: seq<Label>, i: nat)
    requires Lawful(cfg) && i < |SharedAfter(cfg, labels).outcomes|
    ensures var g := SharedAfter(cfg, labels);
      match g.outcomes[i]
      case Got(path, data, version, since, at) =>
        since <= at <= |g.commits| && View(g.commits[..at], path) == Some((data, version))
      case ReadFailed(path, error, since, at) =>
        since <= at <= |g.commits| && View(g.commits[..at], path) == None && error == FileNotFound
      case _ => true
  {
    hide View, MemoryOk, CommitsReady, Chain, ManifestOk, RootOk, Run;
    AfterInv(cfg, labels);
    assert OutcomeOk(SharedAfter(cfg, labels).commits, SharedAfter(cfg, labels).batches, SharedAfter(cfg, labels).nextOp,
                     SharedAfter(cfg, labels).outcomes[i]);
  }

  lemma {:induction false} ReadChunksExact(cfg: Config, g: Shared, e: Entry, data: bytes, i: nat, acc: bytes)
    requires Lawful(cfg) && MemoryOk(cfg, Mem(g)) && EntryReady(Mem(g), e, data) && i <= |e.chunks| && Gathered(data, i, acc)
    ensures ReadChunks(cfg, g, e, i, acc) == Ok(data)
    decreases |e.chunks| - i
  {
    hide FileChunks, StoredChunk, StoredCorrection;
    if i < |e.chunks| {
      var id, chunk := e.chunks[i], FileChunks(data)[i];
      assert ChunkReady(Mem(g), id, e.path, chunk);
      ReadChunkExact(cfg, g, e.path, id, chunk);
      ChunkSizes(data, i);
      CorrectedChunk(cfg, e.path, chunk);
      GatherStep(data, i, acc, ReadChunk(cfg, g, e.path, id));
      ReadChunksExact(cfg, g, e, data, i + 1, acc + ReadChunk(cfg, g, e.path, id));
    } else {
      assert Truncate(acc, e.size) == data;
    }
  }

  lemma ReadChunkExact(cfg: Config, g: Shared, path: string, id: nat, data: bytes)
    requires cfg.codec.Sized() && MemoryOk(cfg, Mem(g)) && ChunkReady(Mem(g), id, path, data)
    ensures ReadChunk(cfg, g, path, id)
         == Correction.Apply(StoredCorrection(cfg.codec, path, data),
                             cfg.codec.decode(cfg.codec.encode(data, path), path, DEFAULT_CHUNK_SIZE))
  {
    hide StoredCorrection;
  }

  /**
   * A stored chunk comes back, as the start of what is read for it, if and only if decoding to 4096 bytes agrees with
   * decoding to its real length in every byte that its correction does not overwrite.
   */
  lemma ChunkReadCondition(cfg: Config, g: Shared, path: string, id: nat, data: bytes)
    requires cfg.codec.Sized() && 0 < |data| <= DEFAULT_CHUNK_SIZE
    requires id in g.chunkStore.chunks && g.chunkStore.chunks[id] == StoredChunk(cfg.codec, path, data)
    requires id in g.corrStore.corrections && g.corrStore.corrections[id] == StoredCorrection(cfg.codec, path, data)
    ensures var v := cfg.codec.encode(data, path);
      var exact, full := cfg.codec.decode(v, path, |data|), cfg.codec.decode(v, path, DEFAULT_CHUNK_SIZE);
      |exact| == |data| <= |full| &&
      (data <= ReadChunk(cfg, g, path, id) <==>
        forall p :: 0 <= p < |data| ==> full[p] == exact[p] || Overwrites(StoredCorrection(cfg.codec, path, data), p))
  {
    var v := cfg.codec.encode(data, path);
    var exact, full := cfg.codec.decode(v, path, |data|), cfg.codec.decode(v, path, DEFAULT_CHUNK_SIZE);
    hide CorrectionFor, Apply, Overwrites;
    CorrectedPrefixCondition(data, exact, full);
  }

  /** A decoder whose bytes depend on the length asked for. */
  function Unstable(v: SparseVec, path: string, n: nat): (r: bytes)
    ensures |r| == n
  {
    seq(n, i => if n == 1 then 0 else 1)
  }

  /** With a decoder that is not prefix-stable a one-byte chunk is stored without a correction and read wrongly. */
  lemma PrefixStabilityNeeded(v: SparseVec) returns (cfg: Config, g: Shared)
    ensures cfg.codec.Sized() && !cfg.codec.PrefixStable()
    ensures 0 in g.chunkStore.chunks && g.chunkStore.chunks[0] == StoredChunk(cfg.codec, "a", [0])
    ensures 0 in g.corrStore.corrections && g.corrStore.corrections[0] == StoredCorrection(cfg.codec, "a", [0])
    ensures !([0] <= ReadChunk(cfg, g, "a", 0))
  {
    var codec := Codec((data, path) => v, (w: SparseVec, path: string, n: nat) => Unstable(w, path, n), (a, b) => a);
    cfg := Config(codec, data => data);
    assert codec.decode(v, "a", 1) == [0];
    assert StoredCorrection(codec, "a", [0]) == NoCorrection;
    assert codec.decode(v, "a", 2)[0] == 1 && codec.decode(v, "a", 2)[..1][0] != codec.decode(v, "a", 1)[0];
    g := Shared(EmptyManifest, ChunkState(map[0 := StoredChunk(codec, "a", [0])], 1), CorrectionState(map[0 := NoCorrection], 1, 1),
                v, 0, 0, 1, 0, map[], [], [], []);
    assert ReadChunk(cfg, g, "a", 0)[0] == 1;
  }

  function AsRead(v: Option<(bytes, nat)>): Result<(bytes, nat), FsError>
  {
    if v.None? then Err(FileNotFound) else Ok(v.value)
  }

  /** At every moment the readable content of every path is that of the last commit on it. */
  lemma ReadableContent(cfg: Config, labels: seq<Label>, path: string)
    requires Lawful(cfg)
    ensures ReadBack(cfg, SharedAfter(cfg, labels), path) == AsRead(View(SharedAfter(cfg, labels).commits, path))
  {
    hide *;
    LawfulSized(cfg);
    AfterInv(cfg, labels);
    ContentOf(cfg, SharedAfter(cfg, labels), path);
  }

  lemma ContentOf(cfg: Config, g: Shared, path: string)
    requires Lawful(cfg) && SharedInv(cfg, g)
    ensures ReadBack(cfg, g, path) == AsRead(View(g.commits, path))
  {
    hide Lookup, Chain, RootOk, OutcomesOk, SourcesOk, MemoryOk, Latest, EntryReady, Gathered, ReadChunks;
    assert Lookup(g.manifest, path) == EntryOf(Latest(g.commits, path));
    LatestMember(g.commits, path);
    if Latest(g.commits, path).Some? {
      var c := Latest(g.commits, path).value;
      GatherStart(c.data);
      ReadChunksExact(cfg, g, c.entry, c.data, 0, []);
    }
  }

  // ---------------------------------------------------------------- failed operations

  /** An operation that returned an error never took effect. */
  lemma FailuresInvisible(cfg: Config, labels: seq<Label>, i: nat, at: nat)
    requires Lawful(cfg) && i < |SharedAfter(cfg, labels).outcomes| && at < |SharedAfter(cfg, labels).commits|
    requires SharedAfter(cfg, labels).outcomes[i].WriteFailed? || SharedAfter(cfg, labels).outcomes[i].RemoveFailed?
    ensures SharedAfter(cfg, labels).commits[at].op != SharedAfter(cfg, labels).outcomes[i].op
  {
    hide View, MemoryOk, CommitsReady, Chain, ManifestOk, RootOk, Run;
    AfterInv(cfg, labels);
    var g := SharedAfter(cfg, labels);
    assert OutcomeOk(g.commits, g.batches, g.nextOp, g.outcomes[i]);
  }

  /** A path's readable content changes only in the step that commits a write or a delete of that very path. */
  lemma ContentChanges(cfg: Config, labels: seq<Label>, event: Label, path: string)
    requires Lawful(cfg)
    ensures var g, h := SharedAfter(cfg, labels), SharedAfter(cfg, labels + [event]);
      ReadBack(cfg, g, path) != ReadBack(cfg, h, path)
      ==> |h.commits| == |g.commits| + 1 && h.commits[|g.commits|].path == path
  {
    hide View, ReadBack, SharedInv, Next, WorldInv, Latest;
    AfterInv(cfg, labels);
    AfterInv(cfg, labels + [event]);
    var w := Run(cfg, labels);
    var g, h := SharedAfter(cfg, labels), SharedAfter(cfg, labels + [event]);
    assert (labels + [event])[..|labels|] == labels;
    assert h == Next(cfg, w, event).shared;
    ContentOf(cfg, g, path);
    ContentOf(cfg, h, path);
    OneCommit(cfg, w, event);
    if h.commits != g.commits {
      ViewSnoc(g.commits, h.commits[|g.commits|], path);
      assert h.commits == g.commits + [h.commits[|g.commits|]];
    }
  }

  lemma ViewSnoc(commits: seq<Commit>, c: Commit, path: string)
    ensures c.path != path ==> View(commits + [c], path) == View(commits, path)
  {
    LatestSnoc(commits, c, path);
  }

  lemma OneCommit(cfg: Config, w: World, event: Label)
    requires Lawful(cfg) && WorldInv(cfg, w)
    ensures var g, h := w.shared, Next(cfg, w, event).shared;
      h.commits == g.commits || (|h.commits| == |g.commits| + 1 && h.commits[..|g.commits|] == g.commits)
  {
    hide WorldInv, SharedInv, PhaseInv, Shaped, Act, Start;
    WorldShaped(cfg, w, event.tid);
    match event
    case Begin(t, request) => StartCommits(w.shared, request);
    case Step(t) => ActCommits(cfg, w.shared, PhaseOf(w, t));
  }

  lemma StartCommits(g: Shared, request: Request)
    ensures Start(g, request).0.commits == g.commits
  {
  }

  lemma ActCommits(cfg: Config, g: Shared, ph: Phase)
    requires cfg.codec.Sized() && Shaped(g, ph)
    ensures var h := Act(cfg, g, ph).0;
      h.commits == g.commits || (|h.commits| == |g.commits| + 1 && h.commits[..|g.commits|] == g.commits)
  {
    hide Shaped, FileChunks, Latest, Lookup, RemoveFile, AddFile, Manifest.UpdateFile, ChunkUpdates, CorrectionUpdates,
         BatchInsert, BatchInsertNew, BatchAdd, BatchUpdate, InsertAll, Truncate;
  }

  // ---------------------------------------------------------------- versions

  /** The number of commits on a path. */
  function CountOn(commits: seq<Commit>, path: string): nat
    decreases |commits|
  {
    if commits == [] then 0
    else CountOn(commits[..|commits| - 1], path) + if commits[|commits| - 1].path == path then 1 else 0
  }

  lemma {:induction false} LatestCount(cfg: Config, commits: seq<Commit>, path: string)
    requires Chain(cfg, commits)
    ensures Latest(commits, path).None? <==> CountOn(commits, path) == 0
    ensures Latest(commits, path).Some? ==> Latest(commits, path).value.entry.version + 1 == CountOn(commits, path)
    decreases |commits|
  {
    if commits != [] {
      LatestCount(cfg, commits[..|commits| - 1], path);
    }
  }

  lemma {:induction false} ChainAt(cfg: Config, commits: seq<Commit>, i: nat)
    requires Chain(cfg, commits) && i < |commits|
    ensures Chain(cfg, commits[..i]) && ChainStep(cfg, commits[..i], commits[i]) && Uncommitted(commits[..i], commits[i].op)
    decreases |commits|
  {
    hide ChainStep;
    var n := |commits| - 1;
    if i < n {
      ChainAt(cfg, commits[..n], i);
      assert commits[..n][..i] == commits[..i];
    }
  }

  /**
   * No lost updates: the commits on one path carry the versions 0, 1, 2, …, each made on exactly the version before it,
   * and no operation commits twice.
   */
  lemma VersionChain(cfg: Config, labels: seq<Label>, i: nat)
    requires Lawful(cfg) && i < |SharedAfter(cfg, labels).commits|
    ensures var commits := SharedAfter(cfg, labels).commits;
      var c, v := commits[i], CountOn(commits[..i], commits[i].path);
      && c.entry.version == v
      && c.expected == (if v == 0 then None else Some(v - 1))
      && forall j :: 0 <= j < i ==> commits[j].op != c.op
  {
    hide *;
    LawfulSized(cfg);
    AfterInv(cfg, labels);
    ChainOf(cfg, SharedAfter(cfg, labels));
    VersionAt(cfg, SharedAfter(cfg, labels).commits, i);
  }

  lemma ChainOf(cfg: Config, g: Shared)
    requires Lawful(cfg) && SharedInv(cfg, g)
    ensures Chain(cfg, g.commits)
  {
    hide Chain, MemoryOk, CommitsReady, ManifestOk, RootOk, OutcomesOk, SourcesOk;
  }

  lemma VersionAt(cfg: Config, commits: seq<Commit>, i: nat)
    requires Chain(cfg, commits) && i < |commits|
    ensures var c, v := commits[i], CountOn(commits[..i], commits[i].path);
      && c.entry.version == v
      && c.expected == (if v == 0 then None else Some(v - 1))
      && forall j :: 0 <= j < i ==> commits[j].op != c.op
  {
    hide Latest, CountOn, Chain;
    ChainAt(cfg, commits, i);
    LatestCount(cfg, commits[..i], commits[i].path);
    forall j | 0 <= j < i ensures commits[j].op != commits[i].op {
      assert commits[..i][j] == commits[j];
    }
  }

  /** The version a write returns is the one it installed, and its chunks are in the root. */
  lemma ReturnedVersion(cfg: Config, labels: seq<Label>, i: nat)
    requires Lawful(cfg) && i < |SharedAfter(cfg, labels).outcomes|
    ensures var g := SharedAfter(cfg, labels);
      match g.outcomes[i]
      case Wrote(op, version, at) =>
        && at < |g.commits| && g.commits[at].op == op && !g.commits[at].entry.deleted
        && g.commits[at].entry.version == version && at in g.batches
      case Removed(op, at) => at < |g.commits| && g.commits[at].op == op && g.commits[at].entry.deleted
      case _ => true
  {
    hide View, MemoryOk, CommitsReady, Chain, ManifestOk, RootOk, Uncommitted, Run;
    AfterInv(cfg, labels);
    var g := SharedAfter(cfg, labels);
    assert OutcomeOk(g.commits, g.batches, g.nextOp, g.outcomes[i]);
  }

  function Iterated(f: bytes -> bytes, n: nat, x: bytes): bytes
  {
    if n == 0 then x else f(Iterated(f, n - 1, x))
  }

  /** All changes of the path after its creation are read-modify-writes. */
  ghost predicate OnlyUpdates(commits: seq<Commit>, path: string)
  {
    forall i :: 0 <= i < |commits| && commits[i].path == path && commits[i].entry.version > 0 ==> commits[i].origin.Some?
  }

  /** `k` successful read-modify-writes apply the update exactly `k` times to the content the file was created with. */
  lemma {:induction false} UpdatesCompose(cfg: Config, commits: seq<Commit>, path: string) returns (first: nat)
    requires Chain(cfg, commits) && OnlyUpdates(commits, path) && Latest(commits, path).Some?
    ensures first < |commits| && commits[first].path == path && commits[first].entry.version == 0
    ensures var c := Latest(commits, path).value;
      !c.entry.deleted && c.data == Iterated(cfg.update, c.entry.version, commits[first].data)
    decreases |commits|
  {
    var n := |commits| - 1;
    var last := commits[n];
    assert OnlyUpdates(commits[..n], path);
    if last.path != path || last.entry.version > 0 {
      first := UpdatesCompose(cfg, commits[..n], path);
    } else {
      first := n;
    }
  }

  lemma ViewAfterUpdates(cfg: Config, commits: seq<Commit>, path: string) returns (first: nat)
    requires Chain(cfg, commits) && OnlyUpdates(commits, path) && Latest(commits, path).Some?
    ensures var k := CountOn(commits, path) - 1;
      && k >= 0 && first < |commits| && commits[first].path == path && commits[first].entry.version == 0
      && View(commits, path) == Some((Iterated(cfg.update, k, commits[first].data), k))
  {
    hide Chain, OnlyUpdates, Latest, CountOn, Iterated;
    first := UpdatesCompose(cfg, commits, path);
    LatestCount(cfg, commits, path);
  }

  lemma ChainHolds(cfg: Config, labels: seq<Label>)
    requires Lawful(cfg)
    ensures Chain(cfg, SharedAfter(cfg, labels).commits)
  {
    hide Chain, MemoryOk, CommitsReady, ManifestOk, RootOk, OutcomesOk, Run;
    AfterInv(cfg, labels);
  }

  /** The same of a run: the counter stands at the number of successful increments. */
  lemma NoLostUpdates(cfg: Config, labels: seq<Label>, path: string) returns (first: nat)
    requires Lawful(cfg)
    requires OnlyUpdates(SharedAfter(cfg, labels).commits, path) && Latest(SharedAfter(cfg, labels).commits, path).Some?
    ensures var g := SharedAfter(cfg, labels); var k := CountOn(g.commits, path) - 1;
      && k >= 0 && first < |g.commits| && g.commits[first].path == path && g.commits[first].entry.version == 0
      && ReadBack(cfg, g, path) == Ok((Iterated(cfg.update, k, g.commits[first].data), k))
  {
    hide *;
    LawfulSized(cfg);
    ChainHolds(cfg, labels);
    first := ViewAfterUpdates(cfg, SharedAfter(cfg, labels).commits, path);
    ReadableContent(cfg, labels, path);
    ReadOfView(View(SharedAfter(cfg, labels).commits, path));
  }

  lemma ReadOfView(v: Option<(bytes, nat)>)
    ensures v.Some? ==> AsRead(v) == Ok(v.value)
  {
  }

  // ---------------------------------------------------------------- the root

  /**
   * The compare-and-swap loop: the root version counts the committed bundles, and the root is the fold of `bundle`
   * over them in the order in which they were swapped in, each committed write at most once.
   */
  lemma RootIsFold(cfg: Config, labels: seq<Label>)
    requires Lawful(cfg)
    ensures var g := SharedAfter(cfg, labels);
      && g.rootVersion == |g.batches| && g.root == RootOf(cfg.codec, g.commits, g.batches)
      && (forall i :: 0 <= i < |g.batches| ==> g.batches[i] < |g.commits| && !g.commits[g.batches[i]].entry.deleted)
      && (forall i, j :: 0 <= i < j < |g.batches| ==> g.batches[i] != g.batches[j])
  {
    hide RootOf, MemoryOk, CommitsReady, Chain, ManifestOk, OutcomesOk, Run;
    AfterInv(cfg, labels);
  }

  /** When every thread has come to rest, the root holds every committed write. */
  lemma QuiescentRoot(cfg: Config, labels: seq<Label>, at: nat)
    requires Lawful(cfg) && at < |SharedAfter(cfg, labels).commits|
    requires forall t :: t in Run(cfg, labels).threads ==> Run(cfg, labels).threads[t].Idle?
    ensures at in SharedAfter(cfg, labels).batches <==> !SharedAfter(cfg, labels).commits[at].entry.deleted
  {
    hide RootOf, MemoryOk, CommitsReady, Chain, ManifestOk, OutcomesOk, ThreadsInv, Run;
    AfterInv(cfg, labels);
    var w := Run(cfg, labels);
    RootIsFold(cfg, labels);
    forall t | t in w.threads ensures !Bundles(w.threads[t], at) {}
    assert AllBundled(w);
  }

  /** The global version counts the successes, and the correction counter the stored corrections. */
  lemma CountersExact(cfg: Config, labels: seq<Label>)
    requires Lawful(cfg)
    ensures var g := SharedAfter(cfg, labels);
      && g.globalVersion == Successes(g.outcomes) && g.corrStore.total == |g.corrStore.corrections|
      && g.manifest.totalChunks == SumChunks(g.manifest.files)
  {
    hide MemoryOk, CommitsReady, Chain, RootOk, OutcomesOk, Successes, ThreadsInv, Run;
    AfterInv(cfg, labels);
  }
}
