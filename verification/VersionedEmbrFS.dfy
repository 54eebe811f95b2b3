/**
 * The versioned file system as one client sees it: the object whose methods take the protocol's steps one after
 * another. `history` is the protocol's state, and the object's fields and stores mirror it.
 */
module VersionedFS {
  import opened Bytes
  import opened Correction
  import opened Manifest
  import opened Stores
  import opened Protocol
  import opened ProtocolInvariant
  import opened ProtocolSteps
  import opened ProtocolTheorems
  import ProtocolRuns
  import Ranges

  /** What `write_file` answers, from the entry it finds. */
  function WriteResult(found: Option<Entry>, expected: Option<nat>): (r: Result<nat, FsError>)
    ensures expected.None? && found.None? <==> r == Ok(0)
    ensures expected.Some? && found.Some? && found.value.version == expected.value ==> r == Ok(expected.value + 1)
    ensures expected.None? && found.Some? <==> r == Err(FileExists)
    ensures expected.Some? && found.None? <==> r == Err(FileNotFound)
    ensures expected.Some? && found.Some? && found.value.version != expected.value
       <==> r.Err? && r.error.VersionMismatch?
    ensures expected.Some? && found.Some? && found.value.version != expected.value
        ==> r == Err(VersionMismatch(Mismatch(expected.value, found.value.version)))
  {
    match (found, expected)
    case (Some(e), Some(v)) => if e.version != v then Err(VersionMismatch(Mismatch(v, e.version))) else Ok(v + 1)
    case (Some(_), None) => Err(FileExists)
    case (None, Some(_)) => Err(FileNotFound)
    case (None, None) => Ok(0)
  }

  class VersionedEmbrFS {
    const cfg: Config
    const manifest: VersionedManifest
    const chunkStore: VersionedChunkStore
    const corrections: VersionedCorrectionStore
    var root: SparseVec
    var rootVersion: nat
    var globalVersion: nat
    var nextChunkId: nat
    ghost var history: Shared

    ghost predicate Valid()
      reads this, manifest, chunkStore, corrections
    {
      && Lawful(cfg) && SharedInv(cfg, history)
      && history.manifest == manifest.Snapshot() && history.chunkStore == chunkStore.Snapshot()
      && history.corrStore == corrections.Snapshot() && history.root == root && history.rootVersion == rootVersion
      && history.globalVersion == globalVersion && history.nextId == nextChunkId
    }

    /** Content and version of a path. */
    ghost function Content(path: string): Option<(bytes, nat)>
      reads this
    {
      View(history.commits, path)
    }

    constructor (cfg: Config)
      requires Lawful(cfg)
      ensures Valid() && this.cfg == cfg && forall p :: Content(p) == None
    {
      this.cfg := cfg;
      manifest := new VersionedManifest();
      chunkStore := new VersionedChunkStore();
      corrections := new VersionedCorrectionStore();
      root, rootVersion, globalVersion, nextChunkId := SparseVec([], []), 0, 0, 1;
      history := InitialShared;
    }

    // -------------------------------------------------------------- reading

    method ReadFile(path: string) returns (r: Result<(bytes, nat), FsError>)
      requires Valid()
      ensures r == match Content(path) case None => Err(FileNotFound) case Some(v) => Ok(v)
    {
      ContentOf(cfg, history, path);
      hide SharedInv, View, ReadChunk;
      var got := manifest.Get(path);
      if got.None? {
        return Err(FileNotFound);
      }
      var e := got.value.0;
      if e.deleted {
        return Err(FileNotFound);
      }
      var fileData: bytes := [];
      for i := 0 to |e.chunks|
        invariant ReadChunks(cfg, history, e, i, fileData) == ReadChunks(cfg, history, e, 0, [])
      {
        var chunk := chunkStore.Get(e.chunks[i]);
        if chunk.None? {
          return Err(ChunkNotFound(e.chunks[i]));
        }
        var corrected := CorrectedAt(e.path, e.chunks[i], DEFAULT_CHUNK_SIZE);
        fileData := fileData + corrected;
      }
      r := Ok((Truncate(fileData, e.size), e.version));
    }

    /** Decodes a chunk to the given length and applies its correction, if it has one. */
    method CorrectedAt(path: string, id: nat, length: nat) returns (data: bytes)
      requires Valid() && id in chunkStore.chunks
      ensures data == FetchAt(cfg.codec, chunkStore.chunks, corrections.corrections, path, id, length)
      ensures length == DEFAULT_CHUNK_SIZE ==> data == ReadChunk(cfg, history, path, id)
    {
      hide SharedInv;
      var decoded := cfg.codec.decode(chunkStore.chunks[id].vector, path, length);
      if id in corrections.corrections {
        data := ApplyCorrection(corrections.corrections[id], decoded);
      } else {
        data := decoded;
      }
    }

    /** `read_range`: chunks are decoded at their own sizes. */
    method ReadRange(path: string, offset: nat, length: nat) returns (r: Result<(bytes, nat), Ranges.RangeError>)
      requires Valid()
      ensures r == match Content(path)
        case None => Err(Ranges.NotFound)
        case Some(v) => Ok((Ranges.ReadSlice(v.0, offset, length), v.1))
    {
      hide SharedInv, View, Ranges.Holds, Ranges.Fits, Ranges.Outcome, FileChunks, FetchAt, Ranges.ReadSlice;
      ghost var content := Content(path);
      ghost var chunks := if content.Some? then FileChunks(content.value.0) else [];
      var codec, stored, fixes := cfg.codec, chunkStore.chunks, corrections.corrections;
      var fetch := id => if id in stored then Some(FetchAt(codec, stored, fixes, path, id, stored[id].originalSize)) else None;
      var size := id => if id in stored then stored[id].originalSize else 0;
      var got := manifest.Get(path);
      var found := if got.None? then None else Some(got.value.0);
      EntryHolds(cfg, history, path, fetch, size);
      if content.Some? {
        Ranges.NothingMissing(found.value, fetch, chunks);
      }
      r := Ranges.ReadRange(found, fetch, size, offset, length, chunks);
    }

    // -------------------------------------------------------------- writing

    /** Every path but one has the content it had. */
    twostate predicate OnlyChanges(path: string)
      reads this
    {
      forall p :: p != path ==> Content(p) == old(Content(p))
    }

    /** `write_file` */
    method WriteFile(path: string, data: bytes, expected: Option<nat>) returns (r: Result<nat, FsError>)
      requires Valid()
      modifies this, manifest, chunkStore, corrections
      ensures Valid()
      ensures var found := Lookup(old(manifest.Snapshot()), path);
        && (r.Ok? <==> if expected.None? then found.None? else found.Some? && found.value.version == expected.value)
        && (r.Ok? ==> r.value == if expected.None? then 0 else expected.value + 1)
        && (r.Err? ==> r.error == if expected.None? then FileExists else if found.None? then FileNotFound
                                  else VersionMismatch(Mismatch(expected.value, found.value.version)))
      ensures r.Ok? ==> Content(path) == Some((data, r.value)) && OnlyChanges(path)
      ensures r.Err? ==> forall p :: Content(p) == old(Content(p))
    {
      hide SharedInv, PhaseInv, View, Lookup, FileChunks;
      ghost var started := Job(history.nextOp, path, data, expected, None, None);
      ghost var job := started.(existing := expected);
      ghost var commits := history.commits;
      var error := CheckExisting(path, expected, started);
      if error.Some? {
        return Err(error.value);
      }
      var storeVersion := chunkStore.version;
      var ids, chunkUpdates, correctionUpdates := EncodeChunks(path, data, storeVersion, job);
      StoreChunks(ids, chunkUpdates, expected, storeVersion, job);
      StoreCorrections(ids, correctionUpdates, expected, job);
      var version := CommitFile(path, data, expected, ids, job);
      BundleChunksToRoot(ids, job.op, |commits|, version);
      BumpVersion(job.op, Wrote(job.op, version, |commits|));
      Appended(commits, history.commits, path);
      r := Ok(version);
    }

    /** The check of the existing entry against the expected version. */
    method CheckExisting(path: string, expected: Option<nat>, ghost job: Job) returns (error: Option<FsError>)
      requires Valid() && job == Job(history.nextOp, path, job.data, expected, None, None)
      modifies this`history
      ensures Valid() && history.commits == old(history.commits)
      ensures error.Some? ==> WriteResult(Lookup(manifest.Snapshot(), path), expected) == Err(error.value)
      ensures error.None? ==> WriteResult(Lookup(manifest.Snapshot(), path), expected).Ok?
      ensures error.None? ==> PhaseInv(cfg, history, Versioning(job.(existing := expected)))
    {
      hide SharedInv, PhaseInv, View, Grows;
      StartKept(cfg, history, Request.WriteFile(path, job.data, expected));
      history := Start(history, Request.WriteFile(path, job.data, expected)).0;
      CheckKept(cfg, history, job);
      history := CheckEntry(history, job).0;
      var existing := manifest.Get(path);
      if existing.Some? && expected.Some? {
        var e := existing.value.0;
        if e.version != expected.value {
          return Some(VersionMismatch(Mismatch(expected.value, e.version)));
        }
      } else if existing.Some? {
        return Some(FileExists);
      } else if expected.Some? {
        return Some(FileNotFound);
      }
      error := None;
    }

    /** `allocate_chunk_id` */
    method AllocateChunkId(storeVersion: nat, ghost ids: seq<nat>, ghost job: Job) returns (id: nat)
      requires Valid() && PhaseInv(cfg, history, Allocating(job, storeVersion, ids)) && |ids| < |FileChunks(job.data)|
      modifies this`nextChunkId, this`history
      ensures Valid() && PhaseInv(cfg, history, Allocating(job, storeVersion, ids + [id]))
      ensures id == old(nextChunkId) && nextChunkId == id + 1 && id !in old(history.source)
      ensures history.source == old(history.source)[id := Source(job.path, FileChunks(job.data)[|ids|], job.op)]
      ensures history.commits == old(history.commits)
    {
      hide SharedInv, PhaseInv, Kept, FileChunks;
      UnusedId(cfg, history);
      AllocateKept(cfg, history, job, storeVersion, ids);
      PhaseOfKept(cfg, history, Some(job.op), AllocateId(history, job, storeVersion, ids));
      id := nextChunkId;
      nextChunkId := nextChunkId + 1;
      history := AllocateId(history, job, storeVersion, ids).0;
    }

    /** The loop that numbers, encodes and decodes the chunks and prepares the batches. */
    method EncodeChunks(path: string, data: bytes, storeVersion: nat, ghost job: Job)
      returns (ids: seq<nat>, chunkUpdates: seq<(nat, VersionedChunk)>, correctionUpdates: seq<(nat, CorrectionType)>)
      requires Valid() && PhaseInv(cfg, history, Versioning(job)) && job.path == path && job.data == data
      requires storeVersion == chunkStore.version
      modifies this`nextChunkId, this`history
      ensures Valid() && PhaseInv(cfg, history, Allocating(job, storeVersion, ids)) && |ids| == |FileChunks(data)|
      ensures chunkUpdates == ChunkUpdates(cfg.codec, job, ids) && correctionUpdates == CorrectionUpdates(cfg.codec, job, ids)
      ensures history.commits == old(history.commits)
    {
      hide SharedInv, PhaseInv, View, Grows, Kept, ChunkUpdates, CorrectionUpdates, CorrectionFor;
      ProtocolRuns.VersionKept(cfg, history, job);
      PhaseOfKept(cfg, history, Some(job.op), (history, Allocating(job, history.chunkStore.version, [])));
      var chunks := Chunks(data, DEFAULT_CHUNK_SIZE);
      ids, chunkUpdates, correctionUpdates := [], [], [];
      for i := 0 to |chunks|
        invariant Valid() && PhaseInv(cfg, history, Allocating(job, storeVersion, ids)) && |ids| == i
        invariant |chunkUpdates| == i && |correctionUpdates| == i && history.commits == old(history.commits)
        invariant forall j :: 0 <= j < i ==> chunkUpdates[j] == (ids[j], StoredChunk(cfg.codec, path, chunks[j]))
        invariant forall j :: 0 <= j < i ==> correctionUpdates[j] == (ids[j], StoredCorrection(cfg.codec, path, chunks[j]))
      {
        var chunkId := AllocateChunkId(storeVersion, ids, job);
        var vector := cfg.codec.encode(chunks[i], path);
        var decoded := cfg.codec.decode(vector, path, |chunks[i]|);
        chunkUpdates := chunkUpdates + [(chunkId, VersionedChunk(vector, |chunks[i]|))];
        var correction := ComputeCorrection(chunks[i], decoded);
        correctionUpdates := correctionUpdates + [(chunkId, correction.value)];
        ids := ids + [chunkId];
      }
      assert chunkUpdates == ChunkUpdates(cfg.codec, job, ids);
      assert correctionUpdates == CorrectionUpdates(cfg.codec, job, ids);
    }

    method StoreChunks(ids: seq<nat>, updates: seq<(nat, VersionedChunk)>, expected: Option<nat>, storeVersion: nat, ghost job: Job)
      requires Valid() && PhaseInv(cfg, history, Allocating(job, storeVersion, ids)) && |ids| == |FileChunks(job.data)|
      requires updates == ChunkUpdates(cfg.codec, job, ids) && expected == job.expected && storeVersion == chunkStore.version
      modifies chunkStore, this`history
      ensures Valid() && PhaseInv(cfg, history, Correcting(job, ids, if expected.None? then 0 else corrections.version))
      ensures history.commits == old(history.commits)
    {
      hide SharedInv, PhaseInv, View, Grows, ChunkUpdates, InsertAll, FileChunks;
      InsertKept(cfg, history, job, storeVersion, ids);
      history := InsertChunks(cfg, history, job, storeVersion, ids).0;
      if expected.None? {
        var v := chunkStore.InsertNewBatch(updates);
      } else {
        var r := chunkStore.InsertBatch(updates, storeVersion);
        ProtocolRuns.ReversionKept(cfg, history, job, ids);
      }
    }

    method StoreCorrections(ids: seq<nat>, updates: seq<(nat, CorrectionType)>, expected: Option<nat>, ghost job: Job)
      requires Valid() && PhaseInv(cfg, history, Correcting(job, ids, if expected.None? then 0 else corrections.version))
      requires |ids| == |FileChunks(job.data)| && updates == CorrectionUpdates(cfg.codec, job, ids) && expected == job.expected
      modifies corrections, this`history
      ensures Valid() && PhaseInv(cfg, history, Committing(job, ids)) && history.commits == old(history.commits)
    {
      hide SharedInv, PhaseInv, View, Grows, CorrectionUpdates, InsertAll, FileChunks, NewKeys;
      ghost var v := if expected.None? then 0 else corrections.version;
      CorrectKept(cfg, history, job, ids, v);
      history := InsertCorrections(cfg, history, job, ids, v).0;
      if expected.None? {
        var version := corrections.AddBatch(updates);
      } else {
        var version := corrections.version;
        var r := corrections.UpdateBatch(updates, version);
      }
    }

    /** The manifest update, which makes the write visible. */
    method CommitFile(path: string, data: bytes, expected: Option<nat>, ids: seq<nat>, ghost job: Job) returns (version: nat)
      requires Valid() && PhaseInv(cfg, history, Committing(job, ids))
      requires job.path == path && job.data == data && job.expected == expected && job.existing == expected
      requires WriteResult(Lookup(manifest.Snapshot(), path), expected).Ok?
      modifies manifest, this`history
      ensures Valid() && PhaseInv(cfg, history, Rooting(job.op, |old(history.commits)|, ids, version))
      ensures WriteResult(Lookup(old(manifest.Snapshot()), path), expected) == Ok(version)
      ensures |history.commits| == |old(history.commits)| + 1 && history.commits[..|old(history.commits)|] == old(history.commits)
      ensures var c := history.commits[|old(history.commits)|];
        c.path == path && c.data == data && !c.entry.deleted && c.entry.version == version
    {
      hide SharedInv, PhaseInv, View, Grows, Manifest.Valid, IndexInverse, AddFile, Manifest.UpdateFile, CommitEntry, Lookup;
      ManifestValid(cfg, history);
      CommitKept(cfg, history, job, ids);
      PhaseOfKept(cfg, history, Some(job.op), CommitEntry(history, job, ids));
      CommitOutcome(history, job, ids);
      var entry := NewEntry(path, |data|, ids);
      if expected.Some? {
        var r := manifest.Update(path, entry, expected.value);
        version := expected.value + 1;
      } else {
        var r := manifest.Add(entry);
        version := 0;
      }
      history := CommitEntry(history, job, ids).0;
    }

    /** `bundle_chunks_to_root`: the compare-and-swap loop; alone, it goes round once. */
    method BundleChunksToRoot(ids: seq<nat>, ghost op: nat, ghost at: nat, ghost fileVersion: nat)
      requires Valid() && PhaseInv(cfg, history, Rooting(op, at, ids, fileVersion))
      modifies this`root, this`rootVersion, this`history
      ensures Valid() && history.commits == old(history.commits)
      ensures PhaseInv(cfg, history, Bumping(op, Wrote(op, fileVersion, at)))
      ensures rootVersion == old(rootVersion) + 1 && history.batches == old(history.batches) + [at]
    {
      hide SharedInv, PhaseInv, View, Grows, BundleOk;
      var swapped := false;
      while !swapped
        invariant Valid() && history.commits == old(history.commits)
        invariant !swapped ==> PhaseInv(cfg, history, Rooting(op, at, ids, fileVersion))
        invariant !swapped ==> rootVersion == old(rootVersion) && history.batches == old(history.batches)
        invariant swapped ==> PhaseInv(cfg, history, Bumping(op, Wrote(op, fileVersion, at)))
        invariant swapped ==> rootVersion == old(rootVersion) + 1 && history.batches == old(history.batches) + [at]
        decreases !swapped
      {
        var currentVersion := rootVersion;
        var newRoot := root;
        ghost var before := history;
        RootingKept(cfg, history, Rooting(op, at, ids, fileVersion));
        for i := 0 to |ids|
          invariant Valid() && history == before && currentVersion == rootVersion
          invariant PhaseInv(cfg, history, Bundling(op, at, ids, fileVersion, currentVersion, newRoot, i))
        {
          BundleTurnKept(cfg, history, Bundling(op, at, ids, fileVersion, currentVersion, newRoot, i));
          var chunk := chunkStore.Get(ids[i]);
          if chunk.Some? {
            newRoot := cfg.codec.bundle(newRoot, chunk.value.0.vector);
          }
        }
        SwapKept(cfg, history, Bundling(op, at, ids, fileVersion, currentVersion, newRoot, |ids|));
        history := BundleStep(cfg, history, Bundling(op, at, ids, fileVersion, currentVersion, newRoot, |ids|)).0;
        if rootVersion == currentVersion {
          root := newRoot;
          rootVersion := rootVersion + 1;
          swapped := true;
        }
      }
    }

    method BumpVersion(ghost op: nat, ghost o: Outcome)
      requires Valid() && PhaseInv(cfg, history, Bumping(op, o))
      modifies this`globalVersion, this`history
      ensures Valid() && history.commits == old(history.commits)
    {
      hide SharedInv, PhaseInv, View, Grows;
      BumpKept(cfg, history, op, o);
      globalVersion := globalVersion + 1;
      history := history.(globalVersion := history.globalVersion + 1, outcomes := history.outcomes + [o]);
    }

    /** `delete_file` */
    method DeleteFile(path: string, expected: nat) returns (r: Result<(), FsError>)
      requires Valid()
      modifies this, manifest
      ensures Valid()
      ensures var found := Lookup(old(manifest.Snapshot()), path);
        r == if found.None? then Err(VersionMismatch(Mismatch(expected, 0)))
             else if found.value.version != expected then Err(VersionMismatch(Mismatch(expected, found.value.version)))
             else Ok(())
      ensures r.Ok? ==> Content(path) == None && OnlyChanges(path)
      ensures r.Err? ==> forall p :: Content(p) == old(Content(p))
    {
      hide SharedInv, PhaseInv, View, Grows, Manifest.Valid, RemoveStep, RemoveFile, Kept, Lookup, Open, NoneCorrected;
      ghost var commits, op := history.commits, history.nextOp;
      StartKept(cfg, history, Request.DeleteFile(path, expected));
      PhaseOfKept(cfg, history, None, Start(history, Request.DeleteFile(path, expected)));
      history := Start(history, Request.DeleteFile(path, expected)).0;
      ghost var ph := Removing(op, path, expected);
      ManifestValid(cfg, history);
      RemoveKept(cfg, history, ph);
      PhaseOfKept(cfg, history, Some(op), RemoveStep(history, ph));
      RemoveOutcome(history, ph);
      var removed := manifest.RemoveEntry(path, expected);
      history := RemoveStep(history, ph).0;
      if removed.Err? {
        return Err(VersionMismatch(removed.error));
      }
      Deleted(commits, history.commits, path);
      BumpVersion(op, Removed(op, |commits|));
      r := Ok(());
    }
  }

  /** A chunk decoded at some length and corrected. */
  function FetchAt(codec: Codec, chunks: map<nat, VersionedChunk>, corrections: map<nat, CorrectionType>, path: string, id: nat,
                   length: nat): bytes
    requires id in chunks
  {
    var decoded := codec.decode(chunks[id].vector, path, length);
    if id in corrections then Correction.Apply(corrections[id], decoded) else decoded
  }

  /** Decoded at its own size, a stored chunk comes back exactly. */
  lemma FetchExact(cfg: Config, m: Memory, path: string, id: nat, data: bytes)
    requires Lawful(cfg) && MemoryOk(cfg, m) && ChunkReady(m, id, path, data)
    ensures m.chunks[id].originalSize == |data|
    ensures FetchAt(cfg.codec, m.chunks, m.corrections, path, id, |data|) == data
  {
    var approx := cfg.codec.decode(cfg.codec.encode(data, path), path, |data|);
    CorrectedPrefix(data, approx, approx);
  }

  /** The chunks of the entry under a path are those of the path's content. */
  lemma EntryHolds(cfg: Config, g: Shared, path: string, fetch: nat -> Option<bytes>, size: nat -> nat)
    requires Lawful(cfg) && SharedInv(cfg, g)
    requires forall id :: fetch(id) == if id in g.chunkStore.chunks
      then Some(FetchAt(cfg.codec, g.chunkStore.chunks, g.corrStore.corrections, path, id, g.chunkStore.chunks[id].originalSize))
      else None
    requires forall id :: size(id) == if id in g.chunkStore.chunks then g.chunkStore.chunks[id].originalSize else 0
    ensures var e, v := Lookup(g.manifest, path), View(g.commits, path);
      && (v.Some? <==> e.Some? && !e.value.deleted)
      && (v.Some? ==> e.value.version == v.value.1 && Ranges.Holds(e.value, fetch, FileChunks(v.value.0))
                      && Flatten(FileChunks(v.value.0)) == v.value.0)
      && (v.Some? ==> forall i :: 0 <= i < |FileChunks(v.value.0)| ==>
            size(e.value.chunks[i]) == |FileChunks(v.value.0)[i]|)
  {
    hide Lookup, Chain, RootOk, OutcomesOk, SourcesOk, MemoryOk, Latest, FileChunks, FetchAt, Flatten, Ranges.OffsetIndex;
    assert Lookup(g.manifest, path) == EntryOf(Latest(g.commits, path));
    LatestMember(g.commits, path);
    if View(g.commits, path).Some? {
      var c := Latest(g.commits, path).value;
      ChunksSpecOf(c.data);
      forall i | 0 <= i < |c.entry.chunks|
        ensures fetch(c.entry.chunks[i]) == Some(FileChunks(c.data)[i])
        ensures size(c.entry.chunks[i]) == |FileChunks(c.data)[i]|
      {
        assert ChunkReady(Mem(g), c.entry.chunks[i], path, FileChunks(c.data)[i]);
        FetchExact(cfg, Mem(g), path, c.entry.chunks[i], FileChunks(c.data)[i]);
      }
    }
  }

  lemma ChunksSpecOf(data: bytes)
    ensures Flatten(FileChunks(data)) == data
  {
    ChunksSpec(data, DEFAULT_CHUNK_SIZE);
  }

  lemma PhaseOfKept(cfg: Config, g: Shared, actor: Option<nat>, next: (Shared, Phase))
    requires cfg.codec.Sized() && Kept(cfg, g, actor, next)
    ensures SharedInv(cfg, next.0) && PhaseInv(cfg, next.0, next.1)
  {
    hide SharedInv, PhaseInv, Grows;
  }

  /** The next identifier to be handed out stands for nothing yet. */
  lemma UnusedId(cfg: Config, g: Shared)
    requires cfg.codec.Sized() && SharedInv(cfg, g)
    ensures g.nextId !in g.source
  {
    hide MemoryOk, CommitsReady, Chain, RootOk, OutcomesOk, ManifestOk;
  }

  lemma ManifestValid(cfg: Config, g: Shared)
    requires cfg.codec.Sized() && SharedInv(cfg, g)
    ensures Manifest.Valid(g.manifest)
  {
    hide MemoryOk, CommitsReady, Chain, RootOk, OutcomesOk, Manifest.Valid;
  }

  /** One more commit changes the content of its own path only. */
  lemma Appended(commits: seq<Commit>, more: seq<Commit>, path: string)
    requires |more| == |commits| + 1 && more[..|commits|] == commits && more[|commits|].path == path
    requires !more[|commits|].entry.deleted
    ensures View(more, path) == Some((more[|commits|].data, more[|commits|].entry.version))
    ensures forall p :: p != path ==> View(more, p) == View(commits, p)
  {
    hide Latest;
    assert more == commits + [more[|commits|]];
    forall p ensures Latest(more, p) == if p == path then Some(more[|commits|]) else Latest(commits, p) {
      LatestSnoc(commits, more[|commits|], p);
    }
  }

  lemma Deleted(commits: seq<Commit>, more: seq<Commit>, path: string)
    requires |more| == |commits| + 1 && more[..|commits|] == commits && more[|commits|].path == path
    requires more[|commits|].entry.deleted
    ensures View(more, path) == None
    ensures forall p :: p != path ==> View(more, p) == View(commits, p)
  {
    hide Latest;
    assert more == commits + [more[|commits|]];
    forall p ensures Latest(more, p) == if p == path then Some(more[|commits|]) else Latest(commits, p) {
      LatestSnoc(commits, more[|commits|], p);
    }
  }

  /** A commit that finds what the check found succeeds. */
  lemma CommitOutcome(g: Shared, job: Job, ids: seq<nat>)
    requires Manifest.Valid(g.manifest) && WriteResult(Lookup(g.manifest, job.path), job.expected).Ok?
    requires job.existing == job.expected
    ensures var (h, next) := CommitEntry(g, job, ids);
      var e := NewEntry(job.path, |job.data|, ids);
      var m := if job.expected.Some? then Manifest.UpdateFile(g.manifest, job.path, e, job.expected.value) else AddFile(g.manifest, e);
      && m.Ok? && h == g.(manifest := m.value, commits := h.commits)
      && |h.commits| == |g.commits| + 1 && h.commits[..|g.commits|] == g.commits
      && next == Rooting(job.op, |g.commits|, ids, h.commits[|g.commits|].entry.version)
      && var c := h.commits[|g.commits|];
         c.path == job.path && c.data == job.data && !c.entry.deleted
         && WriteResult(Lookup(g.manifest, job.path), job.expected) == Ok(c.entry.version)
         && c.entry.version == if job.expected.Some? then job.expected.value + 1 else 0
  {
    hide Manifest.Valid, IndexInverse, AddFile, Manifest.UpdateFile, Sets;
    var e := NewEntry(job.path, |job.data|, ids);
    if job.expected.Some? {
      UpdateFileSpec(g.manifest, job.path, e, job.expected.value);
    } else {
      AddFileSpec(g.manifest, e);
    }
  }

  /** A removal commits exactly if the entry has the expected version. */
  lemma RemoveOutcome(g: Shared, ph: Phase)
    requires Manifest.Valid(g.manifest) && ph.Removing?
    ensures var (h, next) := RemoveStep(g, ph); var r := RemoveFile(g.manifest, ph.path, ph.expected);
      var found := Lookup(g.manifest, ph.path);
      if r.Err? then
        && h == g.(outcomes := h.outcomes)
        && (found.None? ==> r.error == Mismatch(ph.expected, 0))
        && (found.Some? ==> found.value.version != ph.expected && r.error == Mismatch(ph.expected, found.value.version))
      else
        && next == Bumping(ph.op, Removed(ph.op, |g.commits|)) && h == g.(manifest := r.value, commits := h.commits)
        && found.Some? && found.value.version == ph.expected
        && |h.commits| == |g.commits| + 1 && h.commits[..|g.commits|] == g.commits
        && h.commits[|g.commits|].path == ph.path && h.commits[|g.commits|].entry.deleted
  {
    RemoveFileSpec(g.manifest, ph.path, ph.expected);
    RemoveRefused(g.manifest, ph.path, ph.expected);
    hide Manifest.Valid, IndexInverse, RemoveFile, Latest, Lookup, Sets;
    var r := RemoveFile(g.manifest, ph.path, ph.expected);
    if r.Ok? {
      SetsLookup(g.manifest, r.value, ph.path,
                 Lookup(g.manifest, ph.path).value.(deleted := true, version := ph.expected + 1));
    }
  }

  lemma RemoveRefused(m: Manifest.State, path: string, expected: nat)
    requires Manifest.Valid(m)
    ensures var r, found := RemoveFile(m, path, expected), Lookup(m, path);
      r.Err? ==> r.error == Mismatch(expected, if found.None? then 0 else found.value.version)
  {
  }
}
