/** Every run of the sequential file system, and extraction after it, behaves as a map from paths to bytes. */
module EmbrFSRefinement {
  import opened Bytes
  import opened EmbrFS

  // ---------------------------------------------------------------- the map of a list of entries

  lemma ModelSnoc(files: seq<FileEntry>, contents: seq<bytes>, f: FileEntry, data: bytes)
    requires |files| == |contents| && !f.deleted
    ensures Model(files + [f], contents + [data]) == Model(files, contents)[f.path := data]
  {
    assert (files + [f])[..|files|] == files && (contents + [data])[..|contents|] == contents;
  }

  /** A path is in the map exactly if some live entry has it. */
  lemma {:induction false} ModelDomain(files: seq<FileEntry>, contents: seq<bytes>, path: string)
    requires |files| == |contents|
    ensures path in Model(files, contents) <==> FindLive(files, path).Some?
    decreases |files|
  {
    if files != [] {
      ModelDomain(files[..|files| - 1], contents[..|files| - 1], path);
    }
  }

  /** Marking the live entry of a path as deleted takes the path out of the map. */
  lemma {:induction false} ModelRemove(files: seq<FileEntry>, contents: seq<bytes>, i: nat)
    requires |files| == |contents| && i < |files| && !files[i].deleted && LiveDistinct(files)
    ensures Model(files[i := files[i].(deleted := true)], contents) == Model(files, contents) - {files[i].path}
    decreases |files|
  {
    var n := |files| - 1;
    var after := files[i := files[i].(deleted := true)];
    if i < n {
      ModelRemove(files[..n], contents[..n], i);
      assert after[..n] == files[..n][i := files[i].(deleted := true)];
    } else {
      assert after[..n] == files[..n];
      OnlyOne(files, contents, i);
    }
  }

  lemma OnlyOne(files: seq<FileEntry>, contents: seq<bytes>, i: nat)
    requires |files| == |contents| && i + 1 == |files| && !files[i].deleted && LiveDistinct(files)
    ensures files[i].path !in Model(files[..i], contents[..i])
  {
    ModelDomain(files[..i], contents[..i], files[i].path);
  }

  // ---------------------------------------------------------------- ingestion and removal

  lemma AllChunksSnoc(files: seq<FileEntry>, f: FileEntry)
    ensures AllChunks(files + [f]) == AllChunks(files) + f.chunks
  {
    assert (files + [f])[..|files|] == files;
  }

  lemma IdsConcat(m: nat, n: nat)
    ensures Ids(0, m) + Ids(m, n) == Ids(0, m + n)
  {
  }

  /** Ingesting under an unused path keeps the invariant and sets the path in the map. */
  lemma IngestSpec(env: Env, enc: Encoder, c: nat, s: State, contents: seq<bytes>, path: string, data: bytes)
    requires env.codec.Sized() && c > 0 && Inv(env, c, s, contents) && FindLive(s.files, path).None?
    ensures var t := Ingest(env, enc, c, s, path, data, |data|);
      && Inv(env, c, t, contents + [data])
      && Model(t.files, contents + [data]) == Model(s.files, contents)[path := data]
  {
    hide PutChunks, Chunks, Model, SameBelow, EngramOk, FileOk, FindLive, Inv;
    var chunks := Chunks(data, c);
    var e, f := PutChunks(env, enc, s.engram, path, s.totalChunks, chunks),
                FileEntry(path, |data|, Ids(s.totalChunks, |chunks|), false);
    EngramOf(env, c, s, contents);
    PutChunksSpec(env, enc, s.engram, path, s.totalChunks, chunks);
    NewFileOk(env, e, c, f, s.totalChunks, data);
    Ingested(env, c, s, contents, State(e, s.files + [f], s.totalChunks + |chunks|), f, data);
  }

  lemma EngramOf(env: Env, c: nat, s: State, contents: seq<bytes>)
    requires c > 0 && Inv(env, c, s, contents)
    ensures EngramOk(env, s.engram, s.totalChunks) && |contents| == |s.files|
  {
    hide FileOk, AllChunks, LiveDistinct;
  }

  lemma Ingested(env: Env, c: nat, s: State, contents: seq<bytes>, t: State, f: FileEntry, data: bytes)
    requires c > 0 && Inv(env, c, s, contents) && FindLive(s.files, f.path).None? && !f.deleted
    requires t.files == s.files + [f] && f.chunks == Ids(s.totalChunks, |f.chunks|)
    requires t.totalChunks == s.totalChunks + |f.chunks|
    requires SameBelow(s.engram, t.engram, s.totalChunks) && EngramOk(env, t.engram, t.totalChunks)
    requires FileOk(env, t.engram, c, f, data)
    ensures Inv(env, c, t, contents + [data])
    ensures Model(t.files, contents + [data]) == Model(s.files, contents)[f.path := data]
  {
    hide Chunks, Model, AllChunks, Recovers, SameBelow, EngramOk, FileOk, LiveDistinct;
    AllChunksSnoc(s.files, f);
    IdsConcat(s.totalChunks, |f.chunks|);
    ModelSnoc(s.files, contents, f, data);
    LiveSnoc(s.files, f);
    FilesIngested(env, c, s, contents, t, f, data);
  }

  lemma LiveSnoc(files: seq<FileEntry>, f: FileEntry)
    requires LiveDistinct(files) && FindLive(files, f.path).None?
    ensures LiveDistinct(files + [f])
  {
    hide FindLive;
  }

  lemma FilesIngested(env: Env, c: nat, s: State, contents: seq<bytes>, t: State, f: FileEntry, data: bytes)
    requires c > 0 && Inv(env, c, s, contents) && SameBelow(s.engram, t.engram, s.totalChunks)
    requires t.files == s.files + [f] && FileOk(env, t.engram, c, f, data)
    ensures forall i :: 0 <= i < |t.files| ==> FileOk(env, t.engram, c, t.files[i], (contents + [data])[i])
  {
    hide SameBelow, FileOk, AllChunks, EngramOk, LiveDistinct;
    forall i | 0 <= i < |t.files| ensures FileOk(env, t.engram, c, t.files[i], (contents + [data])[i]) {
      if i < |s.files| {
        OldFileOk(env, c, s, contents, t.engram, i);
      }
    }
  }

  lemma NewFileOk(env: Env, e: Engram, c: nat, f: FileEntry, base: nat, data: bytes)
    requires c > 0 && f.chunks == Ids(base, |Chunks(data, c)|) && f.size == |data|
    requires forall k :: 0 <= k < |Chunks(data, c)| ==> Recovers(env, e, f.path, base + k, Chunks(data, c)[k])
    ensures FileOk(env, e, c, f, data)
  {
    hide Chunks, Recovers;
  }

  lemma OldFileOk(env: Env, c: nat, s: State, contents: seq<bytes>, e: Engram, i: nat)
    requires c > 0 && Inv(env, c, s, contents) && SameBelow(s.engram, e, s.totalChunks) && i < |s.files|
    ensures FileOk(env, e, c, s.files[i], contents[i])
  {
    hide FileOk, AllChunks, EngramOk, SameBelow;
    forall k | 0 <= k < |s.files[i].chunks| ensures s.files[i].chunks[k] < s.totalChunks {
      ChunkNumbers(s.files, s.totalChunks, i, k);
    }
    FileKept(env, s.engram, e, c, s.totalChunks, s.files[i], contents[i]);
  }

  lemma {:induction false} AllChunksSame(a: seq<FileEntry>, b: seq<FileEntry>)
    requires |a| == |b| && forall i :: 0 <= i < |a| ==> a[i].chunks == b[i].chunks
    ensures AllChunks(a) == AllChunks(b)
    decreases |a|
  {
    if a != [] {
      AllChunksSame(a[..|a| - 1], b[..|b| - 1]);
    }
  }

  lemma RemoveSpec(env: Env, c: nat, s: State, contents: seq<bytes>, path: string)
    requires c > 0 && Inv(env, c, s, contents) && FindLive(s.files, path).Some?
    ensures var t := RemoveFile(s, path).0;
      && Inv(env, c, t, contents) && Model(t.files, contents) == Model(s.files, contents) - {path}
      && FindLive(t.files, path).None?
  {
    hide EngramOk, AllChunks, Model, Recovers;
    var t, i := RemoveFile(s, path).0, FindLive(s.files, path).value;
    AllChunksSame(s.files, t.files);
    ModelRemove(s.files, contents, i);
    ModelDomain(t.files, contents, path);
  }

  // ---------------------------------------------------------------- reading back

  lemma LengthOfChunk(c: nat, f: FileEntry, data: bytes, i: nat)
    requires c > 0 && f.size == |data| && |f.chunks| == |Chunks(data, c)| && i < |f.chunks|
    ensures ChunkLength(f, c, i) == |Chunks(data, c)[i]| && c * i <= |data|
    ensures c * i + |Chunks(data, c)[i]| == Min(c * (i + 1), |data|)
  {
    ChunkAt(data, c, i);
    ChunkCount(data, c);
    assert c * (i + 1) == c * i + c;
    if i + 1 < |f.chunks| {
      MulMono(c, i + 2, |f.chunks|);
      assert c * (i + 2) == c * i + 2 * c;
    }
  }

  lemma {:induction false} ReadChunksExact(env: Env, e: Engram, c: nat, f: FileEntry, data: bytes, n: nat)
    requires c > 0 && FileOk(env, e, c, f, data) && n <= |f.chunks|
    ensures ReadChunks(env, e, c, f, n) == data[..Min(c * n, |data|)]
  {
    hide Chunks;
    if n == 0 {
      assert c * 0 == 0;
    } else {
      var i := n - 1;
      ReadChunksExact(env, e, c, f, data, i);
      LengthOfChunk(c, f, data, i);
      ChunkAt(data, c, i);
      assert Recovers(env, e, f.path, f.chunks[i], Chunks(data, c)[i]);
      assert data[..c * i] + data[c * i..Min(c * i + c, |data|)] == data[..Min(c * i + c, |data|)];
    }
  }

  /** An entry reads back as exactly the bytes it was made from. */
  lemma ReadFileExact(env: Env, e: Engram, c: nat, f: FileEntry, data: bytes)
    requires c > 0 && FileOk(env, e, c, f, data)
    ensures ReadFile(env, e, c, f) == data
  {
    hide Chunks, ReadChunks, Recovers;
    ReadChunksExact(env, e, c, f, data, |f.chunks|);
    ChunkCount(data, c);
    assert data[..|data|] == data;
  }

  /** Extraction writes the map that the entries stand for. */
  lemma {:induction false} ExtractModel(env: Env, c: nat, s: State, contents: seq<bytes>, n: nat)
    requires c > 0 && Inv(env, c, s, contents) && n <= |s.files|
    ensures Extract(env, c, s, n) == Model(s.files[..n], contents[..n])
    decreases n
  {
    hide FileOk, AllChunks, EngramOk, LiveDistinct, ReadFile;
    if n > 0 {
      ExtractModel(env, c, s, contents, n - 1);
      assert s.files[..n][..n - 1] == s.files[..n - 1] && contents[..n][..n - 1] == contents[..n - 1];
      ReadFileExact(env, s.engram, c, s.files[n - 1], contents[n - 1]);
    }
  }

  // ---------------------------------------------------------------- compaction

  lemma EmptyInv(env: Env, c: nat)
    requires c > 0
    ensures Inv(env, c, EmptyState, [])
  {
  }

  /** Rebuilding from the first `n` entries keeps what they stand for, whatever the new encoder does. */
  lemma {:induction false} RebuildSpec(env: Env, c: nat, s: State, contents: seq<bytes>, n: nat) returns (kept: seq<bytes>)
    requires env.codec.Sized() && c > 0 && Inv(env, c, s, contents) && n <= |s.files|
    ensures var t := Rebuild(env, c, s, n);
      Inv(env, c, t, kept) && Model(t.files, kept) == Model(s.files[..n], contents[..n])
    decreases n
  {
    hide Inv, Ingest, ReadFile;
    Whole(env, c, s, contents);
    if n == 0 {
      EmptyInv(env, c);
      kept := [];
    } else {
      kept := RebuildSpec(env, c, s, contents, n - 1);
      var t, f := Rebuild(env, c, s, n - 1), s.files[n - 1];
      assert s.files[..n][..n - 1] == s.files[..n - 1] && contents[..n][..n - 1] == contents[..n - 1];
      if !f.deleted {
        NotYetKept(env, c, s, contents, n - 1, t, kept);
        EntryOk(env, c, s, contents, n - 1);
        ReadFileExact(env, s.engram, c, f, contents[n - 1]);
        IngestSpec(env, env.reencode, c, t, kept, f.path, contents[n - 1]);
        kept := kept + [contents[n - 1]];
      }
    }
  }

  lemma EntryOk(env: Env, c: nat, s: State, contents: seq<bytes>, i: nat)
    requires c > 0 && Inv(env, c, s, contents) && i < |s.files|
    ensures FileOk(env, s.engram, c, s.files[i], contents[i]) && s.files[i].size == |contents[i]|
  {
    hide AllChunks, EngramOk, LiveDistinct, Recovers, Chunks;
  }

  /** No earlier entry has put the path of a live entry into the map. */
  lemma NotYetKept(env: Env, c: nat, s: State, contents: seq<bytes>, i: nat, t: State, kept: seq<bytes>)
    requires c > 0 && Inv(env, c, s, contents) && i < |s.files| && !s.files[i].deleted
    requires Inv(env, c, t, kept) && Model(t.files, kept) == Model(s.files[..i], contents[..i])
    ensures FindLive(t.files, s.files[i].path).None?
  {
    hide FileOk, AllChunks, EngramOk, Model;
    ModelDomain(t.files, kept, s.files[i].path);
    ModelDomain(s.files[..i], contents[..i], s.files[i].path);
  }

  // ---------------------------------------------------------------- the refinement

  /** One operation does to the map, and reports, what it should. */
  lemma OpRefines(env: Env, c: nat, s: State, contents: seq<bytes>, op: Op) returns (after: seq<bytes>)
    requires env.codec.Sized() && c > 0 && Inv(env, c, s, contents)
    ensures var (t, error) := ApplyOp(env, c, s, op);
      Inv(env, c, t, after) && (Model(t.files, after), error) == Spec(Model(s.files, contents), op)
  {
    hide Inv, Model, Ingest, Rebuild;
    Whole(env, c, s, contents);
    after := contents;
    match op
    case AddOp(path, content) =>
      Lookup(env, c, s, contents, path);
      if FindLive(s.files, path).None? && content.Some? {
        IngestSpec(env, env.codec.encode, c, s, contents, path, content.value);
        after := contents + [content.value];
      }
    case RemoveOp(path) =>
      Lookup(env, c, s, contents, path);
      if FindLive(s.files, path).Some? {
        RemoveSpec(env, c, s, contents, path);
      }
    case ModifyOp(path, content) =>
      Lookup(env, c, s, contents, path);
      if FindLive(s.files, path).Some? {
        RemoveSpec(env, c, s, contents, path);
        if content.Some? {
          IngestSpec(env, env.codec.encode, c, RemoveFile(s, path).0, contents, path, content.value);
          after := contents + [content.value];
          SetTwice(Model(s.files, contents), path, content.value);
        }
      }
    case CompactOp =>
      after := RebuildSpec(env, c, s, contents, |s.files|);
      Whole(env, c, s, contents);
  }

  lemma SetTwice(m: map<string, bytes>, path: string, data: bytes)
    ensures (m - {path})[path := data] == m[path := data]
  {
  }

  lemma Whole(env: Env, c: nat, s: State, contents: seq<bytes>)
    requires c > 0 && Inv(env, c, s, contents)
    ensures |contents| == |s.files| && s.files[..|s.files|] == s.files && contents[..|s.files|] == contents
  {
    hide FileOk, AllChunks, EngramOk, LiveDistinct;
  }

  lemma Lookup(env: Env, c: nat, s: State, contents: seq<bytes>, path: string)
    requires c > 0 && Inv(env, c, s, contents)
    ensures path in Model(s.files, contents) <==> FindLive(s.files, path).Some?
  {
    hide FileOk, AllChunks, EngramOk, LiveDistinct;
    ModelDomain(s.files, contents, path);
  }

  lemma {:induction false} RunInv(env: Env, c: nat, ops: seq<Op>) returns (contents: seq<bytes>)
    requires env.codec.Sized() && c > 0
    ensures Inv(env, c, Run(env, c, ops), contents) && Model(Run(env, c, ops).files, contents) == SpecRun(ops)
    decreases |ops|
  {
    hide Inv, Model, ApplyOp, Spec;
    if ops == [] {
      EmptyInv(env, c);
      contents := [];
      EmptyModel();
    } else {
      var n := |ops| - 1;
      contents := RunInv(env, c, ops[..n]);
      contents := OpRefines(env, c, Run(env, c, ops[..n]), contents, ops[n]);
    }
  }

  lemma EmptyModel()
    ensures Model([], []) == map[]
  {
  }

  /**
   * Any run of additions, removals, modifications and compactions, followed by extraction, yields the files of the
   * same run on a plain map, for any decoder; and the next operation reports what it would report on the map.
   */
  lemma RunRefinesMap(env: Env, c: nat, ops: seq<Op>, op: Op)
    requires env.codec.Sized() && c > 0
    ensures var s := Run(env, c, ops);
      && Extract(env, c, s, |s.files|) == SpecRun(ops)
      && ApplyOp(env, c, s, op).1 == Spec(SpecRun(ops), op).1
  {
    hide Inv, Model, ApplyOp, Spec, Run, SpecRun, Extract;
    var s := Run(env, c, ops);
    var contents := RunInv(env, c, ops);
    ExtractModel(env, c, s, contents, |s.files|);
    Whole(env, c, s, contents);
    var after := OpRefines(env, c, s, contents, op);
  }

  /** What each operation reports, and what it does to the files that can be extracted. */
  lemma OperationEffects(env: Env, c: nat, ops: seq<Op>, op: Op)
    requires env.codec.Sized() && c > 0
    ensures var s, t, error := Run(env, c, ops), Run(env, c, ops + [op]), ApplyOp(env, c, Run(env, c, ops), op).1;
      var before, after := Extract(env, c, s, |s.files|), Extract(env, c, t, |t.files|);
      && (op.AddOp? ==>
            && (error.None? <==> op.path !in before && op.content.Some?)
            && (error.Some? ==> error.value == if op.path in before then AlreadyExists else Unreadable)
            && after == (if error.None? then before[op.path := op.content.value] else before))
      && (op.RemoveOp? ==>
            && (error.None? <==> op.path in before) && (error.Some? ==> error.value == NotFound)
            && after == before - {op.path})
      && (op.ModifyOp? ==>
            && (error.None? <==> op.path in before && op.content.Some?)
            && (error.Some? ==> error.value == if op.path in before then Unreadable else NotFound)
            && after == (if error.None? then before[op.path := op.content.value] else before - {op.path}))
      && (op.CompactOp? ==> error.None? && after == before)
  {
    hide ApplyOp, Run, Extract;
    RunRefinesMap(env, c, ops, op);
    RunRefinesMap(env, c, ops + [op], op);
    assert (ops + [op])[..|ops|] == ops;
    var m := SpecRun(ops);
    if (op.RemoveOp? || op.ModifyOp?) && op.path !in m {
      assert m - {op.path} == m;
    }
  }

  /** Compaction changes nothing that can be extracted. */
  lemma CompactionInvisible(env: Env, c: nat, ops: seq<Op>)
    requires env.codec.Sized() && c > 0
    ensures var s, t := Run(env, c, ops), Run(env, c, ops + [CompactOp]);
      Extract(env, c, t, |t.files|) == Extract(env, c, s, |s.files|)
  {
    hide ApplyOp, Run, Extract;
    RunRefinesMap(env, c, ops, CompactOp);
    RunRefinesMap(env, c, ops + [CompactOp], CompactOp);
    assert (ops + [CompactOp])[..|ops|] == ops;
  }

  /** The positions of the live entries, in order. */
  ghost predicate Picks(at: seq<nat>, files: seq<FileEntry>)
  {
    && (forall k :: 0 <= k < |at| ==> at[k] < |files|) && (forall j, k :: 0 <= j < k < |at| ==> at[j] < at[k])
    && forall i :: 0 <= i < |files| ==> (i in at <==> !files[i].deleted)
  }

  /** The entries are those of the live files before, under their paths and sizes. */
  ghost predicate LiveAgain(after: seq<FileEntry>, before: seq<FileEntry>, at: seq<nat>)
  {
    && Picks(at, before) && |after| == |at|
    && forall k :: 0 <= k < |at| ==>
         !after[k].deleted && after[k].path == before[at[k]].path && after[k].size == before[at[k]].size
  }

  lemma {:induction false} RebuildLive(env: Env, c: nat, s: State, n: nat) returns (at: seq<nat>)
    requires env.codec.Sized() && c > 0 && n <= |s.files|
    ensures LiveAgain(Rebuild(env, c, s, n).files, s.files[..n], at)
  {
    hide PutChunks, Chunks, ReadFile;
    if n == 0 {
      at := [];
    } else {
      at := RebuildLive(env, c, s, n - 1);
      if !s.files[n - 1].deleted {
        at := at + [n - 1];
      }
    }
  }

  /** A live entry's path leads to the bytes it was made from. */
  lemma {:induction false} ModelAt(files: seq<FileEntry>, contents: seq<bytes>, i: nat)
    requires |files| == |contents| && i < |files| && !files[i].deleted && LiveDistinct(files)
    ensures files[i].path in Model(files, contents) && Model(files, contents)[files[i].path] == contents[i]
    decreases |files|
  {
    var n := |files| - 1;
    if i < n {
      ModelAt(files[..n], contents[..n], i);
    }
  }

  /** Every live file has as many chunks as its content has pieces. */
  lemma ChunkCounts(env: Env, c: nat, s: State, contents: seq<bytes>, i: nat)
    requires c > 0 && Inv(env, c, s, contents) && i < |s.files| && !s.files[i].deleted
    ensures var m := Model(s.files, contents);
      s.files[i].path in m && |s.files[i].chunks| == |Chunks(m[s.files[i].path], c)|
  {
    hide Recovers, Chunks, AllChunks, EngramOk;
    ModelAt(s.files, contents, i);
    assert FileOk(env, s.engram, c, s.files[i], contents[i]);
  }

  /**
   * Compaction leaves the entries of the live files, in order and under their paths and sizes, each with as many chunks as
   * its content has pieces; these are numbered from zero, and no other chunk is left.
   */
  lemma CompactionSpec(env: Env, c: nat, ops: seq<Op>) returns (at: seq<nat>)
    requires env.codec.Sized() && c > 0
    ensures var s, t := Run(env, c, ops), Run(env, c, ops + [CompactOp]);
      var files := Extract(env, c, s, |s.files|);
      && LiveAgain(t.files, s.files, at)
      && (forall k :: 0 <= k < |t.files| ==>
            t.files[k].path in files && |t.files[k].chunks| == |Chunks(files[t.files[k].path], c)|)
      && AllChunks(t.files) == Ids(0, t.totalChunks)
      && (forall id: nat :: id in t.engram.codebook <==> id < t.totalChunks)
      && forall id: nat :: id in t.engram.corrections.corrections <==> id < t.totalChunks
  {
    var s, t := Run(env, c, ops), Run(env, c, ops + [CompactOp]);
    assert (ops + [CompactOp])[..|ops|] == ops;
    assert t == Rebuild(env, c, s, |s.files|);
    hide Run, Rebuild, Chunks, AllChunks, Extract, SpecRun;
    assert s.files[..|s.files|] == s.files;
    at := RebuildLive(env, c, s, |s.files|);
    ChunksAccountedFor(env, c, ops + [CompactOp]);
    CompactionInvisible(env, c, ops);
    var contents := RunInv(env, c, ops + [CompactOp]);
    RunRefinesMap(env, c, ops + [CompactOp], CompactOp);
    forall k | 0 <= k < |t.files|
      ensures var files := Extract(env, c, s, |s.files|);
        t.files[k].path in files && |t.files[k].chunks| == |Chunks(files[t.files[k].path], c)|
    {
      ChunkCounts(env, c, t, contents, k);
    }
  }

  /**
   * At all times the chunk lists make up 0..total, exactly these chunks are stored and corrected, the statistics count
   * every chunk, and the root bundles them in order.
   */
  lemma ChunksAccountedFor(env: Env, c: nat, ops: seq<Op>)
    requires env.codec.Sized() && c > 0
    ensures var s := Run(env, c, ops);
      && AllChunks(s.files) == Ids(0, s.totalChunks)
      && s.engram.corrections.perfect + s.engram.corrections.corrected == s.totalChunks
      && s.engram.root == RootOf(env.codec, s.engram.codebook, s.totalChunks)
      && (forall id: nat :: id in s.engram.codebook <==> id < s.totalChunks)
      && forall id: nat :: id in s.engram.corrections.corrections <==> id < s.totalChunks
  {
    hide AllChunks, FileOk, LiveDistinct, Run, RootOf;
    var contents := RunInv(env, c, ops);
  }

  /**
   * An operation that reports an error and yet changes what is extracted is, exactly, a modification of an existing
   * file whose new content cannot be read; it loses that file and no other.
   */
  lemma FailedModification(env: Env, c: nat, ops: seq<Op>, op: Op)
    requires env.codec.Sized() && c > 0
    ensures var s, t := Run(env, c, ops), Run(env, c, ops + [op]);
      var before, after := Extract(env, c, s, |s.files|), Extract(env, c, t, |t.files|);
      var failed, loses := ApplyOp(env, c, s, op).1.Some?, op.ModifyOp? && op.content.None? && op.path in SpecRun(ops);
      && (failed && after != before <==> loses)
      && (loses ==> after == before - {op.path} && op.path in before)
  {
    hide ApplyOp, Run, Extract;
    RunRefinesMap(env, c, ops, op);
    RunRefinesMap(env, c, ops + [op], op);
    assert (ops + [op])[..|ops|] == ops;
    var m := SpecRun(ops);
    if op.ModifyOp? && op.path in m {
      assert op.path !in m - {op.path};
    }
  }

  /** One empty file is added, and a modification that cannot read its new content fails: the file is gone. */
  lemma FailedModificationLosesFile(env: Env, c: nat)
    requires env.codec.Sized() && c > 0
    ensures var add, change := AddOp("a", Some([])), ModifyOp("a", None);
      var s, t := Run(env, c, [add]), Run(env, c, [add, change]);
      && Extract(env, c, s, |s.files|) == map["a" := []] && ApplyOp(env, c, s, change).1 == Some(Unreadable)
      && Extract(env, c, t, |t.files|) == map[]
  {
    hide ApplyOp, Run, Extract;
    var add, change := AddOp("a", Some([])), ModifyOp("a", None);
    assert [add][..0] == [] && [add, change][..1] == [add];
    assert SpecRun([add]) == map["a" := []];
    RunRefinesMap(env, c, [add], change);
    RunRefinesMap(env, c, [add, change], change);
    assert SpecRun([add, change]) == map["a" := []] - {"a"} == map[];
  }
}
