/** The file system object: the loops of the program, computing what the specification functions say. */
module EmbrFSObject {
  import opened Bytes
  import opened Correction
  import EmbrFS
  import opened EmbrFSRefinement

  type Entry = EmbrFS.FileEntry

  /** `extract` for one entry: decode, correct and concatenate its chunks, then truncate. */
  method ExtractFile(env: EmbrFS.Env, e: EmbrFS.Engram, c: nat, f: Entry) returns (data: bytes)
    requires env.codec.Sized() && c > 0
    ensures data == EmbrFS.ReadFile(env, e, c, f)
  {
    hide ApplyStored;
    data := [];
    for i := 0 to |f.chunks|
      invariant data == EmbrFS.ReadChunks(env, e, c, f, i)
    {
      var id := f.chunks[i];
      if id in e.codebook {
        var size := EmbrFS.ChunkLength(f, c, i);
        var decoded := env.codec.decode(e.codebook[id], f.path, size);
        var corrected := ApplyStored(e.corrections, env.hash, id, decoded);
        data := data + if corrected.Some? then corrected.value else decoded;
      }
    }
    data := data[..Min(f.size, |data|)];
  }

  /** The loop that stores a file's chunks, bundles them into the root, and lists their numbers. */
  method StoreChunks(env: EmbrFS.Env, enc: EmbrFS.Encoder, e: EmbrFS.Engram, path: string, base: nat, chunks: seq<bytes>)
    returns (r: EmbrFS.Engram, ids: seq<nat>)
    requires env.codec.Sized()
    ensures r == EmbrFS.PutChunks(env, enc, e, path, base, chunks) && ids == EmbrFS.Ids(base, |chunks|)
  {
    hide CorrectionFor, StorageSize;
    var root, codebook: map<nat, SparseVec>, corrections := e.root, e.codebook, e.corrections;
    ids := [];
    for i := 0 to |chunks|
      invariant EmbrFS.Engram(root, codebook, corrections) == EmbrFS.PutChunks(env, enc, e, path, base, chunks[..i])
      invariant ids == EmbrFS.Ids(base, i)
    {
      assert chunks[..i + 1][..i] == chunks[..i];
      var encoded := enc(chunks[i], path);
      var decoded := env.codec.decode(encoded, path, |chunks[i]|);
      corrections := Add(corrections, env.hash, base + i, chunks[i], decoded);
      root := env.codec.bundle(root, encoded);
      codebook := codebook[base + i := encoded];
      ids := ids + [base + i];
    }
    assert chunks[..|chunks|] == chunks;
    r := EmbrFS.Engram(root, codebook, corrections);
  }

  class FileSystem {
    var engram: EmbrFS.Engram
    var files: seq<Entry>
    var totalChunks: nat
    const chunkSize: nat
    const env: EmbrFS.Env
    /** The bytes that the entries were made from. */
    ghost var contents: seq<bytes>

    function Snapshot(): EmbrFS.State
      reads this
    {
      EmbrFS.State(engram, files, totalChunks)
    }

    ghost predicate Valid()
      reads this
    {
      chunkSize > 0 && env.codec.Sized() && EmbrFS.Inv(env, chunkSize, Snapshot(), contents)
    }

    /** The map from paths to bytes that the file system stands for. */
    ghost function Files(): map<string, bytes>
      reads this
      requires Valid()
    {
      EmbrFS.Model(files, contents)
    }

    constructor (env: EmbrFS.Env, chunkSize: nat)
      requires chunkSize > 0 && env.codec.Sized()
      ensures Valid() && Files() == map[] && this.env == env && this.chunkSize == chunkSize
    {
      this.env, this.chunkSize := env, chunkSize;
      engram, files, totalChunks := EmbrFS.EmptyEngram, [], 0;
      contents := [];
      new;
      EmptyInv(env, chunkSize);
      EmptyModel();
    }

    method AddFile(path: string, content: Option<bytes>) returns (error: Option<EmbrFS.IoError>)
      requires Valid()
      modifies this
      ensures Valid() && (Files(), error) == EmbrFS.Spec(old(Files()), EmbrFS.AddOp(path, content))
    {
      ghost var after := OpRefines(env, chunkSize, Snapshot(), contents, EmbrFS.AddOp(path, content));
      hide EmbrFS.Inv, EmbrFS.Model, EmbrFS.PutChunks, EmbrFS.Spec, EmbrFS.Ids;
      var at := Find(path);
      if at.Some? {
        error := Some(EmbrFS.AlreadyExists);
      } else {
        error := Ingest(path, content);
      }
      contents := after;
    }

    method RemoveFile(path: string) returns (error: Option<EmbrFS.IoError>)
      requires Valid()
      modifies this
      ensures Valid() && (Files(), error) == EmbrFS.Spec(old(Files()), EmbrFS.RemoveOp(path))
    {
      ghost var after := OpRefines(env, chunkSize, Snapshot(), contents, EmbrFS.RemoveOp(path));
      hide EmbrFS.Inv, EmbrFS.Model, EmbrFS.Spec;
      error := MarkDeleted(path);
      contents := after;
    }

    method ModifyFile(path: string, content: Option<bytes>) returns (error: Option<EmbrFS.IoError>)
      requires Valid()
      modifies this
      ensures Valid() && (Files(), error) == EmbrFS.Spec(old(Files()), EmbrFS.ModifyOp(path, content))
    {
      ghost var after := OpRefines(env, chunkSize, Snapshot(), contents, EmbrFS.ModifyOp(path, content));
      hide EmbrFS.Inv, EmbrFS.Model, EmbrFS.PutChunks, EmbrFS.Spec, EmbrFS.Ids;
      error := MarkDeleted(path);
      if error.None? {
        error := Ingest(path, content);
      }
      contents := after;
    }

    /** Reads every live file out of the old engram and encodes it anew, numbering chunks from zero. */
    method Compact()
      requires Valid()
      modifies this
      ensures Valid() && Files() == old(Files())
      ensures exists at :: LiveAgain(files, old(files), at)
      ensures forall k :: 0 <= k < |files| ==>
        files[k].path in Files() && |files[k].chunks| == |Chunks(Files()[files[k].path], chunkSize)|
      ensures EmbrFS.AllChunks(files) == EmbrFS.Ids(0, totalChunks)
      ensures forall id: nat :: id in engram.codebook <==> id < totalChunks
      ensures forall id: nat :: id in engram.corrections.corrections <==> id < totalChunks
    {
      hide EmbrFS.Inv, EmbrFS.Model, EmbrFS.Rebuild, EmbrFS.AllChunks, EmbrFS.Ids, Chunks, LiveAgain;
      ghost var after := CompactRefines(env, chunkSize, Snapshot(), contents);
      var newEngram, newFiles, newTotal := EncodeLive();
      ghost var before := Snapshot();
      engram, files, totalChunks := newEngram, newFiles, newTotal;
      contents := after;
      Rebuilt(env, chunkSize, before, Snapshot(), after);
    }

    /** The loop of the compaction over the old entries. */
    method EncodeLive() returns (newEngram: EmbrFS.Engram, newFiles: seq<Entry>, newTotal: nat)
      requires chunkSize > 0 && env.codec.Sized()
      ensures EmbrFS.State(newEngram, newFiles, newTotal) == EmbrFS.Rebuild(env, chunkSize, Snapshot(), |files|)
    {
      hide EmbrFS.PutChunks, EmbrFS.Ids, EmbrFS.ReadFile, Chunks;
      newEngram, newFiles, newTotal := EmbrFS.EmptyEngram, [], 0;
      for i := 0 to |files|
        invariant EmbrFS.State(newEngram, newFiles, newTotal) == EmbrFS.Rebuild(env, chunkSize, Snapshot(), i)
      {
        var oldFile := files[i];
        if !oldFile.deleted {
          var data := ExtractFile(env, engram, chunkSize, oldFile);
          var ids: seq<nat>;
          newEngram, ids := StoreChunks(env, env.reencode, newEngram, oldFile.path, newTotal, Chunks(data, chunkSize));
          newFiles := newFiles + [EmbrFS.FileEntry(oldFile.path, oldFile.size, ids, false)];
          newTotal := newTotal + |ids|;
        }
      }
    }

    /** What `extract` leaves in the output directory. */
    method ExtractAll() returns (out: map<string, bytes>)
      requires Valid()
      ensures out == Files()
    {
      ExtractModel(env, chunkSize, Snapshot(), contents, |files|);
      Whole(env, chunkSize, Snapshot(), contents);
      hide EmbrFS.Inv, EmbrFS.Model, EmbrFS.ReadFile;
      out := map[];
      for i := 0 to |files|
        invariant out == EmbrFS.Extract(env, chunkSize, Snapshot(), i)
      {
        if !files[i].deleted {
          var data := ExtractFile(env, engram, chunkSize, files[i]);
          out := out[files[i].path := data];
        }
      }
    }

    /** `ingest_file` */
    method Ingest(path: string, content: Option<bytes>) returns (error: Option<EmbrFS.IoError>)
      requires chunkSize > 0 && env.codec.Sized()
      modifies this`engram, this`files, this`totalChunks
      ensures (Snapshot(), error) == EmbrFS.IngestFile(env, chunkSize, old(Snapshot()), path, content)
    {
      hide EmbrFS.PutChunks, EmbrFS.Ids;
      if content.None? {
        return Some(EmbrFS.Unreadable);
      }
      var chunks := Chunks(content.value, chunkSize);
      var ids: seq<nat>;
      engram, ids := StoreChunks(env, env.codec.encode, engram, path, totalChunks, chunks);
      files := files + [EmbrFS.FileEntry(path, |content.value|, ids, false)];
      totalChunks := totalChunks + |ids|;
      error := None;
    }

    /** `remove_file` */
    method MarkDeleted(path: string) returns (error: Option<EmbrFS.IoError>)
      modifies this`files
      ensures (Snapshot(), error) == EmbrFS.RemoveFile(old(Snapshot()), path)
    {
      var at := Find(path);
      if at.None? {
        return Some(EmbrFS.NotFound);
      }
      files := files[at.value := files[at.value].(deleted := true)];
      error := None;
    }

    method Find(path: string) returns (at: Option<nat>)
      ensures at == EmbrFS.FindLive(files, path)
    {
      for i := 0 to |files|
        invariant EmbrFS.FindLive(files[..i], path).None?
      {
        assert files[..i + 1][..i] == files[..i];
        if files[i].path == path && !files[i].deleted {
          FirstFound(files, path, i);
          return Some(i);
        }
      }
      assert files[..|files|] == files;
      at := None;
    }
  }

  lemma {:induction false} FirstFound(files: seq<Entry>, path: string, i: nat)
    requires i < |files| && EmbrFS.FindLive(files[..i], path).None? && files[i].path == path && !files[i].deleted
    ensures EmbrFS.FindLive(files, path) == Some(i)
    decreases |files|
  {
    var n := |files| - 1;
    if i < n {
      assert files[..n][..i] == files[..i];
      FirstFound(files[..n], path, i);
    }
  }

  lemma CompactRefines(env: EmbrFS.Env, c: nat, s: EmbrFS.State, contents: seq<bytes>) returns (after: seq<bytes>)
    requires env.codec.Sized() && c > 0 && EmbrFS.Inv(env, c, s, contents)
    ensures var t := EmbrFS.Rebuild(env, c, s, |s.files|);
      EmbrFS.Inv(env, c, t, after) && EmbrFS.Model(t.files, after) == EmbrFS.Model(s.files, contents)
  {
    after := OpRefines(env, c, s, contents, EmbrFS.CompactOp);
    hide EmbrFS.Inv, EmbrFS.Model, EmbrFS.Rebuild;
  }

  /** What is left after rebuilding. */
  lemma Rebuilt(env: EmbrFS.Env, c: nat, s: EmbrFS.State, t: EmbrFS.State, contents: seq<bytes>)
    requires env.codec.Sized() && c > 0 && t == EmbrFS.Rebuild(env, c, s, |s.files|) && EmbrFS.Inv(env, c, t, contents)
    ensures exists at :: LiveAgain(t.files, s.files, at)
    ensures |contents| == |t.files| && forall k :: 0 <= k < |t.files| ==>
      && t.files[k].path in EmbrFS.Model(t.files, contents)
      && |t.files[k].chunks| == |Chunks(EmbrFS.Model(t.files, contents)[t.files[k].path], c)|
    ensures EmbrFS.AllChunks(t.files) == EmbrFS.Ids(0, t.totalChunks)
    ensures forall id: nat :: id in t.engram.codebook <==> id < t.totalChunks
    ensures forall id: nat :: id in t.engram.corrections.corrections <==> id < t.totalChunks
  {
    hide EmbrFS.Rebuild, EmbrFS.FileOk, EmbrFS.AllChunks, EmbrFS.LiveDistinct, EmbrFS.Model, EmbrFS.RootOf, Chunks;
    assert s.files[..|s.files|] == s.files;
    var at := RebuildLive(env, c, s, |s.files|);
    forall k | 0 <= k < |t.files|
      ensures var m := EmbrFS.Model(t.files, contents);
        t.files[k].path in m && |t.files[k].chunks| == |Chunks(m[t.files[k].path], c)|
    {
      ChunkCounts(env, c, t, contents, k);
    }
  }
}
