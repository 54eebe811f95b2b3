/** The versioned manifest: file entries, the path index, and the version and chunk counters. */
module Manifest {
  import opened Bytes

  /** A chunk's place in its file. */
  datatype ChunkOffset = ChunkOffset(chunkId: nat, byteOffset: nat, byteLength: nat)
  {
    function EndOffset(): nat { byteOffset + byteLength }

    predicate Contains(offset: nat) { byteOffset <= offset < EndOffset() }
  }

  datatype Entry = Entry(path: string, size: nat, chunks: seq<nat>, chunkOffsets: Option<seq<ChunkOffset>>,
                         deleted: bool, codec: Option<nat>, version: nat)

  /** `VersionedFileEntry::new` */
  function NewEntry(path: string, size: nat, chunks: seq<nat>): Entry
  {
    Entry(path, size, chunks, None, false, None, 0)
  }

  datatype Mismatch = Mismatch(expected: nat, actual: nat)

  datatype State = State(files: seq<Entry>, index: map<string, nat>, version: nat, totalChunks: int)

  const EmptyManifest := State([], map[], 0, 0)

  function SumChunks(files: seq<Entry>): nat
  {
    if files == [] then 0 else SumChunks(files[..|files| - 1]) + |files[|files| - 1].chunks|
  }

  /** The index is exactly the inverse of the entries' paths. */
  ghost predicate IndexInverse(files: seq<Entry>, index: map<string, nat>)
  {
    && (forall p :: p in index ==> index[p] < |files| && files[index[p]].path == p)
    && (forall i :: 0 <= i < |files| ==> files[i].path in index && index[files[i].path] == i)
  }

  ghost predicate Injective(index: map<string, nat>)
  {
    forall p, q :: p in index && q in index && p != q ==> index[p] != index[q]
  }

  /** No two paths lead to the same entry, none leads nowhere, and every entry's chunks are counted. */
  ghost predicate Indexed(s: State)
  {
    && (forall p :: p in s.index ==> s.index[p] < |s.files|) && Injective(s.index)
    && s.totalChunks == SumChunks(s.files)
  }

  ghost predicate Valid(s: State)
    ensures Valid(s) ==> Indexed(s)
  {
    IndexInverse(s.files, s.index) && s.totalChunks == SumChunks(s.files)
  }

  function GetFile(s: State, path: string): Option<(Entry, nat)>
  {
    if path in s.index && s.index[path] < |s.files| then Some((s.files[s.index[path]], s.version)) else None
  }

  /** The entry under a path, without the manifest version. */
  function Lookup(s: State, path: string): Option<Entry>
  {
    var got := GetFile(s, path);
    if got.None? then None else Some(got.value.0)
  }

  function AddFile(s: State, e: Entry): Result<State, Mismatch>
  {
    if e.path in s.index then Err(Mismatch(0, s.version))
    else Ok(State(s.files + [e], s.index[e.path := |s.files|], s.version + 1, s.totalChunks + |e.chunks|))
  }

  function SetEntry(s: State, i: nat, e: Entry): State
    requires i < |s.files|
  {
    State(s.files[i := e], s.index, s.version + 1, s.totalChunks + |e.chunks| - |s.files[i].chunks|)
  }

  /** The version check that update and remove share: the position of the entry, if it has the expected version. */
  function Checked(s: State, path: string, expected: nat): (r: Result<nat, Mismatch>)
    requires Indexed(s)
    ensures r.Ok? ==> path in s.index && s.index[path] == r.value < |s.files| && s.files[r.value].version == expected
  {
    if path !in s.index then Err(Mismatch(expected, 0))
    else if s.files[s.index[path]].version != expected then Err(Mismatch(expected, s.files[s.index[path]].version))
    else Ok(s.index[path])
  }

  function UpdateFile(s: State, path: string, e: Entry, expected: nat): Result<State, Mismatch>
    requires Indexed(s)
  {
    var at := Checked(s, path, expected);
    if at.Err? then Err(at.error) else Ok(SetEntry(s, at.value, e.(version := expected + 1)))
  }

  function RemoveFile(s: State, path: string, expected: nat): Result<State, Mismatch>
    requires Indexed(s)
  {
    var at := Checked(s, path, expected);
    if at.Err? then Err(at.error)
    else Ok(SetEntry(s, at.value, s.files[at.value].(deleted := true, version := expected + 1)))
  }

  /** The entries that are not deleted, in order. */
  function Live(files: seq<Entry>): (r: seq<Entry>)
    ensures |r| <= |files|
  {
    if files == [] then []
    else Live(files[..|files| - 1]) + if files[|files| - 1].deleted then [] else [files[|files| - 1]]
  }

  /** The index rebuilt from the entries; a later entry would win. */
  function IndexOf(files: seq<Entry>): map<string, nat>
  {
    if files == [] then map[] else IndexOf(files[..|files| - 1])[files[|files| - 1].path := |files| - 1]
  }

  function Compact(s: State, expected: nat): Result<(State, nat), Mismatch>
  {
    if s.version != expected then Err(Mismatch(expected, s.version))
    else
      var kept := Live(s.files);
      var removed := |s.files| - |kept|;
      Ok((State(kept, IndexOf(kept), if removed > 0 then s.version + 1 else s.version, SumChunks(kept)), removed))
  }

  // ---------------------------------------------------------------- what each operation keeps and changes

  lemma SumSnoc(files: seq<Entry>, e: Entry)
    ensures SumChunks(files + [e]) == SumChunks(files) + |e.chunks|
  {
    assert (files + [e])[..|files|] == files;
  }

  lemma {:induction false} SumUpdate(files: seq<Entry>, i: nat, e: Entry)
    requires i < |files|
    ensures SumChunks(files[i := e]) == SumChunks(files) - |files[i].chunks| + |e.chunks|
    decreases |files|
  {
    var n := |files| - 1;
    if i < n {
      SumUpdate(files[..n], i, e);
      assert files[i := e][..n] == files[..n][i := e];
    } else {
      assert files[i := e][..n] == files[..n];
    }
  }

  /** A successful operation changes what one path leads to, and nothing else. */
  ghost predicate Points(s: State, t: State, path: string, e: Entry)
  {
    Indexed(t) && t.version == s.version + 1 && forall p :: Lookup(t, p) == if p == path then Some(e) else Lookup(s, p)
  }

  /** The same, and the paths agree with the index. */
  ghost predicate Sets(s: State, t: State, path: string, e: Entry)
  {
    Valid(t) && Points(s, t, path, e)
  }

  /** An addition succeeds exactly on a new path. */
  lemma AddFileSpec(s: State, e: Entry)
    requires Indexed(s)
    ensures AddFile(s, e).Ok? <==> Lookup(s, e.path).None?
    ensures AddFile(s, e).Ok? ==> Points(s, AddFile(s, e).value, e.path, e)
    ensures AddFile(s, e).Ok? && Valid(s) ==> Sets(s, AddFile(s, e).value, e.path, e)
    ensures AddFile(s, e).Err? ==> AddFile(s, e).error == Mismatch(0, s.version)
  {
    if e.path !in s.index {
      AddPoints(s, e);
      AddValid(s, e);
    }
    hide Points, Valid, Injective;
  }

  lemma AddPoints(s: State, e: Entry)
    requires Indexed(s) && e.path !in s.index
    ensures Points(s, AddFile(s, e).value, e.path, e)
  {
    SumSnoc(s.files, e);
    InjectiveAdd(s.index, e.path, |s.files|);
    hide Injective, SumChunks;
  }

  lemma AddValid(s: State, e: Entry)
    requires e.path !in s.index
    ensures Valid(s) ==> Valid(AddFile(s, e).value)
  {
    SumSnoc(s.files, e);
    hide SumChunks;
  }

  lemma InjectiveAdd(index: map<string, nat>, path: string, i: nat)
    requires Injective(index) && forall p :: p in index ==> index[p] < i
    ensures Injective(index[path := i])
  {
  }

  lemma SetEntrySpec(s: State, path: string, e: Entry)
    requires Indexed(s) && path in s.index
    ensures var i := s.index[path];
      && Points(s, SetEntry(s, i, e), path, e)
      && (Valid(s) ==> (Valid(SetEntry(s, i, e)) <==> e.path == path))
  {
    SumUpdate(s.files, s.index[path], e);
    assert SetEntry(s, s.index[path], e).files[s.index[path]] == e;
  }

  /**
   * An update succeeds exactly on the version it expects, installs the next one, and revives a deleted entry. The paths
   * still agree with the index afterwards if and only if the new entry carries the path it was installed under, which
   * nothing checks.
   */
  lemma UpdateFileSpec(s: State, path: string, e: Entry, expected: nat)
    requires Indexed(s)
    ensures var r, before := UpdateFile(s, path, e, expected), Lookup(s, path);
      && (r.Ok? <==> before.Some? && before.value.version == expected)
      && (r.Ok? ==> Points(s, r.value, path, e.(version := expected + 1)))
      && (r.Ok? && Valid(s) ==> (Valid(r.value) <==> e.path == path))
      && (r.Ok? && Valid(s) && e.path == path ==> Sets(s, r.value, path, e.(version := expected + 1)))
      && (r.Err? ==> r.error == Mismatch(expected, if before.None? then 0 else before.value.version))
  {
    var at := Checked(s, path, expected);
    hide Injective, Points, Valid;
    if at.Ok? {
      SetEntrySpec(s, path, e.(version := expected + 1));
    }
  }

  lemma RemoveFileSpec(s: State, path: string, expected: nat)
    requires Indexed(s)
    ensures var r, before := RemoveFile(s, path, expected), Lookup(s, path);
      && (r.Ok? <==> before.Some? && before.value.version == expected)
      && (r.Ok? ==> Points(s, r.value, path, before.value.(deleted := true, version := expected + 1)))
      && (r.Ok? && Valid(s) ==> Sets(s, r.value, path, before.value.(deleted := true, version := expected + 1)))
      && (r.Err? ==> r.error == Mismatch(expected, if before.None? then 0 else before.value.version))
  {
    var at := Checked(s, path, expected);
    hide Injective, Points;
    if at.Ok? {
      SetEntrySpec(s, path, s.files[at.value].(deleted := true, version := expected + 1));
    }
  }

  ghost predicate DistinctPaths(files: seq<Entry>)
  {
    forall i, j :: 0 <= i < j < |files| ==> files[i].path != files[j].path
  }

  lemma ValidDistinct(files: seq<Entry>, index: map<string, nat>)
    requires IndexInverse(files, index)
    ensures DistinctPaths(files)
  {
    forall i, j | 0 <= i < j < |files| ensures files[i].path != files[j].path {
      assert index[files[i].path] == i && index[files[j].path] == j;
    }
  }

  lemma {:induction false} IndexOfInverse(files: seq<Entry>)
    requires DistinctPaths(files)
    ensures IndexInverse(files, IndexOf(files))
    decreases |files|
  {
    if files != [] {
      var init := files[..|files| - 1];
      assert DistinctPaths(init);
      IndexOfInverse(init);
    }
  }

  /** A rebuilt index leads from each path to an entry that carries it. */
  lemma {:induction false} IndexOfPaths(files: seq<Entry>, p: string)
    requires p in IndexOf(files)
    ensures IndexOf(files)[p] < |files| && files[IndexOf(files)[p]].path == p
    decreases |files|
  {
    var n := |files| - 1;
    if p != files[n].path {
      IndexOfPaths(files[..n], p);
    }
  }

  lemma CompactIndexed(s: State, expected: nat)
    ensures Compact(s, expected).Ok? ==> Indexed(Compact(s, expected).value.0)
  {
    if s.version == expected {
      var kept := Live(s.files);
      forall p | p in IndexOf(kept) ensures IndexOf(kept)[p] < |kept| && kept[IndexOf(kept)[p]].path == p {
        IndexOfPaths(kept, p);
      }
    }
  }

  /** An entry survives exactly if it is not deleted. */
  lemma {:induction false} LiveMembers(files: seq<Entry>, e: Entry)
    ensures e in Live(files) <==> e in files && !e.deleted
    decreases |files|
  {
    if files != [] {
      var n := |files| - 1;
      LiveMembers(files[..n], e);
      assert files == files[..n] + [files[n]];
    }
  }

  lemma {:induction false} LiveDistinct(files: seq<Entry>)
    requires DistinctPaths(files)
    ensures DistinctPaths(Live(files))
    decreases |files|
  {
    if files != [] {
      var n := |files| - 1;
      assert DistinctPaths(files[..n]);
      LiveDistinct(files[..n]);
      var live := Live(files[..n]);
      forall i | 0 <= i < |live| ensures live[i].path != files[n].path {
        LiveMembers(files[..n], live[i]);
        assert live[i] in files[..n];
      }
    }
  }

  lemma {:induction false} LiveAll(files: seq<Entry>)
    ensures |Live(files)| == |files| <==> forall e :: e in files ==> !e.deleted
    decreases |files|
  {
    if files != [] {
      var n := |files| - 1;
      LiveAll(files[..n]);
      assert files == files[..n] + [files[n]];
    }
  }

  /** With distinct paths, a path leads to `e` exactly if `e` is among the entries. */
  lemma LookupMember(s: State, path: string, e: Entry)
    requires Valid(s)
    ensures Lookup(s, path) == Some(e) <==> e in s.files && e.path == path
  {
    if e in s.files && e.path == path {
      var i :| 0 <= i < |s.files| && s.files[i] == e;
      assert s.index[path] == i;
    }
  }

  ghost function DeletedAt(files: seq<Entry>): set<nat>
  {
    set i | 0 <= i < |files| && files[i].deleted
  }

  lemma {:induction false} LiveCount(files: seq<Entry>)
    ensures |Live(files)| + |DeletedAt(files)| == |files|
    decreases |files|
  {
    if files == [] {
      assert DeletedAt(files) == {};
    } else {
      var n := |files| - 1;
      LiveCount(files[..n]);
      assert DeletedAt(files) == DeletedAt(files[..n]) + if files[n].deleted then {n} else {};
    }
  }

  lemma LiveLast(files: seq<Entry>, e: Entry)
    ensures Live(files + [e]) == Live(files) + if e.deleted then [] else [e]
  {
    assert (files + [e])[..|files|] == files;
  }

  /** What is live in two lists of entries after one another is what is live in each, in order. */
  lemma {:induction false} LiveAppend(a: seq<Entry>, b: seq<Entry>)
    ensures Live(a + b) == Live(a) + Live(b)
    decreases |b|
  {
    if b == [] {
      assert a + b == a;
    } else {
      var front, e := b[..|b| - 1], b[|b| - 1];
      LiveAppend(a, front);
      LiveLast(a + front, e);
      LiveLast(front, e);
      hide Live;
      assert a + b == a + front + [e] && front + [e] == b;
    }
  }

  /**
   * Compaction keeps every live entry as it is and forgets the deleted ones; it counts these, and takes the next version if
   * there were any.
   */
  lemma CompactSpec(s: State, expected: nat)
    requires Valid(s)
    ensures var r := Compact(s, expected); var removed := |DeletedAt(s.files)|;
      && (r.Err? ==> r.error == Mismatch(expected, s.version))
      && (r.Ok? ==> r.value.1 == removed && r.value.0.version == s.version + if removed > 0 then 1 else 0)
    ensures var r := Compact(s, expected);
      && (r.Ok? <==> s.version == expected)
      && (r.Ok? ==> Valid(r.value.0) && forall p ::
            Lookup(r.value.0, p) == match Lookup(s, p) case Some(e) => if e.deleted then None else Some(e) case None => None)
  {
    LiveCount(s.files);
    if s.version == expected {
      var t := Compact(s, expected).value.0;
      ValidDistinct(s.files, s.index);
      LiveDistinct(s.files);
      IndexOfInverse(t.files);
      forall p
        ensures Lookup(t, p) == match Lookup(s, p) case Some(e) => if e.deleted then None else Some(e) case None => None
      {
        CompactLookup(s, t, p);
      }
    }
  }

  lemma CompactLookup(s: State, t: State, p: string)
    requires Valid(s) && Valid(t) && t.files == Live(s.files)
    ensures Lookup(t, p) == match Lookup(s, p) case Some(e) => if e.deleted then None else Some(e) case None => None
  {
    hide Lookup;
    var before, after := Lookup(s, p), Lookup(t, p);
    if before.Some? {
      LookupMember(s, p, before.value);
      LookupMember(t, p, before.value);
      LiveMembers(s.files, before.value);
    }
    if after.Some? {
      LookupMember(t, p, after.value);
      LookupMember(s, p, after.value);
      LiveMembers(s.files, after.value);
    }
  }

  // ---------------------------------------------------------------- whole runs

  datatype Op =
    | Add(e: Entry)
    | Update(path: string, e: Entry, expected: nat)
    | Remove(path: string, expected: nat)
    | Compaction(expected: nat)

  /** One operation; a refused one changes nothing. */
  ghost function ApplyOp(s: State, op: Op): State
    requires Indexed(s)
  {
    match op
    case Add(e) => (match AddFile(s, e) case Ok(t) => t case Err(_) => s)
    case Update(path, e, expected) => (match UpdateFile(s, path, e, expected) case Ok(t) => t case Err(_) => s)
    case Remove(path, expected) => (match RemoveFile(s, path, expected) case Ok(t) => t case Err(_) => s)
    case Compaction(expected) => (match Compact(s, expected) case Ok(r) => r.0 case Err(_) => s)
  }

  /** The operation is not an update that installs an entry under another path than its own. */
  ghost predicate Proper(s: State, op: Op)
    requires Indexed(s)
  {
    op.Update? && UpdateFile(s, op.path, op.e, op.expected).Ok? ==> op.e.path == op.path
  }

  lemma ApplyIndexed(s: State, op: Op)
    requires Indexed(s)
    ensures Indexed(ApplyOp(s, op)) && s.version <= ApplyOp(s, op).version <= s.version + 1
    ensures Valid(s) ==> (Valid(ApplyOp(s, op)) <==> Proper(s, op))
  {
    match op
    case Add(e) => AddFileSpec(s, e);
    case Update(path, e, expected) => UpdateFileSpec(s, path, e, expected);
    case Remove(path, expected) => RemoveFileSpec(s, path, expected);
    case Compaction(expected) =>
      CompactIndexed(s, expected);
      if Valid(s) {
        CompactSpec(s, expected);
      }
  }

  /** The manifest after a run from the empty one. */
  ghost function RunOps(ops: seq<Op>): (s: State)
    ensures Indexed(s)
    decreases |ops|
  {
    if ops == [] then EmptyManifest
    else
      var n := |ops| - 1;
      ApplyIndexed(RunOps(ops[..n]), ops[n]);
      ApplyOp(RunOps(ops[..n]), ops[n])
  }

  /** After any run each path leads to an entry of its own, the counter counts every entry's chunks, and versions only rise. */
  lemma {:induction false} RunIndexed(ops: seq<Op>, more: seq<Op>)
    ensures Indexed(RunOps(ops)) && RunOps(ops).version <= RunOps(ops + more).version
    decreases |more|
  {
    hide Indexed, ApplyOp, Valid, Proper;
    if more == [] {
      assert ops + more == ops;
    } else {
      var n := |more| - 1;
      RunIndexed(ops, more[..n]);
      assert (ops + more)[..|ops| + n] == ops + more[..n];
      ApplyIndexed(RunOps(ops + more[..n]), more[n]);
    }
  }

  /**
   * The index is the inverse of the entries' paths at every moment of a run if and only if no update of the run installs
   * an entry under another path than its own.
   */
  lemma ManifestInvariant(ops: seq<Op>)
    ensures (forall n :: 0 <= n <= |ops| ==> IndexInverse(RunOps(ops[..n]).files, RunOps(ops[..n]).index))
       <==> (forall n :: 0 <= n < |ops| ==> Proper(RunOps(ops[..n]), ops[n]))
  {
    hide IndexInverse, Proper, RunOps;
    if forall n :: 0 <= n <= |ops| ==> IndexInverse(RunOps(ops[..n]).files, RunOps(ops[..n]).index) {
      forall n | 0 <= n < |ops| ensures Proper(RunOps(ops[..n]), ops[n]) {
        RunStep(ops, n);
        assert IndexInverse(RunOps(ops[..n + 1]).files, RunOps(ops[..n + 1]).index);
      }
    }
    if forall n :: 0 <= n < |ops| ==> Proper(RunOps(ops[..n]), ops[n]) {
      forall n | 0 <= n <= |ops| ensures IndexInverse(RunOps(ops[..n]).files, RunOps(ops[..n]).index) {
        ProperRun(ops, n);
      }
    }
  }

  /** From an inverse index, one step leads to an inverse index exactly if it is proper. */
  lemma RunStep(ops: seq<Op>, n: nat)
    requires n < |ops| && IndexInverse(RunOps(ops[..n]).files, RunOps(ops[..n]).index)
    ensures IndexInverse(RunOps(ops[..n + 1]).files, RunOps(ops[..n + 1]).index) <==> Proper(RunOps(ops[..n]), ops[n])
  {
    hide IndexInverse, Proper, ApplyOp;
    assert ops[..n + 1][..n] == ops[..n];
    ApplyIndexed(RunOps(ops[..n]), ops[n]);
  }

  lemma {:induction false} ProperRun(ops: seq<Op>, n: nat)
    requires n <= |ops| && forall m :: 0 <= m < |ops| ==> Proper(RunOps(ops[..m]), ops[m])
    ensures IndexInverse(RunOps(ops[..n]).files, RunOps(ops[..n]).index)
    decreases n
  {
    hide Proper;
    if n > 0 {
      ProperRun(ops, n - 1);
      RunStep(ops, n - 1);
    }
  }

  /**
   * An update of "a" with an entry for "b" goes through: "a" leads to an entry for "b", which "b" does not find, and
   * after the next compaction "a" is gone and "b" is there.
   */
  lemma UpdateUnderAnotherPath()
    ensures var ops := [Add(NewEntry("a", 0, [])), Update("a", NewEntry("b", 0, []), 0), Compaction(2)];
      var s, t := RunOps(ops[..2]), RunOps(ops);
      && !IndexInverse(s.files, s.index)
      && Lookup(s, "a") == Some(NewEntry("b", 0, []).(version := 1)) && Lookup(s, "b") == None
      && Lookup(t, "a") == None && Lookup(t, "b") == Lookup(s, "a")
  {
    hide Indexed, Valid;
    var add, update := Add(NewEntry("a", 0, [])), Update("a", NewEntry("b", 0, []), 0);
    var ops := [add, update, Compaction(2)];
    assert ops[..2] == [add, update] && [add, update][..1] == [add] && [add][..0] == [];
    var a, b := NewEntry("a", 0, []), NewEntry("b", 0, []).(version := 1);
    assert RunOps([add]) == State([a], map["a" := 0], 1, 0);
    assert RunOps([add, update]) == State([b], map["a" := 0], 2, 0);
    assert [b][..0] == [];
    assert Live([b]) == [b] && IndexOf([b]) == map["b" := 0];
  }

  // ---------------------------------------------------------------- the object

  class VersionedManifest {
    var files: seq<Entry>
    var fileIndex: map<string, nat>
    var globalVersion: nat
    var totalChunks: int

    function Snapshot(): State
      reads this
    {
      State(files, fileIndex, globalVersion, totalChunks)
    }

    constructor ()
      ensures Snapshot() == EmptyManifest
    {
      files, fileIndex, globalVersion, totalChunks := [], map[], 0, 0;
    }

    method Get(path: string) returns (r: Option<(Entry, nat)>)
      ensures r == GetFile(Snapshot(), path)
    {
      if path !in fileIndex || fileIndex[path] >= |files| {
        return None;
      }
      r := Some((files[fileIndex[path]], globalVersion));
    }

    method Add(entry: Entry) returns (r: Result<nat, Mismatch>)
      requires Indexed(Snapshot())
      modifies this
      ensures Indexed(Snapshot()) && (old(Valid(Snapshot())) ==> Valid(Snapshot()))
      ensures match AddFile(old(Snapshot()), entry)
        case Ok(t) => Snapshot() == t && r == Ok(t.version)
        case Err(e) => Snapshot() == old(Snapshot()) && r == Err(e)
    {
      ApplyIndexed(Snapshot(), Op.Add(entry));
      if entry.path in fileIndex {
        return Err(Mismatch(0, globalVersion));
      }
      var idx := |files|;
      files := files + [entry];
      fileIndex := fileIndex[entry.path := idx];
      totalChunks := totalChunks + |entry.chunks|;
      globalVersion := globalVersion + 1;
      r := Ok(globalVersion);
    }

    method Update(path: string, entry: Entry, expected: nat) returns (r: Result<nat, Mismatch>)
      requires Indexed(Snapshot())
      modifies this
      ensures Indexed(Snapshot()) && (old(Valid(Snapshot())) ==> (Valid(Snapshot()) <==> r.Err? || entry.path == path))
      ensures match UpdateFile(old(Snapshot()), path, entry, expected)
        case Ok(t) => Snapshot() == t && r == Ok(t.version)
        case Err(e) => Snapshot() == old(Snapshot()) && r == Err(e)
    {
      ApplyIndexed(Snapshot(), Op.Update(path, entry, expected));
      hide SumChunks, Valid, Injective;
      if path !in fileIndex {
        return Err(Mismatch(expected, 0));
      }
      var idx := fileIndex[path];
      var current := files[idx];
      if current.version != expected {
        return Err(Mismatch(expected, current.version));
      }
      if |entry.chunks| >= |current.chunks| {
        totalChunks := totalChunks + (|entry.chunks| - |current.chunks|);
      } else {
        totalChunks := totalChunks - (|current.chunks| - |entry.chunks|);
      }
      files := files[idx := entry.(version := expected + 1)];
      globalVersion := globalVersion + 1;
      r := Ok(globalVersion);
    }

    method RemoveEntry(path: string, expected: nat) returns (r: Result<nat, Mismatch>)
      requires Indexed(Snapshot())
      modifies this
      ensures Indexed(Snapshot()) && (old(Valid(Snapshot())) ==> Valid(Snapshot()))
      ensures match RemoveFile(old(Snapshot()), path, expected)
        case Ok(t) => Snapshot() == t && r == Ok(t.version)
        case Err(e) => Snapshot() == old(Snapshot()) && r == Err(e)
    {
      ApplyIndexed(Snapshot(), Op.Remove(path, expected));
      hide SumChunks, Valid, Injective;
      if path !in fileIndex {
        return Err(Mismatch(expected, 0));
      }
      var idx := fileIndex[path];
      if files[idx].version != expected {
        return Err(Mismatch(expected, files[idx].version));
      }
      files := files[idx := files[idx].(deleted := true, version := expected + 1)];
      globalVersion := globalVersion + 1;
      r := Ok(globalVersion);
    }

    /** Drains the entries into a filtered list and rebuilds the index and the counter from it. */
    method CompactFiles(expected: nat) returns (r: Result<nat, Mismatch>)
      requires Indexed(Snapshot())
      modifies this
      ensures Indexed(Snapshot()) && (old(Valid(Snapshot())) ==> Valid(Snapshot()))
      ensures match Compact(old(Snapshot()), expected)
        case Ok(t) => Snapshot() == t.0 && r == Ok(t.1)
        case Err(e) => Snapshot() == old(Snapshot()) && r == Err(e)
    {
      hide Live, IndexOf, SumChunks, Valid;
      ApplyIndexed(Snapshot(), Compaction(expected));
      if globalVersion != expected {
        return Err(Mismatch(expected, globalVersion));
      }
      var kept := FilterLive(files);
      var removed := |files| - |kept|;
      var index, total := Reindex(kept);
      files, fileIndex, totalChunks := kept, index, total;
      if removed > 0 {
        globalVersion := globalVersion + 1;
      }
      r := Ok(removed);
    }
  }

  method Reindex(kept: seq<Entry>) returns (index: map<string, nat>, total: nat)
    ensures index == IndexOf(kept) && total == SumChunks(kept)
  {
    index, total := map[], 0;
    for i := 0 to |kept|
      invariant index == IndexOf(kept[..i])
      invariant total == SumChunks(kept[..i])
    {
      assert kept[..i + 1][..i] == kept[..i];
      index := index[kept[i].path := i];
      total := total + |kept[i].chunks|;
    }
    assert kept[..|kept|] == kept;
  }

  method FilterLive(files: seq<Entry>) returns (kept: seq<Entry>)
    ensures kept == Live(files)
  {
    kept := [];
    for i := 0 to |files|
      invariant kept == Live(files[..i])
    {
      assert files[..i + 1][..i] == files[..i];
      if !files[i].deleted {
        kept := kept + [files[i]];
      }
    }
    assert files[..|files|] == files;
  }
}
