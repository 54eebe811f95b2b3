/** The hierarchy of sub-engrams that bundling builds, and what holds of it. */
module HierBuild {
  import opened Bytes
  import opened Sorting
  import opened HierQuery
  import opened PathPrefixes
  import opened SubEngramIds

  datatype StoredFile = StoredFile(path: string, chunks: seq<nat>)

  /** `root` stands for the bundling, permuting and thinning of the vectors under one prefix. */
  datatype Source = Source(
    files: seq<StoredFile>, codebook: map<nat, SparseVec>, maxChunks: Option<nat>,
    root: (nat, string, seq<StoredFile>) -> SparseVec)

  // The files under a prefix

  predicate Under(f: StoredFile, level: nat, prefix: string)
  {
    level < Depth(f.path) && Prefix(f.path, level) == prefix
  }

  function UnderFiles(files: seq<StoredFile>, level: nat, prefix: string): seq<StoredFile>
  {
    if files == [] then []
    else
      var n := |files| - 1;
      UnderFiles(files[..n], level, prefix) + if Under(files[n], level, prefix) then [files[n]] else []
  }

  lemma {:induction false} UnderFilesAre(files: seq<StoredFile>, level: nat, prefix: string)
    ensures forall f :: f in UnderFiles(files, level, prefix) <==> f in files && Under(f, level, prefix)
  {
    if files != [] {
      var n := |files| - 1;
      UnderFilesAre(files[..n], level, prefix);
      assert files == files[..n] + [files[n]];
      hide Under;
    }
  }

  function Prefixes(files: seq<StoredFile>, level: nat): set<string>
  {
    set f | f in files && level < Depth(f.path) :: Prefix(f.path, level)
  }

  /** A file is under the part of its path that stops before a slash, or is all of it, with `level` slashes inside. */
  lemma UnderIsCut(f: StoredFile, level: nat, prefix: string)
    ensures Under(f, level, prefix) <==> Cut(f.path, level, prefix)
  {
    PrefixIsCut(f.path, level, prefix);
  }

  /** The prefixes of a level are exactly those parts of the files' paths. */
  lemma PrefixesSpec(files: seq<StoredFile>, level: nat, prefix: string)
    ensures prefix in Prefixes(files, level) <==> exists f :: f in files && Cut(f.path, level, prefix)
  {
    hide Depth, Prefix, Cut;
    forall f: StoredFile ensures level < Depth(f.path) && Prefix(f.path, level) == prefix <==> Cut(f.path, level, prefix) {
      PrefixIsCut(f.path, level, prefix);
    }
  }

  // The sub-engrams

  predicate NatLess(a: nat, b: nat)
  {
    a < b
  }

  lemma Orders()
    ensures TotalOrder(NatLess) && TotalOrder(StringLess)
  {
    forall a, b ensures (StringLess(a, b) ==> !StringLess(b, a)) && (a != b ==> StringLess(a, b) || StringLess(b, a)) {
      StringOrder(a, b);
    }
    forall a, b, c ensures !StringLess(b, a) && !StringLess(c, b) ==> !StringLess(c, a) {
      NotLess(a, b, c);
    }
  }

  /** The chunks of the codebook that the files under a prefix list. */
  ghost function Wanted(src: Source, level: nat, prefix: string): set<nat>
  {
    set c | c in src.codebook && exists f :: f in src.files && Under(f, level, prefix) && c in f.chunks
  }

  ghost function ChunkList(src: Source, level: nat, prefix: string): (s: seq<nat>)
    ensures AscendingOf(NatLess, s, Wanted(src, level, prefix))
  {
    Orders();
    Ascend(NatLess, Wanted(src, level, prefix))
  }

  /** The ids of the next-level prefixes below a prefix. */
  function ChildIds(files: seq<StoredFile>, level: nat, prefix: string): set<string>
  {
    set f | f in files && Under(f, level, prefix) && level + 1 < Depth(f.path) :: NodeId(level + 1, Prefix(f.path, level + 1))
  }

  predicate TooMany(maxChunks: Option<nat>, count: nat)
  {
    maxChunks.Some? && 0 < maxChunks.value < count
  }

  function Cap(src: Source): nat
  {
    match src.maxChunks case Some(n) => n case None => 0
  }

  function Pieces(ids: seq<nat>, size: nat): (r: seq<seq<nat>>)
    requires size > 0
  {
    if |ids| <= size then (if ids == [] then [] else [ids]) else [ids[..size]] + Pieces(ids[size..], size)
  }

  /** The lists that the shards of a prefix share out: none where the node can hold all its chunks. */
  ghost function ShardLists(src: Source, level: nat, prefix: string): seq<seq<nat>>
  {
    var ids := ChunkList(src, level, prefix);
    if TooMany(src.maxChunks, |ids|) then Pieces(ids, src.maxChunks.value) else []
  }

  ghost function ShardIds(src: Source, level: nat, prefix: string): set<string>
  {
    set i | 0 <= i < |ShardLists(src, level, prefix)| :: ShardId(NodeId(level, prefix), i)
  }

  function ListedChunks(files: seq<StoredFile>): nat
  {
    if files == [] then 0 else ListedChunks(files[..|files| - 1]) + |files[|files| - 1].chunks|
  }

  predicate PathLess(a: StoredFile, b: StoredFile)
  {
    StringLess(a.path, b.path)
  }

  function Root(src: Source, level: nat, prefix: string): SparseVec
  {
    src.root(level, prefix, SortBy(PathLess, UnderFiles(src.files, level, prefix)))
  }

  ghost function NodeOf(src: Source, level: nat, prefix: string): SubEngram
  {
    var ids := ChunkList(src, level, prefix);
    Orders();
    SubEngram(NodeId(level, prefix), Root(src, level, prefix),
              if TooMany(src.maxChunks, |ids|) then [] else ids,
              ListedChunks(SortBy(PathLess, UnderFiles(src.files, level, prefix))),
              Ascend(StringLess, ChildIds(src.files, level, prefix) + ShardIds(src, level, prefix)))
  }

  ghost function ShardOf(src: Source, level: nat, prefix: string, i: nat): SubEngram
    requires i < |ShardLists(src, level, prefix)|
  {
    var ids := ShardLists(src, level, prefix)[i];
    SubEngram(ShardId(NodeId(level, prefix), i), Root(src, level, prefix), ids, |ids|, [])
  }

  ghost predicate IsNode(src: Source, level: nat, prefix: string)
  {
    prefix in Prefixes(src.files, level)
  }

  ghost predicate IsShard(src: Source, level: nat, prefix: string, i: nat)
  {
    IsNode(src, level, prefix) && i < |ShardLists(src, level, prefix)|
  }

  /** A prefix of some file is this prefix with the suffix of its shard `i`. */
  ghost predicate Mimicked(src: Source, level: nat, prefix: string, i: nat)
  {
    IsNode(src, level, prefix + Suffix(i))
  }

  type SubEngrams = map<string, SubEngram>

  /** What is built: a node for each prefix, and every shard whose id is not that of a node. */
  ghost predicate Built(src: Source, subs: SubEngrams)
  {
    && (forall level, prefix :: IsNode(src, level, prefix) ==>
          NodeId(level, prefix) in subs && subs[NodeId(level, prefix)] == NodeOf(src, level, prefix))
    && (forall level, prefix, i :: IsShard(src, level, prefix, i) ==>
          && ShardId(NodeId(level, prefix), i) in subs
          && (!Mimicked(src, level, prefix, i) ==> subs[ShardId(NodeId(level, prefix), i)] == ShardOf(src, level, prefix, i)))
    && forall id :: id in subs ==> Named(src, id)
  }

  ghost predicate Named(src: Source, id: string)
  {
    exists level, prefix :: IsNode(src, level, prefix) &&
      (id == NodeId(level, prefix) || id in ShardIds(src, level, prefix))
  }

  /** Every sub-engram is the node of a prefix or a childless shard. */
  lemma Classify(src: Source, subs: SubEngrams, id: string) returns (level: nat, prefix: string, i: nat)
    requires Built(src, subs) && id in subs
    ensures IsNode(src, level, prefix)
    ensures
      || (id == NodeId(level, prefix) && subs[id] == NodeOf(src, level, prefix))
      || (IsShard(src, level, prefix, i) && id == ShardId(NodeId(level, prefix), i) && subs[id] == ShardOf(src, level, prefix, i))
  {
    assert Named(src, id);
    hide NodeId, ShardId, ShardLists, IsNode, NodeOf, ShardOf;
    level, prefix :| IsNode(src, level, prefix) && (id == NodeId(level, prefix) || id in ShardIds(src, level, prefix));
    i := 0;
    if id != NodeId(level, prefix) {
      i :| 0 <= i < |ShardLists(src, level, prefix)| && id == ShardId(NodeId(level, prefix), i);
      assert IsShard(src, level, prefix, i);
      if Mimicked(src, level, prefix, i) {
        ShardIdIsNodeId(level, prefix, i);
        prefix := prefix + Suffix(i);
      }
    }
  }

  /** `p` is a prefix of the next level and extends `prefix`. */
  ghost predicate NextNode(src: Source, level: nat, prefix: string, p: string)
  {
    IsNode(src, level + 1, p) && prefix < p
  }

  lemma NodeChild(src: Source, level: nat, prefix: string, child: string)
    requires child in NodeOf(src, level, prefix).children
    ensures child in ShardIds(src, level, prefix) ||
      exists p :: NextNode(src, level, prefix, p) && child == NodeId(level + 1, p)
  {
    hide NodeId, Prefix, SortBy, Split;
    assert child in ChildIds(src.files, level, prefix) + ShardIds(src, level, prefix);
    if child in ChildIds(src.files, level, prefix) {
      var f :| f in src.files && Under(f, level, prefix) && level + 1 < Depth(f.path)
        && child == NodeId(level + 1, Prefix(f.path, level + 1));
      NextPrefix(f.path, level);
      assert NextNode(src, level, prefix, Prefix(f.path, level + 1));
    }
  }

  /** Every child id is the id of a sub-engram. */
  lemma ChildrenExist(src: Source, subs: SubEngrams, id: string, child: string)
    requires Built(src, subs) && id in subs && child in subs[id].children
    ensures child in subs
  {
    var level, prefix, i := Classify(src, subs, id);
    hide NodeOf, IsNode, ShardLists, NodeId, ShardId;
    if subs[id] == NodeOf(src, level, prefix) {
      NodeChild(src, level, prefix, child);
      if child in ShardIds(src, level, prefix) {
        var j :| 0 <= j < |ShardLists(src, level, prefix)| && child == ShardId(NodeId(level, prefix), j);
        assert IsShard(src, level, prefix, j);
      }
    }
  }

  /** A child's id is longer than its parent's. */
  lemma ChildLonger(src: Source, subs: SubEngrams, id: string, child: string)
    requires Built(src, subs) && id in subs && child in subs[id].children
    ensures |child| > |id|
  {
    var level, prefix, i := Classify(src, subs, id);
    hide NodeOf, IsNode, ShardLists, NodeId, ShardId, Mimicked;
    if id == NodeId(level, prefix) && subs[id] == NodeOf(src, level, prefix) {
      NodeChild(src, level, prefix, child);
      if child in ShardIds(src, level, prefix) {
        var j :| 0 <= j < |ShardLists(src, level, prefix)| && child == ShardId(NodeId(level, prefix), j);
        LongerIds(level, prefix, prefix + "/", j);
      } else {
        var p :| NextNode(src, level, prefix, p) && child == NodeId(level + 1, p);
        LongerIds(level, prefix, p, 0);
      }
    }
  }

  /** A walk along child edges. */
  ghost predicate Walk(subs: SubEngrams, w: seq<string>)
  {
    forall i :: 0 <= i < |w| - 1 ==> w[i] in subs && w[i + 1] in subs[w[i]].children
  }

  lemma {:induction false} WalkGrows(src: Source, subs: SubEngrams, w: seq<string>, i: nat, j: nat)
    requires Built(src, subs) && Walk(subs, w) && i < j < |w|
    ensures |w[i]| < |w[j]|
    decreases j
  {
    hide Built;
    assert w[j - 1] in subs && w[j - 1 + 1] in subs[w[j - 1]].children;
    ChildLonger(src, subs, w[j - 1], w[j]);
    if i < j - 1 {
      WalkGrows(src, subs, w, i, j - 1);
    }
  }

  /** No walk comes back to where it was: the child edges have no cycle. */
  lemma Acyclic(src: Source, subs: SubEngrams, w: seq<string>)
    requires Built(src, subs) && Walk(subs, w)
    ensures NoDuplicates(w)
  {
    hide Built, Walk;
    forall i, j | 0 <= i < j < |w| ensures w[i] != w[j] {
      WalkGrows(src, subs, w, i, j);
    }
  }

  // The chunks of a prefix

  lemma {:induction false} PiecesSpec(ids: seq<nat>, size: nat)
    requires size > 0 && Ascending(NatLess, ids)
    ensures var r := Pieces(ids, size);
      && (forall x :: x in ids <==> exists i :: 0 <= i < |r| && x in r[i])
      && (forall i :: 0 <= i < |r| ==> 0 < |r[i]| <= size)
      && forall i, j, x, y :: 0 <= i < j < |r| && x in r[i] && y in r[j] ==> x < y
    decreases |ids|
  {
    var r := Pieces(ids, size);
    if |ids| > size {
      var rest := Pieces(ids[size..], size);
      PiecesSpec(ids[size..], size);
      assert ids == ids[..size] + ids[size..];
      hide Pieces;
      forall x ensures x in ids <==> exists i :: 0 <= i < |r| && x in r[i] {
        if x in ids[size..] {
          var i :| 0 <= i < |rest| && x in rest[i];
          assert x in r[i + 1];
        } else if x in ids[..size] {
          assert x in r[0];
        }
      }
      forall i, j, x, y | 0 <= i < j < |r| && x in r[i] && y in r[j] ensures x < y {
        if i == 0 {
          assert y in rest[j - 1] && y in ids[size..];
        } else {
          assert x in rest[i - 1] && y in rest[j - 1];
        }
      }
    } else if ids != [] {
      assert r == [ids];
      assert forall x :: x in ids ==> x in r[0];
    }
  }

  /** A sub-engram or one of its own shards holds the chunk. */
  ghost predicate Holds(subs: SubEngrams, id: string, c: nat)
    requires id in subs
  {
    c in subs[id].chunkIds || exists i :: ShardHolds(subs, id, i, c)
  }

  ghost predicate ShardHolds(subs: SubEngrams, id: string, i: nat, c: nat)
    requires id in subs
  {
    ShardId(id, i) in subs[id].children && ShardId(id, i) in subs && c in subs[ShardId(id, i)].chunkIds
  }

  ghost predicate Covers(src: Source, subs: SubEngrams, level: nat, prefix: string)
    requires NodeId(level, prefix) in subs
  {
    forall c :: Holds(subs, NodeId(level, prefix), c) <==> c in Wanted(src, level, prefix)
  }

  /** No prefix of a file looks like a shard of this one. */
  ghost predicate NoMimic(src: Source, level: nat, prefix: string)
  {
    forall i :: 0 <= i < |ShardLists(src, level, prefix)| ==> !Mimicked(src, level, prefix, i)
  }

  /** Different files list different chunks. */
  ghost predicate DisjointChunks(files: seq<StoredFile>)
  {
    forall f, g, c :: f in files && g in files && c in f.chunks && c in g.chunks ==> f == g
  }

  /** The shards of a node are its children, and nothing else among its children has their ids. */
  lemma ShardChildren(src: Source, level: nat, prefix: string, i: nat)
    ensures ShardId(NodeId(level, prefix), i) in NodeOf(src, level, prefix).children <==>
      i < |ShardLists(src, level, prefix)|
  {
    hide ShardLists, NodeId, ShardId, Prefix, Split, SortBy, ListedChunks;
    var id := ShardId(NodeId(level, prefix), i);
    assert id in NodeOf(src, level, prefix).children <==>
      id in ChildIds(src.files, level, prefix) + ShardIds(src, level, prefix);
    if id in ChildIds(src.files, level, prefix) {
      var f :| f in src.files && Under(f, level, prefix) && level + 1 < Depth(f.path) && id == NodeId(level + 1, Prefix(f.path, level + 1));
      ShardMimicked(level, prefix, i, level + 1, Prefix(f.path, level + 1));
    }
    if id in ShardIds(src, level, prefix) {
      var j :| 0 <= j < |ShardLists(src, level, prefix)| && id == ShardId(NodeId(level, prefix), j);
      ShardIdInjective(level, prefix, i, level, prefix, j);
    }
  }

  /** Where the node's chunks are: all in the node, or all in the lists of its shards. */
  lemma ChunksPlaced(src: Source, level: nat, prefix: string)
    ensures var lists := ShardLists(src, level, prefix);
      && (forall c :: c in Wanted(src, level, prefix) <==>
            c in NodeOf(src, level, prefix).chunkIds || exists i :: 0 <= i < |lists| && c in lists[i])
      && (lists != [] ==> NodeOf(src, level, prefix).chunkIds == [])
      && (forall i :: 0 <= i < |lists| ==> 0 < |lists[i]| <= Cap(src))
      && forall i, j, c :: 0 <= i < j < |lists| && c in lists[i] ==> c !in lists[j]
  {
    var ids := ChunkList(src, level, prefix);
    var lists := ShardLists(src, level, prefix);
    hide SortBy, Wanted, Split, NodeId, ChildIds, Pieces;
    if TooMany(src.maxChunks, |ids|) {
      assert lists == Pieces(ids, src.maxChunks.value);
      PiecesSpec(ids, src.maxChunks.value);
      hide ShardLists;
      forall i, j, c | 0 <= i < j < |lists| && c in lists[i] ensures c !in lists[j] {
        assert c in lists[j] ==> c < c;
      }
      forall c ensures c in Wanted(src, level, prefix) <==> exists i :: 0 <= i < |lists| && c in lists[i] {
        assert c in Wanted(src, level, prefix) <==> c in ids;
      }
    }
  }

  /** Without a mimic the node and its shards hold exactly the chunks of the files under the prefix. */
  lemma CoveredWithout(src: Source, subs: SubEngrams, level: nat, prefix: string)
    requires Built(src, subs) && IsNode(src, level, prefix) && NoMimic(src, level, prefix)
    ensures Covers(src, subs, level, prefix)
  {
    var lists, id := ShardLists(src, level, prefix), NodeId(level, prefix);
    ChunksPlaced(src, level, prefix);
    hide ShardLists, NodeOf, Wanted, NodeId, ShardId, IsNode, Mimicked;
    forall i: nat ensures ShardId(id, i) in subs[id].children <==> i < |lists| {
      ShardChildren(src, level, prefix, i);
    }
    forall c ensures Holds(subs, id, c) <==> c in Wanted(src, level, prefix) {
      forall i | 0 <= i < |lists| ensures ShardHolds(subs, id, i, c) <==> c in lists[i] {
        assert IsShard(src, level, prefix, i);
      }
    }
  }

  /** Two different prefixes of one level share no chunk. */
  lemma OtherPrefix(src: Source, level: nat, p: string, q: string, c: nat)
    requires DisjointChunks(src.files) && p != q && c in Wanted(src, level, p)
    ensures c !in Wanted(src, level, q)
  {
    hide Split, Prefix;
  }

  /** A mimicked shard is replaced by the mimic's node, and its chunks are in no other place. */
  lemma MimicLoses(src: Source, subs: SubEngrams, level: nat, prefix: string, i: nat)
    requires Built(src, subs) && IsShard(src, level, prefix, i) && Mimicked(src, level, prefix, i)
    requires DisjointChunks(src.files)
    ensures !Covers(src, subs, level, prefix)
  {
    var lists, id := ShardLists(src, level, prefix), NodeId(level, prefix);
    ChunksPlaced(src, level, prefix);
    hide ShardLists, NodeOf, Wanted, NodeId, ShardId, IsNode, DisjointChunks, Covers;
    var x := lists[i][0];
    forall j: nat ensures !ShardHolds(subs, id, j, x) {
      ShardChildren(src, level, prefix, j);
      if j < |lists| {
        assert IsShard(src, level, prefix, j);
        NotInShard(src, subs, level, prefix, j, x);
      }
    }
    assert !Holds(subs, id, x);
    NotCovered(src, subs, level, prefix, x);
  }

  lemma NotCovered(src: Source, subs: SubEngrams, level: nat, prefix: string, x: nat)
    requires NodeId(level, prefix) in subs && !Holds(subs, NodeId(level, prefix), x) && x in Wanted(src, level, prefix)
    ensures !Covers(src, subs, level, prefix)
  {
    hide Holds, Wanted;
  }

  lemma NotInShard(src: Source, subs: SubEngrams, level: nat, prefix: string, j: nat, x: nat)
    requires Built(src, subs) && IsShard(src, level, prefix, j) && DisjointChunks(src.files)
    requires x in Wanted(src, level, prefix)
    requires Mimicked(src, level, prefix, j) || x !in ShardLists(src, level, prefix)[j]
    ensures x !in subs[ShardId(NodeId(level, prefix), j)].chunkIds
  {
    hide ShardLists, NodeOf, Wanted, NodeId, ShardId, IsNode, DisjointChunks;
    if Mimicked(src, level, prefix, j) {
      var q := prefix + Suffix(j);
      ShardIdIsNodeId(level, prefix, j);
      ChunksPlaced(src, level, q);
      assert |q| > |prefix|;
      OtherPrefix(src, level, prefix, q, x);
    }
  }

  /**
    * Where different files list different chunks, a prefix's node and shards hold exactly the codebook's chunks of the
    * files under it if and only if no prefix of that level looks like one of its shards.
    */
  lemma CoverageCondition(src: Source, subs: SubEngrams, level: nat, prefix: string)
    requires Built(src, subs) && IsNode(src, level, prefix) && DisjointChunks(src.files)
    ensures Covers(src, subs, level, prefix) <==> NoMimic(src, level, prefix)
  {
    if NoMimic(src, level, prefix) {
      CoveredWithout(src, subs, level, prefix);
    } else {
      hide Built, Covers, DisjointChunks, IsNode, Mimicked, ShardLists;
      var i :| 0 <= i < |ShardLists(src, level, prefix)| && Mimicked(src, level, prefix, i);
      assert IsShard(src, level, prefix, i);
      MimicLoses(src, subs, level, prefix, i);
    }
  }

  lemma SlashlessSuffix(shard: nat)
    ensures '/' !in Suffix(shard)
  {
    PaddedNumber(shard);
    hide Padded;
    assert '/' !in "__shard_";
    assert forall i :: 0 <= i < |Padded(shard)| ==> Padded(shard)[i] != '/';
  }

  lemma TopLevel(path: string)
    requires '/' !in path
    ensures Depth(path) == 1 && Prefix(path, 0) == path
  {
    SplitFront(path, []);
    assert Split(path)[..1] == [path];
  }

  /** A file whose name is that of another file with a shard suffix makes the other file's chunks unreachable. */
  lemma MimicExample(v: SparseVec) returns (src: Source)
    ensures DisjointChunks(src.files) && IsNode(src, 0, "a")
    ensures forall subs :: Built(src, subs) ==> !Covers(src, subs, 0, "a")
  {
    var a, b := StoredFile("a", [0, 1]), StoredFile("a" + Suffix(0), [2]);
    src := Source([a, b], map[0 := v, 1 := v, 2 := v], Some(1), (level, prefix, files) => v);
    SlashlessSuffix(0);
    assert '/' !in "a" + Suffix(0);
    TopLevel("a");
    TopLevel("a" + Suffix(0));
    hide Suffix, Prefix, Depth;
    assert a in src.files && b in src.files;
    assert IsNode(src, 0, a.path) && Mimicked(src, 0, "a", 0) && DisjointChunks(src.files);
    assert Under(a, 0, "a") && 0 in a.chunks && 1 in a.chunks;
    assert 0 in Wanted(src, 0, "a") && 1 in Wanted(src, 0, "a");
    TwoNeedShards(src, "a");
    hide *;
    forall subs | Built(src, subs) ensures !Covers(src, subs, 0, "a") {
      MimicLoses(src, subs, 0, "a", 0);
    }
  }

  lemma TwoNeedShards(src: Source, prefix: string)
    requires src.maxChunks == Some(1) && IsNode(src, 0, prefix)
    requires 0 in Wanted(src, 0, prefix) && 1 in Wanted(src, 0, prefix)
    ensures IsShard(src, 0, prefix, 0)
  {
    hide IsNode, Wanted;
    var ids := ChunkList(src, 0, prefix);
    assert 0 in ids && 1 in ids;
    assert |ids| >= 2;
    assert ShardLists(src, 0, prefix) == Pieces(ids, 1);
  }

  // How many chunks a node counts

  ghost function ChunksOf(files: seq<StoredFile>): set<nat>
  {
    set f, c | f in files && c in f.chunks :: c
  }

  ghost function Elements(s: seq<nat>): set<nat>
  {
    set c | c in s
  }

  lemma {:induction false} SeqSet(s: seq<nat>)
    requires NoDuplicates(s)
    ensures |Elements(s)| == |s|
  {
    if s != [] {
      var n := |s| - 1;
      SeqSet(s[..n]);
      assert s == s[..n] + [s[n]];
      assert s[n] !in s[..n];
      assert Elements(s) == Elements(s[..n]) + {s[n]};
    } else {
      assert Elements(s) == {};
    }
  }

  lemma {:induction false} ListedAre(files: seq<StoredFile>)
    requires NoDuplicates(files) && DisjointChunks(files) && forall f :: f in files ==> NoDuplicates(f.chunks)
    ensures ListedChunks(files) == |ChunksOf(files)|
  {
    if files == [] {
      assert ChunksOf(files) == {};
    } else {
      var n := |files| - 1;
      assert files == files[..n] + [files[n]] && files[n] in files;
      assert NoDuplicates(files[..n]) && DisjointChunks(files[..n]);
      ListedAre(files[..n]);
      SeqSet(files[n].chunks);
      LastChunks(files);
    }
  }

  lemma LastChunks(files: seq<StoredFile>)
    requires NoDuplicates(files) && DisjointChunks(files) && files != []
    ensures var n := |files| - 1;
      |ChunksOf(files)| == |ChunksOf(files[..n])| + |Elements(files[n].chunks)|
  {
    var n := |files| - 1;
    var before, last := files[..n], files[n];
    assert files == before + [last];
    forall c ensures c in ChunksOf(files) <==> c in ChunksOf(before) || c in Elements(last.chunks) {
      if c in Elements(last.chunks) {
        assert last in files;
      }
      if c in ChunksOf(before) {
        var f :| f in before && c in f.chunks;
        assert f in files;
      }
    }
    assert ChunksOf(files) == ChunksOf(before) + Elements(last.chunks);
    forall c | c in ChunksOf(before) ensures c !in Elements(last.chunks) {
      var f :| f in before && c in f.chunks;
      LastIsNew(files, f);
      assert f in files && last in files;
    }
    assert ChunksOf(before) !! Elements(last.chunks);
  }

  lemma LastIsNew(files: seq<StoredFile>, f: StoredFile)
    requires NoDuplicates(files) && files != [] && f in files[..|files| - 1]
    ensures f != files[|files| - 1]
  {
  }

  lemma {:induction false} UnderOnce(files: seq<StoredFile>, level: nat, prefix: string)
    requires NoDuplicates(files)
    ensures NoDuplicates(UnderFiles(files, level, prefix))
  {
    if files != [] {
      var n := |files| - 1;
      UnderOnce(files[..n], level, prefix);
      UnderFilesAre(files[..n], level, prefix);
      hide Under;
    }
  }

  /** Where no chunk is listed twice, a node counts the chunks of its files, whether it holds them itself or in shards. */
  lemma CountExact(src: Source, subs: SubEngrams, level: nat, prefix: string)
    requires Built(src, subs) && IsNode(src, level, prefix)
    requires NoDuplicates(src.files) && DisjointChunks(src.files)
    requires forall f :: f in src.files ==> NoDuplicates(f.chunks) && forall c :: c in f.chunks ==> c in src.codebook
    ensures subs[NodeId(level, prefix)].chunkCount == |Wanted(src, level, prefix)|
  {
    var under := UnderFiles(src.files, level, prefix);
    var sorted := SortBy(PathLess, under);
    UnderOnce(src.files, level, prefix);
    UnderFilesAre(src.files, level, prefix);
    SortSpec(PathLess, under);
    SameElements(under, sorted);
    hide SortBy, UnderFiles, NoDuplicates, Under, PathLess, NodeId, IsNode;
    ListedAre(sorted);
    assert ChunksOf(sorted) == Wanted(src, level, prefix);
    assert subs[NodeId(level, prefix)] == NodeOf(src, level, prefix);
  }

  /** Every sub-engram carries the name it is stored under, and its own root. */
  lemma NamedByKey(src: Source, subs: SubEngrams, id: string)
    requires Built(src, subs) && id in subs
    ensures subs[id].id == id
    ensures exists level, prefix :: IsNode(src, level, prefix) && subs[id].root == Root(src, level, prefix)
  {
    var level, prefix, i := Classify(src, subs, id);
    hide NodeId, ShardId, IsNode, ShardLists, Root;
  }

  /** Without a mimic the shards of a node are disjoint, nonempty and within the cap; a node over the cap holds none itself. */
  lemma ShardsBounded(src: Source, subs: SubEngrams, level: nat, prefix: string, i: nat, j: nat)
    requires Built(src, subs) && IsNode(src, level, prefix) && NoMimic(src, level, prefix)
    requires i < j && ShardId(NodeId(level, prefix), i) in subs[NodeId(level, prefix)].children
    requires ShardId(NodeId(level, prefix), j) in subs[NodeId(level, prefix)].children
    ensures var node := subs[NodeId(level, prefix)];
      var x, y := ShardId(NodeId(level, prefix), i), ShardId(NodeId(level, prefix), j);
      && x in subs && y in subs
      && 0 < |subs[x].chunkIds| <= Cap(src) && 0 < |subs[y].chunkIds| <= Cap(src)
      && (forall c :: c in subs[x].chunkIds ==> c !in subs[y].chunkIds)
      && node.chunkIds == []
  {
    ShardChildren(src, level, prefix, i);
    ShardChildren(src, level, prefix, j);
    ChunksPlaced(src, level, prefix);
    hide ShardLists, NodeOf, NodeId, ShardId, IsNode, Mimicked;
    assert IsShard(src, level, prefix, i) && IsShard(src, level, prefix, j);
  }

  /** No node exceeds the cap, if there is one. */
  lemma NodesBounded(src: Source, subs: SubEngrams, id: string)
    requires Built(src, subs) && id in subs && Cap(src) > 0
    ensures |subs[id].chunkIds| <= Cap(src)
  {
    var level, prefix, i := Classify(src, subs, id);
    if id == NodeId(level, prefix) && subs[id] == NodeOf(src, level, prefix) {
    } else {
      ChunksPlaced(src, level, prefix);
    }
  }

  lemma ChunksListed(src: Source, level: nat, prefix: string, e: SubEngram, i: nat)
    requires e == NodeOf(src, level, prefix) || (i < |ShardLists(src, level, prefix)| && e == ShardOf(src, level, prefix, i))
    ensures forall c :: c in e.chunkIds ==> c in src.codebook
  {
    ChunksPlaced(src, level, prefix);
    hide ShardLists, NodeOf, NodeId, ShardId;
    assert forall c :: c in e.chunkIds ==> c in Wanted(src, level, prefix);
  }

  lemma AllPresent(ids: seq<nat>, vectors: map<nat, SparseVec>)
    requires forall c :: c in ids ==> c in vectors
    ensures Aligned(BuildIndex(ids, vectors), vectors)
  {
    assert NoneMissingBefore(ids, vectors);
    IndexAligned(ids, vectors);
  }

  /** All chunks that a sub-engram lists are in the codebook, so that its index is usable. */
  lemma IndexUsable(src: Source, subs: SubEngrams, id: string)
    requires Built(src, subs) && id in subs
    ensures Aligned(BuildIndex(subs[id].chunkIds, src.codebook), src.codebook)
  {
    var level, prefix, i := Classify(src, subs, id);
    hide *;
    IsShardBound(src, level, prefix, i);
    ChunksListed(src, level, prefix, subs[id], i);
    AllPresent(subs[id].chunkIds, src.codebook);
  }

  lemma IsShardBound(src: Source, level: nat, prefix: string, i: nat)
    ensures IsShard(src, level, prefix, i) ==> i < |ShardLists(src, level, prefix)|
  {
    hide ShardLists, IsNode;
  }

  // Reaching every chunk from the top

  /** The nodes of a file's prefixes, from level 0 down. */
  ghost function NodesAlong(path: string): (w: seq<string>)
    ensures |w| == Depth(path)
    ensures forall i :: 0 <= i < |w| ==> w[i] == NodeId(i, Prefix(path, i))
  {
    seq(Depth(path), i requires 0 <= i < Depth(path) => NodeId(i, Prefix(path, i)))
  }

  /** The node of a prefix has the node of every longer prefix of its files among its children. */
  lemma ChildrenComplete(src: Source, f: StoredFile, level: nat)
    requires f in src.files && level + 1 < Depth(f.path)
    ensures NodeId(level + 1, Prefix(f.path, level + 1)) in NodeOf(src, level, Prefix(f.path, level)).children
  {
    hide NodeId, Prefix, Depth, SortBy, Wanted, ShardLists;
    assert Under(f, level, Prefix(f.path, level));
    assert NodeId(level + 1, Prefix(f.path, level + 1)) in ChildIds(src.files, level, Prefix(f.path, level));
  }

  /**
    * Every chunk of the codebook that a file lists is reached: from the level-0 node of its first component child edges
    * lead to the node of its whole path, which holds the chunk itself or in one of its shards.
    */
  lemma EveryChunkReached(src: Source, subs: SubEngrams, f: StoredFile, c: nat)
    requires Built(src, subs) && f in src.files && c in f.chunks && c in src.codebook
    requires NoMimic(src, Depth(f.path) - 1, Prefix(f.path, Depth(f.path) - 1))
    ensures var w := NodesAlong(f.path);
      && IsNode(src, 0, Prefix(f.path, 0)) && w[0] == NodeId(0, Prefix(f.path, 0))
      && Walk(subs, w) && w[|w| - 1] in subs && Holds(subs, w[|w| - 1], c)
  {
    var w, last := NodesAlong(f.path), Depth(f.path) - 1;
    forall i | 0 <= i < |w| ensures IsNode(src, i, Prefix(f.path, i)) {
      assert Under(f, i, Prefix(f.path, i));
    }
    assert c in Wanted(src, last, Prefix(f.path, last)) by {
      assert Under(f, last, Prefix(f.path, last));
    }
    CoveredWithout(src, subs, last, Prefix(f.path, last));
    hide NodeId, Prefix, Depth, NodeOf, IsNode, Wanted, Holds;
    forall i | 0 <= i < |w| - 1 ensures w[i] in subs && w[i + 1] in subs[w[i]].children {
      ChildrenComplete(src, f, i);
    }
  }
}
