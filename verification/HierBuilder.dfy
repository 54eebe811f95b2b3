/** How bundling builds the hierarchy: files grouped by prefix, then one sub-engram after another. */
module HierBuilder {
  import opened Bytes
  import opened Sorting
  import opened HierQuery
  import opened PathPrefixes
  import opened SubEngramIds
  import opened HierBuild

  type Groups = map<nat, map<string, seq<StoredFile>>>

  predicate Grouped(groups: Groups, level: nat, prefix: string)
  {
    level in groups && prefix in groups[level]
  }

  function Group(groups: Groups, level: nat, prefix: string): seq<StoredFile>
  {
    if Grouped(groups, level, prefix) then groups[level][prefix] else []
  }

  function Push(groups: Groups, level: nat, prefix: string, f: StoredFile): Groups
  {
    groups[level := (if level in groups then groups[level] else map[])[prefix := Group(groups, level, prefix) + [f]]]
  }

  /** No level is without groups. */
  predicate LevelsUsed(groups: Groups)
  {
    forall level :: level in groups ==> groups[level] != map[]
  }

  /** The groups are those of the files before `f`, and of `f` itself for the first levels. */
  ghost predicate GroupsOf(groups: Groups, files: seq<StoredFile>, f: StoredFile, levels: nat)
  {
    && LevelsUsed(groups)
    && forall level, prefix ::
      && Group(groups, level, prefix) == UnderFiles(files, level, prefix) + Early(f, levels, level, prefix)
      && (Grouped(groups, level, prefix) ==> Group(groups, level, prefix) != [])
  }

  ghost function Early(f: StoredFile, levels: nat, level: nat, prefix: string): seq<StoredFile>
  {
    if level < levels && Under(f, level, prefix) then [f] else []
  }

  lemma PushGroup(groups: Groups, l: nat, p: string, f: StoredFile, level: nat, prefix: string)
    ensures var after, here := Push(groups, l, p, f), level == l && prefix == p;
      && Group(after, level, prefix) == Group(groups, level, prefix) + (if here then [f] else [])
      && (Grouped(after, level, prefix) <==> here || Grouped(groups, level, prefix))
  {
  }

  lemma PushUses(groups: Groups, l: nat, p: string, f: StoredFile)
    requires LevelsUsed(groups)
    ensures LevelsUsed(Push(groups, l, p, f))
  {
    assert p in Push(groups, l, p, f)[l];
  }

  lemma PushKeeps(groups: Groups, files: seq<StoredFile>, f: StoredFile, levels: nat)
    requires GroupsOf(groups, files, f, levels) && levels < Depth(f.path)
    ensures GroupsOf(Push(groups, levels, Prefix(f.path, levels), f), files, f, levels + 1)
  {
    var p := Prefix(f.path, levels);
    hide Prefix, Depth, UnderFiles, Push, Group, Grouped;
    forall level, prefix
      ensures var after := Push(groups, levels, p, f);
        && Group(after, level, prefix) == UnderFiles(files, level, prefix) + Early(f, levels + 1, level, prefix)
        && (Grouped(after, level, prefix) ==> Group(after, level, prefix) != [])
    {
      PushGroup(groups, levels, p, f, level, prefix);
    }
    PushUses(groups, levels, p, f);
  }

  lemma NextFile(groups: Groups, files: seq<StoredFile>, f: StoredFile, g: StoredFile)
    requires GroupsOf(groups, files, f, Depth(f.path))
    ensures GroupsOf(groups, files + [f], g, 0)
  {
    assert (files + [f])[..|files|] == files;
    hide Prefix, Depth, Group, Grouped;
  }

  lemma {:induction false} JoinNext(comps: seq<string>, n: nat)
    requires 0 < n < |comps|
    ensures Join(comps[..n + 1]) == Join(comps[..n]) + "/" + comps[n]
  {
    assert comps[..n + 1][..n] == comps[..n];
  }

  /** Puts one file into the group of each of its prefixes. */
  method GroupFile(start: Groups, f: StoredFile, ghost files: seq<StoredFile>) returns (groups: Groups)
    requires GroupsOf(start, files, f, 0)
    ensures GroupsOf(groups, files, f, Depth(f.path))
  {
    hide Push, GroupsOf, Split;
    groups := start;
    var comps, prefix := Split(f.path), "";
    for level := 0 to |comps|
      invariant GroupsOf(groups, files, f, level)
      invariant if level == 0 then prefix == "" else prefix == Join(comps[..level])
    {
      if level == 0 {
        prefix := prefix + comps[0];
        assert comps[..1] == [comps[0]] && prefix == comps[0];
      } else {
        JoinNext(comps, level);
        prefix := prefix + "/" + comps[level];
      }
      assert prefix == Prefix(f.path, level);
      PushKeeps(groups, files, f, level);
      groups := Push(groups, level, prefix, f);
    }
  }

  method GroupFiles(files: seq<StoredFile>) returns (groups: Groups)
    ensures forall level, prefix :: Group(groups, level, prefix) == UnderFiles(files, level, prefix)
    ensures forall level, prefix :: Grouped(groups, level, prefix) <==> prefix in Prefixes(files, level)
    ensures LevelsUsed(groups)
  {
    groups := map[];
    ghost var none := StoredFile([], []);
    assert GroupsOf(groups, files[..0], if files == [] then none else files[0], 0);
    for n := 0 to |files|
      invariant GroupsOf(groups, files[..n], if n < |files| then files[n] else none, 0)
    {
      groups := GroupFile(groups, files[n], files[..n]);
      NextFile(groups, files[..n], files[n], if n + 1 < |files| then files[n + 1] else none);
      assert files[..n + 1] == files[..n] + [files[n]];
    }
    assert files[..|files|] == files;
    GroupsDone(groups, files, none);
  }

  lemma GroupsDone(groups: Groups, files: seq<StoredFile>, none: StoredFile)
    requires GroupsOf(groups, files, none, 0)
    ensures forall level, prefix :: Group(groups, level, prefix) == UnderFiles(files, level, prefix)
    ensures forall level, prefix :: Grouped(groups, level, prefix) <==> prefix in Prefixes(files, level)
  {
    hide Prefix, Depth, UnderFiles;
    forall level, prefix ensures Group(groups, level, prefix) == UnderFiles(files, level, prefix)
    {
      assert Early(none, 0, level, prefix) == [];
    }
    forall level, prefix ensures Grouped(groups, level, prefix) <==> prefix in Prefixes(files, level) {
      UnderFilesAre(files, level, prefix);
      SomeUnder(files, UnderFiles(files, level, prefix), level, prefix);
    }
  }

  lemma SomeUnder(files: seq<StoredFile>, under: seq<StoredFile>, level: nat, prefix: string)
    requires forall f :: f in under <==> f in files && Under(f, level, prefix)
    ensures under != [] <==> prefix in Prefixes(files, level)
  {
    hide Prefix, Depth;
    if under != [] {
      assert under[0] in under;
    }
    if prefix in Prefixes(files, level) {
      var f :| f in files && level < Depth(f.path) && Prefix(f.path, level) == prefix;
      assert f in under;
    }
  }

  // One sub-engram

  /** The chunks of the codebook that some files list. */
  method CollectChunks(files: seq<StoredFile>, codebook: map<nat, SparseVec>) returns (ids: set<nat>)
    ensures forall c :: c in ids <==> c in codebook && exists f :: f in files && c in f.chunks
  {
    ids := {};
    for n := 0 to |files|
      invariant forall c :: c in ids <==> c in codebook && exists f :: f in files[..n] && c in f.chunks
    {
      var chunks := files[n].chunks;
      ghost var before := ids;
      for k := 0 to |chunks|
        invariant forall c :: c in ids <==> c in before || (c in codebook && c in chunks[..k])
      {
        if chunks[k] in codebook {
          ids := ids + {chunks[k]};
        }
      }
      assert chunks[..|chunks|] == chunks && files[..n + 1] == files[..n] + [files[n]];
    }
    assert files[..|files|] == files;
  }

  /** The ids of the next-level prefixes of some files of one level. */
  method CollectChildren(files: seq<StoredFile>, level: nat) returns (ids: set<string>)
    ensures ids == set f | f in files && level + 1 < Depth(f.path) :: NodeId(level + 1, Prefix(f.path, level + 1))
  {
    hide NodeId, Prefix, Split, Depth;
    ids := {};
    for n := 0 to |files|
      invariant ids == set f | f in files[..n] && level + 1 < Depth(f.path) :: NodeId(level + 1, Prefix(f.path, level + 1))
    {
      assert files[..n + 1] == files[..n] + [files[n]];
      if Depth(files[n].path) <= level + 1 {
        continue;
      }
      ids := ids + {NodeId(level + 1, Prefix(files[n].path, level + 1))};
    }
    assert files[..|files|] == files;
  }

  method CountChunks(files: seq<StoredFile>) returns (count: nat)
    ensures count == ListedChunks(files)
  {
    count := 0;
    for n := 0 to |files|
      invariant count == ListedChunks(files[..n])
    {
      assert files[..n + 1][..n] == files[..n];
      count := count + |files[n].chunks|;
    }
    assert files[..|files|] == files;
  }

  /** `after` is `before` with the node and the shards of one prefix. */
  ghost predicate Placed(src: Source, level: nat, prefix: string, before: SubEngrams, after: SubEngrams)
  {
    && NodeId(level, prefix) in after && after[NodeId(level, prefix)] == NodeOf(src, level, prefix)
    && ShardsPlaced(src, level, prefix, after, |ShardLists(src, level, prefix)|)
    && SameExcept(before, after, {NodeId(level, prefix)} + ShardIds(src, level, prefix))
  }

  ghost predicate SameExcept(before: SubEngrams, after: SubEngrams, ids: set<string>)
  {
    forall id :: id !in ids ==> (id in after <==> id in before) && (id in after ==> after[id] == before[id])
  }

  ghost predicate ShardsPlaced(src: Source, level: nat, prefix: string, subs: SubEngrams, count: nat)
    requires count <= |ShardLists(src, level, prefix)|
  {
    forall i :: 0 <= i < count ==>
      ShardId(NodeId(level, prefix), i) in subs && subs[ShardId(NodeId(level, prefix), i)] == ShardOf(src, level, prefix, i)
  }

  lemma ShardAdded(src: Source, level: nat, prefix: string, before: SubEngrams, subs: SubEngrams, i: nat)
    requires i < |ShardLists(src, level, prefix)| && ShardsPlaced(src, level, prefix, subs, i)
    requires SameExcept(before, subs, ShardIds(src, level, prefix))
    ensures var after := subs[ShardId(NodeId(level, prefix), i) := ShardOf(src, level, prefix, i)];
      ShardsPlaced(src, level, prefix, after, i + 1) && SameExcept(before, after, ShardIds(src, level, prefix))
  {
    hide ShardLists, ShardId, NodeId, ShardOf;
    assert ShardId(NodeId(level, prefix), i) in ShardIds(src, level, prefix);
    forall j | 0 <= j < i ensures ShardId(NodeId(level, prefix), j) != ShardId(NodeId(level, prefix), i) {
      ShardIdInjective(level, prefix, i, level, prefix, j);
    }
  }

  lemma ShardIdList(src: Source, level: nat, prefix: string, ids: seq<string>)
    requires |ids| == |ShardLists(src, level, prefix)|
    requires forall j :: 0 <= j < |ids| ==> ids[j] == ShardId(NodeId(level, prefix), j)
    ensures (set s | s in ids) == ShardIds(src, level, prefix)
  {
    hide NodeId, ShardId, ShardLists;
    assert forall j :: 0 <= j < |ids| ==> ids[j] in ids;
    assert forall s :: s in ids <==> s in ShardIds(src, level, prefix);
  }

  lemma NodeAdded(src: Source, level: nat, prefix: string, before: SubEngrams, subs: SubEngrams)
    requires ShardsPlaced(src, level, prefix, subs, |ShardLists(src, level, prefix)|)
    requires SameExcept(before, subs, ShardIds(src, level, prefix))
    ensures Placed(src, level, prefix, before, subs[NodeId(level, prefix) := NodeOf(src, level, prefix)])
  {
    var after := subs[NodeId(level, prefix) := NodeOf(src, level, prefix)];
    hide ShardLists, NodeOf, ShardId, NodeId;
    forall i | 0 <= i < |ShardLists(src, level, prefix)|
      ensures ShardId(NodeId(level, prefix), i) in after && after[ShardId(NodeId(level, prefix), i)] == ShardOf(src, level, prefix, i)
    {
      ShardMimicked(level, prefix, i, level, prefix);
    }
  }

  /** What the sorted files under a prefix determine. */
  lemma FromFiles(src: Source, level: nat, prefix: string, files: seq<StoredFile>, ids: set<nat>, list: seq<nat>, kids: set<string>)
    requires files == SortBy(PathLess, UnderFiles(src.files, level, prefix))
    requires forall c :: c in ids <==> c in src.codebook && exists f :: f in files && c in f.chunks
    requires AscendingOf(NatLess, list, ids)
    requires kids == set f | f in files && level + 1 < Depth(f.path) :: NodeId(level + 1, Prefix(f.path, level + 1))
    ensures list == ChunkList(src, level, prefix) && kids == ChildIds(src.files, level, prefix)
  {
    SortSpec(PathLess, UnderFiles(src.files, level, prefix));
    SameElements(UnderFiles(src.files, level, prefix), files);
    UnderFilesAre(src.files, level, prefix);
    hide NodeId, Prefix, Depth, UnderFiles, SortBy, PathLess, Under;
    assert ids == Wanted(src, level, prefix);
    Orders();
    hide NatLess, TotalOrder;
    AscendingUnique(NatLess, list, ChunkList(src, level, prefix));
  }

  /** Drops the repetitions of a sorted list. */
  method Dedup(all: seq<string>) returns (list: seq<string>)
    requires TotalOrder(StringLess) && Sorted(StringLess, all)
    ensures Ascending(StringLess, list) && forall s :: s in list <==> s in all
  {
    hide StringLess, TotalOrder, Sorted;
    list := [];
    for n := 0 to |all|
      invariant Ascending(StringLess, list) && forall s :: s in list <==> s in all[..n]
      invariant if n == 0 then list == [] else list != [] && list[|list| - 1] == all[n - 1]
    {
      hide Ascending;
      assert all[..n + 1] == all[..n] + [all[n]];
      if list == [] || list[|list| - 1] != all[n] {
        NextLargest(list, all, n);
        list := list + [all[n]];
      }
    }
    assert all[..|all|] == all;
  }

  /** Concatenated, sorted and without repetitions. */
  method RouterChildren(shards: seq<string>, children: seq<string>) returns (router: seq<string>)
    ensures AscendingOf(StringLess, router, (set s | s in shards) + (set s | s in children))
  {
    Orders();
    SortSpec(StringLess, shards + children);
    SameElements(shards + children, SortBy(StringLess, shards + children));
    hide SortBy, StringLess, Sorted, Ascending;
    router := Dedup(SortBy(StringLess, shards + children));
  }

  lemma NextLargest(router: seq<string>, all: seq<string>, n: nat)
    requires n < |all| && Sorted(StringLess, all) && TotalOrder(StringLess) && Ascending(StringLess, router)
    requires router != [] ==> n > 0 && router[|router| - 1] == all[n - 1] != all[n]
    ensures Ascending(StringLess, router + [all[n]])
  {
    hide StringLess;
    forall i | 0 <= i < |router| ensures StringLess(router[i], all[n]) {
      assert StringLess(all[n - 1], all[n]);
    }
  }

  /** Inserts the shards of a prefix and lists their ids. */
  method InsertShards(src: Source, level: nat, prefix: string, root: SparseVec, lists: seq<seq<nat>>, before: SubEngrams)
    returns (subs: SubEngrams, ids: seq<string>)
    requires lists == ShardLists(src, level, prefix) && root == Root(src, level, prefix)
    ensures ShardsPlaced(src, level, prefix, subs, |lists|)
    ensures (set s | s in ids) == ShardIds(src, level, prefix)
    ensures SameExcept(before, subs, ShardIds(src, level, prefix))
  {
    hide ShardLists, ShardId, NodeId, Root, ShardIds;
    subs, ids := before, [];
    for i := 0 to |lists|
      invariant ShardsPlaced(src, level, prefix, subs, i) && SameExcept(before, subs, ShardIds(src, level, prefix))
      invariant |ids| == i && forall j :: 0 <= j < i ==> ids[j] == ShardId(NodeId(level, prefix), j)
    {
      ShardAdded(src, level, prefix, before, subs, i);
      var id := ShardId(NodeId(level, prefix), i);
      var shard := SubEngram(id, root, lists[i], |lists[i]|, []);
      assert shard == ShardOf(src, level, prefix, i);
      hide ShardsPlaced, ShardOf, SameExcept;
      ids := ids + [id];
      subs := subs[id := shard];
    }
    ShardIdList(src, level, prefix, ids);
  }

  lemma NodeIs(src: Source, level: nat, prefix: string, node: SubEngram)
    requires node.id == NodeId(level, prefix) && node.root == Root(src, level, prefix)
    requires node.chunkIds == if TooMany(src.maxChunks, |ChunkList(src, level, prefix)|) then [] else ChunkList(src, level, prefix)
    requires node.chunkCount == ListedChunks(SortBy(PathLess, UnderFiles(src.files, level, prefix)))
    requires AscendingOf(StringLess, node.children, ChildIds(src.files, level, prefix) + ShardIds(src, level, prefix))
    ensures node == NodeOf(src, level, prefix)
  {
    Orders();
    hide StringLess, TotalOrder, SortBy, UnderFiles, ChildIds, ShardIds, Root, ChunkList, NodeId;
    AscendingUnique(StringLess, node.children, Ascend(StringLess, ChildIds(src.files, level, prefix) + ShardIds(src, level, prefix)));
  }

  lemma NoShards(src: Source, level: nat, prefix: string, before: SubEngrams)
    requires ShardLists(src, level, prefix) == []
    ensures ShardIds(src, level, prefix) == {} && ShardsPlaced(src, level, prefix, before, 0)
  {
  }

  /** Builds the sub-engram of one prefix from the group of its files, and its shards if it has too many chunks. */
  method Place(src: Source, level: nat, prefix: string, group: seq<StoredFile>, before: SubEngrams) returns (subs: SubEngrams)
    requires group == UnderFiles(src.files, level, prefix)
    ensures Placed(src, level, prefix, before, subs)
  {
    var files := SortBy(PathLess, group);
    var root := src.root(level, prefix, files);
    assert root == Root(src, level, prefix);
    hide UnderFiles, SortBy, PathLess, Root, ListedChunks, NodeId, StringLess, NatLess, WeakOrder, Placed, ShardsPlaced;
    var idSet := CollectChunks(files, src.codebook);
    var childSet := CollectChildren(files, level);
    Orders();
    var children := SortedSet(StringLess, childSet);
    var ids := SortedSet(NatLess, idSet);
    var count := CountChunks(files);
    FromFiles(src, level, prefix, files, idSet, ids, childSet);
    subs := before;
    assert ShardLists(src, level, prefix) == if TooMany(src.maxChunks, |ids|) then Pieces(ids, src.maxChunks.value) else [];
    assert (set s | s in children) == childSet;
    hide Pieces, ShardLists, ShardIds, ChildIds, ChunkList, NodeOf, TotalOrder, Depth, Prefix;
    if TooMany(src.maxChunks, |ids|) {
      var shardIds;
      subs, shardIds := InsertShards(src, level, prefix, root, Pieces(ids, src.maxChunks.value), before);
      children := RouterChildren(shardIds, children);
      ids := [];
    } else {
      NoShards(src, level, prefix, before);
    }
    var node := SubEngram(NodeId(level, prefix), root, ids, count, children);
    NodeIs(src, level, prefix, node);
    NodeAdded(src, level, prefix, before, subs);
    subs := subs[NodeId(level, prefix) := node];
  }

  // The whole hierarchy

  /** `Built`, as far as the prefixes in `done`. */
  ghost predicate PartlyBuilt(src: Source, done: set<(nat, string)>, subs: SubEngrams)
  {
    && (forall level, prefix :: (level, prefix) in done ==>
          && IsNode(src, level, prefix) && NodeId(level, prefix) in subs
          && subs[NodeId(level, prefix)] == NodeOf(src, level, prefix))
    && (forall level, prefix, i :: (level, prefix) in done && IsShard(src, level, prefix, i) ==> ShardKept(src, done, subs, level, prefix, i))
    && forall id :: id in subs ==> NamedBy(src, done, id)
  }

  ghost predicate ShardKept(src: Source, done: set<(nat, string)>, subs: SubEngrams, level: nat, prefix: string, i: nat)
    requires IsShard(src, level, prefix, i)
  {
    && ShardId(NodeId(level, prefix), i) in subs
    && ((level, prefix + Suffix(i)) !in done ==> subs[ShardId(NodeId(level, prefix), i)] == ShardOf(src, level, prefix, i))
  }

  ghost predicate NamedBy(src: Source, done: set<(nat, string)>, id: string)
  {
    exists level, prefix :: (level, prefix) in done && (id == NodeId(level, prefix) || id in ShardIds(src, level, prefix))
  }

  /** No shard of the new prefix has the id of a node that is there already. */
  ghost predicate Later(done: set<(nat, string)>, level: nat, prefix: string)
  {
    (level, prefix) !in done && forall i :: (level, prefix + Suffix(i)) !in done
  }

  lemma NodesStay(src: Source, done: set<(nat, string)>, subs: SubEngrams, after: SubEngrams, l: nat, p: string, level: nat, prefix: string)
    requires PartlyBuilt(src, done, subs) && Later(done, l, p) && Placed(src, l, p, subs, after) && (level, prefix) in done
    ensures NodeId(level, prefix) in after && after[NodeId(level, prefix)] == NodeOf(src, level, prefix)
  {
    NodeIdInjective(level, prefix, l, p);
    hide NodeId, ShardId, NodeOf, ShardLists, IsNode, ShardsPlaced;
    if NodeId(level, prefix) in ShardIds(src, l, p) {
      var i :| 0 <= i < |ShardLists(src, l, p)| && NodeId(level, prefix) == ShardId(NodeId(l, p), i);
      ShardMimicked(l, p, i, level, prefix);
    }
  }

  lemma ShardsStay(src: Source, done: set<(nat, string)>, subs: SubEngrams, after: SubEngrams, l: nat, p: string,
                   level: nat, prefix: string, i: nat)
    requires PartlyBuilt(src, done, subs) && Later(done, l, p) && Placed(src, l, p, subs, after)
    requires (level, prefix) in done && IsShard(src, level, prefix, i)
    ensures ShardKept(src, done + {(l, p)}, after, level, prefix, i)
  {
    assert ShardKept(src, done, subs, level, prefix, i);
    ShardMimicked(level, prefix, i, l, p);
    hide NodeId, ShardId, NodeOf, ShardLists, IsNode, ShardsPlaced, PartlyBuilt;
    var id := ShardId(NodeId(level, prefix), i);
    if id in ShardIds(src, l, p) {
      var j :| 0 <= j < |ShardLists(src, l, p)| && id == ShardId(NodeId(l, p), j);
      ShardIdInjective(level, prefix, i, l, p, j);
    }
  }

  lemma NewShard(src: Source, done: set<(nat, string)>, subs: SubEngrams, after: SubEngrams, l: nat, p: string, i: nat)
    requires Placed(src, l, p, subs, after) && IsShard(src, l, p, i)
    ensures ShardKept(src, done + {(l, p)}, after, l, p, i)
  {
    hide NodeId, ShardId, NodeOf, ShardLists, IsNode, ShardOf;
  }

  lemma NamesStay(src: Source, done: set<(nat, string)>, subs: SubEngrams, after: SubEngrams, l: nat, p: string, id: string)
    requires PartlyBuilt(src, done, subs) && Placed(src, l, p, subs, after) && id in after
    ensures NamedBy(src, done + {(l, p)}, id)
  {
    hide NodeId, ShardIds, NodeOf, ShardLists, IsNode, ShardsPlaced;
    if id == NodeId(l, p) || id in ShardIds(src, l, p) {
      assert (l, p) in done + {(l, p)};
    } else {
      assert NamedBy(src, done, id);
      var level, prefix :| (level, prefix) in done && (id == NodeId(level, prefix) || id in ShardIds(src, level, prefix));
      assert (level, prefix) in done + {(l, p)};
    }
  }

  lemma PlaceKeeps(src: Source, done: set<(nat, string)>, subs: SubEngrams, after: SubEngrams, l: nat, p: string)
    requires PartlyBuilt(src, done, subs) && Later(done, l, p) && IsNode(src, l, p) && Placed(src, l, p, subs, after)
    ensures PartlyBuilt(src, done + {(l, p)}, after)
  {
    var next := done + {(l, p)};
    assert NodeId(l, p) in after && after[NodeId(l, p)] == NodeOf(src, l, p);
    hide NodeId, ShardId, NodeOf, ShardLists, IsNode, ShardsPlaced, ShardKept, NamedBy, IsShard, Placed, Later;
    forall level, prefix | (level, prefix) in next
      ensures IsNode(src, level, prefix) && NodeId(level, prefix) in after
      ensures after[NodeId(level, prefix)] == NodeOf(src, level, prefix)
    {
      if (level, prefix) in done {
        NodesStay(src, done, subs, after, l, p, level, prefix);
      }
    }
    forall level, prefix, i | (level, prefix) in next && IsShard(src, level, prefix, i)
      ensures ShardKept(src, next, after, level, prefix, i)
    {
      if (level, prefix) in done {
        ShardsStay(src, done, subs, after, l, p, level, prefix, i);
      } else {
        NewShard(src, done, subs, after, l, p, i);
      }
    }
    forall id | id in after ensures NamedBy(src, next, id) {
      NamesStay(src, done, subs, after, l, p, id);
    }
  }

  ghost predicate AllDone(src: Source, done: set<(nat, string)>)
  {
    forall level: nat, prefix: string :: IsNode(src, level, prefix) <==> (level, prefix) in done
  }

  lemma AllBuilt(src: Source, done: set<(nat, string)>, subs: SubEngrams)
    requires PartlyBuilt(src, done, subs) && AllDone(src, done)
    ensures Built(src, subs)
  {
    hide NodeId, ShardId, NodeOf, ShardLists, IsNode, ShardOf;
    forall level: nat, prefix: string, i: nat | IsShard(src, level, prefix, i) ensures ShardKept(src, done, subs, level, prefix, i) {
      assert (level, prefix) in done;
    }
    forall id | id in subs ensures Named(src, id) {
      assert NamedBy(src, done, id);
    }
  }

  /** `done` holds the prefixes of the earlier levels and the first `k` of this one. */
  ghost predicate SoFar(src: Source, done: set<(nat, string)>, level: nat, keys: seq<string>, k: nat)
    requires k <= |keys|
  {
    forall l: nat, p: string :: (l, p) in done <==> (l < level && IsNode(src, l, p)) || (l == level && p in keys[..k])
  }

  lemma NextIsLater(src: Source, done: set<(nat, string)>, level: nat, keys: seq<string>, k: nat)
    requires k < |keys| && SoFar(src, done, level, keys, k) && Ascending(StringLess, keys)
    ensures Later(done, level, keys[k]) && SoFar(src, done + {(level, keys[k])}, level, keys, k + 1)
  {
    Orders();
    hide Suffix, StringLess, IsNode;
    assert keys[..k + 1] == keys[..k] + [keys[k]];
    forall i: nat ensures keys[k] + Suffix(i) !in keys[..k] {
      assert |Suffix(i)| > 0 by {
        SuffixNonempty(i);
      }
      ExtensionLater(keys[k], Suffix(i));
    }
  }

  lemma SuffixNonempty(i: nat)
    ensures |Suffix(i)| > 0
  {
  }

  predicate ItemLess(a: (string, string), b: (string, string))
  {
    StringLess(a.0, b.0) || (a.0 == b.0 && StringLess(a.1, b.1))
  }

  /** The items of one level: its prefixes in ascending order, each with the id of its node. */
  ghost predicate LevelItems(files: seq<StoredFile>, level: nat, items: seq<(string, string)>)
  {
    && (forall i :: 0 <= i < |items| ==> items[i].1 == NodeId(level, items[i].0))
    && AscendingOf(StringLess, seq(|items|, i requires 0 <= i < |items| => items[i].0), Prefixes(files, level))
  }

  lemma ItemsSorted(files: seq<StoredFile>, level: nat, keys: seq<string>, items: seq<(string, string)>)
    requires AscendingOf(StringLess, keys, Prefixes(files, level)) && |items| == |keys|
    requires forall i :: 0 <= i < |items| ==> items[i] == (keys[i], NodeId(level, keys[i]))
    ensures LevelItems(files, level, SortBy(ItemLess, items))
  {
    Orders();
    hide NodeId, StringLess, Prefixes;
    forall i, j | 0 <= i < j < |items| ensures !ItemLess(items[j], items[i]) {
      assert StringLess(keys[i], keys[j]);
    }
    SortedStays(ItemLess, items);
    assert seq(|items|, i requires 0 <= i < |items| => items[i].0) == keys;
  }

  method BuildLevel(src: Source, groups: Groups, level: nat, before: SubEngrams, ghost done: set<(nat, string)>)
    returns (items: seq<(string, string)>, subs: SubEngrams, ghost next: set<(nat, string)>)
    requires forall l, p :: Group(groups, l, p) == UnderFiles(src.files, l, p)
    requires forall l, p :: Grouped(groups, l, p) <==> p in Prefixes(src.files, l)
    requires PartlyBuilt(src, done, before) && SoFar(src, done, level, [], 0)
    ensures PartlyBuilt(src, next, subs) && SoFar(src, next, level + 1, [], 0)
    ensures LevelItems(src.files, level, items)
  {
    hide *;
    items, subs, next := [], before, done;
    Orders();
    var keys := SortedSet(StringLess, if level in groups then groups[level].Keys else {});
    KeysAre(src, groups, level, keys);
    NoneYet(src, done, level, keys);
    for k := 0 to |keys|
      invariant PartlyBuilt(src, next, subs) && SoFar(src, next, level, keys, k)
      invariant |items| == k && forall i :: 0 <= i < k ==> items[i] == (keys[i], NodeId(level, keys[i]))
    {
      var prefix := keys[k];
      GroupOfKey(src, groups, level, prefix);
      NextIsLater(src, next, level, keys, k);
      ghost var earlier := subs;
      subs := Place(src, level, prefix, groups[level][prefix], subs);
      PlaceKeeps(src, next, earlier, subs, level, prefix);
      items := items + [(prefix, NodeId(level, prefix))];
      next := next + {(level, prefix)};
    }
    ItemsSorted(src.files, level, keys, items);
    items := SortBy(ItemLess, items);
    LevelDone(src, next, level, keys);
  }

  lemma KeysAre(src: Source, groups: Groups, level: nat, keys: seq<string>)
    requires forall l, p :: Group(groups, l, p) == UnderFiles(src.files, l, p)
    requires forall l, p :: Grouped(groups, l, p) <==> p in Prefixes(src.files, l)
    requires AscendingOf(StringLess, keys, if level in groups then groups[level].Keys else {})
    ensures AscendingOf(StringLess, keys, Prefixes(src.files, level)) && Ascending(StringLess, keys)
    ensures forall p :: p in keys <==> p in Prefixes(src.files, level)
    ensures forall i :: 0 <= i < |keys| ==> KeyGroup(src, groups, level, keys[i])
  {
    hide UnderFiles, Prefixes, StringLess;
    forall p ensures p in keys <==> p in Prefixes(src.files, level) {
      assert p in keys <==> Grouped(groups, level, p);
    }
    forall i | 0 <= i < |keys| ensures KeyGroup(src, groups, level, keys[i]) {
      assert Grouped(groups, level, keys[i]);
      assert Group(groups, level, keys[i]) == groups[level][keys[i]];
    }
  }

  /** The group of a prefix is there and holds the files under it. */
  ghost predicate KeyGroup(src: Source, groups: Groups, level: nat, key: string)
  {
    && level in groups && key in groups[level]
    && IsNode(src, level, key) && groups[level][key] == UnderFiles(src.files, level, key)
  }

  lemma GroupOfKey(src: Source, groups: Groups, level: nat, key: string)
    requires KeyGroup(src, groups, level, key)
    ensures level in groups && key in groups[level]
    ensures IsNode(src, level, key) && groups[level][key] == UnderFiles(src.files, level, key)
  {
  }

  lemma NoneYet(src: Source, done: set<(nat, string)>, level: nat, keys: seq<string>)
    requires SoFar(src, done, level, [], 0)
    ensures SoFar(src, done, level, keys, 0)
  {
    hide IsNode;
  }

  lemma LevelDone(src: Source, done: set<(nat, string)>, level: nat, keys: seq<string>)
    requires SoFar(src, done, level, keys, |keys|) && forall p :: p in keys <==> p in Prefixes(src.files, level)
    ensures SoFar(src, done, level + 1, [], 0)
  {
    hide Prefixes;
    assert keys[..|keys|] == keys;
  }

  /** The deepest level of any file, or zero without files. */
  method MaxLevel(groups: Groups) returns (max: nat)
    ensures forall l :: l in groups ==> l <= max
    ensures max in groups || max == 0
  {
    max := 0;
    var rest := groups.Keys;
    while rest != {}
      invariant rest <= groups.Keys && forall l :: l in groups && l !in rest ==> l <= max
      invariant max in groups || max == 0
      decreases |rest|
    {
      var l :| l in rest;
      rest := rest - {l};
      if l > max {
        max := l;
      }
    }
  }

  /** The node of this prefix is listed at its level. */
  predicate Listed(levels: seq<seq<(string, string)>>, level: nat, prefix: string)
  {
    level < |levels| && (prefix, NodeId(level, prefix)) in levels[level]
  }

  lemma ListedPrefixes(src: Source, levels: seq<seq<(string, string)>>, level: nat, prefix: string)
    requires forall l :: 0 <= l < |levels| ==> LevelItems(src.files, l, levels[l])
    requires IsNode(src, level, prefix) ==> level < |levels|
    ensures Listed(levels, level, prefix) <==> exists f :: f in src.files && Cut(f.path, level, prefix)
  {
    PrefixesSpec(src.files, level, prefix);
    hide NodeId, Prefixes, StringLess, Cut;
    if level < |levels| {
      var items := levels[level];
      assert LevelItems(src.files, level, items);
      var names := seq(|items|, i requires 0 <= i < |items| => items[i].0);
      assert prefix in names <==> prefix in Prefixes(src.files, level);
      if prefix in names {
        var i :| 0 <= i < |names| && names[i] == prefix;
        assert items[i] == (prefix, NodeId(level, prefix));
      }
      if (prefix, NodeId(level, prefix)) in items {
        var i :| 0 <= i < |items| && items[i] == (prefix, NodeId(level, prefix));
        assert names[i] == prefix;
      }
    }
  }

  /** Where no path goes on to the next level, some path ends at this one. */
  lemma DeepestFile(files: seq<StoredFile>, level: nat, prefix: string)
    requires prefix in Prefixes(files, level)
    ensures (exists f :: f in files && multiset(f.path)['/'] == level) || Prefixes(files, level + 1) != {}
  {
    hide Prefix;
    var f :| f in files && level < Depth(f.path) && Prefix(f.path, level) == prefix;
    SplitSpec(f.path);
    if level + 1 < Depth(f.path) {
      assert Prefix(f.path, level + 1) in Prefixes(files, level + 1);
    }
  }

  lemma NoneDeeper(files: seq<StoredFile>, groups: Groups, max: nat)
    requires forall l, p :: Grouped(groups, l, p) <==> p in Prefixes(files, l)
    requires forall l :: l in groups ==> l <= max
    ensures Prefixes(files, max + 1) == {}
  {
    hide Prefixes;
    var deeper := Prefixes(files, max + 1);
    forall p ensures p !in deeper {
      assert Grouped(groups, max + 1, p) <==> p in deeper;
    }
  }

  /** Builds a node for every prefix of every file, and lists the nodes of each level. */
  method BundleHierarchically(src: Source) returns (levels: seq<seq<(string, string)>>, subs: SubEngrams)
    ensures Built(src, subs)
    ensures levels != [] && forall l :: 0 <= l < |levels| ==> LevelItems(src.files, l, levels[l])
    ensures forall l: nat, p: string :: IsNode(src, l, p) ==> l < |levels|
    ensures forall l: nat, p: string :: Listed(levels, l, p) <==> exists f :: f in src.files && Cut(f.path, l, p)
    ensures |levels| == 1 || exists f :: f in src.files && multiset(f.path)['/'] == |levels| - 1
  {
    var groups := GroupFiles(src.files);
    var maxLevel := MaxLevel(groups);
    levels, subs := [], map[];
    ghost var done: set<(nat, string)> := {};
    for level := 0 to maxLevel + 1
      invariant |levels| == level && forall l :: 0 <= l < level ==> LevelItems(src.files, l, levels[l])
      invariant PartlyBuilt(src, done, subs) && SoFar(src, done, level, [], 0)
    {
      hide PartlyBuilt, SoFar, LevelItems, UnderFiles, Prefixes;
      var items;
      items, subs, done := BuildLevel(src, groups, level, subs, done);
      levels := levels + [items];
    }
    forall l: nat, p: string | IsNode(src, l, p) ensures l < |levels| {
      assert Grouped(groups, l, p);
    }
    AllBuilt(src, done, subs);
    forall l: nat, p: string ensures Listed(levels, l, p) <==> exists f :: f in src.files && Cut(f.path, l, p) {
      ListedPrefixes(src, levels, l, p);
    }
    if maxLevel in groups {
      var prefix :| prefix in groups[maxLevel];
      assert Grouped(groups, maxLevel, prefix);
      DeepestFile(src.files, maxLevel, prefix);
      NoneDeeper(src.files, groups, maxLevel);
    }
  }
}
