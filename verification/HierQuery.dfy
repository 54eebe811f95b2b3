/** Beam search over a hierarchy of sub-engrams: the specification and what it guarantees. */
module HierQuery {
  import opened Bytes
  import opened Sorting

  /** Cosines are compared by `total_cmp`, so they are values of a total order. */
  datatype Hit = Hit(subEngramId: string, chunkId: nat, approxScore: int, cosine: int)

  datatype Item = Item(score: int, id: string, depth: nat)

  datatype SubEngram = SubEngram(id: string, root: SparseVec, chunkIds: seq<nat>, chunkCount: nat, children: seq<string>)

  datatype Bounds = Bounds(k: nat, candidateK: nat, beamWidth: nat, maxDepth: nat, maxExpansions: nat)

  /** The vectors of an inverted index under their local ids, and the chunk each local id stands for. */
  datatype Index = Index(added: seq<(nat, SparseVec)>, localToGlobal: seq<nat>)

  /** What one query sees: the store, the codebook, the cosine with the query and the index lookup. */
  datatype Env = Env(
    load: string -> Option<SubEngram>,
    vectors: map<nat, SparseVec>,
    cosine: SparseVec -> int,
    topK: (seq<(nat, SparseVec)>, nat) -> seq<(nat, int)>)

  // The orders

  predicate StringLess(a: string, b: string)
  {
    b != [] && (a == [] || a[0] < b[0] || (a[0] == b[0] && StringLess(a[1..], b[1..])))
  }

  lemma {:induction false} StringOrder(a: string, b: string)
    ensures !(StringLess(a, b) && StringLess(b, a))
    ensures a == b <==> !StringLess(a, b) && !StringLess(b, a)
  {
    if a != [] && b != [] {
      StringOrder(a[1..], b[1..]);
      assert a == [a[0]] + a[1..] && b == [b[0]] + b[1..];
    }
  }

  lemma {:induction false} StringTransitive(a: string, b: string, c: string)
    requires StringLess(a, b) && StringLess(b, c)
    ensures StringLess(a, c)
  {
    if a != [] && a[0] == b[0] == c[0] {
      StringTransitive(a[1..], b[1..], c[1..]);
    }
  }

  /** The strings agree up to here, and the first ends or has the smaller character. */
  ghost predicate SmallerAt(a: string, b: string, i: nat)
  {
    i <= |a| && i < |b| && a[..i] == b[..i] && (i == |a| || a[i] < b[i])
  }

  /** Strings are compared character by character, a proper prefix being smaller. */
  lemma {:induction false} StringLessSpec(a: string, b: string)
    ensures StringLess(a, b) <==> exists i: nat :: SmallerAt(a, b, i)
  {
    if a == [] || b == [] || a[0] != b[0] {
      assert StringLess(a, b) ==> SmallerAt(a, b, 0);
    } else {
      var s, t := a[1..], b[1..];
      StringLessSpec(s, t);
      assert a == [a[0]] + s && b == [a[0]] + t;
      if StringLess(s, t) {
        var i: nat :| SmallerAt(s, t, i);
        assert a[..i + 1] == [a[0]] + s[..i] && b[..i + 1] == [a[0]] + t[..i];
        assert SmallerAt(a, b, i + 1);
      }
      if i: nat :| SmallerAt(a, b, i) {
        assert i > 0 && s[..i - 1] == a[..i][1..] && t[..i - 1] == b[..i][1..];
        assert SmallerAt(s, t, i - 1);
      }
    }
  }

  predicate FrontierBefore(x: Item, y: Item)
  {
    x.score > y.score || (x.score == y.score && StringLess(x.id, y.id))
  }

  predicate Better(x: Hit, y: Hit)
  {
    x.cosine > y.cosine || (x.cosine == y.cosine && x.approxScore > y.approxScore)
  }

  predicate LocalBefore(x: Hit, y: Hit)
  {
    Better(x, y) || (!Better(y, x) && x.chunkId < y.chunkId)
  }

  predicate HitBefore(x: Hit, y: Hit)
  {
    LocalBefore(x, y) || (!LocalBefore(y, x) && StringLess(x.subEngramId, y.subEngramId))
  }

  lemma FrontierOrder()
    ensures WeakOrder(FrontierBefore)
  {
    forall a, b ensures FrontierBefore(a, b) ==> !FrontierBefore(b, a) {
      StringOrder(a.id, b.id);
    }
    forall a, b, c | !FrontierBefore(b, a) && !FrontierBefore(c, b) ensures !FrontierBefore(c, a) {
      NotLess(a.id, b.id, c.id);
    }
  }

  lemma NotLess(a: string, b: string, c: string)
    ensures !StringLess(b, a) && !StringLess(c, b) ==> !StringLess(c, a)
  {
    StringOrder(a, b);
    StringOrder(b, c);
    StringOrder(a, c);
    if StringLess(a, b) && StringLess(b, c) {
      StringTransitive(a, b, c);
    }
  }

  lemma HitOrder()
    ensures TotalOrder(HitBefore)
  {
    forall a, b ensures HitBefore(a, b) ==> !HitBefore(b, a) {
      StringOrder(a.subEngramId, b.subEngramId);
    }
    forall a, b | a != b ensures HitBefore(a, b) || HitBefore(b, a) {
      StringOrder(a.subEngramId, b.subEngramId);
    }
    forall a, b, c | !HitBefore(b, a) && !HitBefore(c, b) ensures !HitBefore(c, a) {
      NotLess(a.subEngramId, b.subEngramId, c.subEngramId);
    }
  }

  // The index of one sub-engram

  function BuildIndex(ids: seq<nat>, vectors: map<nat, SparseVec>): Index
  {
    if ids == [] then Index([], [])
    else
      var n := |ids| - 1;
      var i := BuildIndex(ids[..n], vectors);
      if ids[n] in vectors then Index(i.added + [(n, vectors[ids[n]])], i.localToGlobal + [ids[n]]) else i
  }

  /** Every indexed vector is the vector of the chunk that its local id is mapped to. */
  ghost predicate Aligned(i: Index, vectors: map<nat, SparseVec>)
  {
    forall j :: 0 <= j < |i.added| ==>
      && i.added[j].0 < |i.localToGlobal|
      && var g := i.localToGlobal[i.added[j].0]; g in vectors && vectors[g] == i.added[j].1
  }

  /** No chunk of the codebook comes after a missing one. */
  ghost predicate NoneMissingBefore(ids: seq<nat>, vectors: map<nat, SparseVec>)
  {
    forall i, j :: 0 <= i < j < |ids| && ids[j] in vectors ==> ids[i] in vectors
  }

  lemma {:induction false} IndexSize(ids: seq<nat>, vectors: map<nat, SparseVec>)
    ensures var i := BuildIndex(ids, vectors);
      && |i.added| == |i.localToGlobal| <= |ids|
      && (|i.localToGlobal| == |ids| <==> forall j :: 0 <= j < |ids| ==> ids[j] in vectors)
      && forall j :: 0 <= j < |i.added| ==> i.added[j].0 < |ids|
  {
    if ids != [] {
      IndexSize(ids[..|ids| - 1], vectors);
    }
  }

  /** Without a gap the local ids are the positions in the chunk list. */
  lemma {:induction false} IndexWithoutGap(ids: seq<nat>, vectors: map<nat, SparseVec>)
    requires NoneMissingBefore(ids, vectors)
    ensures var i := BuildIndex(ids, vectors);
      && |i.added| == |i.localToGlobal| <= |ids|
      && forall j :: 0 <= j < |i.added| ==>
           i.localToGlobal[j] == ids[j] && ids[j] in vectors && i.added[j] == (j, vectors[ids[j]])
  {
    if ids != [] {
      var n := |ids| - 1;
      IndexWithoutGap(ids[..n], vectors);
      IndexSize(ids[..n], vectors);
    }
  }

  /**
    * The builder counts local ids over all chunks but maps only those it finds, so the index is usable exactly when
    * no chunk of the codebook follows a missing one.
    */
  lemma {:induction false} IndexAligned(ids: seq<nat>, vectors: map<nat, SparseVec>)
    ensures Aligned(BuildIndex(ids, vectors), vectors) <==> NoneMissingBefore(ids, vectors)
  {
    if NoneMissingBefore(ids, vectors) {
      IndexWithoutGap(ids, vectors);
    } else {
      var i, j :| 0 <= i < j < |ids| && ids[j] in vectors && ids[i] !in vectors;
      LastIndexed(ids, vectors, i, j);
    }
  }

  /** The last chunk found after a missing one has a local id outside the map. */
  lemma {:induction false} LastIndexed(ids: seq<nat>, vectors: map<nat, SparseVec>, i: nat, j: nat)
    requires i < j < |ids| && ids[j] in vectors && ids[i] !in vectors
    ensures !Aligned(BuildIndex(ids, vectors), vectors)
    decreases |ids|
  {
    var n := |ids| - 1;
    var all := BuildIndex(ids, vectors);
    if ids[n] in vectors {
      IndexSize(ids[..n], vectors);
      assert all.added[|all.added| - 1] == (n, vectors[ids[n]]);
    } else {
      LastIndexed(ids[..n], vectors, i, j);
    }
  }

  /** The candidates of one index that can be mapped back to a vector, with their cosines. */
  function Ranked(env: Env, id: string, i: Index, candidates: seq<(nat, int)>): seq<Hit>
  {
    if candidates == [] then []
    else
      var n := |candidates| - 1;
      var (local, score) := candidates[n];
      Ranked(env, id, i, candidates[..n]) +
      if local < |i.localToGlobal| && i.localToGlobal[local] in env.vectors then
        [Hit(id, i.localToGlobal[local], score, env.cosine(env.vectors[i.localToGlobal[local]]))]
      else []
  }

  /** The hits that expanding one node contributes. */
  function LocalHits(env: Env, b: Bounds, id: string, chunkIds: seq<nat>): seq<Hit>
  {
    var i := BuildIndex(chunkIds, env.vectors);
    if b.k == 0 then [] else Truncated(SortBy(LocalBefore, Ranked(env, id, i, env.topK(i.added, b.candidateK))), b.k)
  }

  lemma LocalOrder()
    ensures WeakOrder(LocalBefore)
  {
  }

  lemma {:induction false} IndexMembers(ids: seq<nat>, vectors: map<nat, SparseVec>)
    ensures forall j :: 0 <= j < |BuildIndex(ids, vectors).localToGlobal| ==> BuildIndex(ids, vectors).localToGlobal[j] in ids
  {
    if ids != [] {
      IndexMembers(ids[..|ids| - 1], vectors);
    }
  }

  /** A hit names its node and a chunk with a vector, and carries that vector's own cosine. */
  predicate Genuine(env: Env, id: string, chunks: seq<nat>, h: Hit)
  {
    h.subEngramId == id && h.chunkId in chunks && h.chunkId in env.vectors && h.cosine == env.cosine(env.vectors[h.chunkId])
  }

  lemma {:induction false} RankedGenuine(env: Env, id: string, i: Index, candidates: seq<(nat, int)>)
    ensures forall h :: h in Ranked(env, id, i, candidates) ==> Genuine(env, id, i.localToGlobal, h)
  {
    if candidates != [] {
      var n := |candidates| - 1;
      RankedGenuine(env, id, i, candidates[..n]);
      forall h | h in Ranked(env, id, i, candidates) ensures Genuine(env, id, i.localToGlobal, h) {
        assert h !in Ranked(env, id, i, candidates[..n]) ==> h.chunkId == i.localToGlobal[candidates[n].0];
      }
    }
  }

  /** The hits of a node are at most `k`, genuine, and ordered by falling cosine and then falling score. */
  lemma {:induction false} LocalHitsSpec(env: Env, b: Bounds, id: string, chunkIds: seq<nat>)
    ensures var hits := LocalHits(env, b, id, chunkIds);
      && |hits| <= b.k
      && (forall h :: h in hits ==> Genuine(env, id, chunkIds, h))
      && forall i, j :: 0 <= i < j < |hits| ==> hits[i].cosine >= hits[j].cosine && !LocalBefore(hits[j], hits[i])
  {
    var i := BuildIndex(chunkIds, env.vectors);
    var ranked := Ranked(env, id, i, env.topK(i.added, b.candidateK));
    RankedGenuine(env, id, i, env.topK(i.added, b.candidateK));
    IndexMembers(chunkIds, env.vectors);
    SortSpec(LocalBefore, ranked);
    LocalOrder();
    SameElements(ranked, SortBy(LocalBefore, ranked));
    hide BuildIndex, Ranked, SortBy;
    forall h | h in LocalHits(env, b, id, chunkIds) ensures Genuine(env, id, chunkIds, h) {
      assert h in ranked;
    }
  }

  function Truncated<T>(s: seq<T>, n: nat): (r: seq<T>)
    ensures |r| <= n && r <= s && (|s| > n ==> |r| == n)
  {
    if |s| > n then s[..n] else s
  }

  // The best hit of each chunk

  function MergeHit(best: map<nat, Hit>, h: Hit): map<nat, Hit>
  {
    if h.chunkId !in best || Better(h, best[h.chunkId]) then best[h.chunkId := h] else best
  }

  function Merge(best: map<nat, Hit>, hits: seq<Hit>): map<nat, Hit>
  {
    if hits == [] then best else MergeHit(Merge(best, hits[..|hits| - 1]), hits[|hits| - 1])
  }

  lemma {:induction false} MergeAppend(best: map<nat, Hit>, a: seq<Hit>, b: seq<Hit>)
    ensures Merge(best, a + b) == Merge(Merge(best, a), b)
    decreases |b|
  {
    if b == [] {
      assert a + b == a;
    } else {
      var n := |b| - 1;
      MergeAppend(best, a, b[..n]);
      assert (a + b)[..|a + b| - 1] == a + b[..n];
    }
  }

  /** Position `i` of `seen` holds the first of the best hits for its chunk. */
  ghost predicate FirstBest(seen: seq<Hit>, i: nat)
    requires i < |seen|
  {
    && (forall j :: 0 <= j < |seen| && seen[j].chunkId == seen[i].chunkId ==> !Better(seen[j], seen[i]))
    && forall j :: 0 <= j < i && seen[j].chunkId == seen[i].chunkId ==> Better(seen[i], seen[j])
  }

  /** `h` is the first of the best hits for chunk `c`. */
  ghost predicate Holds(h: Hit, c: nat, seen: seq<Hit>)
  {
    exists i :: 0 <= i < |seen| && seen[i] == h && h.chunkId == c && FirstBest(seen, i)
  }

  /** `best` holds for every chunk seen the first of its best hits, and nothing else. */
  ghost predicate BestOf(best: map<nat, Hit>, seen: seq<Hit>)
  {
    && (forall i :: 0 <= i < |seen| ==> seen[i].chunkId in best)
    && forall c :: c in best ==> Holds(best[c], c, seen)
  }

  lemma HoldsExtended(h: Hit, c: nat, seen: seq<Hit>, x: Hit)
    requires Holds(h, c, seen)
    ensures if c == x.chunkId && Better(x, h) then Holds(x, c, seen + [x]) else Holds(h, c, seen + [x])
  {
    var i :| 0 <= i < |seen| && seen[i] == h && h.chunkId == c && FirstBest(seen, i);
    var all := seen + [x];
    assert all[i] == h && all[|seen|] == x;
    if c == x.chunkId && Better(x, h) {
      assert FirstBest(all, |seen|);
    } else {
      assert FirstBest(all, i);
    }
  }

  lemma HoldsFirst(seen: seq<Hit>, x: Hit)
    requires forall i :: 0 <= i < |seen| ==> seen[i].chunkId != x.chunkId
    ensures Holds(x, x.chunkId, seen + [x])
  {
    assert (seen + [x])[|seen|] == x;
    assert FirstBest(seen + [x], |seen|);
  }

  lemma MergeHitBest(best: map<nat, Hit>, seen: seq<Hit>, x: Hit)
    requires BestOf(best, seen)
    ensures BestOf(MergeHit(best, x), seen + [x])
  {
    hide Holds, Better;
    forall c | c in MergeHit(best, x) ensures Holds(MergeHit(best, x)[c], c, seen + [x]) {
      if c in best {
        HoldsExtended(best[c], c, seen, x);
      } else {
        HoldsFirst(seen, x);
      }
    }
  }

  lemma {:induction false} MergeBest(seen: seq<Hit>)
    ensures BestOf(Merge(map[], seen), seen)
  {
    if seen != [] {
      var n := |seen| - 1;
      MergeBest(seen[..n]);
      MergeHitBest(Merge(map[], seen[..n]), seen[..n], seen[n]);
      assert seen == seen[..n] + [seen[n]];
    }
  }

  // The search

  function Children(env: Env, ids: seq<string>, depth: nat): seq<Item>
  {
    if ids == [] then []
    else
      var n := |ids| - 1;
      Children(env, ids[..n], depth) +
      match env.load(ids[n])
      case Some(sub) => [Item(env.cosine(sub.root), ids[n], depth)]
      case None => []
  }

  /** The frontier after sorting and truncating it. */
  function Beam(b: Bounds, items: seq<Item>): seq<Item>
  {
    Truncated(SortBy(FrontierBefore, items), b.beamWidth)
  }

  /** `expanded` is the run so far: its length is the expansion counter. */
  datatype State = State(frontier: seq<Item>, expanded: seq<Item>, best: map<nat, Hit>)

  function Init(env: Env, b: Bounds, roots: seq<string>): State
  {
    State(Beam(b, Children(env, roots, 0)), [], map[])
  }

  predicate Running(b: Bounds, s: State)
  {
    s.frontier != [] && |s.expanded| < b.maxExpansions
  }

  /** The frontier after expanding `node`: its children join only above the depth bound. */
  function NextItems(env: Env, b: Bounds, node: Item, sub: SubEngram, rest: seq<Item>): seq<Item>
  {
    if node.depth >= b.maxDepth then rest else Beam(b, rest + Children(env, sub.children, node.depth + 1))
  }

  function Step(env: Env, b: Bounds, s: State): State
    requires s.frontier != []
  {
    var node := s.frontier[0];
    match env.load(node.id)
    case None => s.(frontier := s.frontier[1..])
    case Some(sub) =>
      State(
        NextItems(env, b, node, sub, s.frontier[1..]),
        s.expanded + [node],
        Merge(s.best, LocalHits(env, b, node.id, sub.chunkIds)))
  }

  function Run(env: Env, b: Bounds, s: State): State
    decreases b.maxExpansions - |s.expanded|, |s.frontier|
  {
    if Running(b, s) then Run(env, b, Step(env, b, s)) else s
  }

  /** All hits met while expanding the given nodes, in order. */
  function Seen(env: Env, b: Bounds, expanded: seq<Item>): seq<Hit>
  {
    if expanded == [] then []
    else
      var node := expanded[|expanded| - 1];
      Seen(env, b, expanded[..|expanded| - 1]) +
      match env.load(node.id)
      case Some(sub) => LocalHits(env, b, node.id, sub.chunkIds)
      case None => []
  }

  /** A node is a level-0 item, or a child of a node expanded one level above it. */
  ghost predicate Reached(env: Env, b: Bounds, roots: seq<string>, expanded: seq<Item>, x: Item)
  {
    && x.depth <= b.maxDepth && env.load(x.id).Some? && x.score == env.cosine(env.load(x.id).value.root)
    && (x.depth == 0 ==> x.id in roots)
    && (x.depth > 0 ==> exists i :: 0 <= i < |expanded| && Parent(env, expanded[i], x))
  }

  ghost predicate Parent(env: Env, p: Item, x: Item)
  {
    p.depth + 1 == x.depth && env.load(p.id).Some? && x.id in env.load(p.id).value.children
  }

  ghost predicate AllReached(env: Env, b: Bounds, roots: seq<string>, expanded: seq<Item>, items: seq<Item>)
  {
    forall i :: 0 <= i < |items| ==> Reached(env, b, roots, expanded, items[i])
  }

  /** What every state of a search satisfies. */
  ghost predicate SearchInv(env: Env, b: Bounds, roots: seq<string>, s: State)
  {
    && |s.frontier| <= b.beamWidth && Sorted(FrontierBefore, s.frontier)
    && |s.expanded| <= b.maxExpansions
    && AllReached(env, b, roots, s.expanded, s.frontier)
    && (forall i :: 0 <= i < |s.expanded| ==> Reached(env, b, roots, s.expanded[..i], s.expanded[i]))
    && s.best == Merge(map[], Seen(env, b, s.expanded))
  }

  lemma {:induction false} ChildrenAre(env: Env, ids: seq<string>, depth: nat)
    ensures forall i :: 0 <= i < |Children(env, ids, depth)| ==>
      var x := Children(env, ids, depth)[i];
      x.depth == depth && x.id in ids && env.load(x.id).Some? && x.score == env.cosine(env.load(x.id).value.root)
  {
    if ids != [] {
      ChildrenAre(env, ids[..|ids| - 1], depth);
    }
  }

  lemma BeamKeeps(b: Bounds, items: seq<Item>)
    ensures |Beam(b, items)| <= b.beamWidth && Sorted(FrontierBefore, Beam(b, items))
    ensures forall i :: 0 <= i < |Beam(b, items)| ==> Beam(b, items)[i] in items
  {
    var sorted := SortBy(FrontierBefore, items);
    SortSpec(FrontierBefore, items);
    FrontierOrder();
    forall i | 0 <= i < |Beam(b, items)| ensures Beam(b, items)[i] in items {
      assert sorted[i] in multiset(sorted);
      assert sorted[i] in multiset(items);
    }
  }

  /** No item that the truncation drops comes before one that it keeps. */
  lemma BeamIsBest(b: Bounds, items: seq<Item>) returns (dropped: seq<Item>)
    ensures multiset(Beam(b, items)) + multiset(dropped) == multiset(items)
    ensures dropped != [] ==> |Beam(b, items)| == b.beamWidth
    ensures forall i, j :: 0 <= i < |Beam(b, items)| && 0 <= j < |dropped| ==>
      !FrontierBefore(dropped[j], Beam(b, items)[i])
  {
    var sorted := SortBy(FrontierBefore, items);
    SortSpec(FrontierBefore, items);
    FrontierOrder();
    dropped := sorted[|Beam(b, items)|..];
    assert sorted == Beam(b, items) + dropped;
  }

  lemma ReachedLater(env: Env, b: Bounds, roots: seq<string>, expanded: seq<Item>, node: Item, x: Item)
    requires Reached(env, b, roots, expanded, x)
    ensures Reached(env, b, roots, expanded + [node], x)
  {
    if x.depth > 0 {
      var i :| 0 <= i < |expanded| && Parent(env, expanded[i], x);
      assert Parent(env, (expanded + [node])[i], x);
    }
  }

  lemma {:induction false} InitKeeps(env: Env, b: Bounds, roots: seq<string>)
    ensures SearchInv(env, b, roots, Init(env, b, roots))
  {
    ChildrenAre(env, roots, 0);
    BeamKeeps(b, Children(env, roots, 0));
    hide Beam;
    forall i | 0 <= i < |Beam(b, Children(env, roots, 0))|
      ensures Reached(env, b, roots, [], Beam(b, Children(env, roots, 0))[i])
    {
      assert Beam(b, Children(env, roots, 0))[i] in Children(env, roots, 0);
    }
  }

  lemma {:induction false} PushedReached(env: Env, b: Bounds, roots: seq<string>, expanded: seq<Item>, node: Item,
                                         ids: seq<string>, rest: seq<Item>, items: seq<Item>)
    requires node.depth < b.maxDepth && env.load(node.id).Some? && ids == env.load(node.id).value.children
    requires AllReached(env, b, roots, expanded, rest)
    requires forall i :: 0 <= i < |items| ==> items[i] in rest + Children(env, ids, node.depth + 1)
    ensures AllReached(env, b, roots, expanded + [node], items)
  {
    ChildrenAre(env, ids, node.depth + 1);
    assert (expanded + [node])[|expanded|] == node;
    forall i | 0 <= i < |items| ensures Reached(env, b, roots, expanded + [node], items[i]) {
      if items[i] in rest {
        ReachedLater(env, b, roots, expanded, node, items[i]);
      } else {
        assert Parent(env, node, items[i]);
      }
    }
  }

  lemma {:induction false} RestReached(env: Env, b: Bounds, roots: seq<string>, expanded: seq<Item>, node: Item, rest: seq<Item>)
    requires AllReached(env, b, roots, expanded, rest)
    ensures AllReached(env, b, roots, expanded + [node], rest)
  {
    forall i | 0 <= i < |rest| {
      ReachedLater(env, b, roots, expanded, node, rest[i]);
    }
  }

  lemma {:induction false} NextFrontier(env: Env, b: Bounds, roots: seq<string>, expanded: seq<Item>, node: Item,
                                        sub: SubEngram, rest: seq<Item>)
    requires env.load(node.id) == Some(sub) && AllReached(env, b, roots, expanded, rest)
    requires |rest| <= b.beamWidth && Sorted(FrontierBefore, rest)
    ensures var next := NextItems(env, b, node, sub, rest);
      |next| <= b.beamWidth && Sorted(FrontierBefore, next) && AllReached(env, b, roots, expanded + [node], next)
  {
    var items := rest + Children(env, sub.children, node.depth + 1);
    hide Beam, Children, Reached, Sorted, FrontierBefore, AllReached;
    BeamKeeps(b, items);
    if node.depth < b.maxDepth {
      PushedReached(env, b, roots, expanded, node, sub.children, rest, Beam(b, items));
    } else {
      RestReached(env, b, roots, expanded, node, rest);
    }
  }

  lemma {:induction false} StepFrontier(env: Env, b: Bounds, roots: seq<string>, s: State)
    requires Running(b, s) && SearchInv(env, b, roots, s)
    ensures var t := Step(env, b, s);
      |t.frontier| <= b.beamWidth && Sorted(FrontierBefore, t.frontier) && AllReached(env, b, roots, t.expanded, t.frontier)
  {
    var node, rest := s.frontier[0], s.frontier[1..];
    assert Reached(env, b, roots, s.expanded, node);
    assert AllReached(env, b, roots, s.expanded, rest) && Sorted(FrontierBefore, rest);
    hide NextItems, Merge, LocalHits, Seen, Sorted, AllReached;
    NextFrontier(env, b, roots, s.expanded, node, env.load(node.id).value, rest);
  }

  lemma {:induction false} StepBest(env: Env, b: Bounds, s: State)
    requires Running(b, s) && s.best == Merge(map[], Seen(env, b, s.expanded)) && env.load(s.frontier[0].id).Some?
    ensures var t := Step(env, b, s); t.best == Merge(map[], Seen(env, b, t.expanded))
  {
    var node := s.frontier[0];
    var sub := env.load(node.id).value;
    assert (s.expanded + [node])[..|s.expanded|] == s.expanded;
    hide LocalHits, NextItems, Merge;
    MergeAppend(map[], Seen(env, b, s.expanded), LocalHits(env, b, node.id, sub.chunkIds));
  }

  lemma {:induction false} StepKeeps(env: Env, b: Bounds, roots: seq<string>, s: State)
    requires Running(b, s) && SearchInv(env, b, roots, s)
    ensures SearchInv(env, b, roots, Step(env, b, s))
  {
    var node, t := s.frontier[0], Step(env, b, s);
    assert Reached(env, b, roots, s.expanded, node);
    StepFrontier(env, b, roots, s);
    StepBest(env, b, s);
    hide NextItems, Merge, LocalHits, Seen, Sorted, AllReached;
    forall i | 0 <= i < |t.expanded| ensures Reached(env, b, roots, t.expanded[..i], t.expanded[i]) {
      assert t.expanded[..i] == s.expanded[..i];
    }
  }

  /** The node expanded next has the highest score of the frontier. */
  lemma BestFirst(env: Env, b: Bounds, roots: seq<string>, s: State, i: nat)
    requires Running(b, s) && SearchInv(env, b, roots, s) && i < |s.frontier|
    ensures s.frontier[i].score <= s.frontier[0].score
  {
    hide AllReached, Reached, Merge, Seen;
  }

  lemma {:induction false} RunKeeps(env: Env, b: Bounds, roots: seq<string>, s: State)
    requires SearchInv(env, b, roots, s)
    ensures SearchInv(env, b, roots, Run(env, b, s)) && !Running(b, Run(env, b, s))
    decreases b.maxExpansions - |s.expanded|, |s.frontier|
  {
    if Running(b, s) {
      StepKeeps(env, b, roots, s);
      RunKeeps(env, b, roots, Step(env, b, s));
    }
  }

  /** The final state of the search over the items of the first level. */
  function Explore(env: Env, b: Bounds, levels: seq<seq<string>>): State
    requires levels != []
  {
    Run(env, b, Init(env, b, levels[0]))
  }

  /**
    * Every search ends with an empty frontier or after `maxExpansions` expansions, has expanded only nodes within the
    * depth bound that it reached from level 0 through children of expanded nodes, keeps its frontier within the beam,
    * and holds for each chunk it met the first of its best hits.
    */
  lemma ExploreSpec(env: Env, b: Bounds, levels: seq<seq<string>>)
    requires levels != []
    ensures var s := Explore(env, b, levels);
      && (s.frontier == [] || |s.expanded| == b.maxExpansions)
      && |s.expanded| <= b.maxExpansions && |s.frontier| <= b.beamWidth
      && (forall i :: 0 <= i < |s.expanded| ==>
            s.expanded[i].depth <= b.maxDepth && Reached(env, b, levels[0], s.expanded[..i], s.expanded[i]))
      && BestOf(s.best, Seen(env, b, s.expanded))
  {
    InitKeeps(env, b, levels[0]);
    RunKeeps(env, b, levels[0], Init(env, b, levels[0]));
    var s := Explore(env, b, levels);
    MergeBest(Seen(env, b, s.expanded));
    hide Init, Run, BestOf, Seen, Merge;
    forall i | 0 <= i < |s.expanded| ensures s.expanded[i].depth <= b.maxDepth {
      assert Reached(env, b, levels[0], s.expanded[..i], s.expanded[i]);
    }
  }

  /** A search expands a node exactly when its bounds allow one and some level-0 item can be loaded. */
  lemma ExpandsWhen(env: Env, b: Bounds, levels: seq<seq<string>>)
    requires levels != []
    ensures Explore(env, b, levels).expanded != [] <==>
      b.maxExpansions > 0 && b.beamWidth > 0 && exists i :: 0 <= i < |levels[0]| && env.load(levels[0][i]).Some?
  {
    var s := Init(env, b, levels[0]);
    ChildrenSome(env, levels[0], 0);
    InitKeeps(env, b, levels[0]);
    if Running(b, s) {
      assert Reached(env, b, levels[0], s.expanded, s.frontier[0]);
      RunExpands(env, b, Step(env, b, s));
    }
  }

  lemma {:induction false} ChildrenSome(env: Env, ids: seq<string>, depth: nat)
    ensures Children(env, ids, depth) != [] <==> exists i :: 0 <= i < |ids| && env.load(ids[i]).Some?
  {
    if ids != [] {
      var n := |ids| - 1;
      ChildrenSome(env, ids[..n], depth);
      if exists i :: 0 <= i < |ids| && env.load(ids[i]).Some? {
        var i :| 0 <= i < |ids| && env.load(ids[i]).Some?;
        assert i < n ==> env.load(ids[..n][i]).Some?;
      }
    }
  }

  lemma {:induction false} RunExpands(env: Env, b: Bounds, s: State)
    ensures s.expanded <= Run(env, b, s).expanded
    decreases b.maxExpansions - |s.expanded|, |s.frontier|
  {
    if Running(b, s) {
      RunExpands(env, b, Step(env, b, s));
    }
  }

  // The result

  /** The first `k` of the best hits in the order of the result. */
  ghost predicate IsTopK(out: seq<Hit>, best: map<nat, Hit>, k: nat)
  {
    && |out| == Min(k, |best|)
    && (forall i :: 0 <= i < |out| ==> out[i].chunkId in best && best[out[i].chunkId] == out[i])
    && (forall i, j :: 0 <= i < j < |out| ==> HitBefore(out[i], out[j]) && out[i].chunkId != out[j].chunkId)
    && forall c, i :: c in best && best[c] !in out && 0 <= i < |out| ==> HitBefore(out[i], best[c])
  }

  /** The result falls in cosine, and no chunk left out of it has a better best hit than one in it. */
  lemma TopKBest(out: seq<Hit>, best: map<nat, Hit>, k: nat, i: nat, j: nat, c: nat)
    requires IsTopK(out, best, k) && i < j < |out| && c in best && best[c] !in out
    ensures out[i].cosine >= out[j].cosine >= best[c].cosine && |out| == k
    ensures !Better(out[j], out[i]) && !Better(best[c], out[j])
  {
    SomeUnlisted(out, best, c);
  }

  /** A list of different entries that lacks one is shorter than the map. */
  lemma SomeUnlisted(out: seq<Hit>, best: map<nat, Hit>, c: nat)
    requires forall i :: 0 <= i < |out| ==> out[i].chunkId in best && best[out[i].chunkId] == out[i]
    requires forall i, j :: 0 <= i < j < |out| ==> out[i].chunkId != out[j].chunkId
    requires c in best && best[c] !in out
    ensures |out| < |best|
  {
    var chunks := set i | 0 <= i < |out| :: out[i].chunkId;
    ManyChunks(out, chunks);
    assert chunks + {c} <= best.Keys && |best.Keys| == |best|;
    SubsetSize(chunks + {c}, best.Keys);
  }

  lemma SubsetSize(a: set<nat>, b: set<nat>)
    requires a <= b
    ensures |a| <= |b|
  {
    assert |b - a| == |b| - |a|;
  }

  lemma {:induction false} ManyChunks(out: seq<Hit>, chunks: set<nat>)
    requires chunks == set i | 0 <= i < |out| :: out[i].chunkId
    requires forall i, j :: 0 <= i < j < |out| ==> out[i].chunkId != out[j].chunkId
    ensures |chunks| == |out|
    decreases |out|
  {
    if out != [] {
      var n := |out| - 1;
      var rest := set i | 0 <= i < n :: out[..n][i].chunkId;
      ManyChunks(out[..n], rest);
      assert chunks == rest + {out[n].chunkId};
    }
  }

  lemma TopKUnique(x: seq<Hit>, y: seq<Hit>, best: map<nat, Hit>, k: nat)
    requires IsTopK(x, best, k) && IsTopK(y, best, k)
    ensures x == y
  {
    HitOrder();
    hide HitBefore, WeakOrder;
    var i := 0;
    while i < |x|
      invariant i <= |x| == |y| && x[..i] == y[..i]
    {
      if HitBefore(x[i], y[i]) {
        Earlier(x, y, best, k, i);
      } else if HitBefore(y[i], x[i]) {
        Earlier(y, x, best, k, i);
      }
      i := i + 1;
    }
  }

  lemma Earlier(x: seq<Hit>, y: seq<Hit>, best: map<nat, Hit>, k: nat, i: nat)
    requires IsTopK(x, best, k) && IsTopK(y, best, k) && i < |x| == |y| && x[..i] == y[..i]
    ensures !HitBefore(x[i], y[i])
  {
    HitOrder();
    hide HitBefore, LocalBefore;
    if x[i] in y {
      var j :| 0 <= j < |y| && y[j] == x[i];
      NotSooner(x, y, best, k, i, j);
      assert j == i || HitBefore(y[i], y[j]);
    } else {
      assert HitBefore(y[i], best[x[i].chunkId]);
    }
  }

  /** Where two results agree up to `i`, the entry there is no earlier in the other one. */
  lemma NotSooner(x: seq<Hit>, y: seq<Hit>, best: map<nat, Hit>, k: nat, i: nat, j: nat)
    requires IsTopK(x, best, k) && i < |x| == |y| && x[..i] == y[..i] && j < |y| && y[j] == x[i]
    ensures j >= i
  {
    assert forall l :: 0 <= l < i ==> x[..i][l] == y[..i][l];
  }
}
