/** The hierarchical query as it runs: a loop over a frontier with two least-recently-used caches. */
module HierQueryCached {
  import opened Bytes
  import opened Sorting
  import opened HierQuery
  import opened LruCache

  method Build(ids: seq<nat>, vectors: map<nat, SparseVec>) returns (index: Index)
    ensures index == BuildIndex(ids, vectors)
  {
    var added: seq<(nat, SparseVec)>, localToGlobal: seq<nat> := [], [];
    for n := 0 to |ids|
      invariant Index(added, localToGlobal) == BuildIndex(ids[..n], vectors)
    {
      assert ids[..n + 1][..n] == ids[..n];
      if ids[n] in vectors {
        localToGlobal := localToGlobal + [ids[n]];
        added := added + [(n, vectors[ids[n]])];
      }
    }
    assert ids[..|ids|] == ids;
    index := Index(added, localToGlobal);
  }

  method QueryTopKReranked(env: Env, b: Bounds, id: string, index: Index, ghost chunkIds: seq<nat>) returns (hits: seq<Hit>)
    requires index == BuildIndex(chunkIds, env.vectors)
    ensures hits == LocalHits(env, b, id, chunkIds)
  {
    if b.k == 0 {
      return [];
    }
    var candidates := env.topK(index.added, b.candidateK);
    hits := [];
    for n := 0 to |candidates|
      invariant hits == Ranked(env, id, index, candidates[..n])
    {
      assert candidates[..n + 1][..n] == candidates[..n];
      var (local, score) := candidates[n];
      if local < |index.localToGlobal| && index.localToGlobal[local] in env.vectors {
        var chunk := index.localToGlobal[local];
        hits := hits + [Hit(id, chunk, score, env.cosine(env.vectors[chunk]))];
      }
    }
    assert candidates[..|candidates|] == candidates;
    hits := Truncated(SortBy(LocalBefore, hits), b.k);
  }

  method MergeHits(start: map<nat, Hit>, hits: seq<Hit>) returns (best: map<nat, Hit>)
    ensures best == Merge(start, hits)
  {
    best := start;
    for n := 0 to |hits|
      invariant best == Merge(start, hits[..n])
    {
      assert hits[..n + 1][..n] == hits[..n];
      var hit := hits[n];
      if hit.chunkId !in best || Better(hit, best[hit.chunkId]) {
        best := best[hit.chunkId := hit];
      }
    }
    assert hits[..|hits|] == hits;
  }

  /** The sub-engram cache holds only what the store would load. */
  ghost predicate Loaded(env: Env, entries: map<string, SubEngram>)
  {
    forall id :: id in entries ==> env.load(id) == Some(entries[id])
  }

  /** The index cache holds only the indices that would be built. */
  ghost predicate Indexed(env: Env, entries: map<string, Index>)
  {
    forall id :: id in entries ==>
      env.load(id).Some? && entries[id] == BuildIndex(env.load(id).value.chunkIds, env.vectors)
  }

  /** Caching does not change what is loaded. */
  method GetCachedSubEngram(cache: LruCache<SubEngram>, env: Env, id: string) returns (r: Option<SubEngram>)
    requires cache.Valid() && Loaded(env, cache.entries)
    modifies cache
    ensures cache.Valid() && Loaded(env, cache.entries) && r == env.load(id)
  {
    hide Last, Recent, Used, Without, Distinct, Consistent;
    r := cache.Get(id);
    if r.None? {
      r := env.load(id);
      if r.Some? {
        cache.Insert(id, r.value);
      }
    }
  }

  lemma StillIndexed(env: Env, before: map<string, Index>, after: map<string, Index>, id: string)
    requires Indexed(env, before) && env.load(id).Some?
    requires forall k :: k in after ==>
      (k == id && after[k] == BuildIndex(env.load(id).value.chunkIds, env.vectors)) || (k in before && after[k] == before[k])
    ensures Indexed(env, after)
  {
    hide BuildIndex;
  }

  /** `None` is the panic of a lookup right after an insertion into a cache without room. */
  method GetCachedIndex(cache: LruCache<Index>, env: Env, id: string, chunkIds: seq<nat>) returns (r: Option<Index>)
    requires cache.Valid() && Indexed(env, cache.entries)
    requires env.load(id).Some? && chunkIds == env.load(id).value.chunkIds
    modifies cache
    ensures cache.Valid() && Indexed(env, cache.entries)
    ensures r == if cache.cap == 0 then None else Some(BuildIndex(chunkIds, env.vectors))
  {
    hide Last, Recent, Used, Without, Distinct;
    assert cache.cap == 0 ==> cache.entries == map[];
    assert id in cache.entries ==> cache.entries[id] == BuildIndex(chunkIds, env.vectors);
    hide BuildIndex, Indexed, Consistent;
    r := cache.Get(id);
    if r.None? {
      var built := Build(chunkIds, env.vectors);
      ghost var before := cache.entries;
      cache.Insert(id, built);
      StillIndexed(env, before, cache.entries, id);
      r := cache.Get(id);
    }
  }

  function Child(env: Env, id: string, depth: nat): seq<Item>
  {
    match env.load(id)
    case Some(sub) => [Item(env.cosine(sub.root), id, depth)]
    case None => []
  }

  lemma ChildrenNext(env: Env, ids: seq<string>, n: nat, depth: nat)
    requires n < |ids|
    ensures Children(env, ids[..n + 1], depth) == Children(env, ids[..n], depth) + Child(env, ids[n], depth)
  {
    assert ids[..n + 1][..n] == ids[..n];
  }

  /** Appends the items of the ids that can be loaded. */
  method PushItems(cache: LruCache<SubEngram>, env: Env, start: seq<Item>, ids: seq<string>, depth: nat) returns (items: seq<Item>)
    requires cache.Valid() && Loaded(env, cache.entries)
    modifies cache
    ensures cache.Valid() && Loaded(env, cache.entries) && items == start + Children(env, ids, depth)
  {
    items := start;
    assert Children(env, ids[..0], depth) == [];
    hide Children, Loaded, Consistent;
    for n := 0 to |ids|
      invariant cache.Valid() && Loaded(env, cache.entries) && items == start + Children(env, ids[..n], depth)
    {
      ChildrenNext(env, ids, n, depth);
      var sub := GetCachedSubEngram(cache, env, ids[n]);
      if sub.Some? {
        items := items + [Item(env.cosine(sub.value.root), ids[n], depth)];
      }
    }
    assert ids[..|ids|] == ids;
  }

  /** `hits` lists the values of `best`, each once, in any order. */
  ghost predicate Lists(hits: seq<Hit>, best: map<nat, Hit>)
  {
    && |hits| == |best|
    && (forall i :: 0 <= i < |hits| ==> hits[i].chunkId in best && best[hits[i].chunkId] == hits[i])
    && (forall i, j :: 0 <= i < j < |hits| ==> hits[i].chunkId != hits[j].chunkId)
    && forall c :: c in best ==> best[c] in hits
  }

  /** Draining the map in whatever order its iteration takes. */
  method Values(best: map<nat, Hit>) returns (hits: seq<Hit>)
    requires forall c :: c in best ==> best[c].chunkId == c
    ensures Lists(hits, best)
  {
    hits := [];
    var keys := best.Keys;
    assert |best.Keys| == |best|;
    while keys != {}
      invariant keys <= best.Keys && |hits| + |keys| == |best|
      invariant forall i :: 0 <= i < |hits| ==>
        hits[i].chunkId in best && hits[i].chunkId !in keys && best[hits[i].chunkId] == hits[i]
      invariant forall i, j :: 0 <= i < j < |hits| ==> hits[i].chunkId != hits[j].chunkId
      invariant forall c :: c in best && c !in keys ==> best[c] in hits
      decreases |keys|
    {
      var c :| c in keys;
      keys, hits := keys - {c}, hits + [best[c]];
    }
  }

  lemma PrefixIsTopK(sorted: seq<Hit>, best: map<nat, Hit>, k: nat)
    requires Lists(sorted, best) && Ascending(HitBefore, sorted)
    ensures IsTopK(Truncated(sorted, k), best, k)
  {
    hide HitBefore;
    var out := Truncated(sorted, k);
    forall c, i | c in best && best[c] !in out && 0 <= i < |out| ensures HitBefore(out[i], best[c]) {
      var j :| 0 <= j < |sorted| && sorted[j] == best[c];
      assert sorted[j] !in out;
    }
  }

  /** Sorting and truncating the values gives the first `k` of them. */
  lemma SortedValues(hits: seq<Hit>, best: map<nat, Hit>, k: nat)
    requires Lists(hits, best)
    ensures IsTopK(Truncated(SortBy(HitBefore, hits), k), best, k)
  {
    var sorted := SortBy(HitBefore, hits);
    HitOrder();
    hide HitBefore, SortBy, TotalOrder;
    assert NoDuplicates(hits);
    SortAscending(HitBefore, hits);
    SortSpec(HitBefore, hits);
    SameElements(hits, sorted);
    hide *;
    SameListing(hits, sorted, best);
    PrefixIsTopK(sorted, best, k);
  }

  lemma SameListing(hits: seq<Hit>, other: seq<Hit>, best: map<nat, Hit>)
    requires Lists(hits, best) && |other| == |hits| && NoDuplicates(other) && forall h :: h in other <==> h in hits
    ensures Lists(other, best)
  {
    assert forall i :: 0 <= i < |other| ==> other[i] in hits;
  }

  /** What one iteration does to the state. */
  lemma Iteration(env: Env, b: Bounds, s: State)
    requires Running(b, s)
    ensures var node, rest := s.frontier[0], s.frontier[1..];
      match env.load(node.id)
      case None => Run(env, b, s) == Run(env, b, State(rest, s.expanded, s.best))
      case Some(sub) =>
        && Run(env, b, s).expanded != []
        && Run(env, b, s) == Run(env, b, State(NextItems(env, b, node, sub, rest), s.expanded + [node],
                                               Merge(s.best, LocalHits(env, b, node.id, sub.chunkIds))))
  {
    RunExpands(env, b, Step(env, b, s));
  }

  lemma Starts(env: Env, b: Bounds, levels: seq<seq<string>>)
    requires levels != []
    ensures Explore(env, b, levels) == Run(env, b, State(Beam(b, [] + Children(env, levels[0], 0)), [], map[]))
  {
    hide Children, Beam, Run;
    assert [] + Children(env, levels[0], 0) == Children(env, levels[0], 0);
  }

  lemma IsRunning(b: Bounds, s: State)
    requires s.frontier != [] && |s.expanded| < b.maxExpansions
    ensures Running(b, s)
  {
  }

  lemma RunEnds(env: Env, b: Bounds, s: State)
    requires s.frontier == [] || |s.expanded| >= b.maxExpansions
    ensures Run(env, b, s) == s
  {
  }

  lemma BestKeyed(env: Env, b: Bounds, levels: seq<seq<string>>)
    requires levels != []
    ensures forall c :: c in Explore(env, b, levels).best ==> Explore(env, b, levels).best[c].chunkId == c
  {
    ExploreSpec(env, b, levels);
  }

  /** The hits of one node and the frontier after it, or a panic. */
  method Expand(subCache: LruCache<SubEngram>, indexCache: LruCache<Index>, env: Env, b: Bounds, node: Item, sub: SubEngram,
                rest: seq<Item>, before: map<nat, Hit>)
    returns (r: Option<(seq<Item>, map<nat, Hit>)>)
    requires subCache.Valid() && Loaded(env, subCache.entries) && indexCache.Valid() && Indexed(env, indexCache.entries)
    requires env.load(node.id) == Some(sub)
    modifies subCache, indexCache
    ensures subCache.Valid() && Loaded(env, subCache.entries) && indexCache.Valid() && Indexed(env, indexCache.entries)
    ensures r == if indexCache.cap == 0 then None
      else Some((NextItems(env, b, node, sub, rest), Merge(before, LocalHits(env, b, node.id, sub.chunkIds))))
  {
    hide Loaded, Indexed, Consistent, Beam, Children, Merge, LocalHits, BuildIndex;
    var index := GetCachedIndex(indexCache, env, node.id, sub.chunkIds);
    if index.None? {
      return None;
    }
    var hits := QueryTopKReranked(env, b, node.id, index.value, sub.chunkIds);
    var best := MergeHits(before, hits);
    if node.depth >= b.maxDepth {
      return Some((rest, best));
    }
    var frontier := PushItems(subCache, env, rest, sub.children, node.depth + 1);
    r := Some((Beam(b, frontier), best));
  }

  /** The search loop, or a panic as soon as it expands a node without room for an index. */
  method Search(env: Env, b: Bounds, levels: seq<seq<string>>, maxOpenEngrams: nat, maxOpenIndices: nat)
    returns (r: Option<map<nat, Hit>>)
    requires levels != []
    ensures r == if maxOpenIndices == 0 && Explore(env, b, levels).expanded != [] then None
      else Some(Explore(env, b, levels).best)
  {
    var subCache := new LruCache<SubEngram>(maxOpenEngrams);
    var indexCache := new LruCache<Index>(maxOpenIndices);
    assert Loaded(env, subCache.entries) && Indexed(env, indexCache.entries);
    Starts(env, b, levels);
    hide *;
    var frontier := PushItems(subCache, env, [], levels[0], 0);
    frontier := Beam(b, frontier);
    var expansions := 0;
    var best: map<nat, Hit> := map[];
    ghost var expanded: seq<Item> := [];
    while frontier != [] && expansions < b.maxExpansions
      invariant subCache.Valid() && Loaded(env, subCache.entries)
      invariant indexCache.Valid() && Indexed(env, indexCache.entries) && indexCache.cap == maxOpenIndices
      invariant expansions == |expanded| && (maxOpenIndices == 0 ==> expanded == [])
      invariant Run(env, b, State(frontier, expanded, best)) == Explore(env, b, levels)
      decreases b.maxExpansions - expansions, |frontier|
    {
      IsRunning(b, State(frontier, expanded, best));
      Iteration(env, b, State(frontier, expanded, best));
      var node := frontier[0];
      frontier := frontier[1..];
      var sub := GetCachedSubEngram(subCache, env, node.id);
      if sub.None? {
        continue;
      }
      expansions, expanded := expansions + 1, expanded + [node];
      var next := Expand(subCache, indexCache, env, b, node, sub.value, frontier, best);
      if next.None? {
        return None;
      }
      frontier, best := next.value.0, next.value.1;
    }
    RunEnds(env, b, State(frontier, expanded, best));
    r := Some(best);
  }

  /**
    * The first `k` of the best hits that the search over the levels sees, or a panic. Neither cache capacity has any
    * other influence on the result: the panic needs an index cache without room and a node to expand.
    */
  method Query(env: Env, b: Bounds, levels: seq<seq<string>>, maxOpenEngrams: nat, maxOpenIndices: nat)
    returns (r: Option<seq<Hit>>)
    ensures r.None? <==> maxOpenIndices == 0 && b.k > 0 && levels != [] && Explore(env, b, levels).expanded != []
    ensures r.Some? && (b.k == 0 || levels == []) ==> r.value == []
    ensures r.Some? && b.k > 0 && levels != [] ==> IsTopK(r.value, Explore(env, b, levels).best, b.k)
  {
    if b.k == 0 || levels == [] {
      return Some([]);
    }
    hide *;
    var best := Search(env, b, levels, maxOpenEngrams, maxOpenIndices);
    if best.None? {
      return None;
    }
    BestKeyed(env, b, levels);
    var values := Values(best.value);
    SortedValues(values, best.value, b.k);
    r := Some(Truncated(SortBy(HitBefore, values), b.k));
  }
}
