/** The search passes nothing over: whatever an expanded node leads to is expanded, waiting, or beaten by a full beam. */
module HierQueryComplete {
  import opened Bytes
  import opened Sorting
  import opened HierQuery

  // The index and the hits of one node

  /** The index lists, in order, exactly the chunks that have a vector, each under its position in the node's list. */
  lemma {:induction false} IndexContents(ids: seq<nat>, vectors: map<nat, SparseVec>)
    ensures var i := BuildIndex(ids, vectors);
      && |i.added| == |i.localToGlobal|
      && (forall m :: 0 <= m < |i.added| ==>
            var at := i.added[m].0; at < |ids| && i.localToGlobal[m] == ids[at] && ids[at] in vectors && i.added[m].1 == vectors[ids[at]])
      && (forall l, m :: 0 <= l < m < |i.added| ==> i.added[l].0 < i.added[m].0)
      && forall at :: 0 <= at < |ids| && ids[at] in vectors ==> exists m :: 0 <= m < |i.added| && i.added[m].0 == at
  {
    if ids != [] {
      var n := |ids| - 1;
      IndexContents(ids[..n], vectors);
      var i, j := BuildIndex(ids, vectors), BuildIndex(ids[..n], vectors);
      forall at | 0 <= at < |ids| && ids[at] in vectors ensures exists m :: 0 <= m < |i.added| && i.added[m].0 == at {
        if at < n {
          assert ids[..n][at] in vectors;
          var m :| 0 <= m < |j.added| && j.added[m].0 == at;
          assert i.added[m].0 == at;
        } else {
          assert i.added[|j.added|].0 == at;
        }
      }
    }
  }

  /** The hit that a candidate of the index stands for. */
  function HitOf(env: Env, id: string, i: Index, candidate: (nat, int)): Hit
    requires candidate.0 < |i.localToGlobal| && i.localToGlobal[candidate.0] in env.vectors
  {
    var chunk := i.localToGlobal[candidate.0];
    Hit(id, chunk, candidate.1, env.cosine(env.vectors[chunk]))
  }

  lemma {:induction false} RankedHas(env: Env, id: string, i: Index, candidates: seq<(nat, int)>, j: nat)
    requires j < |candidates| && candidates[j].0 < |i.localToGlobal| && i.localToGlobal[candidates[j].0] in env.vectors
    ensures HitOf(env, id, i, candidates[j]) in Ranked(env, id, i, candidates)
    decreases |candidates|
  {
    var n := |candidates| - 1;
    if j < n {
      RankedHas(env, id, i, candidates[..n], j);
    }
  }

  /** Every candidate with a vector is among the node's hits, or `k` hits come before it or equal it. */
  lemma LocalHitsComplete(env: Env, b: Bounds, id: string, chunkIds: seq<nat>, j: nat)
    requires var i := BuildIndex(chunkIds, env.vectors); var candidates := env.topK(i.added, b.candidateK);
      j < |candidates| && candidates[j].0 < |i.localToGlobal| && i.localToGlobal[candidates[j].0] in env.vectors
    ensures var i := BuildIndex(chunkIds, env.vectors);
      var h, hits := HitOf(env, id, i, env.topK(i.added, b.candidateK)[j]), LocalHits(env, b, id, chunkIds);
      h in hits || (|hits| == b.k && forall m :: 0 <= m < |hits| ==> !LocalBefore(h, hits[m]))
  {
    var i := BuildIndex(chunkIds, env.vectors);
    var candidates := env.topK(i.added, b.candidateK);
    var ranked := Ranked(env, id, i, candidates);
    RankedHas(env, id, i, candidates, j);
    SortSpec(LocalBefore, ranked);
    LocalOrder();
    SameElements(ranked, SortBy(LocalBefore, ranked));
    hide BuildIndex, Ranked, SortBy, LocalBefore;
    var sorted := SortBy(LocalBefore, ranked);
    var at :| 0 <= at < |sorted| && sorted[at] == HitOf(env, id, i, candidates[j]);
    if b.k > 0 && at < b.k {
      assert LocalHits(env, b, id, chunkIds)[at] == sorted[at];
    }
  }

  // The course of a search

  /** The state after `n` turns of the loop, or at its end. */
  function After(env: Env, b: Bounds, s: State, n: nat): State
  {
    if n == 0 then s
    else
      var t := After(env, b, s, n - 1);
      if Running(b, t) then Step(env, b, t) else t
  }

  lemma {:induction false} AfterFirst(env: Env, b: Bounds, s: State, n: nat)
    requires Running(b, s)
    ensures After(env, b, s, n + 1) == After(env, b, Step(env, b, s), n)
  {
    hide Step;
    if n == 0 {
      assert After(env, b, s, 0) == s;
    } else {
      AfterFirst(env, b, s, n - 1);
    }
  }

  lemma {:induction false} RunIsAfter(env: Env, b: Bounds, s: State) returns (n: nat)
    ensures After(env, b, s, n) == Run(env, b, s)
    decreases b.maxExpansions - |s.expanded|, |s.frontier|
  {
    n := 0;
    if Running(b, s) {
      n := RunIsAfter(env, b, Step(env, b, s));
      AfterFirst(env, b, s, n);
      n := n + 1;
    }
  }

  /** The item's place is taken by a full beam of items that are no worse. */
  ghost predicate Outranked(b: Bounds, kept: seq<Item>, x: Item)
  {
    |kept| == b.beamWidth && forall i :: 0 <= i < |kept| ==> !FrontierBefore(x, kept[i])
  }

  /** What a frontier loses by sorting and truncation is outranked by what it keeps. */
  lemma BeamAccounts(b: Bounds, items: seq<Item>, x: Item)
    requires x in items
    ensures x in Beam(b, items) || Outranked(b, Beam(b, items), x)
  {
    var dropped := BeamIsBest(b, items);
    hide Beam, FrontierBefore;
    if x !in Beam(b, items) {
      assert x in multiset(items);
      assert x in multiset(dropped);
      var j :| 0 <= j < |dropped| && dropped[j] == x;
    }
  }

  /** The item of a sub-engram that can be loaded. */
  function ItemOf(env: Env, id: string, depth: nat): Item
    requires env.load(id).Some?
  {
    Item(env.cosine(env.load(id).value.root), id, depth)
  }

  lemma {:induction false} ChildrenHave(env: Env, ids: seq<string>, depth: nat, id: string)
    requires id in ids && env.load(id).Some?
    ensures ItemOf(env, id, depth) in Children(env, ids, depth)
    decreases |ids|
  {
    var n := |ids| - 1;
    if id != ids[n] {
      assert id in ids[..n];
      ChildrenHave(env, ids[..n], depth, id);
    }
  }

  /** The item has been expanded, is waiting, or was outranked after at least `since` expansions. */
  ghost predicate Accounted(env: Env, b: Bounds, start: State, n: nat, since: nat, x: Item)
  {
    var s := After(env, b, start, n);
    || x in s.expanded || x in s.frontier
    || exists k: nat :: k <= n && since <= |After(env, b, start, k).expanded| && Outranked(b, After(env, b, start, k).frontier, x)
  }

  /** `id` is a child of the `i`th expanded node, which is above the depth bound, and can be loaded. */
  ghost predicate Leads(env: Env, b: Bounds, expanded: seq<Item>, i: nat, id: string)
  {
    && i < |expanded| && expanded[i].depth < b.maxDepth && env.load(id).Some?
    && env.load(expanded[i].id).Some? && id in env.load(expanded[i].id).value.children
  }

  ghost predicate NothingPassedOver(env: Env, b: Bounds, roots: seq<string>, n: nat)
  {
    var start := Init(env, b, roots);
    && (forall id :: id in roots && env.load(id).Some? ==> Accounted(env, b, start, n, 0, ItemOf(env, id, 0)))
    && forall i: nat, id :: Leads(env, b, After(env, b, start, n).expanded, i, id) ==>
         Accounted(env, b, start, n, i + 1, ItemOf(env, id, After(env, b, start, n).expanded[i].depth + 1))
  }

  lemma FirstLoadable(env: Env, b: Bounds, roots: seq<string>, s: State)
    requires Running(b, s) && SearchInv(env, b, roots, s)
    ensures env.load(s.frontier[0].id).Some?
  {
    assert Reached(env, b, roots, s.expanded, s.frontier[0]);
    hide Merge, LocalHits, Seen, Sorted;
  }

  /** The items of a turn: the rest of the frontier and the node's children. */
  function TurnItems(env: Env, b: Bounds, s: State): seq<Item>
    requires s.frontier != [] && env.load(s.frontier[0].id).Some?
  {
    var node := s.frontier[0];
    s.frontier[1..] +
    if node.depth < b.maxDepth then Children(env, env.load(node.id).value.children, node.depth + 1) else []
  }

  lemma TurnGives(env: Env, b: Bounds, s: State)
    requires s.frontier != [] && env.load(s.frontier[0].id).Some?
    ensures Step(env, b, s).expanded == s.expanded + [s.frontier[0]]
    ensures Step(env, b, s).frontier
         == if s.frontier[0].depth < b.maxDepth then Beam(b, TurnItems(env, b, s)) else TurnItems(env, b, s)
  {
    hide Children, Beam, Merge, LocalHits;
    assert s.frontier[1..] + [] == s.frontier[1..];
  }

  lemma InTurn(env: Env, b: Bounds, s: State, x: Item)
    requires s.frontier != [] && env.load(s.frontier[0].id).Some?
    requires x in s.frontier || (s.frontier[0].depth < b.maxDepth
                                 && x in Children(env, env.load(s.frontier[0].id).value.children, s.frontier[0].depth + 1))
    ensures x == s.frontier[0] || x in TurnItems(env, b, s)
  {
    hide Children;
    assert s.frontier == [s.frontier[0]] + s.frontier[1..];
  }

  /** The item is expanded, waiting, or outranked by what is waiting. */
  ghost predicate Kept(b: Bounds, t: State, x: Item)
  {
    x in t.expanded || x in t.frontier || Outranked(b, t.frontier, x)
  }

  /** A turn of the loop: the first item is expanded, and the others and its children are kept or outranked. */
  lemma TurnAccounts(env: Env, b: Bounds, s: State, x: Item)
    requires s.frontier != [] && env.load(s.frontier[0].id).Some?
    requires x == s.frontier[0] || x in TurnItems(env, b, s)
    ensures Kept(b, Step(env, b, s), x)
  {
    hide *;
    TurnGives(env, b, s);
    if x in TurnItems(env, b, s) {
      BeamAccounts(b, TurnItems(env, b, s), x);
    }
    KeptIs(b, Step(env, b, s), x);
  }

  lemma KeptIs(b: Bounds, t: State, x: Item)
    ensures Kept(b, t, x) <==> x in t.expanded || x in t.frontier || Outranked(b, t.frontier, x)
  {
  }

  lemma {:induction false} AfterInv(env: Env, b: Bounds, roots: seq<string>, n: nat)
    ensures SearchInv(env, b, roots, After(env, b, Init(env, b, roots), n))
  {
    hide SearchInv, Running, Step;
    if n == 0 {
      InitKeeps(env, b, roots);
    } else {
      AfterInv(env, b, roots, n - 1);
      StepMayKeep(env, b, roots, After(env, b, Init(env, b, roots), n - 1));
    }
  }

  lemma StepMayKeep(env: Env, b: Bounds, roots: seq<string>, s: State)
    requires SearchInv(env, b, roots, s)
    ensures SearchInv(env, b, roots, if Running(b, s) then Step(env, b, s) else s)
  {
    hide SearchInv, Step;
    if Running(b, s) {
      StepKeeps(env, b, roots, s);
    }
  }

  lemma NextAccounted(env: Env, b: Bounds, start: State, n: nat, since: nat, x: Item)
    requires Kept(b, After(env, b, start, n + 1), x) && since <= |After(env, b, start, n + 1).expanded|
    ensures Accounted(env, b, start, n + 1, since, x)
  {
    hide After, Outranked;
  }

  lemma AccountedOn(env: Env, b: Bounds, roots: seq<string>, n: nat, since: nat, x: Item)
    requires Accounted(env, b, Init(env, b, roots), n, since, x) && since <= |After(env, b, Init(env, b, roots), n).expanded|
    ensures Accounted(env, b, Init(env, b, roots), n + 1, since, x)
  {
    var start := Init(env, b, roots);
    var s := After(env, b, start, n);
    TurnOf(env, b, roots, n);
    hide Init, Step, Outranked, Children, TurnItems, After, Kept;
    if Running(b, s) && x in s.frontier {
      InTurn(env, b, s, x);
      TurnAccounts(env, b, s, x);
      NextAccounted(env, b, start, n, since, x);
    }
  }

  /** The next turn after some: the first item can be loaded and is expanded. */
  lemma TurnOf(env: Env, b: Bounds, roots: seq<string>, n: nat)
    ensures var s, t := After(env, b, Init(env, b, roots), n), After(env, b, Init(env, b, roots), n + 1);
      if Running(b, s) then env.load(s.frontier[0].id).Some? && t == Step(env, b, s) && t.expanded == s.expanded + [s.frontier[0]]
      else t == s
  {
    hide Init, Step, SearchInv;
    var s := After(env, b, Init(env, b, roots), n);
    AfterInv(env, b, roots, n);
    if Running(b, s) {
      FirstLoadable(env, b, roots, s);
      TurnGives(env, b, s);
    }
  }

  /** A child of the node that a turn expands. */
  lemma ChildAccounted(env: Env, b: Bounds, roots: seq<string>, n: nat, id: string)
    requires var s := After(env, b, Init(env, b, roots), n);
      Running(b, s) && Leads(env, b, s.expanded + [s.frontier[0]], |s.expanded|, id)
    ensures var s := After(env, b, Init(env, b, roots), n);
      Accounted(env, b, Init(env, b, roots), n + 1, |s.expanded| + 1, ItemOf(env, id, s.frontier[0].depth + 1))
  {
    var start := Init(env, b, roots);
    var s := After(env, b, start, n);
    TurnOf(env, b, roots, n);
    hide Init, Step, Outranked, Children, TurnItems, After, Kept, Accounted;
    var node := s.frontier[0];
    var x := ItemOf(env, id, node.depth + 1);
    ChildrenHave(env, env.load(node.id).value.children, node.depth + 1, id);
    InTurn(env, b, s, x);
    TurnAccounts(env, b, s, x);
    NextAccounted(env, b, start, n, |s.expanded| + 1, x);
  }

  lemma {:induction false} PassesNothing(env: Env, b: Bounds, roots: seq<string>, n: nat)
    ensures NothingPassedOver(env, b, roots, n)
  {
    var start := Init(env, b, roots);
    hide Init, SearchInv, Step, Outranked, Children, Accounted, Running, Leads;
    if n == 0 {
      StartAccounts(env, b, roots);
    } else {
      PassesNothing(env, b, roots, n - 1);
      var s, t := After(env, b, start, n - 1), After(env, b, start, n);
      forall id | id in roots && env.load(id).Some? ensures Accounted(env, b, start, n, 0, ItemOf(env, id, 0)) {
        AccountedOn(env, b, roots, n - 1, 0, ItemOf(env, id, 0));
      }
      forall i: nat, id | Leads(env, b, t.expanded, i, id)
        ensures i < |t.expanded| && env.load(id).Some?
        ensures Accounted(env, b, start, n, i + 1, ItemOf(env, id, t.expanded[i].depth + 1))
      {
        LeadAccounted(env, b, roots, n - 1, i, id);
      }
    }
  }

  /** One more turn: what was led to is still accounted for, and so are the children of the node expanded now. */
  lemma LeadAccounted(env: Env, b: Bounds, roots: seq<string>, n: nat, i: nat, id: string)
    requires NothingPassedOver(env, b, roots, n) && Leads(env, b, After(env, b, Init(env, b, roots), n + 1).expanded, i, id)
    ensures var t := After(env, b, Init(env, b, roots), n + 1);
      i < |t.expanded| && env.load(id).Some? && Accounted(env, b, Init(env, b, roots), n + 1, i + 1, ItemOf(env, id, t.expanded[i].depth + 1))
  {
    var s := After(env, b, Init(env, b, roots), n);
    TurnOf(env, b, roots, n);
    hide Init, Step, After, Children, Accounted;
    if Running(b, s) && i == |s.expanded| {
      ChildAccounted(env, b, roots, n, id);
    } else {
      assert Leads(env, b, s.expanded, i, id);
      AccountedOn(env, b, roots, n, i + 1, ItemOf(env, id, s.expanded[i].depth + 1));
    }
  }

  lemma StartAccounts(env: Env, b: Bounds, roots: seq<string>)
    ensures NothingPassedOver(env, b, roots, 0)
  {
    var start := Init(env, b, roots);
    hide Children, Beam, Outranked;
    assert After(env, b, start, 0) == start;
    forall id | id in roots && env.load(id).Some? ensures Accounted(env, b, start, 0, 0, ItemOf(env, id, 0)) {
      ChildrenHave(env, roots, 0, id);
      BeamAccounts(b, Children(env, roots, 0), ItemOf(env, id, 0));
    }
  }

  /**
   * No branch is passed over: every loadable entry of level 0, and every loadable child of every node expanded above the depth
   * bound, has been expanded, is waiting in the frontier, or was dropped, after its parent was expanded, by a truncation that
   * kept `beamWidth` items of which none comes later in the order.
   */
  lemma NoBranchPassedOver(env: Env, b: Bounds, levels: seq<seq<string>>) returns (n: nat)
    requires levels != []
    ensures After(env, b, Init(env, b, levels[0]), n) == Explore(env, b, levels)
    ensures forall id :: id in levels[0] && env.load(id).Some? ==>
      Accounted(env, b, Init(env, b, levels[0]), n, 0, ItemOf(env, id, 0))
    ensures forall i: nat, id :: Leads(env, b, Explore(env, b, levels).expanded, i, id) ==>
      Accounted(env, b, Init(env, b, levels[0]), n, i + 1, ItemOf(env, id, Explore(env, b, levels).expanded[i].depth + 1))
  {
    hide Init, Accounted, ItemOf;
    n := RunIsAfter(env, b, Init(env, b, levels[0]));
    PassesNothing(env, b, levels[0], n);
  }

  // Searches with room for everything

  /** How many items the sub-engram stands for: itself and, above the depth bound, all below it. */
  function InReach(env: Env, maxDepth: nat, id: string, depth: nat): (n: nat)
    ensures n > 0
    decreases if depth < maxDepth then maxDepth - depth else 0, 0, 0
  {
    1 + if depth < maxDepth && env.load(id).Some? then AllInReach(env, maxDepth, env.load(id).value.children, depth + 1) else 0
  }

  function AllInReach(env: Env, maxDepth: nat, ids: seq<string>, depth: nat): nat
    decreases if depth < maxDepth then maxDepth - depth else 0, 1, |ids|
  {
    if ids == [] then 0
    else
      var n := |ids| - 1;
      AllInReach(env, maxDepth, ids[..n], depth) + if env.load(ids[n]).Some? then InReach(env, maxDepth, ids[n], depth) else 0
  }

  function Weight(env: Env, maxDepth: nat, items: seq<Item>): nat
    decreases |items|
  {
    if items == [] then 0
    else
      var n := |items| - 1;
      Weight(env, maxDepth, items[..n]) + InReach(env, maxDepth, items[n].id, items[n].depth)
  }

  lemma {:induction false} WeightAppend(env: Env, maxDepth: nat, a: seq<Item>, b: seq<Item>)
    ensures Weight(env, maxDepth, a + b) == Weight(env, maxDepth, a) + Weight(env, maxDepth, b)
    decreases |b|
  {
    hide InReach;
    if b == [] {
      assert a + b == a;
    } else {
      var n := |b| - 1;
      WeightAppend(env, maxDepth, a, b[..n]);
      assert (a + b)[..|a + b| - 1] == a + b[..n];
    }
  }

  lemma WeightOne(env: Env, maxDepth: nat, x: Item)
    ensures Weight(env, maxDepth, [x]) == InReach(env, maxDepth, x.id, x.depth)
  {
    hide InReach;
    assert [x][..0] == [];
  }

  lemma {:induction false} WeightBounds(env: Env, maxDepth: nat, items: seq<Item>)
    ensures |items| <= Weight(env, maxDepth, items)
    decreases |items|
  {
    hide InReach;
    if items != [] {
      WeightBounds(env, maxDepth, items[..|items| - 1]);
    }
  }

  lemma TakenOut(a: seq<Item>, x: Item, before: seq<Item>, rest: seq<Item>)
    requires multiset(a + [x]) == multiset(before + ([x] + rest))
    ensures multiset(a) == multiset(before + rest)
  {
    assert multiset(a) == multiset(a + [x]) - multiset{x};
    assert before + ([x] + rest) == before + [x] + rest;
    assert multiset(before + [x] + rest) - multiset{x} == multiset(before + rest);
  }

  lemma {:induction false} WeightPermuted(env: Env, maxDepth: nat, a: seq<Item>, b: seq<Item>)
    requires multiset(a) == multiset(b)
    ensures Weight(env, maxDepth, a) == Weight(env, maxDepth, b)
    decreases |a|
  {
    SameElements(a, b);
    if a == [] {
      assert b == [];
    } else {
      var init, x := a[..|a| - 1], a[|a| - 1];
      assert a == init + [x];
      assert x in b;
      var j :| 0 <= j < |b| && b[j] == x;
      var before, rest := b[..j], b[j + 1..];
      assert b == before + ([x] + rest);
      TakenOut(init, x, before, rest);
      WeightPermuted(env, maxDepth, init, before + rest);
      hide *;
      WeightAppend(env, maxDepth, init, [x]);
      WeightAppend(env, maxDepth, before, [x] + rest);
      WeightAppend(env, maxDepth, [x], rest);
      WeightAppend(env, maxDepth, before, rest);
    }
  }

  lemma {:induction false} ChildrenWeigh(env: Env, maxDepth: nat, ids: seq<string>, depth: nat)
    ensures Weight(env, maxDepth, Children(env, ids, depth)) == AllInReach(env, maxDepth, ids, depth)
    decreases |ids|
  {
    if ids != [] {
      var n := |ids| - 1;
      ChildrenWeigh(env, maxDepth, ids[..n], depth);
      hide InReach, Weight;
      var before := Children(env, ids[..n], depth);
      if env.load(ids[n]).Some? {
        var x := Item(env.cosine(env.load(ids[n]).value.root), ids[n], depth);
        WeightAppend(env, maxDepth, before, [x]);
        WeightOne(env, maxDepth, x);
      } else {
        assert before + [] == before;
      }
    }
  }

  /** The expansions done and the weight of what is waiting make up everything in reach. */
  ghost predicate Weighed(env: Env, b: Bounds, roots: seq<string>, s: State)
  {
    |s.expanded| + Weight(env, b.maxDepth, s.frontier) == AllInReach(env, b.maxDepth, roots, 0)
  }

  /** The beam is wide enough for everything in reach of level 0. */
  ghost predicate Wide(env: Env, b: Bounds, roots: seq<string>)
  {
    AllInReach(env, b.maxDepth, roots, 0) <= b.beamWidth
  }

  /** A beam with room for everything keeps everything. */
  lemma BeamKeepsAll(env: Env, b: Bounds, items: seq<Item>)
    requires Weight(env, b.maxDepth, items) <= b.beamWidth
    ensures Weight(env, b.maxDepth, Beam(b, items)) == Weight(env, b.maxDepth, items)
    ensures forall x :: x in items ==> x in Beam(b, items)
  {
    var sorted := SortBy(FrontierBefore, items);
    WeightBounds(env, b.maxDepth, items);
    SortSpec(FrontierBefore, items);
    SameElements(items, sorted);
    WeightPermuted(env, b.maxDepth, items, sorted);
    hide Weight, SortBy, FrontierBefore;
    assert Beam(b, items) == sorted;
  }

  lemma {:induction false} StartWeighed(env: Env, b: Bounds, roots: seq<string>)
    requires Wide(env, b, roots)
    ensures Weighed(env, b, roots, Init(env, b, roots))
    ensures forall id :: id in roots && env.load(id).Some? ==> ItemOf(env, id, 0) in Init(env, b, roots).frontier
  {
    ChildrenWeigh(env, b.maxDepth, roots, 0);
    hide Weight, AllInReach, Beam, Children;
    BeamKeepsAll(env, b, Children(env, roots, 0));
    forall id | id in roots && env.load(id).Some? ensures ItemOf(env, id, 0) in Init(env, b, roots).frontier {
      ChildrenHave(env, roots, 0, id);
    }
  }

  lemma TurnWeighs(env: Env, b: Bounds, s: State)
    requires s.frontier != [] && env.load(s.frontier[0].id).Some? && s.frontier[0].depth <= b.maxDepth
    ensures 1 + Weight(env, b.maxDepth, TurnItems(env, b, s)) == Weight(env, b.maxDepth, s.frontier)
  {
    var node, rest, d := s.frontier[0], s.frontier[1..], b.maxDepth;
    var ids := env.load(node.id).value.children;
    var more := if node.depth < d then Children(env, ids, node.depth + 1) else [];
    assert s.frontier == [node] + rest && TurnItems(env, b, s) == rest + more;
    assert Weight(env, d, []) == 0;
    assert InReach(env, d, node.id, node.depth) == 1 + if node.depth < d then AllInReach(env, d, ids, node.depth + 1) else 0;
    hide *;
    WeightAppend(env, d, [node], rest);
    WeightAppend(env, d, rest, more);
    WeightOne(env, d, node);
    ChildrenWeigh(env, d, ids, node.depth + 1);
  }

  lemma TurnLoadable(env: Env, b: Bounds, roots: seq<string>, s: State)
    requires Running(b, s) && SearchInv(env, b, roots, s)
    ensures env.load(s.frontier[0].id).Some? && s.frontier[0].depth <= b.maxDepth
    ensures forall i :: 0 <= i < |TurnItems(env, b, s)| ==> env.load(TurnItems(env, b, s)[i].id).Some?
  {
    var node := s.frontier[0];
    assert Reached(env, b, roots, s.expanded, node);
    ChildrenAre(env, env.load(node.id).value.children, node.depth + 1);
    hide Merge, Seen, Sorted, Children;
    assert forall i :: 0 <= i < |s.frontier| ==> Reached(env, b, roots, s.expanded, s.frontier[i]);
  }

  lemma TurnKeepsAll(env: Env, b: Bounds, roots: seq<string>, s: State)
    requires Running(b, s) && SearchInv(env, b, roots, s) && Wide(env, b, roots) && Weighed(env, b, roots, s)
    ensures var t := Step(env, b, s);
      && env.load(s.frontier[0].id).Some? && Weighed(env, b, roots, t) && t.expanded == s.expanded + [s.frontier[0]]
      && forall x :: x in TurnItems(env, b, s) ==> x in t.frontier
  {
    TurnLoadable(env, b, roots, s);
    hide SearchInv, Weight, AllInReach, Step, TurnItems, Beam;
    TurnWeighs(env, b, s);
    TurnGives(env, b, s);
    BeamKeepsAll(env, b, TurnItems(env, b, s));
  }

  /** Everything that expanded nodes lead to is expanded or waiting. */
  ghost predicate Closed(env: Env, b: Bounds, roots: seq<string>, s: State)
  {
    && (forall id :: id in roots && env.load(id).Some? ==> ItemOf(env, id, 0) in s.expanded + s.frontier)
    && forall i: nat, id :: Leads(env, b, s.expanded, i, id) ==> ItemOf(env, id, s.expanded[i].depth + 1) in s.expanded + s.frontier
  }

  lemma StaysThere(env: Env, b: Bounds, s: State, t: State, x: Item)
    requires s.frontier != [] && env.load(s.frontier[0].id).Some? && t.expanded == s.expanded + [s.frontier[0]]
    requires forall y :: y in TurnItems(env, b, s) ==> y in t.frontier
    requires x in s.expanded + s.frontier || x in TurnItems(env, b, s)
    ensures x in t.expanded + t.frontier
  {
    hide Children;
    if x in s.frontier && x != s.frontier[0] {
      assert x in s.frontier[1..];
    }
  }

  lemma TurnCloses(env: Env, b: Bounds, roots: seq<string>, s: State)
    requires Running(b, s) && SearchInv(env, b, roots, s) && Wide(env, b, roots) && Weighed(env, b, roots, s)
    requires Closed(env, b, roots, s)
    ensures Closed(env, b, roots, Step(env, b, s))
  {
    hide SearchInv, Weighed, Wide, Step, TurnItems, ItemOf, Leads;
    TurnKeepsAll(env, b, roots, s);
    var t := Step(env, b, s);
    forall id | id in roots && env.load(id).Some? ensures ItemOf(env, id, 0) in t.expanded + t.frontier {
      StaysThere(env, b, s, t, ItemOf(env, id, 0));
    }
    forall i: nat, id | Leads(env, b, t.expanded, i, id)
      ensures i < |t.expanded| && env.load(id).Some? && ItemOf(env, id, t.expanded[i].depth + 1) in t.expanded + t.frontier
    {
      ChildStays(env, b, roots, s, t, i, id);
    }
  }

  lemma ChildStays(env: Env, b: Bounds, roots: seq<string>, s: State, t: State, i: nat, id: string)
    requires Closed(env, b, roots, s) && s.frontier != [] && env.load(s.frontier[0].id).Some?
    requires t.expanded == s.expanded + [s.frontier[0]] && forall y :: y in TurnItems(env, b, s) ==> y in t.frontier
    requires Leads(env, b, t.expanded, i, id)
    ensures i < |t.expanded| && env.load(id).Some? && ItemOf(env, id, t.expanded[i].depth + 1) in t.expanded + t.frontier
  {
    hide TurnItems, ItemOf;
    if i < |s.expanded| {
      assert Leads(env, b, s.expanded, i, id) && t.expanded[i] == s.expanded[i];
    } else {
      ChildAmong(env, b, s, id);
    }
    StaysThere(env, b, s, t, ItemOf(env, id, t.expanded[i].depth + 1));
  }

  lemma ChildAmong(env: Env, b: Bounds, s: State, id: string)
    requires s.frontier != [] && env.load(s.frontier[0].id).Some? && s.frontier[0].depth < b.maxDepth
    requires env.load(id).Some? && id in env.load(s.frontier[0].id).value.children
    ensures ItemOf(env, id, s.frontier[0].depth + 1) in TurnItems(env, b, s)
  {
    hide Children;
    ChildrenHave(env, env.load(s.frontier[0].id).value.children, s.frontier[0].depth + 1, id);
  }

  lemma {:induction false} RunCloses(env: Env, b: Bounds, roots: seq<string>, s: State)
    requires SearchInv(env, b, roots, s) && Wide(env, b, roots) && Weighed(env, b, roots, s) && Closed(env, b, roots, s)
    ensures Weighed(env, b, roots, Run(env, b, s)) && Closed(env, b, roots, Run(env, b, s))
    decreases b.maxExpansions - |s.expanded|, |s.frontier|
  {
    hide SearchInv, Weighed, Closed, Wide;
    if Running(b, s) {
      StepKeeps(env, b, roots, s);
      TurnKeepsAll(env, b, roots, s);
      TurnCloses(env, b, roots, s);
      RunCloses(env, b, roots, Step(env, b, s));
    }
  }

  /** A way from level 0 down along children, all of them loadable. */
  ghost predicate Way(env: Env, roots: seq<string>, ids: seq<string>)
  {
    && ids != [] && ids[0] in roots && (forall i :: 0 <= i < |ids| ==> env.load(ids[i]).Some?)
    && forall i :: 0 <= i < |ids| - 1 ==> ids[i + 1] in env.load(ids[i]).value.children
  }

  lemma {:induction false} WayExpanded(env: Env, b: Bounds, roots: seq<string>, s: State, ids: seq<string>)
    requires Closed(env, b, roots, s) && s.frontier == [] && Way(env, roots, ids) && |ids| <= b.maxDepth + 1
    ensures ItemOf(env, ids[|ids| - 1], |ids| - 1) in s.expanded
    decreases |ids|
  {
    assert s.expanded + s.frontier == s.expanded;
    var n := |ids| - 1;
    if n > 0 {
      assert Way(env, roots, ids[..n]);
      WayExpanded(env, b, roots, s, ids[..n]);
      var i: nat :| i < |s.expanded| && s.expanded[i] == ItemOf(env, ids[n - 1], n - 1);
      assert ids[n - 1 + 1] in env.load(ids[n - 1]).value.children;
      assert Leads(env, b, s.expanded, i, ids[n]);
    }
  }

  lemma {:induction false} ExpandedWay(env: Env, b: Bounds, roots: seq<string>, expanded: seq<Item>, i: nat) returns (ids: seq<string>)
    requires i < |expanded| && forall j :: 0 <= j < |expanded| ==> Reached(env, b, roots, expanded[..j], expanded[j])
    ensures Way(env, roots, ids) && |ids| == expanded[i].depth + 1 && ids[|ids| - 1] == expanded[i].id
    ensures expanded[i] == ItemOf(env, expanded[i].id, expanded[i].depth)
    decreases i
  {
    assert Reached(env, b, roots, expanded[..i], expanded[i]);
    if expanded[i].depth == 0 {
      ids := [expanded[i].id];
    } else {
      var j :| 0 <= j < |expanded[..i]| && Parent(env, expanded[..i][j], expanded[i]);
      var before := ExpandedWay(env, b, roots, expanded, j);
      ids := before + [expanded[i].id];
    }
  }

  lemma RunsOut(env: Env, b: Bounds, roots: seq<string>, s: State)
    requires SearchInv(env, b, roots, s) && Weighed(env, b, roots, s) && !Running(b, s)
    requires AllInReach(env, b.maxDepth, roots, 0) <= b.maxExpansions
    ensures s.frontier == []
  {
    hide Weight, AllInReach, Merge, Seen, Sorted;
    assert forall i :: 0 <= i < |s.frontier| ==> Reached(env, b, roots, s.expanded, s.frontier[i]);
    WeightBounds(env, b.maxDepth, s.frontier);
  }

  /** How a search ends that has room for everything in reach. */
  lemma WideEnd(env: Env, b: Bounds, levels: seq<seq<string>>)
    requires levels != [] && AllInReach(env, b.maxDepth, levels[0], 0) <= b.beamWidth
    requires AllInReach(env, b.maxDepth, levels[0], 0) <= b.maxExpansions
    ensures SearchInv(env, b, levels[0], Explore(env, b, levels))
    ensures Closed(env, b, levels[0], Explore(env, b, levels))
    ensures Explore(env, b, levels).frontier == []
  {
    var roots, start := levels[0], Init(env, b, levels[0]);
    assert Wide(env, b, roots) && Explore(env, b, levels) == Run(env, b, start);
    hide *;
    InitKeeps(env, b, roots);
    StartWeighed(env, b, roots);
    StartCloses(env, b, roots);
    RunKeeps(env, b, roots, start);
    RunCloses(env, b, roots, start);
    RunsOut(env, b, roots, Run(env, b, start));
  }

  /**
   * With a beam and a number of expansions that suffice for everything in reach, a search expands exactly the nodes to
   * which a way of loadable nodes leads from level 0 within the depth bound.
   */
  lemma WideSearch(env: Env, b: Bounds, levels: seq<seq<string>>, x: Item)
    requires levels != [] && AllInReach(env, b.maxDepth, levels[0], 0) <= b.beamWidth
    requires AllInReach(env, b.maxDepth, levels[0], 0) <= b.maxExpansions
    ensures x in Explore(env, b, levels).expanded <==>
      x.depth <= b.maxDepth && env.load(x.id).Some? && x == ItemOf(env, x.id, x.depth)
      && exists ids :: Way(env, levels[0], ids) && |ids| == x.depth + 1 && ids[|ids| - 1] == x.id
  {
    var roots, s := levels[0], Explore(env, b, levels);
    WideEnd(env, b, levels);
    hide Explore, AllInReach, Closed, Way, ItemOf;
    if x in s.expanded {
      var ids := WayTo(env, b, roots, s, x);
    }
    if ids :| Way(env, roots, ids) && |ids| == x.depth + 1 && ids[|ids| - 1] == x.id {
      hide SearchInv;
      if x.depth <= b.maxDepth {
        WayExpanded(env, b, roots, s, ids);
      }
    }
  }

  lemma WayTo(env: Env, b: Bounds, roots: seq<string>, s: State, x: Item) returns (ids: seq<string>)
    requires SearchInv(env, b, roots, s) && x in s.expanded
    ensures Way(env, roots, ids) && |ids| == x.depth + 1 && ids[|ids| - 1] == x.id
    ensures x.depth <= b.maxDepth && env.load(x.id).Some? && x == ItemOf(env, x.id, x.depth)
  {
    hide Way, Merge, Seen, Sorted, ItemOf;
    var i :| 0 <= i < |s.expanded| && s.expanded[i] == x;
    ids := ExpandedWay(env, b, roots, s.expanded, i);
    assert Reached(env, b, roots, s.expanded[..i], s.expanded[i]);
  }

  lemma StartCloses(env: Env, b: Bounds, roots: seq<string>)
    requires Wide(env, b, roots)
    ensures Closed(env, b, roots, Init(env, b, roots))
  {
    StartWeighed(env, b, roots);
    hide Wide, Weighed, Children, Beam;
  }

  // What the query sees

  /** Every hit of an expanded node has been seen. */
  lemma {:induction false} SeenAll(env: Env, b: Bounds, expanded: seq<Item>, i: nat, h: Hit)
    requires i < |expanded| && env.load(expanded[i].id).Some?
    requires h in LocalHits(env, b, expanded[i].id, env.load(expanded[i].id).value.chunkIds)
    ensures h in Seen(env, b, expanded)
    decreases |expanded|
  {
    hide LocalHits;
    var n := |expanded| - 1;
    if i < n {
      SeenAll(env, b, expanded[..n], i, h);
    }
  }

  /**
   * In such a search every hit of every node in reach counts: its chunk has a best hit, which is no worse.
   */
  lemma WideQuery(env: Env, b: Bounds, levels: seq<seq<string>>, ids: seq<string>, h: Hit)
    requires levels != [] && AllInReach(env, b.maxDepth, levels[0], 0) <= b.beamWidth
    requires AllInReach(env, b.maxDepth, levels[0], 0) <= b.maxExpansions
    requires Way(env, levels[0], ids) && |ids| <= b.maxDepth + 1
    requires var id := ids[|ids| - 1]; h in LocalHits(env, b, id, env.load(id).value.chunkIds)
    ensures var best := Explore(env, b, levels).best;
      h.chunkId in best && best[h.chunkId].chunkId == h.chunkId && !Better(h, best[h.chunkId])
  {
    var s, x := Explore(env, b, levels), ItemOf(env, ids[|ids| - 1], |ids| - 1);
    WideSearch(env, b, levels, x);
    ExploreSpec(env, b, levels);
    hide Explore, LocalHits, Seen, AllInReach, Better, Way, Reached;
    var i :| 0 <= i < |s.expanded| && s.expanded[i] == x;
    SeenAll(env, b, s.expanded, i, h);
    var j :| 0 <= j < |Seen(env, b, s.expanded)| && Seen(env, b, s.expanded)[j] == h;
    var k :| 0 <= k < |Seen(env, b, s.expanded)| && Seen(env, b, s.expanded)[k] == s.best[h.chunkId]
             && s.best[h.chunkId].chunkId == h.chunkId && FirstBest(Seen(env, b, s.expanded), k);
  }

  /** And the answer holds a hit of its chunk that is no worse, or `k` hits of which it beats none. */
  lemma WideAnswer(env: Env, b: Bounds, levels: seq<seq<string>>, ids: seq<string>, h: Hit, out: seq<Hit>)
    requires levels != [] && AllInReach(env, b.maxDepth, levels[0], 0) <= b.beamWidth
    requires AllInReach(env, b.maxDepth, levels[0], 0) <= b.maxExpansions
    requires Way(env, levels[0], ids) && |ids| <= b.maxDepth + 1
    requires var id := ids[|ids| - 1]; h in LocalHits(env, b, id, env.load(id).value.chunkIds)
    requires IsTopK(out, Explore(env, b, levels).best, b.k)
    ensures (exists i :: 0 <= i < |out| && out[i].chunkId == h.chunkId && !Better(h, out[i]))
         || (|out| == b.k && forall i :: 0 <= i < |out| ==> !Better(h, out[i]))
  {
    var best, c := Explore(env, b, levels).best, h.chunkId;
    WideQuery(env, b, levels, ids, h);
    hide Explore, LocalHits, AllInReach, Way;
    if best[c] in out {
      var i :| 0 <= i < |out| && out[i] == best[c];
    } else {
      SomeUnlisted(out, best, c);
      forall i | 0 <= i < |out| ensures !Better(h, out[i]) {
        assert !HitBefore(best[c], out[i]);
      }
    }
  }
}
