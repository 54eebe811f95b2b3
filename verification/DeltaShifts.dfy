/** Plans that re-encode, add and remove chunks, carried out by the identifiers that they name. */
module DeltaShifts {
  import opened Bytes
  import opened Manifest
  import opened Delta
  import opened DeltaNames

  /** The listed chunks get the given contents, in order. */
  function Reencode(store: Contents, names: seq<nat>, contents: seq<bytes>): Contents
    requires |names| == |contents|
    decreases |names|
  {
    if names == [] then store
    else
      var n := |names| - 1;
      Reencode(store, names[..n], contents[..n])[names[n] := contents[n]]
  }

  /** Position `j` is the only one that names `id`. */
  ghost predicate Only(names: seq<nat>, id: nat, j: nat)
  {
    forall k :: 0 <= k < |names| ==> (names[k] == id <==> k == j)
  }

  lemma {:induction false} ReencodedOnce(store: Contents, names: seq<nat>, contents: seq<bytes>, id: nat)
    requires |names| == |contents|
    ensures var after := Reencode(store, names, contents);
      && (id !in names ==> (id in after <==> id in store) && (id in store ==> after[id] == store[id]))
      && forall j :: 0 <= j < |names| && Only(names, id, j) ==> id in after && after[id] == contents[j]
    decreases |names|
  {
    if names != [] {
      var n := |names| - 1;
      ReencodedOnce(store, names[..n], contents[..n], id);
      forall j | 0 <= j < n && Only(names, id, j) ensures names[n] != id && Only(names[..n], id, j) {
        assert names[..n][j] == id;
      }
    }
  }

  lemma ReencodedAt(store: Contents, names: seq<nat>, contents: seq<bytes>, id: nat)
    requires |names| == |contents| && Distinct(names)
    ensures var after := Reencode(store, names, contents);
      && (id !in names ==> (id in after <==> id in store) && (id in store ==> after[id] == store[id]))
      && forall j :: 0 <= j < |names| && names[j] == id ==> id in after && after[id] == contents[j]
  {
    hide Reencode;
    ReencodedOnce(store, names, contents, id);
    forall j | 0 <= j < |names| && names[j] == id ensures Only(names, id, j) {
    }
  }

  /** The entry's list without the removed identifiers. */
  function Without(ids: seq<nat>, removed: seq<nat>): seq<nat>
  {
    if ids == [] then []
    else Without(ids[..|ids| - 1], removed) + if ids[|ids| - 1] in removed then [] else [ids[|ids| - 1]]
  }

  lemma {:induction false} WithoutTail(ids: seq<nat>, removed: seq<nat>, k: nat)
    requires k <= |ids| && forall i :: 0 <= i < |ids| ==> (ids[i] in removed <==> i >= k)
    ensures Without(ids, removed) == ids[..k]
    decreases |ids|
  {
    if ids != [] {
      var n := |ids| - 1;
      WithoutTail(ids[..n], removed, if k <= n then k else n);
      assert ids == ids[..n] + [ids[n]];
      assert ids[..n][..if k <= n then k else n] == ids[..if k <= n then k else n];
    }
  }

  /** A plan's list is the part of the entry's list exactly when every chunk in it is named rightly. */
  lemma ListCondition(ids: seq<nat>, offsets: Option<seq<ChunkOffset>>, from: nat, to: nat)
    requires from <= to <= |ids|
    ensures IdsFrom(from, to, offsets) == ids[from..to] <==> Names(ids, offsets, from, to)
  {
    var list := IdsFrom(from, to, offsets);
    assert |list| == to - from && forall k :: 0 <= k < |list| ==> list[k] == ChunkIdAt(from + k, offsets);
    hide ChunkIdAt, IdsFrom;
    assert forall i :: from <= i < to ==> list[i - from] == ChunkIdAt(i, offsets);
    assert list == ids[from..to] <==> forall i :: from <= i < to ==> list[i - from] == ids[i];
  }

  // ---------------------------------------------------------------- appending

  /** What the re-encoded chunk holds after an append. */
  function LastFilled(data: bytes, more: bytes, c: nat): bytes
    requires c > 0
  {
    var filled := Filled(data, more, c);
    if filled == [] then [] else filled[|filled| - 1]
  }

  /** The stores after an append: the named chunk re-encoded, then the new chunks under new identifiers. */
  function AfterAppend(store: Contents, r: AffectedChunks, newIds: seq<nat>, last: bytes): Contents
    requires |newIds| == |r.newChunks| && |r.reencoded| <= 1
  {
    Reencode(Reencode(store, r.reencoded, if r.reencoded == [] then [] else [last]), newIds, DataOf(r.newChunks))
  }

  /** New identifiers, not in use. */
  ghost predicate Unused(store: Contents, newIds: seq<nat>)
  {
    Distinct(newIds) && forall j :: 0 <= j < |newIds| ==> newIds[j] !in store
  }

  /** How many chunks an append re-encodes, and with what. */
  lemma AppendShape(data: bytes, more: bytes, c: nat, r: AffectedChunks, offsets: Option<seq<ChunkOffset>>)
    requires c > 0 && AppendPlan(r, more, |data|, c, offsets)
    ensures var n, chunks, filled := |Chunks(data, c)|, Chunks(data, c), Filled(data, more, c);
      && (r.reencoded == [] ==> filled == chunks)
      && (r.reencoded != [] ==>
            n > 0 && r.reencoded == [ChunkIdAt(n - 1, offsets)]
            && filled == chunks[..n - 1] + [LastFilled(data, more, c)] && LastFilled(data, more, c) != chunks[n - 1])
  {
    ChunkCount(data, c);
    var n, chunks := |Chunks(data, c)|, Chunks(data, c);
    hide Chunks;
    RoomSpec(|data|, c);
    if Room(|data|, c) > 0 && more != [] {
      RoomIs(|data|, c, Room(|data|, c));
      var fill := Min(Room(|data|, c), |more|);
      hide Room, CeilDiv;
      assert Filled(data, more, c) == chunks[..n - 1] + [chunks[n - 1] + more[..fill]];
      assert |chunks[n - 1] + more[..fill]| > |chunks[n - 1]|;
      assert IdsFrom(n - 1, n, offsets) == [ChunkIdAt(n - 1, offsets)];
    }
  }

  /**
   * Carried out by name, the append plan gives the longer file if and only if the chunk that it fills up, if there is
   * one, is named rightly.
   */
  lemma AppendByName(store: Contents, ids: seq<nat>, newIds: seq<nat>, data: bytes, more: bytes, c: nat, r: AffectedChunks,
                     offsets: Option<seq<ChunkOffset>>)
    requires c > 0 && HoldsFile(store, ids, Chunks(data, c)) && AppendPlan(r, more, |data|, c, offsets)
    requires |newIds| == |r.newChunks| && Unused(store, newIds)
    ensures |r.reencoded| <= 1 && (r.reencoded != [] ==> |ids| > 0)
    ensures HoldsFile(AfterAppend(store, r, newIds, LastFilled(data, more, c)), ids + newIds, Chunks(data + more, c)) <==>
      (r.reencoded != [] ==> ChunkIdAt(|ids| - 1, offsets) == ids[|ids| - 1])
  {
    AppendShape(data, more, c, r, offsets);
    AppendIsChunking(data, more, c, r);
    hide Chunks, Filled, LastFilled, AppendPlan, ChunkIdAt;
    AppendStores(store, ids, newIds, Chunks(data, c), Filled(data, more, c), LastFilled(data, more, c), r);
  }

  lemma AppendStores(store: Contents, ids: seq<nat>, newIds: seq<nat>, chunks: seq<bytes>, filled: seq<bytes>, last: bytes,
                     r: AffectedChunks)
    requires HoldsFile(store, ids, chunks) && |newIds| == |r.newChunks| && Unused(store, newIds) && |r.reencoded| <= 1
    requires r.reencoded == [] ==> filled == chunks
    requires r.reencoded != [] ==> ids != [] && filled == chunks[..|ids| - 1] + [last] && last != chunks[|ids| - 1]
    ensures HoldsFile(AfterAppend(store, r, newIds, last), ids + newIds, filled + DataOf(r.newChunks)) <==>
      (r.reencoded != [] ==> r.reencoded[0] == ids[|ids| - 1])
  {
    var after, added := AfterAppend(store, r, newIds, last), DataOf(r.newChunks);
    var contents := if r.reencoded == [] then [] else [last];
    var now := Renewed(ids, chunks, r.reencoded, last);
    hide Reencode, DataOf, Renewed;
    forall i | 0 <= i < |ids| ensures ids[i] in after && after[ids[i]] == now[i] && ids[i] !in newIds {
      OldChunkAfter(store, ids, newIds, chunks, r.reencoded, contents, added, i);
    }
    forall j | 0 <= j < |newIds| ensures newIds[j] in after && after[newIds[j]] == added[j] {
      ReencodedAt(Reencode(store, r.reencoded, contents), newIds, added, newIds[j]);
    }
    hide AfterAppend;
    Joined(after, ids, newIds, now, added);
    SameContents(after, ids + newIds, now + added, filled + added);
    RenewedRight(ids, chunks, filled, r.reencoded, last);
    assert (now + added)[..|ids|] == now && (filled + added)[..|ids|] == filled;
  }

  /** The entry's chunks after one name's chunk got new contents. */
  function Renewed(ids: seq<nat>, chunks: seq<bytes>, reencoded: seq<nat>, last: bytes): (now: seq<bytes>)
    requires |ids| == |chunks|
    ensures |now| == |ids|
    ensures forall i :: 0 <= i < |ids| ==> now[i] == if reencoded == [ids[i]] then last else chunks[i]
  {
    seq(|ids|, i requires 0 <= i < |ids| => if reencoded == [ids[i]] then last else chunks[i])
  }

  lemma RenewedRight(ids: seq<nat>, chunks: seq<bytes>, filled: seq<bytes>, reencoded: seq<nat>, last: bytes)
    requires |ids| == |chunks| && Distinct(ids) && |reencoded| <= 1
    requires reencoded == [] ==> filled == chunks
    requires reencoded != [] ==> ids != [] && filled == chunks[..|ids| - 1] + [last] && last != chunks[|ids| - 1]
    ensures Renewed(ids, chunks, reencoded, last) == filled <==> (reencoded != [] ==> reencoded[0] == ids[|ids| - 1])
  {
    var now := Renewed(ids, chunks, reencoded, last);
    if reencoded == [] {
      assert now == chunks;
    } else {
      assert reencoded == [reencoded[0]];
      if reencoded[0] == ids[|ids| - 1] {
        assert now == filled;
      } else {
        assert now[|ids| - 1] != filled[|ids| - 1];
      }
    }
  }

  lemma SameContents(store: Contents, ids: seq<nat>, a: seq<bytes>, b: seq<bytes>)
    requires HoldsFile(store, ids, a)
    ensures HoldsFile(store, ids, b) <==> a == b
  {
  }

  /** A chunk of the entry after the re-encoding of at most one chunk and the addition of others. */
  lemma OldChunkAfter(store: Contents, ids: seq<nat>, newIds: seq<nat>, chunks: seq<bytes>, reencoded: seq<nat>,
                      contents: seq<bytes>, added: seq<bytes>, i: nat)
    requires HoldsFile(store, ids, chunks) && |newIds| == |added| && Unused(store, newIds) && i < |ids|
    requires |reencoded| == |contents| <= 1
    ensures var after := Reencode(Reencode(store, reencoded, contents), newIds, added);
      ids[i] in after && after[ids[i]] == if reencoded == [ids[i]] then contents[0] else chunks[i]
  {
    hide Reencode;
    ReencodedAt(Reencode(store, reencoded, contents), newIds, added, ids[i]);
    ReencodedAt(store, reencoded, contents, ids[i]);
  }

  // ---------------------------------------------------------------- truncating

  /** The first chunk that a truncation changes: the one that the end falls into, or the first one after the end. */
  function CutFrom(newLength: nat, c: nat): (from: nat)
    requires c > 0
    ensures from <= CeilDiv(newLength, c)
  {
    NonEmpty(newLength, c);
    if newLength % c != 0 then CeilDiv(newLength, c) - 1 else CeilDiv(newLength, c)
  }

  function From<T>(s: seq<T>, k: nat): seq<T>
  {
    if k <= |s| then s[k..] else []
  }

  /** The plan's lists are the entry's exactly when every chunk from the end of the file on is named rightly. */
  lemma TruncateNames(ids: seq<nat>, data: bytes, newLength: nat, c: nat, r: AffectedChunks, offsets: Option<seq<ChunkOffset>>)
    requires c > 0 && |ids| == |Chunks(data, c)| && newLength < |data| && TruncatePlan(r, newLength, |data|, c, offsets)
    ensures var m, from := CeilDiv(newLength, c), CutFrom(newLength, c);
      m <= |ids| && (r.reencoded == ids[from..m] && r.removed == ids[m..] <==> Names(ids, offsets, from, |ids|))
  {
    ChunkCount(data, c);
    NonEmpty(newLength, c);
    FewerChunks(newLength, |data|, c);
    var m, from := CeilDiv(newLength, c), CutFrom(newLength, c);
    assert r.reencoded == if newLength % c != 0 then IdsFrom(from, m, offsets) else [];
    assert r.removed == IdsFrom(m, |ids|, offsets);
    hide CeilDiv, Chunks, IdsFrom, TruncatePlan, ChunkIdAt;
    ListCondition(ids, offsets, m, |ids|);
    ListCondition(ids, offsets, from, m);
    assert ids[m..|ids|] == ids[m..];
  }

  /** The chunks from `from` up to `to` are named rightly or by names that are none of the file's. */
  ghost predicate ConfinedFrom(ids: seq<nat>, from: nat, to: nat, offsets: Option<seq<ChunkOffset>>)
  {
    forall i: nat :: from <= i < to ==> Confined(ids, i, offsets)
  }

  lemma ListNamesFrom(ids: seq<nat>, from: nat, to: nat, offsets: Option<seq<ChunkOffset>>)
    requires from <= to <= |ids| && ConfinedFrom(ids, from, to, offsets)
    ensures |IdsFrom(from, to, offsets)| == to - from && NamesFrom(ids, from, IdsFrom(from, to, offsets))
    ensures forall i :: from <= i < to ==> IdsFrom(from, to, offsets)[i - from] == ChunkIdAt(i, offsets)
    ensures forall k :: 0 <= k < to - from ==> IdsFrom(from, to, offsets)[k] == ChunkIdAt(from + k, offsets)
  {
    var names := IdsFrom(from, to, offsets);
    assert |names| == to - from && forall k :: 0 <= k < |names| ==> names[k] == ChunkIdAt(from + k, offsets);
    hide IdsFrom, ChunkIdAt;
    forall k | 0 <= k < |names| ensures names[k] == ids[from + k] || names[k] !in ids {
      assert Confined(ids, from + k, offsets);
    }
  }

  /**
   * As long as no chunk is mistaken for another one of the file, carrying the truncation out by name gives the canonical
   * chunking of the shorter file if and only if the chunks from the cut on are named rightly.
   */
  lemma TruncateByNameCondition(store: Contents, ids: seq<nat>, data: bytes, newLength: nat, c: nat, r: AffectedChunks,
                                offsets: Option<seq<ChunkOffset>>)
    requires c > 0 && HoldsFile(store, ids, Chunks(data, c)) && newLength < |data|
    requires TruncatePlan(r, newLength, |data|, c, offsets) && ConfinedFrom(ids, CutFrom(newLength, c), |ids|, offsets)
    ensures |r.reencoded| == |From(Chunks(data[..newLength], c), CutFrom(newLength, c))|
    ensures HoldsFile(Reencode(store, r.reencoded, From(Chunks(data[..newLength], c), CutFrom(newLength, c))),
                      Without(ids, r.removed), Chunks(data[..newLength], c))
       <==> Names(ids, offsets, CutFrom(newLength, c), |ids|)
  {
    CutShape(data, newLength, c);
    var m, from, cut := CeilDiv(newLength, c), CutFrom(newLength, c), Chunks(data[..newLength], c);
    assert r.reencoded == IdsFrom(from, m, offsets) by {
      assert from == m ==> IdsFrom(from, m, offsets) == [];
    }
    assert r.removed == IdsFrom(m, |ids|, offsets);
    hide CeilDiv, Chunks, TruncatePlan, CutFrom, IdsFrom, ChunkIdAt;
    TruncateStores(store, ids, Chunks(data, c), cut, from, r, offsets);
  }

  /** Only the chunk that the end falls into changes, and it becomes shorter. */
  lemma CutShape(data: bytes, newLength: nat, c: nat)
    requires c > 0 && newLength < |data|
    ensures var m, from, chunks, cut := CeilDiv(newLength, c), CutFrom(newLength, c), Chunks(data, c), Chunks(data[..newLength], c);
      && m == |cut| <= |chunks| == CeilDiv(|data|, c) && m - 1 <= from <= m && (from == m <==> newLength % c == 0)
      && cut[..from] == chunks[..from] && forall i :: from <= i < m ==> cut[i] != chunks[i]
  {
    ChunkCount(data, c);
    ChunkCount(data[..newLength], c);
    NonEmpty(newLength, c);
    FewerChunks(newLength, |data|, c);
    TruncateIsChunking(data, newLength, c);
    LastPart(newLength, c, CeilDiv(newLength, c));
    var m, chunks, cut := CeilDiv(newLength, c), Chunks(data, c), Chunks(data[..newLength], c);
    hide CeilDiv, Chunks;
    if newLength % c != 0 {
      ChunkSize(data, c, m - 1);
      assert cut == chunks[..m - 1] + [chunks[m - 1][..newLength % c]];
      assert c * (m - 1) + newLength % c == newLength;
      assert |cut[m - 1]| < |chunks[m - 1]|;
    }
  }

  lemma TruncateStores(store: Contents, ids: seq<nat>, chunks: seq<bytes>, cut: seq<bytes>, from: nat, r: AffectedChunks,
                       offsets: Option<seq<ChunkOffset>>)
    requires HoldsFile(store, ids, chunks) && |cut| - 1 <= from <= |cut| <= |ids| && cut[..from] == chunks[..from]
    requires ConfinedFrom(ids, from, |ids|, offsets) && forall i :: from <= i < |cut| ==> cut[i] != chunks[i]
    requires r.reencoded == IdsFrom(from, |cut|, offsets) && r.removed == IdsFrom(|cut|, |ids|, offsets)
    ensures |r.reencoded| == |From(cut, from)|
    ensures HoldsFile(Reencode(store, r.reencoded, From(cut, from)), Without(ids, r.removed), cut) <==> Names(ids, offsets, from, |ids|)
  {
    var m, after := |cut|, Reencode(store, r.reencoded, From(cut, from));
    ListNamesFrom(ids, from, m, offsets);
    ListNamesFrom(ids, m, |ids|, offsets);
    hide IdsFrom, ChunkIdAt, Reencode, Without, ConfinedFrom;
    RenewCondition(store, ids, chunks, cut, from, r.reencoded, From(cut, from));
    RemovedCondition(ids, r.removed, m);
    assert Names(ids, offsets, m, |ids|) <==> forall k :: 0 <= k < |r.removed| ==> r.removed[k] == ids[m + k];
  }

  /** Exactly the first `m` identifiers are left if all the others are named rightly; otherwise more are left. */
  lemma RemovedCondition(ids: seq<nat>, removed: seq<nat>, m: nat)
    requires Distinct(ids) && m <= |ids| && NamesFrom(ids, m, removed) && |removed| == |ids| - m
    ensures if forall k :: 0 <= k < |removed| ==> removed[k] == ids[m + k] then Without(ids, removed) == ids[..m]
      else |Without(ids, removed)| > m
  {
    hide Without;
    forall i | 0 <= i < |ids| ensures ids[i] in removed <==> i >= m && removed[i - m] == ids[i] {
      NamedAt(ids, m, removed, i);
      if i >= m && removed[i - m] == ids[i] {
        assert removed[i - m] in removed;
      }
    }
    if forall k :: 0 <= k < |removed| ==> removed[k] == ids[m + k] {
      WithoutTail(ids, removed, m);
    } else {
      var k :| 0 <= k < |removed| && removed[k] != ids[m + k];
      WithoutMore(ids, removed, m, m + k);
    }
  }

  lemma {:induction false} WithoutMore(ids: seq<nat>, removed: seq<nat>, m: nat, k: nat)
    requires m <= k < |ids| && ids[k] !in removed && forall i :: 0 <= i < m ==> ids[i] !in removed
    ensures |Without(ids, removed)| > m
    decreases |ids|
  {
    var n := |ids| - 1;
    if k < n {
      WithoutMore(ids[..n], removed, m, k);
    } else {
      WithoutKeeps(ids[..n], removed, m);
    }
  }

  lemma {:induction false} WithoutKeeps(ids: seq<nat>, removed: seq<nat>, m: nat)
    requires m <= |ids| && forall i :: 0 <= i < m ==> ids[i] !in removed
    ensures |Without(ids, removed)| >= m
    decreases |ids|
  {
    if ids != [] {
      var n := |ids| - 1;
      WithoutKeeps(ids[..n], removed, if m <= n then m else n);
    }
  }

  /** The names stand for the chunks from `from` on, each by its own name or by one that is none of the file's. */
  ghost predicate NamesFrom(ids: seq<nat>, from: nat, names: seq<nat>)
  {
    from + |names| <= |ids| && forall k :: 0 <= k < |names| ==> names[k] == ids[from + k] || names[k] !in ids
  }

  lemma NamedAt(ids: seq<nat>, from: nat, names: seq<nat>, i: nat)
    requires Distinct(ids) && NamesFrom(ids, from, names) && i < |ids|
    ensures if from <= i < from + |names| && names[i - from] == ids[i] then Only(names, ids[i], i - from) else ids[i] !in names
  {
  }

  /**
   * The chunks before `from` kept and those after it re-encoded by name: the first ones are the wanted chunks if and only
   * if every one of them that changes is named rightly.
   */
  lemma RenewCondition(store: Contents, ids: seq<nat>, chunks: seq<bytes>, now: seq<bytes>, from: nat, names: seq<nat>,
                       contents: seq<bytes>)
    requires HoldsFile(store, ids, chunks) && from <= |now| <= |ids| && now[..from] == chunks[..from]
    requires NamesFrom(ids, from, names) && |contents| == |names| && now[from..] <= contents
    ensures HoldsFile(Reencode(store, names, contents), ids[..|now|], now) <==>
      forall i :: from <= i < |now| && now[i] != chunks[i] ==> names[i - from] == ids[i]
  {
    var m, after := |now|, Reencode(store, names, contents);
    hide Reencode, NamesFrom;
    forall i | 0 <= i < m
      ensures ids[i] in after
      ensures after[ids[i]] == if i >= from && names[i - from] == ids[i] then now[i] else chunks[i]
      ensures i < from ==> now[i] == chunks[i]
    {
      NamedAt(ids, from, names, i);
      ReencodedOnce(store, names, contents, ids[i]);
      if i >= from {
        assert now[from..][i - from] == now[i];
      } else {
        assert now[..from][i] == chunks[..from][i];
      }
    }
    assert forall i :: 0 <= i < m ==> ids[..m][i] == ids[i];
  }

  // ---------------------------------------------------------------- inserting

  function Inserted(data: bytes, offset: nat, piece: bytes): bytes
    requires offset <= |data|
  {
    data[..offset] + piece + data[offset..]
  }

  lemma ChunkNumber(offset: nat, size: nat, c: nat)
    requires c > 0 && offset <= size
    ensures ChunkOf(offset, c) <= CeilDiv(size, c)
  {
    var q, n := offset / c, CeilDiv(size, c);
    assert c * q <= offset;
    CeilEnough(size, c);
    assert c * (n + 1) == c * n + c;
    if n < q {
      MulMono(c, n + 1, q);
    }
  }

  lemma CeilEnough(size: nat, c: nat)
    requires c > 0
    ensures size <= c * CeilDiv(size, c)
  {
  }

  /** The chunks before the insertion stay, and as many are announced as the file grows by. */
  lemma InsertShape(data: bytes, offset: nat, piece: bytes, c: nat, r: AffectedChunks, offsets: Option<seq<ChunkOffset>>)
    requires c > 0 && offset <= |data| && InsertPlan(r, offset, |piece|, |data|, c, offsets)
    ensures var chunks, edited, q := Chunks(data, c), Chunks(Inserted(data, offset, piece), c), ChunkOf(offset, c);
      && q <= |chunks| && |edited| == |chunks| + |r.newChunks| && edited[..q] == chunks[..q]
      && r.reencoded == IdsFrom(q, |chunks|, offsets)
  {
    ChunkCount(data, c);
    ChunkCount(Inserted(data, offset, piece), c);
    assert Inserted(data, offset, piece)[..offset] == data[..offset];
    hide Chunks, CeilDiv, Inserted, ChunkOf;
    SharedChunks(data, Inserted(data, offset, piece), offset, c);
  }

  /** Two lists of different identifiers that hold their chunks hold them together. */
  lemma Joined(store: Contents, ids: seq<nat>, more: seq<nat>, chunks: seq<bytes>, added: seq<bytes>)
    requires HoldsFile(store, ids, chunks) && HoldsFile(store, more, added) && forall i :: 0 <= i < |ids| ==> ids[i] !in more
    ensures HoldsFile(store, ids + more, chunks + added)
  {
    var all := ids + more;
    forall i, j | 0 <= i < j < |all| ensures all[i] != all[j] {
      if i < |ids| <= j {
        assert more[j - |ids|] in more;
      }
    }
  }

  /**
   * As long as no chunk is mistaken for another one of the file, re-encoding the named chunks and filling the announced
   * new ones gives the canonical chunking of the file with the insertion if and only if every chunk that changes is named
   * rightly.
   */
  lemma InsertByNameCondition(store: Contents, ids: seq<nat>, newIds: seq<nat>, data: bytes, offset: nat, piece: bytes, c: nat,
                              r: AffectedChunks, offsets: Option<seq<ChunkOffset>>)
    requires c > 0 && HoldsFile(store, ids, Chunks(data, c)) && offset <= |data|
    requires InsertPlan(r, offset, |piece|, |data|, c, offsets) && |newIds| == |r.newChunks| && Unused(store, newIds)
    requires ConfinedFrom(ids, ChunkOf(offset, c), |ids|, offsets)
    ensures var chunks, edited, n, q := Chunks(data, c), Chunks(Inserted(data, offset, piece), c), |ids|, ChunkOf(offset, c);
      && q <= n && n <= |edited| && |r.reencoded| == n - q && |newIds| == |edited| - n
      && (HoldsFile(Reencode(Reencode(store, r.reencoded, edited[q..n]), newIds, edited[n..]), ids + newIds, edited) <==>
            forall i :: q <= i < n && edited[i] != chunks[i] ==> ChunkIdAt(i, offsets) == ids[i])
  {
    InsertShape(data, offset, piece, c, r, offsets);
    var chunks, edited, n, q := Chunks(data, c), Chunks(Inserted(data, offset, piece), c), |ids|, ChunkOf(offset, c);
    hide Chunks, InsertPlan, Inserted, ChunkIdAt, Reencode, ChunkOf, IdsFrom, ConfinedFrom;
    ListNamesFrom(ids, q, n, offsets);
    InsertStores(store, ids, newIds, chunks, edited, q, r.reencoded);
    assert forall i :: q <= i < n ==> r.reencoded[i - q] == ChunkIdAt(i, offsets);
  }

  lemma InsertStores(store: Contents, ids: seq<nat>, newIds: seq<nat>, chunks: seq<bytes>, edited: seq<bytes>, q: nat,
                     names: seq<nat>)
    requires HoldsFile(store, ids, chunks) && Unused(store, newIds) && q <= |ids| && |edited| == |ids| + |newIds|
    requires edited[..q] == chunks[..q] && NamesFrom(ids, q, names) && |names| == |ids| - q
    ensures HoldsFile(Reencode(Reencode(store, names, edited[q..|ids|]), newIds, edited[|ids|..]), ids + newIds, edited) <==>
      forall i :: q <= i < |ids| && edited[i] != chunks[i] ==> names[i - q] == ids[i]
  {
    var n := |ids|;
    var now, added := edited[..n], edited[n..];
    var mid := Reencode(store, names, edited[q..n]);
    assert now[..q] == edited[..q] && now[q..] == edited[q..n] && ids[..n] == ids && now + added == edited;
    hide Reencode, NamesFrom;
    RenewCondition(store, ids, chunks, now, q, names, edited[q..n]);
    Alongside(mid, store, ids, newIds, names, edited[q..n], now, added);
  }

  /** New chunks beside the file's do not matter for the file's. */
  lemma Alongside(mid: Contents, store: Contents, ids: seq<nat>, newIds: seq<nat>, names: seq<nat>, contents: seq<bytes>,
                  now: seq<bytes>, added: seq<bytes>)
    requires |names| == |contents| && mid == Reencode(store, names, contents) && |newIds| == |added| && |now| == |ids|
    requires Unused(store, newIds) && Distinct(ids) && forall i :: 0 <= i < |ids| ==> ids[i] in store
    ensures HoldsFile(Reencode(mid, newIds, added), ids + newIds, now + added) <==> HoldsFile(mid, ids, now)
  {
    var after := Reencode(mid, newIds, added);
    hide Reencode;
    forall i | 0 <= i < |ids| ensures ids[i] !in newIds && (ids[i] in after <==> ids[i] in mid) {
      ReencodedAt(mid, newIds, added, ids[i]);
    }
    forall i | 0 <= i < |ids| && ids[i] in mid ensures after[ids[i]] == mid[ids[i]] {
      ReencodedAt(mid, newIds, added, ids[i]);
    }
    forall j | 0 <= j < |newIds| ensures newIds[j] in after && after[newIds[j]] == added[j] {
      ReencodedAt(mid, newIds, added, newIds[j]);
    }
    if HoldsFile(mid, ids, now) {
      Joined(after, ids, newIds, now, added);
    }
    if HoldsFile(after, ids + newIds, now + added) {
      forall i | 0 <= i < |ids| ensures ids[i] in mid && mid[ids[i]] == now[i] {
        assert (ids + newIds)[i] == ids[i] && (now + added)[i] == now[i];
      }
    }
  }

  // ---------------------------------------------------------------- deleting

  /** What a deletion leaves; a range that leaves the file ends with it. */
  function Deleted(data: bytes, offset: nat, length: nat): (left: bytes)
    ensures |left| == Left(|data|, offset, length)
  {
    if offset >= |data| then data else data[..offset] + data[Min(offset + length, |data|)..]
  }

  function Left(size: nat, offset: nat, length: nat): nat
  {
    if offset >= size then size else offset + size - Min(offset + length, size)
  }

  lemma DeleteShape(data: bytes, offset: nat, length: nat, c: nat)
    requires c > 0
    ensures var chunks, left := Chunks(data, c), Chunks(Deleted(data, offset, length), c);
      var p, q := CeilDiv(Saturated(|data|, length), c), Min(ChunkOf(offset, c), |chunks|);
      && p <= |left| <= |chunks| == CeilDiv(|data|, c) && |left| == CeilDiv(Left(|data|, offset, length), c)
      && q <= |left| && left[..q] == chunks[..q]
  {
    var left := Deleted(data, offset, length);
    ChunkCount(data, c);
    ChunkCount(left, c);
    DeletedPrefix(data, offset, length);
    hide CeilDiv, Chunks, Deleted, ChunkOf;
    FewerChunks(Saturated(|data|, length), |left|, c);
    FewerChunks(|left|, |data|, c);
    if offset < |data| {
      ChunkNumber(offset, |left|, c);
      SharedChunks(data, left, offset, c);
    } else {
      assert left == data;
    }
  }

  lemma SharedChunks(data: bytes, edited: bytes, offset: nat, c: nat)
    requires c > 0 && offset <= |data| && offset <= |edited| && data[..offset] == edited[..offset]
    ensures var q := ChunkOf(offset, c);
      q <= |Chunks(data, c)| && q <= |Chunks(edited, c)| && Chunks(edited, c)[..q] == Chunks(data, c)[..q]
  {
    ChunkNumber(offset, |data|, c);
    ChunkNumber(offset, |edited|, c);
    ChunkCount(data, c);
    ChunkCount(edited, c);
    hide Chunks, CeilDiv;
    forall i: nat | i < ChunkOf(offset, c) ensures Chunks(edited, c)[i] == Chunks(data, c)[i] {
      ShiftKeepsPrefix(data, edited, offset, c, i);
    }
  }

  lemma DeletedPrefix(data: bytes, offset: nat, length: nat)
    ensures var left := Deleted(data, offset, length);
      if offset >= |data| then left == data else offset <= |left| && left[..offset] == data[..offset]
  {
  }

  /**
   * With right names a deletion removes exactly the chunks that fall away if and only if the reckoned size needs as many
   * chunks as the bytes that are really left, as it does whenever the deleted range lies inside the file.
   */
  lemma DeleteCondition(ids: seq<nat>, data: bytes, offset: nat, length: nat, c: nat, r: AffectedChunks,
                        offsets: Option<seq<ChunkOffset>>)
    requires c > 0 && |ids| == |Chunks(data, c)| && DeletePlan(r, offset, length, |data|, c, offsets)
    requires Names(ids, offsets, CeilDiv(Saturated(|data|, length), c), |ids|)
    ensures var e := |Chunks(Deleted(data, offset, length), c)|;
      e <= |ids| && (r.removed == ids[e..] <==>
        CeilDiv(Saturated(|data|, length), c) == CeilDiv(Left(|data|, offset, length), c))
    ensures offset + length <= |data| ==> Saturated(|data|, length) == Left(|data|, offset, length)
  {
    DeleteShape(data, offset, length, c);
    var p, e := CeilDiv(Saturated(|data|, length), c), |Chunks(Deleted(data, offset, length), c)|;
    assert r.removed == IdsFrom(p, |ids|, offsets);
    hide CeilDiv, Chunks, IdsFrom, ChunkIdAt, Deleted, Saturated;
    ListCondition(ids, offsets, p, |ids|);
    assert r.removed == ids[p..] && |ids[p..]| == |ids| - p && |ids[e..]| == |ids| - e;
  }

  /** A deletion running past the end removes a chunk that still holds bytes of the file. */
  lemma DeletePastEnd(data: bytes, r: AffectedChunks)
    requires |data| == 100 && DeletePlan(r, 90, 50, 100, 64, None)
    ensures r.removed == [1] && |Chunks(Deleted(data, 90, 50), 64)| == 2
  {
    ChunkCount(Deleted(data, 90, 50), 64);
    assert CeilDiv(50, 64) == 1 && CeilDiv(100, 64) == 2 && CeilDiv(90, 64) == 2;
    assert IdsFrom(1, 2, None) == [ChunkIdAt(1, None)];
  }

  /**
   * With right names for the removed chunks and none mistaken for another among the re-encoded ones, carrying the deletion
   * out by name gives the canonical chunking of what is left if and only if the size is reckoned rightly and every kept
   * chunk that changes is named rightly. What the removed chunks are re-encoded with does not matter.
   */
  lemma DeleteByNameCondition(store: Contents, ids: seq<nat>, data: bytes, offset: nat, length: nat, c: nat, r: AffectedChunks,
                              offsets: Option<seq<ChunkOffset>>, contents: seq<bytes>)
    requires c > 0 && HoldsFile(store, ids, Chunks(data, c)) && DeletePlan(r, offset, length, |data|, c, offsets)
    requires Names(ids, offsets, CeilDiv(Saturated(|data|, length), c), |ids|)
    requires ConfinedFrom(ids, ChunkOf(offset, c), |ids|, offsets)
    requires |contents| == |r.reencoded| && From(Chunks(Deleted(data, offset, length), c), ChunkOf(offset, c)) <= contents
    ensures var chunks, left, q := Chunks(data, c), Chunks(Deleted(data, offset, length), c), ChunkOf(offset, c);
      && |left| <= |ids|
      && (HoldsFile(Reencode(store, r.reencoded, contents), Without(ids, r.removed), left) <==>
            && CeilDiv(Saturated(|data|, length), c) == CeilDiv(Left(|data|, offset, length), c)
            && forall i :: q <= i < |left| && left[i] != chunks[i] ==> ChunkIdAt(i, offsets) == ids[i])
  {
    DeleteShape(data, offset, length, c);
    var p, q := CeilDiv(Saturated(|data|, length), c), ChunkOf(offset, c);
    var chunks, left := Chunks(data, c), Chunks(Deleted(data, offset, length), c);
    assert r.reencoded == IdsFrom(q, |ids|, offsets) && r.removed == IdsFrom(p, |ids|, offsets);
    hide CeilDiv, Chunks, IdsFrom, ChunkIdAt, Deleted, Saturated, Left, Reencode, Without, ChunkOf, ConfinedFrom, DeletePlan;
    ListCondition(ids, offsets, p, |ids|);
    assert ids[p..|ids|] == ids[p..];
    DeleteNamed(store, ids, chunks, left, p, q, r, offsets, contents);
  }

  lemma DeleteNamed(store: Contents, ids: seq<nat>, chunks: seq<bytes>, left: seq<bytes>, p: nat, q: nat, r: AffectedChunks,
                    offsets: Option<seq<ChunkOffset>>, contents: seq<bytes>)
    requires HoldsFile(store, ids, chunks) && Min(q, |ids|) <= |left| <= |ids| && p <= |left|
    requires left[..Min(q, |ids|)] == chunks[..Min(q, |ids|)] && ConfinedFrom(ids, q, |ids|, offsets)
    requires r.reencoded == IdsFrom(q, |ids|, offsets) && r.removed == ids[p..]
    requires |contents| == |r.reencoded| && From(left, q) <= contents
    ensures HoldsFile(Reencode(store, r.reencoded, contents), Without(ids, r.removed), left) <==>
      p == |left| && forall i :: q <= i < |left| && left[i] != chunks[i] ==> ChunkIdAt(i, offsets) == ids[i]
  {
    var k := Min(q, |ids|);
    FromNumber(q, |ids|, offsets);
    hide IdsFrom, ChunkIdAt, Reencode, Without, ConfinedFrom;
    ConfinedTail(ids, q, offsets);
    ListNamesFrom(ids, k, |ids|, offsets);
    DeleteStores(store, ids, chunks, left, p, k, r, contents);
    assert forall i :: k <= i < |ids| ==> r.reencoded[i - k] == ChunkIdAt(i, offsets);
  }

  lemma ConfinedTail(ids: seq<nat>, q: nat, offsets: Option<seq<ChunkOffset>>)
    requires ConfinedFrom(ids, q, |ids|, offsets)
    ensures ConfinedFrom(ids, Min(q, |ids|), |ids|, offsets)
  {
  }

  lemma FromNumber(k: nat, n: nat, offsets: Option<seq<ChunkOffset>>)
    ensures IdsFrom(k, n, offsets) == IdsFrom(Min(k, n), n, offsets)
  {
  }

  lemma DeleteStores(store: Contents, ids: seq<nat>, chunks: seq<bytes>, left: seq<bytes>, p: nat, q: nat, r: AffectedChunks,
                     contents: seq<bytes>)
    requires HoldsFile(store, ids, chunks) && q <= |left| <= |ids| && p <= |left| && left[..q] == chunks[..q]
    requires NamesFrom(ids, q, r.reencoded) && |r.reencoded| == |ids| - q && r.removed == ids[p..]
    requires |contents| == |r.reencoded| && left[q..] <= contents
    ensures HoldsFile(Reencode(store, r.reencoded, contents), Without(ids, r.removed), left) <==>
      p == |left| && forall i :: q <= i < |left| && left[i] != chunks[i] ==> r.reencoded[i - q] == ids[i]
  {
    hide Reencode, Without, NamesFrom;
    RenewCondition(store, ids, chunks, left, q, r.reencoded, contents);
    forall i | 0 <= i < |ids| ensures ids[i] in r.removed <==> i >= p {
      if i >= p {
        assert r.removed[i - p] == ids[i];
      }
    }
    WithoutTail(ids, r.removed, p);
  }
}
