/** What a plan does when it is carried out by the chunk identifiers that it names. */
module DeltaNames {
  import opened Bytes
  import opened Manifest
  import opened Delta
  import Ranges

  /** Chunk contents by identifier, of this file and of others. */
  type Contents = map<nat, bytes>

  ghost predicate Distinct(ids: seq<nat>)
  {
    forall i, j :: 0 <= i < j < |ids| ==> ids[i] != ids[j]
  }

  /** The entry's identifiers lead to the given chunks, in order. */
  ghost predicate HoldsFile(store: Contents, ids: seq<nat>, chunks: seq<bytes>)
  {
    |ids| == |chunks| && Distinct(ids) && forall i :: 0 <= i < |ids| ==> ids[i] in store && store[ids[i]] == chunks[i]
  }

  /** The plan's names for the chunks numbered from `from` up to `to` are the entry's. */
  ghost predicate Names(ids: seq<nat>, offsets: Option<seq<ChunkOffset>>, from: nat, to: nat)
    requires to <= |ids|
  {
    forall i :: from <= i < to ==> ChunkIdAt(i, offsets) == ids[i]
  }

  /** With an index built over the entry every chunk is named rightly. */
  lemma IndexNames(ids: seq<nat>, sizes: seq<nat>)
    requires |ids| == |sizes|
    ensures Names(ids, Some(Ranges.OffsetIndex(ids, sizes)), 0, |ids|)
  {
  }

  /** Without an index a chunk is named by its number, which is wrong for every chunk when identifiers start at one. */
  lemma {:induction false} NumbersAreNoNames(ids: seq<nat>, i: nat)
    requires i < |ids| && ids[0] >= 1 && forall j, k :: 0 <= j < k < |ids| ==> ids[j] < ids[k]
    ensures ids[i] > i && ChunkIdAt(i, None) != ids[i]
  {
    if i > 0 {
      NumbersAreNoNames(ids, i - 1);
    }
  }

  // ---------------------------------------------------------------- modifications

  /** Every modification carried out on the chunk it names; a name without a chunk is passed over. */
  function CarryOut(store: Contents, modified: seq<ChunkModification>): Contents
    decreases |modified|
  {
    if modified == [] then store
    else
      var before, m := CarryOut(store, modified[..|modified| - 1]), modified[|modified| - 1];
      if m.chunkId in before then before[m.chunkId := EditAll(before[m.chunkId], m.byteChanges)] else before
  }

  /** The changes that the plan makes under one name. */
  function NamedFor(modified: seq<ChunkModification>, id: nat): seq<Change>
    decreases |modified|
  {
    if modified == [] then []
    else
      var m := modified[|modified| - 1];
      NamedFor(modified[..|modified| - 1], id) + if m.chunkId == id then m.byteChanges else []
  }

  lemma {:induction false} CarriedAt(store: Contents, modified: seq<ChunkModification>, id: nat)
    ensures id in CarryOut(store, modified) <==> id in store
    ensures id in store ==> CarryOut(store, modified)[id] == EditAll(store[id], NamedFor(modified, id))
    decreases |modified|
  {
    if modified != [] {
      var n := |modified| - 1;
      CarriedAt(store, modified[..n], id);
      if id in store {
        EditAllAppend(store[id], NamedFor(modified[..n], id), modified[n].byteChanges);
        EditAllStep(store[id], NamedFor(modified[..n], id), (0, 0, 0));
      }
    } else if id in store {
      NoEdits(store[id]);
    }
  }

  /**
   * Carried out by name, a plan gives the edited file if and only if what it does under each chunk's own name has the
   * effect of the changes that fall into that chunk.
   */
  lemma PlanByNameExact(store: Contents, ids: seq<nat>, data: bytes, c: nat, changes: seq<Change>, modified: seq<ChunkModification>)
    requires c > 0 && HoldsFile(store, ids, Chunks(data, c))
    ensures HoldsFile(CarryOut(store, modified), ids, Chunks(EditAll(data, changes), c)) <==>
      forall i :: 0 <= i < |ids| ==>
        EditAll(Chunks(data, c)[i], NamedFor(modified, ids[i])) == EditAll(Chunks(data, c)[i], Within(changes, |data|, c, i))
  {
    var chunks, edited := Chunks(data, c), Chunks(EditAll(data, changes), c);
    SameCount(data, EditAll(data, changes), c);
    hide Chunks, EditAll, Within, CarryOut, NamedFor;
    forall i | 0 <= i < |ids|
      ensures ids[i] in CarryOut(store, modified)
      ensures CarryOut(store, modified)[ids[i]] == EditAll(chunks[i], NamedFor(modified, ids[i]))
      ensures edited[i] == EditAll(chunks[i], Within(changes, |data|, c, i))
    {
      CarriedAt(store, modified, ids[i]);
      EditsByChunk(data, c, changes, i);
    }
  }

  /** Where the names of all planned chunks are right, each chunk gets exactly its own changes. */
  lemma {:induction false} NamedOnce(modified: seq<ChunkModification>, keys: seq<nat>, id: nat, i: nat)
    requires |modified| == |keys| && Distinct(keys)
    requires forall j :: 0 <= j < |keys| ==> (modified[j].chunkId == id <==> keys[j] == i)
    ensures i !in keys ==> NamedFor(modified, id) == []
    ensures forall j :: 0 <= j < |keys| && keys[j] == i ==> NamedFor(modified, id) == modified[j].byteChanges
    decreases |keys|
  {
    if keys != [] {
      var n := |keys| - 1;
      NamedOnce(modified[..n], keys[..n], id, i);
      if keys[n] == i {
        assert i !in keys[..n];
      }
    }
  }

  lemma {:induction false} NotNamed(modified: seq<ChunkModification>, id: nat)
    requires forall j :: 0 <= j < |modified| ==> modified[j].chunkId != id
    ensures NamedFor(modified, id) == []
    decreases |modified|
  {
    if modified != [] {
      NotNamed(modified[..|modified| - 1], id);
    }
  }

  /** Some change falls into the chunk. */
  ghost predicate Touched(changes: seq<Change>, size: nat, c: nat, i: nat)
    requires c > 0
  {
    Within(changes, size, c, i) != []
  }

  /** A planned chunk is named rightly, or by a name that is none of the file's. */
  ghost predicate NoneConfused(ids: seq<nat>, changes: seq<Change>, size: nat, c: nat, offsets: Option<seq<ChunkOffset>>)
    requires c > 0
  {
    forall i: nat :: Touched(changes, size, c, i) ==> Confined(ids, i, offsets)
  }

  lemma OwnChanges(ids: seq<nat>, size: nat, c: nat, changes: seq<Change>, modified: seq<ChunkModification>,
                   offsets: Option<seq<ChunkOffset>>, i: nat)
    requires c > 0 && Distinct(ids) && Planned(modified, changes, size, c, offsets) && i < |ids|
    requires NoneConfused(ids, changes, size, c, offsets)
    ensures NamedFor(modified, ids[i])
         == if ChunkIdAt(i, offsets) == ids[i] then Within(changes, size, c, i) else []
  {
    hide Within, NamedFor;
    var keys: seq<nat>, groups :| Groups(groups, changes, size, c) && Plans(modified, keys, groups, offsets);
    forall j | 0 <= j < |keys| ensures Confined(ids, keys[j], offsets) && modified[j].chunkId == ChunkIdAt(keys[j], offsets) {
      assert Touched(changes, size, c, keys[j]);
    }
    hide NoneConfused, Touched;
    if ChunkIdAt(i, offsets) == ids[i] {
      KeyNames(ids, keys, modified, offsets, i);
      NamedOnce(modified, keys, ids[i], i);
      if i in keys {
        var j :| 0 <= j < |keys| && keys[j] == i;
      } else {
        assert i !in groups;
      }
    } else {
      KeyNames(ids, keys, modified, offsets, i);
      NotNamed(modified, ids[i]);
    }
  }

  /** Chunk `i` has its own name or one that is none of the file's. */
  ghost predicate Confined(ids: seq<nat>, i: nat, offsets: Option<seq<ChunkOffset>>)
  {
    i < |ids| && (ChunkIdAt(i, offsets) == ids[i] || ChunkIdAt(i, offsets) !in ids)
  }

  lemma KeyNames(ids: seq<nat>, keys: seq<nat>, modified: seq<ChunkModification>, offsets: Option<seq<ChunkOffset>>, i: nat)
    requires Distinct(ids) && |modified| == |keys| && i < |ids|
    requires forall j :: 0 <= j < |keys| ==> Confined(ids, keys[j], offsets) && modified[j].chunkId == ChunkIdAt(keys[j], offsets)
    ensures forall j :: 0 <= j < |keys| ==>
      (modified[j].chunkId == ids[i] <==> keys[j] == i && ChunkIdAt(i, offsets) == ids[i])
  {
    hide ChunkIdAt;
  }

  /**
   * As long as no chunk is mistaken for another one of the file, carrying the plan out by name gives the edited file if
   * and only if every chunk whose bytes change is named rightly.
   */
  lemma PlanByNameCondition(store: Contents, ids: seq<nat>, data: bytes, c: nat, changes: seq<Change>,
                            modified: seq<ChunkModification>, offsets: Option<seq<ChunkOffset>>)
    requires c > 0 && HoldsFile(store, ids, Chunks(data, c)) && Planned(modified, changes, |data|, c, offsets)
    requires NoneConfused(ids, changes, |data|, c, offsets)
    ensures HoldsFile(CarryOut(store, modified), ids, Chunks(EditAll(data, changes), c)) <==>
      forall i :: 0 <= i < |ids| && EditAll(Chunks(data, c)[i], Within(changes, |data|, c, i)) != Chunks(data, c)[i] ==>
        ChunkIdAt(i, offsets) == ids[i]
  {
    PlanByNameExact(store, ids, data, c, changes, modified);
    var chunks := Chunks(data, c);
    hide Chunks, EditAll, Within, CarryOut, NamedFor, Planned, NoneConfused;
    forall i | 0 <= i < |ids|
      ensures EditAll(chunks[i], NamedFor(modified, ids[i]))
           == if ChunkIdAt(i, offsets) == ids[i] then EditAll(chunks[i], Within(changes, |data|, c, i)) else chunks[i]
    {
      OwnChanges(ids, |data|, c, changes, modified, offsets, i);
      NoEdits(chunks[i]);
    }
  }

  lemma {:induction false} TouchedInside(data: bytes, c: nat, changes: seq<Change>, i: nat)
    requires c > 0 && Touched(changes, |data|, c, i)
    ensures i < |Chunks(data, c)|
    decreases |changes|
  {
    var n := |changes| - 1;
    if Touched(changes[..n], |data|, c, i) {
      TouchedInside(data, c, changes[..n], i);
    } else {
      Position(changes[n].0, c, i);
      Reaches(data, c, i);
    }
  }

  lemma RightNames(ids: seq<nat>, data: bytes, c: nat, changes: seq<Change>, offsets: Option<seq<ChunkOffset>>)
    requires c > 0 && |ids| == |Chunks(data, c)| && Names(ids, offsets, 0, |ids|)
    ensures NoneConfused(ids, changes, |data|, c, offsets)
  {
    hide Chunks, Within, Touched;
    forall i: nat | Touched(changes, |data|, c, i) ensures i < |ids| {
      TouchedInside(data, c, changes, i);
    }
  }

  /** Chunks of other files are left alone. */
  lemma OthersKept(store: Contents, ids: seq<nat>, size: nat, c: nat, changes: seq<Change>,
                   modified: seq<ChunkModification>, offsets: Option<seq<ChunkOffset>>, id: nat)
    requires c > 0 && Planned(modified, changes, size, c, offsets) && NoneConfused(ids, changes, size, c, offsets)
    requires Names(ids, offsets, 0, |ids|) && id in store && id !in ids
    ensures id in CarryOut(store, modified) && CarryOut(store, modified)[id] == store[id]
  {
    hide Within, CarryOut, NamedFor, EditAll;
    var keys: seq<nat>, groups :| Groups(groups, changes, size, c) && Plans(modified, keys, groups, offsets);
    forall j | 0 <= j < |modified| ensures modified[j].chunkId != id {
      assert Touched(changes, size, c, keys[j]);
    }
    NotNamed(modified, id);
    CarriedAt(store, modified, id);
    NoEdits(store[id]);
  }

  /** With right names a plan of modifications edits the file and no other. */
  lemma PlanIsEdit(store: Contents, ids: seq<nat>, data: bytes, c: nat, changes: seq<Change>,
                   modified: seq<ChunkModification>, offsets: Option<seq<ChunkOffset>>)
    requires c > 0 && HoldsFile(store, ids, Chunks(data, c)) && Planned(modified, changes, |data|, c, offsets)
    requires Names(ids, offsets, 0, |ids|)
    ensures HoldsFile(CarryOut(store, modified), ids, Chunks(EditAll(data, changes), c))
    ensures forall id :: id in store && id !in ids ==>
      id in CarryOut(store, modified) && CarryOut(store, modified)[id] == store[id]
  {
    hide Chunks, EditAll, Within, CarryOut, Planned, NoneConfused;
    RightNames(ids, data, c, changes, offsets);
    PlanByNameCondition(store, ids, data, c, changes, modified, offsets);
    forall id | id in store && id !in ids
      ensures id in CarryOut(store, modified) && CarryOut(store, modified)[id] == store[id]
    {
      OthersKept(store, ids, |data|, c, changes, modified, offsets, id);
    }
  }

  /** One plan for each edit of a single byte. */
  lemma SinglePlan(change: Change, size: nat, c: nat, offsets: Option<seq<ChunkOffset>>) returns (modified: seq<ChunkModification>)
    requires c > 0 && change.0 < size
    ensures Planned(modified, [change], size, c, offsets)
    ensures modified == [ChunkModification(ChunkIdAt(change.0 / c, offsets), [(change.0 % c, change.1, change.2)],
                                           OffsetAt(change.0 / c, offsets))]
  {
    var i, inside := change.0 / c, (change.0 % c, change.1, change.2);
    modified := [ChunkModification(ChunkIdAt(i, offsets), [inside], OffsetAt(i, offsets))];
    forall k: nat ensures Within([change], size, c, k) == if k == i then [inside] else [] {
      OneInside(change, size, c, k);
    }
    hide Within;
    assert Groups(map[i := [inside]], [change], size, c) && Plans(modified, [i], map[i := [inside]], offsets);
  }

  /** Every plan for the file, carried out by name, gives the edited file. */
  ghost predicate AllEditsWork(store: Contents, ids: seq<nat>, data: bytes, c: nat, offsets: Option<seq<ChunkOffset>>)
    requires c > 0
  {
    forall changes, modified :: Planned(modified, changes, |data|, c, offsets) ==>
      HoldsFile(CarryOut(store, modified), ids, Chunks(EditAll(data, changes), c))
  }

  /** All edits of a file work by name if and only if every chunk of it is named rightly. */
  lemma AllEditsCondition(store: Contents, ids: seq<nat>, data: bytes, c: nat, offsets: Option<seq<ChunkOffset>>)
    requires c > 0 && HoldsFile(store, ids, Chunks(data, c))
    ensures AllEditsWork(store, ids, data, c, offsets) <==> Names(ids, offsets, 0, |ids|)
  {
    if Names(ids, offsets, 0, |ids|) {
      forall changes, modified | Planned(modified, changes, |data|, c, offsets)
        ensures HoldsFile(CarryOut(store, modified), ids, Chunks(EditAll(data, changes), c))
      {
        PlanIsEdit(store, ids, data, c, changes, modified, offsets);
      }
    } else {
      var i :| 0 <= i < |ids| && ChunkIdAt(i, offsets) != ids[i];
      MisnamedEdit(store, ids, data, c, offsets, i);
    }
  }

  /** Changing the first byte of a misnamed chunk leaves the chunk as it is. */
  lemma MisnamedEdit(store: Contents, ids: seq<nat>, data: bytes, c: nat, offsets: Option<seq<ChunkOffset>>, i: nat)
    requires c > 0 && HoldsFile(store, ids, Chunks(data, c)) && i < |ids| && ChunkIdAt(i, offsets) != ids[i]
    ensures !AllEditsWork(store, ids, data, c, offsets)
  {
    var change := FirstByteEdit(data, c, i);
    hide Chunks, Within, CarryOut, NamedFor, Planned, EditAll;
    var modified := SinglePlan(change, |data|, c, offsets);
    NotNamed(modified, ids[i]);
    CarriedAt(store, modified, ids[i]);
    NoEdits(Chunks(data, c)[i]);
  }

  /** An edit that changes the first byte of chunk `i`, and thereby the chunk. */
  lemma FirstByteEdit(data: bytes, c: nat, i: nat) returns (change: Change)
    requires c > 0 && i < |Chunks(data, c)|
    ensures change.0 < |data| && change.0 / c == i
    ensures i < |Chunks(EditAll(data, [change]), c)| && Chunks(EditAll(data, [change]), c)[i] != Chunks(data, c)[i]
  {
    hide Chunks, Within;
    ChunkSize(data, c, i);
    change := (c * i, 0, if data[c * i] == 0 then 1 else 0);
    Position(c * i, c, i);
    SameCount(data, EditAll(data, [change]), c);
    ChunkSize(EditAll(data, [change]), c, i);
    OneEdit(data, change);
    hide EditAll;
    assert Chunks(data, c)[i][0] == data[c * i + 0];
    assert Chunks(EditAll(data, [change]), c)[i][0] == EditAll(data, [change])[c * i + 0];
  }

  /**
   * With right names the plan of a range replacement inside the file gives the spliced file if and only if the stated
   * old bytes are the file's wherever they equal the new ones.
   */
  lemma RangePlanIsSplice(store: Contents, ids: seq<nat>, data: bytes, offset: nat, before: bytes, after: bytes, c: nat,
                          modified: seq<ChunkModification>, offsets: Option<seq<ChunkOffset>>)
    requires c > 0 && HoldsFile(store, ids, Chunks(data, c)) && Names(ids, offsets, 0, |ids|)
    requires |before| == |after| && offset + |after| <= |data|
    requires Planned(modified, RangeChanges(offset, before, after, |after|), offset + |after|, c, offsets)
    ensures HoldsFile(CarryOut(store, modified), ids, Chunks(Splice(data, offset, after), c))
       <==> forall k :: 0 <= k < |after| && before[k] == after[k] ==> data[offset + k] == after[k]
  {
    var changes := RangeChanges(offset, before, after, |after|);
    RangePlanned(modified, |data|, offset, before, after, c, offsets);
    RangeReplaceCondition(data, offset, before, after);
    hide RangeChanges, Planned, Splice, EditAll, Chunks, CarryOut;
    PlanIsEdit(store, ids, data, c, changes, modified, offsets);
    SameFile(CarryOut(store, modified), ids, EditAll(data, changes), Splice(data, offset, after), c);
  }

  /** The chunks of an entry determine the file. */
  lemma SameFile(store: Contents, ids: seq<nat>, a: bytes, b: bytes, c: nat)
    requires c > 0 && HoldsFile(store, ids, Chunks(a, c))
    ensures HoldsFile(store, ids, Chunks(b, c)) <==> a == b
  {
    ChunksSpec(a, c);
    ChunksSpec(b, c);
    hide Chunks;
    if HoldsFile(store, ids, Chunks(b, c)) {
      assert Chunks(a, c) == Chunks(b, c);
    }
  }

  const Zeros: bytes := seq(100, i => 0)

  lemma TwoChunks()
    ensures |Zeros| == 100 && Chunks(Zeros, 64) == [Zeros[..64], Zeros[64..]]
    ensures HoldsFile(map[1 := Zeros[..64], 2 := Zeros[64..]], [1, 2], Chunks(Zeros, 64))
  {
    assert |Zeros[64..]| == 36;
  }

  /**
   * The first file written has identifiers from one on and no index: the plan for its first byte names chunk zero, which
   * there is not, and changes nothing.
   */
  lemma FirstFileMisnamed(modified: seq<ChunkModification>)
    requires Planned(modified, [(0, 0, 1)], 100, 64, None)
    ensures var store := map[1 := Zeros[..64], 2 := Zeros[64..]];
      && HoldsFile(store, [1, 2], Chunks(Zeros, 64))
      && !HoldsFile(CarryOut(store, modified), [1, 2], Chunks(EditAll(Zeros, [(0, 0, 1)]), 64))
  {
    hide *;
    TwoChunks();
    ZeroNamed();
    MisnamedStays(map[1 := Zeros[..64], 2 := Zeros[64..]], [1, 2], Zeros, 64, [(0, 0, 1)], modified, None, 0);
  }

  /** A planned change to a misnamed chunk is lost. */
  lemma MisnamedStays(store: Contents, ids: seq<nat>, data: bytes, c: nat, changes: seq<Change>,
                      modified: seq<ChunkModification>, offsets: Option<seq<ChunkOffset>>, i: nat)
    requires c > 0 && HoldsFile(store, ids, Chunks(data, c)) && Planned(modified, changes, |data|, c, offsets)
    requires NoneConfused(ids, changes, |data|, c, offsets) && i < |ids| && ChunkIdAt(i, offsets) != ids[i]
    requires EditAll(Chunks(data, c)[i], Within(changes, |data|, c, i)) != Chunks(data, c)[i]
    ensures !HoldsFile(CarryOut(store, modified), ids, Chunks(EditAll(data, changes), c))
  {
    hide Chunks, EditAll, CarryOut, Planned, NoneConfused, Within;
    PlanByNameCondition(store, ids, data, c, changes, modified, offsets);
  }

  /** The change falls into the first chunk only and changes it. */
  lemma ZeroNamed()
    ensures NoneConfused([1, 2], [(0, 0, 1)], |Zeros|, 64, None)
    ensures EditAll(Zeros[..64], Within([(0, 0, 1)], |Zeros|, 64, 0)) != Zeros[..64] && ChunkIdAt(0, None) != [1, 2][0]
  {
    forall i: nat ensures Within([(0, 0, 1)], 100, 64, i) == if i == 0 then [(0, 0, 1)] else [] {
      OneInside((0, 0, 1), 100, 64, i);
    }
    hide Within, EditAll;
    OneEdit(Zeros[..64], (0, 0, 1));
    assert Edit(Zeros[..64], (0, 0, 1))[0] == 1;
  }

  lemma CarryOne(store: Contents, m: ChunkModification)
    requires m.chunkId in store
    ensures CarryOut(store, [m]) == store[m.chunkId := EditAll(store[m.chunkId], m.byteChanges)]
  {
    hide EditAll;
    assert [m][..0] == [];
    assert CarryOut(store, []) == store;
  }

  /** The plan for byte 64 of the same file changes byte zero instead. */
  lemma WrongByteEdited() returns (modified: seq<ChunkModification>)
    ensures Planned(modified, [(64, 0, 1)], 100, 64, None)
    ensures var store := map[1 := Zeros[..64], 2 := Zeros[64..]];
      CarryOut(store, modified) == map[1 := Zeros[..64][0 := 1], 2 := Zeros[64..]]
  {
    modified := SinglePlan((64, 0, 1), 100, 64, None);
    hide EditAll, Planned, CarryOut;
    OneEdit(Zeros[..64], (0, 0, 1));
    CarryOne(map[1 := Zeros[..64], 2 := Zeros[64..]], modified[0]);
    assert modified == [modified[0]] && modified[0].chunkId == 1;
  }

  const TwoFull: bytes := seq(128, i => 0)
  const Swapped: Option<seq<ChunkOffset>> := Some([ChunkOffset(2, 0, 64), ChunkOffset(1, 64, 64)])

  lemma SwappedWithin(i: nat)
    ensures Within([(0, 0, 1), (64, 0, 1)], 128, 64, i) == if i < 2 then [(0, 0, 1)] else []
  {
    OneInside((0, 0, 1), 128, 64, i);
    assert [(0, 0, 1), (64, 0, 1)][..1] == [(0, 0, 1)];
  }

  lemma TwoFullChunks()
    ensures |TwoFull| == 128 && Chunks(TwoFull, 64) == [TwoFull[..64], TwoFull[64..]] && TwoFull[..64] == TwoFull[64..]
    ensures HoldsFile(map[1 := TwoFull[..64], 2 := TwoFull[64..]], [1, 2], Chunks(TwoFull, 64))
  {
    assert |TwoFull[64..]| == 64;
  }

  const SwappedPlan: seq<ChunkModification> := [
    ChunkModification(2, [(0, 0, 1)], Some(ChunkOffset(2, 0, 64))),
    ChunkModification(1, [(0, 0, 1)], Some(ChunkOffset(1, 64, 64)))]

  lemma SwappedPlanned()
    ensures Planned(SwappedPlan, [(0, 0, 1), (64, 0, 1)], 128, 64, Swapped)
  {
    var groups: map<nat, seq<Change>> := map[0 := [(0, 0, 1)], 1 := [(0, 0, 1)]];
    forall i: nat ensures Within([(0, 0, 1), (64, 0, 1)], 128, 64, i) == if i < 2 then [(0, 0, 1)] else [] {
      SwappedWithin(i);
    }
    hide Within;
    assert Groups(groups, [(0, 0, 1), (64, 0, 1)], 128, 64) && Plans(SwappedPlan, [0, 1], groups, Swapped);
  }

  lemma SwappedNamed(id: nat)
    requires id == 1 || id == 2
    ensures NamedFor(SwappedPlan, id) == [(0, 0, 1)]
  {
    hide NamedFor;
    NamedOnce(SwappedPlan, [0, 1], id, 2 - id);
  }

  /**
   * Wrong names need not show: with the names of two equal chunks swapped, the same edit of both comes out right. So what
   * is exact without the assumption that no chunk is mistaken for another is `PlanByNameExact`.
   */
  lemma SwappedNames()
    ensures var changes, store := [(0, 0, 1), (64, 0, 1)], map[1 := TwoFull[..64], 2 := TwoFull[64..]];
      && Planned(SwappedPlan, changes, 128, 64, Swapped) && HoldsFile(store, [1, 2], Chunks(TwoFull, 64))
      && HoldsFile(CarryOut(store, SwappedPlan), [1, 2], Chunks(EditAll(TwoFull, changes), 64))
    ensures ChunkIdAt(0, Swapped) != [1, 2][0] && ChunkIdAt(1, Swapped) != [1, 2][1]
  {
    hide Within, Chunks, EditAll, CarryOut, NamedFor, HoldsFile, Planned;
    var changes, store := [(0, 0, 1), (64, 0, 1)], map[1 := TwoFull[..64], 2 := TwoFull[64..]];
    SwappedPlanned();
    TwoFullChunks();
    forall i | 0 <= i < 2
      ensures NamedFor(SwappedPlan, [1, 2][i]) == Within(changes, 128, 64, i)
    {
      SwappedNamed(i + 1);
      SwappedWithin(i);
    }
    PlanByNameExact(store, [1, 2], TwoFull, 64, changes, SwappedPlan);
  }
}
