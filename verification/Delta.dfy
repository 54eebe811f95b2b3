/** Planning an edit chunk by chunk, and why the plan amounts to editing the whole file. */
module Delta {
  import opened Bytes
  import opened Manifest

  /** Position, old value and new value; the position is in the file or within a chunk. */
  type Change = (nat, byte, byte)

  datatype DeltaType =
    | ByteReplace(offset: nat, oldValue: byte, newValue: byte)
    | MultiByteReplace(changes: seq<Change>)
    | RangeReplace(offset: nat, oldData: bytes, newData: bytes)
    | Insert(offset: nat, data: bytes)
    | Delete(offset: nat, length: nat)
    | Append(data: bytes)
    | Truncation(newLength: nat)

  datatype ChunkModification = ChunkModification(chunkId: nat, byteChanges: seq<Change>, chunkOffset: Option<ChunkOffset>)

  datatype NewChunk = NewChunk(data: bytes, fileOffset: nat)

  datatype AffectedChunks = AffectedChunks(
    modified: seq<ChunkModification>, reencoded: seq<nat>, newChunks: seq<NewChunk>, removed: seq<nat>)

  const Unaffected := AffectedChunks([], [], [], [])

  /** `get_chunk_id` */
  function ChunkIdAt(i: nat, offsets: Option<seq<ChunkOffset>>): nat
  {
    if offsets.Some? && i < |offsets.value| then offsets.value[i].chunkId else i
  }

  function OffsetAt(i: nat, offsets: Option<seq<ChunkOffset>>): Option<ChunkOffset>
  {
    if offsets.Some? && i < |offsets.value| then Some(offsets.value[i]) else None
  }

  // ---------------------------------------------------------------- edits

  /** One byte replaced; a position outside changes nothing. */
  function Edit(data: bytes, change: Change): (r: bytes)
    ensures |r| == |data|
  {
    if change.0 < |data| then data[change.0 := change.2] else data
  }

  /** The changes made in order, so that a later one at the same position wins. */
  function EditAll(data: bytes, changes: seq<Change>): (r: bytes)
    ensures |r| == |data|
    decreases |changes|
  {
    if changes == [] then data else Edit(EditAll(data, changes[..|changes| - 1]), changes[|changes| - 1])
  }

  /** A byte keeps its value unless some change is at its position; then it has that of the last one. */
  lemma {:induction false} EditedByte(data: bytes, changes: seq<Change>, p: nat)
    requires p < |data|
    ensures (forall k :: 0 <= k < |changes| ==> changes[k].0 != p) ==> EditAll(data, changes)[p] == data[p]
    ensures forall k :: LastAt(changes, k, p) ==> EditAll(data, changes)[p] == changes[k].2
    decreases |changes|
  {
    if changes != [] {
      var n := |changes| - 1;
      var before := changes[..n];
      EditedByte(data, before, p);
      assert changes == before + [changes[n]];
      if changes[n].0 != p {
        forall k | LastAt(changes, k, p) ensures LastAt(before, k, p) {
        }
      }
    }
  }

  /** The `k`th change is the last at the position. */
  ghost predicate LastAt(changes: seq<Change>, k: int, p: nat)
  {
    0 <= k < |changes| && changes[k].0 == p && forall j :: k < j < |changes| ==> changes[j].0 != p
  }

  /** The changes that fall into the `i`th chunk, at their positions there. */
  function Within(changes: seq<Change>, size: nat, c: nat, i: nat): seq<Change>
    requires c > 0
    decreases |changes|
  {
    if changes == [] then []
    else
      var (offset, before, after) := changes[|changes| - 1];
      Within(changes[..|changes| - 1], size, c, i)
      + if offset < size && offset / c == i then [(offset % c, before, after)] else []
  }

  lemma ChunkSize(data: bytes, c: nat, i: nat)
    requires c > 0 && i < |Chunks(data, c)|
    ensures c * i < |data| && |Chunks(data, c)[i]| == Min(c * i + c, |data|) - c * i
    ensures forall k: nat :: k < |Chunks(data, c)[i]| ==> Chunks(data, c)[i][k] == data[c * i + k]
  {
    ChunkAt(data, c, i);
  }

  /** Chunk and position in it determine the position in the file. */
  lemma Position(offset: nat, c: nat, i: nat)
    requires c > 0
    ensures offset == c * (offset / c) + offset % c
    ensures offset / c == i ==> c * i <= offset < c * i + c
    ensures c * i <= offset < c * i + c ==> offset / c == i
  {
    if c * i <= offset < c * i + c {
      DivUnique(offset, c, i);
    }
  }

  lemma SameCount(a: bytes, b: bytes, c: nat)
    requires c > 0 && |a| == |b|
    ensures |Chunks(a, c)| == |Chunks(b, c)|
  {
    ChunkCount(a, c);
    ChunkCount(b, c);
  }

  lemma ChunkPoint(data: bytes, c: nat, change: Change, i: nat, k: nat)
    requires c > 0 && i < |Chunks(data, c)| && k < |Chunks(data, c)[i]|
    ensures i < |Chunks(Edit(data, change), c)| && k < |Chunks(Edit(data, change), c)[i]|
    ensures Chunks(Edit(data, change), c)[i][k]
         == if change.0 < |data| && change.0 / c == i && change.0 % c == k then change.2 else Chunks(data, c)[i][k]
  {
    hide Chunks;
    SameCount(data, Edit(data, change), c);
    ChunkSize(data, c, i);
    ChunkSize(Edit(data, change), c, i);
    Position(change.0, c, i);
  }

  /** One edit of the file is one edit of the chunk it falls into. */
  lemma EditChunk(data: bytes, c: nat, change: Change, i: nat)
    requires c > 0 && i < |Chunks(data, c)|
    ensures i < |Chunks(Edit(data, change), c)|
    ensures Chunks(Edit(data, change), c)[i] == EditAll(Chunks(data, c)[i], Within([change], |data|, c, i))
  {
    hide Chunks;
    SameCount(data, Edit(data, change), c);
    ChunkSize(data, c, i);
    ChunkSize(Edit(data, change), c, i);
    Position(change.0, c, i);
    var chunk, inside := Chunks(data, c)[i], Within([change], |data|, c, i);
    OneInside(change, |data|, c, i);
    OneEdit(chunk, (change.0 % c, change.1, change.2));
    forall k: nat | k < |chunk| ensures Chunks(Edit(data, change), c)[i][k] == EditAll(chunk, inside)[k] {
      ChunkPoint(data, c, change, i, k);
    }
    assert Chunks(Edit(data, change), c)[i] == EditAll(chunk, inside);
  }

  lemma OneInside(change: Change, size: nat, c: nat, i: nat)
    requires c > 0
    ensures Within([change], size, c, i)
         == if change.0 < size && change.0 / c == i then [(change.0 % c, change.1, change.2)] else []
  {
    assert [change][..0] == [];
    assert Within([], size, c, i) == [];
  }

  lemma OneEdit(data: bytes, change: Change)
    ensures EditAll(data, [change]) == Edit(data, change) && EditAll(data, []) == data
  {
    assert [change][..0] == [];
  }

  lemma {:induction false} EditAllAppend(data: bytes, a: seq<Change>, b: seq<Change>)
    ensures EditAll(data, a + b) == EditAll(EditAll(data, a), b)
    decreases |b|
  {
    if b == [] {
      assert a + b == a;
    } else {
      EditAllAppend(data, a, b[..|b| - 1]);
      assert (a + b)[..|a + b| - 1] == a + b[..|b| - 1];
    }
  }

  /** Editing the file is editing every chunk with the changes that fall into it, in order, repeated positions included. */
  lemma {:induction false} EditsByChunk(data: bytes, c: nat, changes: seq<Change>, i: nat)
    requires c > 0 && i < |Chunks(data, c)|
    ensures i < |Chunks(EditAll(data, changes), c)|
    ensures Chunks(EditAll(data, changes), c)[i] == EditAll(Chunks(data, c)[i], Within(changes, |data|, c, i))
    decreases |changes|
  {
    hide Chunks;
    if changes != [] {
      var init, last := changes[..|changes| - 1], changes[|changes| - 1];
      EditsByChunk(data, c, init, i);
      EditChunk(EditAll(data, init), c, last, i);
      OneInside(last, |data|, c, i);
      EditAllAppend(Chunks(data, c)[i], Within(init, |data|, c, i), Within([last], |data|, c, i));
    }
  }

  // ---------------------------------------------------------------- plans of modifications

  /** The changes grouped by chunk: exactly the chunks that some change falls into, each with its changes. */
  ghost predicate Groups(groups: map<nat, seq<Change>>, changes: seq<Change>, size: nat, c: nat)
    requires c > 0
  {
    forall i: nat ::
      (i in groups <==> Within(changes, size, c, i) != []) && (i in groups ==> groups[i] == Within(changes, size, c, i))
  }

  /** The modifications list every group once, in the order of `keys`. */
  ghost predicate Plans(modified: seq<ChunkModification>, keys: seq<nat>, groups: map<nat, seq<Change>>,
                        offsets: Option<seq<ChunkOffset>>)
  {
    && |modified| == |keys| && (forall i :: i in groups <==> i in keys)
    && (forall j, k :: 0 <= j < k < |keys| ==> keys[j] != keys[k])
    && forall j :: 0 <= j < |keys| ==>
         keys[j] in groups
         && modified[j] == ChunkModification(ChunkIdAt(keys[j], offsets), groups[keys[j]], OffsetAt(keys[j], offsets))
  }

  /** The modifications group the changes of a file of `size` bytes by chunk. */
  ghost predicate Planned(modified: seq<ChunkModification>, changes: seq<Change>, size: nat, c: nat, offsets: Option<seq<ChunkOffset>>)
    requires c > 0
  {
    exists keys: seq<nat>, groups: map<nat, seq<Change>> ::
      Groups(groups, changes, size, c) && Plans(modified, keys, groups, offsets)
  }

  lemma NoEdits(data: bytes)
    ensures EditAll(data, []) == data
  {
  }

  // ---------------------------------------------------------------- the plans, as the program makes them

  /** Groups the changes within the file by chunk. */
  method GroupChanges(changes: seq<Change>, size: nat, c: nat) returns (groups: map<nat, seq<Change>>)
    requires c > 0
    ensures Groups(groups, changes, size, c)
  {
    groups := map[];
    for n := 0 to |changes|
      invariant Groups(groups, changes[..n], size, c)
    {
      var (offset, before, after) := changes[n];
      GroupStep(groups, changes, size, c, n);
      if offset >= size {
        continue;
      }
      var i := offset / c;
      var earlier := if i in groups then groups[i] else [];
      groups := groups[i := earlier + [(offset % c, before, after)]];
    }
    assert changes[..|changes|] == changes;
  }

  lemma GroupStep(groups: map<nat, seq<Change>>, changes: seq<Change>, size: nat, c: nat, n: nat)
    requires c > 0 && n < |changes| && Groups(groups, changes[..n], size, c)
    ensures var (offset, before, after) := changes[n];
      if offset >= size then Groups(groups, changes[..n + 1], size, c)
      else
        var i := offset / c;
        Groups(groups[i := (if i in groups then groups[i] else []) + [(offset % c, before, after)]], changes[..n + 1], size, c)
  {
    assert changes[..n + 1][..n] == changes[..n];
  }

  /** One modification per group, in whatever order the groups come. */
  method ListGroups(groups: map<nat, seq<Change>>, offsets: Option<seq<ChunkOffset>>)
    returns (modified: seq<ChunkModification>, ghost keys: seq<nat>)
    ensures Plans(modified, keys, groups, offsets)
  {
    modified, keys := [], [];
    var left := groups.Keys;
    while left != {}
      invariant left <= groups.Keys && |modified| == |keys|
      invariant forall i :: i in groups <==> i in keys || i in left
      invariant forall j :: 0 <= j < |keys| ==> keys[j] !in left
      invariant forall j, k :: 0 <= j < k < |keys| ==> keys[j] != keys[k]
      invariant forall j :: 0 <= j < |keys| ==> keys[j] in groups
      invariant forall j :: 0 <= j < |keys| ==>
        modified[j] == ChunkModification(ChunkIdAt(keys[j], offsets), groups[keys[j]], OffsetAt(keys[j], offsets))
      decreases left
    {
      var i :| i in left;
      left := left - {i};
      modified := modified + [ChunkModification(ChunkIdAt(i, offsets), groups[i], OffsetAt(i, offsets))];
      keys := keys + [i];
    }
  }

  method PlanByteReplace(change: Change, size: nat, c: nat, offsets: Option<seq<ChunkOffset>>) returns (r: AffectedChunks)
    requires c > 0
    ensures r == Unaffected.(modified := r.modified) && Planned(r.modified, [change], size, c, offsets)
  {
    hide Within;
    forall i: nat ensures Within([change], size, c, i)
      == if change.0 < size && change.0 / c == i then [(change.0 % c, change.1, change.2)] else []
    {
      OneInside(change, size, c, i);
    }
    if change.0 >= size {
      assert Groups(map[], [change], size, c) && Plans([], [], map[], offsets);
      return Unaffected;
    }
    var i, byteChange := change.0 / c, (change.0 % c, change.1, change.2);
    assert Groups(map[i := [byteChange]], [change], size, c);
    assert Plans([ChunkModification(ChunkIdAt(i, offsets), [byteChange], OffsetAt(i, offsets))], [i], map[i := [byteChange]], offsets);
    r := Unaffected.(modified := [ChunkModification(ChunkIdAt(i, offsets), [byteChange], OffsetAt(i, offsets))]);
  }

  method PlanMultiByteReplace(changes: seq<Change>, size: nat, c: nat, offsets: Option<seq<ChunkOffset>>)
    returns (r: AffectedChunks)
    requires c > 0
    ensures r == Unaffected.(modified := r.modified) && Planned(r.modified, changes, size, c, offsets)
  {
    var groups := GroupChanges(changes, size, c);
    var modified;
    ghost var keys;
    modified, keys := ListGroups(groups, offsets);
    r := Unaffected.(modified := modified);
  }

  // ---------------------------------------------------------------- ranges

  /** The positions of a replaced range whose byte differs, in order. */
  function RangeChanges(offset: nat, before: bytes, after: bytes, n: nat): seq<Change>
    requires n <= |before| == |after|
  {
    if n == 0 then []
    else
      RangeChanges(offset, before, after, n - 1)
      + if before[n - 1] != after[n - 1] then [(offset + n - 1, before[n - 1], after[n - 1])] else []
  }

  function Splice(data: bytes, offset: nat, piece: bytes): bytes
    requires offset + |piece| <= |data|
  {
    data[..offset] + piece + data[offset + |piece|..]
  }

  /** The same changes fall into a chunk whatever bound beyond them is used. */
  lemma {:induction false} WithinBound(changes: seq<Change>, m: nat, n: nat, c: nat, i: nat)
    requires c > 0 && forall k :: 0 <= k < |changes| ==> changes[k].0 < m && changes[k].0 < n
    ensures Within(changes, m, c, i) == Within(changes, n, c, i)
    decreases |changes|
  {
    if changes != [] {
      WithinBound(changes[..|changes| - 1], m, n, c, i);
    }
  }

  lemma {:induction false} RangeInside(offset: nat, before: bytes, after: bytes, n: nat)
    requires n <= |before| == |after|
    ensures forall k :: 0 <= k < |RangeChanges(offset, before, after, n)| ==>
      offset <= RangeChanges(offset, before, after, n)[k].0 < offset + n
  {
    if n > 0 {
      RangeInside(offset, before, after, n - 1);
    }
  }

  /** What the differing positions do to the file, byte by byte. */
  lemma {:induction false} RangeEdits(data: bytes, offset: nat, before: bytes, after: bytes, n: nat, p: nat)
    requires n <= |before| == |after| && offset + |after| <= |data| && p < |data|
    ensures EditAll(data, RangeChanges(offset, before, after, n))[p]
         == if offset <= p < offset + n && before[p - offset] != after[p - offset] then after[p - offset] else data[p]
  {
    if n == 0 {
      NoEdits(data);
    } else {
      RangeEdits(data, offset, before, after, n - 1, p);
      var changes, last := RangeChanges(offset, before, after, n - 1), (offset + n - 1, before[n - 1], after[n - 1]);
      RangeStep(offset, before, after, n);
      EditAllStep(data, changes, last);
      hide EditAll, RangeChanges, Edit;
      EditPoint(EditAll(data, changes), last, p);
    }
  }

  lemma RangeStep(offset: nat, before: bytes, after: bytes, n: nat)
    requires 0 < n <= |before| == |after|
    ensures var changes := RangeChanges(offset, before, after, n - 1);
      RangeChanges(offset, before, after, n)
      == if before[n - 1] != after[n - 1] then changes + [(offset + n - 1, before[n - 1], after[n - 1])] else changes
  {
    assert RangeChanges(offset, before, after, n - 1) + [] == RangeChanges(offset, before, after, n - 1);
  }

  lemma EditPoint(data: bytes, change: Change, p: nat)
    requires p < |data|
    ensures Edit(data, change)[p] == if change.0 == p then change.2 else data[p]
  {
  }

  lemma EditAllStep(data: bytes, changes: seq<Change>, last: Change)
    ensures EditAll(data, changes + [last]) == Edit(EditAll(data, changes), last)
    ensures changes + [] == changes
  {
    assert (changes + [last])[..|changes|] == changes;
  }

  /**
   * Replacing a range by its differing bytes is the whole replacement exactly when, wherever the stated old byte
   * equals the new one, the file really holds that byte.
   */
  lemma RangeReplaceCondition(data: bytes, offset: nat, before: bytes, after: bytes)
    requires |before| == |after| && offset + |after| <= |data|
    ensures EditAll(data, RangeChanges(offset, before, after, |after|)) == Splice(data, offset, after)
       <==> forall k :: 0 <= k < |after| && before[k] == after[k] ==> data[offset + k] == after[k]
  {
    hide RangeChanges, EditAll;
    var edited, spliced := EditAll(data, RangeChanges(offset, before, after, |after|)), Splice(data, offset, after);
    forall p: nat | p < |data|
      ensures edited[p] == if offset <= p < offset + |after| && before[p - offset] != after[p - offset]
        then after[p - offset] else data[p]
    {
      RangeEdits(data, offset, before, after, |after|, p);
    }
    SpliceBytes(data, offset, after);
    if forall k :: 0 <= k < |after| && before[k] == after[k] ==> data[offset + k] == after[k] {
      assert edited == spliced;
    } else {
      var k :| 0 <= k < |after| && before[k] == after[k] && data[offset + k] != after[k];
      assert edited[offset + k] != spliced[offset + k];
    }
  }

  lemma SpliceBytes(data: bytes, offset: nat, piece: bytes)
    requires offset + |piece| <= |data|
    ensures |Splice(data, offset, piece)| == |data|
    ensures forall p: nat :: p < |data| ==>
      Splice(data, offset, piece)[p] == if offset <= p < offset + |piece| then piece[p - offset] else data[p]
  {
  }

  /** A same-length range replacement; the file's size is not consulted. */
  method PlanRangeReplace(offset: nat, before: bytes, after: bytes, c: nat, offsets: Option<seq<ChunkOffset>>)
    returns (r: AffectedChunks)
    requires c > 0 && |before| == |after|
    ensures r == Unaffected.(modified := r.modified)
    ensures Planned(r.modified, RangeChanges(offset, before, after, |after|), offset + |after|, c, offsets)
  {
    var changes := ListRangeChanges(offset, before, after);
    hide RangeChanges, Within;
    var groups := GroupChanges(changes, offset + |after|, c);
    var modified;
    ghost var keys;
    modified, keys := ListGroups(groups, offsets);
    r := Unaffected.(modified := modified);
  }

  /** Inside the file the range's own end serves as well as the file's. */
  lemma RangePlanned(modified: seq<ChunkModification>, size: nat, offset: nat, before: bytes, after: bytes, c: nat,
                     offsets: Option<seq<ChunkOffset>>)
    requires c > 0 && |before| == |after| && offset + |after| <= size
    requires Planned(modified, RangeChanges(offset, before, after, |after|), offset + |after|, c, offsets)
    ensures Planned(modified, RangeChanges(offset, before, after, |after|), size, c, offsets)
  {
    hide *;
    RangeInside(offset, before, after, |after|);
    PlannedBound(modified, RangeChanges(offset, before, after, |after|), offset + |after|, size, c, offsets);
  }

  lemma PlannedBound(modified: seq<ChunkModification>, changes: seq<Change>, end: nat, size: nat, c: nat,
                     offsets: Option<seq<ChunkOffset>>)
    requires c > 0 && end <= size && Planned(modified, changes, end, c, offsets)
    requires forall k :: 0 <= k < |changes| ==> changes[k].0 < end
    ensures Planned(modified, changes, size, c, offsets)
  {
    hide Plans, Groups;
    var keys: seq<nat>, groups :| Groups(groups, changes, end, c) && Plans(modified, keys, groups, offsets);
    GroupsBound(groups, changes, end, size, c);
  }

  lemma GroupsBound(groups: map<nat, seq<Change>>, changes: seq<Change>, end: nat, size: nat, c: nat)
    requires c > 0 && end <= size && Groups(groups, changes, end, c)
    requires forall k :: 0 <= k < |changes| ==> changes[k].0 < end
    ensures Groups(groups, changes, size, c)
  {
    hide Within;
    forall i: nat ensures Within(changes, end, c, i) == Within(changes, size, c, i) {
      WithinBound(changes, end, size, c, i);
    }
  }

  method ListRangeChanges(offset: nat, before: bytes, after: bytes) returns (changes: seq<Change>)
    requires |before| == |after|
    ensures changes == RangeChanges(offset, before, after, |after|)
  {
    assert RangeChanges(offset, before, after, 0) == [];
    hide RangeChanges;
    changes := [];
    for n := 0 to |after|
      invariant changes == RangeChanges(offset, before, after, n)
    {
      RangeStep(offset, before, after, n + 1);
      if before[n] != after[n] {
        changes := changes + [(offset + n, before[n], after[n])];
      }
    }
  }

  // ---------------------------------------------------------------- appending and truncating

  /** The identifiers of the chunks numbered from `from` up to `to`. */
  function IdsFrom(from: nat, to: nat, offsets: Option<seq<ChunkOffset>>): (r: seq<nat>)
  {
    seq<nat>(if from <= to then to - from else 0, k requires 0 <= k => ChunkIdAt(from + k, offsets))
  }

  /** Free bytes in the last chunk of a file of `size` bytes; none if the file is empty. */
  function Room(size: nat, c: nat): nat
    requires c > 0
  {
    if size == 0 then 0 else c - ((size - 1) % c + 1)
  }

  /** The `i`th new chunk of an append: what does not fit into the last chunk, cut from there on. */
  function AppendedChunk(size: nat, data: bytes, c: nat, i: nat): NewChunk
    requires c > 0 && Room(size, c) + c * i < |data|
  {
    var start := Room(size, c) + c * i;
    NewChunk(data[start..Min(start + c, |data|)], size + start)
  }

  lemma RoomSpec(size: nat, c: nat)
    requires c > 0
    ensures Room(size, c) < c && (size + Room(size, c)) % c == 0
    ensures size + Room(size, c) == c * CeilDiv(size, c)
  {
    if size == 0 {
      DivUnique(c - 1, c, 0);
      assert c * 0 == 0;
      MulModZero(c, 0);
    } else {
      var q := (size - 1) / c;
      RoomFrom(size, c, q, (size - 1) % c);
      hide Room;
      CeilDivUnique(size, c, q + 1);
      MulModZero(c, q + 1);
    }
  }

  lemma RoomFrom(size: nat, c: nat, q: nat, rest: nat)
    requires c > 0 && size > 0 && rest == (size - 1) % c && size - 1 == c * q + rest
    ensures Room(size, c) == c - rest - 1 && size + Room(size, c) == c * (q + 1)
    ensures c * (q + 1) - c < size <= c * (q + 1) && Room(size, c) < c
  {
    assert c * (q + 1) == c * q + c;
  }

  lemma MulModZero(c: nat, q: nat)
    requires c > 0
    ensures (c * q) % c == 0
  {
    DivUnique(c * q, c, q);
  }

  /** The last chunk is re-encoded if some of the data fits into it, and the rest becomes new chunks. */
  ghost predicate AppendPlan(r: AffectedChunks, data: bytes, size: nat, c: nat, offsets: Option<seq<ChunkOffset>>)
    requires c > 0
  {
    && r == Unaffected.(reencoded := r.reencoded, newChunks := r.newChunks)
    && r.reencoded == (if Room(size, c) > 0 && data != [] then IdsFrom(CeilDiv(size, c) - 1, CeilDiv(size, c), offsets) else [])
    && Appends(r, size, data, c)
  }

  lemma StartOf(size: nat, data: bytes, c: nat, i: nat, start: nat)
    requires c > 0 && start == Room(size, c) + i * c && Room(size, c) + c * i < |data|
    ensures start < |data| && AppendedChunk(size, data, c, i) == NewChunk(data[start..Min(start + c, |data|)], size + start)
  {
    hide Room;
    assert i * c == c * i;
  }

  method PlanAppend(data: bytes, size: nat, c: nat, offsets: Option<seq<ChunkOffset>>) returns (r: AffectedChunks)
    requires c > 0
    ensures AppendPlan(r, data, size, c, offsets)
  {
    hide Room;
    var current := CeilDiv(size, c);
    var inLast := if size == 0 then 0 else (size - 1) % c + 1;
    var room := if inLast > 0 then c - inLast else 0;
    RoomIs(size, c, room);
    var reencoded: seq<nat> := [];
    if room > 0 && data != [] {
      if current > 0 {
        reencoded := [ChunkIdAt(current - 1, offsets)];
      }
    }
    var rest := if room >= |data| then 0 else |data| - room;
    var count := CeilDiv(rest, c);
    var newChunks: seq<NewChunk> := [];
    for i := 0 to count
      invariant |newChunks| == i
      invariant forall j :: 0 <= j < i ==> room + c * j < |data| && newChunks[j] == AppendedChunk(size, data, c, j)
    {
      CeilBound(rest, c, i);
      hide AppendedChunk, CeilDiv;
      var start := room + i * c;
      StartOf(size, data, c, i, start);
      var end := Min(start + c, |data|);
      newChunks := newChunks + [NewChunk(data[start..end], size + start)];
    }
    r := AffectedChunks([], reencoded, newChunks, []);
  }

  lemma RoomIs(size: nat, c: nat, room: nat)
    requires c > 0 && room == if size == 0 then 0 else c - ((size - 1) % c + 1)
    ensures Room(size, c) == room && (size == 0 ==> room == 0) && (size > 0 ==> CeilDiv(size, c) > 0)
    ensures CeilDiv(0, c) == 0
  {
    DivUnique(c - 1, c, 0);
    if size > 0 {
      RoomSpec(size, c);
    }
  }

  lemma CeilBound(n: nat, c: nat, i: nat)
    requires c > 0 && i < CeilDiv(n, c)
    ensures c * i < n
  {
    var q := CeilDiv(n, c);
    assert c * q <= n + c - 1;
    MulMono(c, i + 1, q);
    assert c * (i + 1) == c * i + c;
  }

  lemma {:induction false} ChunksConcat(a: bytes, b: bytes, c: nat)
    requires c > 0 && |a| % c == 0
    ensures Chunks(a + b, c) == Chunks(a, c) + Chunks(b, c)
    decreases |a|
  {
    if a == [] {
      assert a + b == b;
    } else {
      WholeChunk(|a|, c);
      assert (a + b)[..c] == a[..c] && (a + b)[c..] == a[c..] + b;
      if |a| == c {
        assert a[..c] == a && a[c..] == [];
        assert a[c..] + b == b;
        FirstWhole(a, b, c);
      } else {
        ChunksConcat(a[c..], b, c);
      }
    }
  }

  lemma FirstWhole(a: bytes, b: bytes, c: nat)
    requires c > 0 && |a| == c
    ensures Chunks(a + b, c) == [a] + Chunks(b, c)
  {
    assert (a + b)[..c] == a && (a + b)[c..] == b;
    if b == [] {
      assert a + b == a;
    }
  }

  lemma WholeChunk(n: nat, c: nat)
    requires c > 0 && n > 0 && n % c == 0
    ensures n >= c && (n - c) % c == 0
  {
    var q := n / c;
    assert n == c * q;
    if n < c {
      DivSmall(n, c);
      assert false;
    }
    MulMono(c, 1, q);
    assert c * (q - 1) == c * q - c;
    MulModZero(c, q - 1);
  }

  lemma RoomLess(size: nat, c: nat)
    requires c > 0 && size > c
    ensures Room(size, c) == Room(size - c, c)
  {
    var q := (size - 1) / c;
    assert c * (q - 1) == c * q - c;
    DivUnique(size - 1 - c, c, q - 1);
  }

  /** Bytes that fit into the last chunk change nothing else. */
  lemma {:induction false} FillLast(data: bytes, extra: bytes, c: nat)
    requires c > 0 && data != [] && |extra| <= Room(|data|, c)
    ensures var chunks := Chunks(data, c);
      chunks != [] && Chunks(data + extra, c) == chunks[..|chunks| - 1] + [chunks[|chunks| - 1] + extra]
    decreases |data|
  {
    if |data| <= c {
      DivSmall(|data| - 1, c);
    } else {
      RoomLess(|data|, c);
      FillLast(data[c..], extra, c);
      assert (data + extra)[..c] == data[..c] && (data + extra)[c..] == data[c..] + extra;
      var rest, all := Chunks(data[c..], c), Chunks(data, c);
      assert all == [data[..c]] + rest && all[..|all| - 1] == [data[..c]] + rest[..|rest| - 1];
    }
  }

  lemma DivSmall(n: nat, c: nat)
    requires c > 0 && n < c
    ensures n / c == 0 && n % c == n
  {
    DivUnique(n, c, 0);
  }

  function DataOf(chunks: seq<NewChunk>): (r: seq<bytes>)
    ensures |r| == |chunks|
    ensures forall i :: 0 <= i < |chunks| ==> r[i] == chunks[i].data
  {
    seq(|chunks|, i requires 0 <= i < |chunks| => chunks[i].data)
  }

  /** The chunks kept by an append, the last one filled up. */
  function Filled(data: bytes, more: bytes, c: nat): seq<bytes>
    requires c > 0
  {
    var chunks := Chunks(data, c);
    var fill := Min(Room(|data|, c), |more|);
    if chunks == [] || fill == 0 then chunks else chunks[..|chunks| - 1] + [chunks[|chunks| - 1] + more[..fill]]
  }

  lemma NewChunksAre(data: bytes, more: bytes, c: nat, r: AffectedChunks)
    requires c > 0 && Appends(r, |data|, more, c)
    ensures DataOf(r.newChunks) == Chunks(more[Min(Room(|data|, c), |more|)..], c)
  {
    hide Chunks, Room;
    var room := Room(|data|, c);
    var rest := more[Min(room, |more|)..];
    ChunkCount(rest, c);
    if room < |more| {
      forall i | 0 <= i < |r.newChunks| ensures r.newChunks[i].data == Chunks(rest, c)[i] {
        ChunkAt(rest, c, i);
        assert rest[c * i..Min(c * i + c, |rest|)] == more[room + c * i..Min(room + c * i + c, |more|)];
      }
    } else {
      ChunksSpec(rest, c);
      assert rest == [];
    }
  }

  /** The new chunks are those of the plan for the given bytes. */
  ghost predicate Appends(r: AffectedChunks, size: nat, more: bytes, c: nat)
    requires c > 0
  {
    && |r.newChunks| == (if Room(size, c) >= |more| then 0 else CeilDiv(|more| - Room(size, c), c))
    && forall i :: 0 <= i < |r.newChunks| ==>
         Room(size, c) + c * i < |more| && r.newChunks[i] == AppendedChunk(size, more, c, i)
  }

  /** The append plan, the last chunk filled and then the new ones, is the canonical chunking of the longer file. */
  lemma AppendIsChunking(data: bytes, more: bytes, c: nat, r: AffectedChunks)
    requires c > 0 && Appends(r, |data|, more, c)
    ensures Chunks(data + more, c) == Filled(data, more, c) + DataOf(r.newChunks)
  {
    NewChunksAre(data, more, c, r);
    RoomSpec(|data|, c);
    FilledIs(data, more, c);
    hide Room, Chunks, Filled, CeilDiv, DataOf, Appends;
    JoinParts(data, more, c, Min(Room(|data|, c), |more|), Filled(data, more, c), DataOf(r.newChunks));
  }

  /** Every new chunk lies at the offset it is given. */
  lemma AppendOffsets(data: bytes, more: bytes, c: nat, r: AffectedChunks, i: nat)
    requires c > 0 && Appends(r, |data|, more, c) && i < |r.newChunks|
    ensures r.newChunks[i].fileOffset == c * (|Chunks(data, c)| + i)
  {
    RoomSpec(|data|, c);
    ChunkCount(data, c);
    hide Room, Chunks, CeilDiv;
    PlaceOfNew(|data|, c, |Chunks(data, c)|, i, more, r.newChunks[i]);
  }

  /** The filled-up file and the rest are chunked one after the other. */
  lemma JoinParts(data: bytes, more: bytes, c: nat, fill: nat, filled: seq<bytes>, rest: seq<bytes>)
    requires c > 0 && fill <= |more| && (fill == |more| || (|data| + fill) % c == 0)
    requires filled == Chunks(data + more[..fill], c) && rest == Chunks(more[fill..], c)
    ensures Chunks(data + more, c) == filled + rest
  {
    hide Chunks;
    var head, tail := data + more[..fill], more[fill..];
    assert data + more == head + tail;
    if fill == |more| {
      NoChunks(c);
      assert tail == [] && head + tail == head && filled + rest == filled;
    } else {
      assert |head| == |data| + fill;
      ChunksConcat(head, tail, c);
    }
  }

  lemma PlaceOfNew(size: nat, c: nat, k: nat, i: nat, more: bytes, chunk: NewChunk)
    requires c > 0 && size + Room(size, c) == c * k && Room(size, c) + c * i < |more|
    requires chunk == AppendedChunk(size, more, c, i)
    ensures chunk.fileOffset == c * (k + i)
  {
    hide Room;
    assert c * (k + i) == c * k + c * i;
  }

  lemma NoChunks(c: nat)
    requires c > 0
    ensures Chunks([], c) == []
  {
  }

  lemma FilledIs(data: bytes, more: bytes, c: nat)
    requires c > 0
    ensures Chunks(data + more[..Min(Room(|data|, c), |more|)], c) == Filled(data, more, c)
  {
    var fill := Min(Room(|data|, c), |more|);
    if data == [] || fill == 0 {
      assert data + more[..fill] == data;
    } else {
      hide Room;
      FillLast(data, more[..fill], c);
    }
  }

  /** The chunk that the end falls into is re-encoded, and the chunks after the end are removed. */
  ghost predicate TruncatePlan(r: AffectedChunks, newLength: nat, size: nat, c: nat, offsets: Option<seq<ChunkOffset>>)
    requires c > 0
  {
    if newLength >= size then r == Unaffected
    else
      NonEmpty(newLength, c);
      var m := CeilDiv(newLength, c);
      r == AffectedChunks([], if newLength % c != 0 then IdsFrom(m - 1, m, offsets) else [], [], IdsFrom(m, CeilDiv(size, c), offsets))
  }

  method PlanTruncate(newLength: nat, size: nat, c: nat, offsets: Option<seq<ChunkOffset>>) returns (r: AffectedChunks)
    requires c > 0
    ensures TruncatePlan(r, newLength, size, c, offsets)
  {
    if newLength >= size {
      return Unaffected;
    }
    var newChunks, oldChunks := CeilDiv(newLength, c), CeilDiv(size, c);
    var reencoded: seq<nat> := [];
    NonEmpty(newLength, c);
    if newLength % c != 0 && newChunks > 0 {
      reencoded := [ChunkIdAt(newChunks - 1, offsets)];
    }
    var removed := ListIds(newChunks, oldChunks, offsets);
    r := AffectedChunks([], reencoded, [], removed);
  }

  lemma NonEmpty(n: nat, c: nat)
    requires c > 0
    ensures n % c != 0 ==> CeilDiv(n, c) > 0
  {
    if n % c != 0 {
      assert (n + c - 1) / c >= 1 by {
        var q := n / c;
        assert n == c * q + n % c;
        assert c * (q + 1) == c * q + c;
        DivUnique(n + c - 1, c, q + 1);
      }
    }
  }

  method ListIds(from: nat, to: nat, offsets: Option<seq<ChunkOffset>>) returns (ids: seq<nat>)
    ensures ids == IdsFrom(from, to, offsets)
  {
    ids := [];
    var i := from;
    while i < to
      invariant ids == IdsFrom(from, i, offsets) && (i <= to || i == from)
      invariant i >= from
    {
      ids := ids + [ChunkIdAt(i, offsets)];
      i := i + 1;
      assert ids == IdsFrom(from, i, offsets);
    }
    assert IdsFrom(from, to, offsets) == ids;
  }

  /** The chunks of a truncated file: whole ones as they were, and the last one cut when the end falls inside it. */
  lemma TruncateIsChunking(data: bytes, newLength: nat, c: nat)
    requires c > 0 && newLength <= |data|
    ensures var m, chunks := CeilDiv(newLength, c), Chunks(data, c);
      && m <= |chunks| && (newLength % c != 0 ==> m > 0 && newLength % c <= |chunks[m - 1]|)
      && Chunks(data[..newLength], c)
         == if newLength % c == 0 then chunks[..m] else chunks[..m - 1] + [chunks[m - 1][..newLength % c]]
  {
    var m := CeilDiv(newLength, c);
    hide Chunks, CeilDiv;
    ChunkCount(data, c);
    ChunkCount(data[..newLength], c);
    NonEmpty(newLength, c);
    FewerChunks(newLength, |data|, c);
    LastPart(newLength, c, m);
    TruncatedChunks(data, newLength, c, m, newLength % c);
  }

  /** The same, with the remainder as a number of its own. */
  lemma TruncatedChunks(data: bytes, n: nat, c: nat, m: nat, rest: nat)
    requires c > 0 && n <= |data| && m == |Chunks(data[..n], c)| <= |Chunks(data, c)| && rest < c
    requires if rest == 0 then n == c * m else m > 0 && n == c * (m - 1) + rest
    ensures rest > 0 ==> rest <= |Chunks(data, c)[m - 1]|
    ensures Chunks(data[..n], c)
         == if rest == 0 then Chunks(data, c)[..m] else Chunks(data, c)[..m - 1] + [Chunks(data, c)[m - 1][..rest]]
  {
    hide Chunks;
    var chunks, after := Chunks(data, c), Chunks(data[..n], c);
    forall i | 0 <= i < m
      ensures i + 1 == m && rest > 0 ==> rest <= |chunks[i]|
      ensures after[i] == if i + 1 == m && rest > 0 then chunks[i][..rest] else chunks[i]
    {
      ChunkEnd(n, c, i, m, rest);
      ChunkAt(data[..n], c, i);
      ChunkAt(data, c, i);
      CutSlice(data, n, c * i, c);
    }
    if rest == 0 {
      assert after == chunks[..m];
    } else {
      assert after == chunks[..m - 1] + [chunks[m - 1][..rest]];
    }
  }

  /** A chunk before the last of a truncated file is whole; the last ends with the file. */
  lemma ChunkEnd(n: nat, c: nat, i: nat, m: nat, rest: nat)
    requires i < m && if rest == 0 then n == c * m else n == c * (m - 1) + rest
    ensures if i + 1 < m || rest == 0 then c * i + c <= n else n == c * i + rest
  {
    assert c * (i + 1) == c * i + c;
    if rest == 0 {
      MulMono(c, i + 1, m);
    } else {
      MulMono(c, i + 1, if i + 1 < m then m - 1 else i + 1);
    }
  }

  lemma CutSlice(data: bytes, n: nat, from: nat, c: nat)
    requires from <= n <= |data|
    ensures data[..n][from..Min(from + c, n)] == data[from..Min(from + c, |data|)][..Min(c, n - from)]
    ensures from + c <= n ==> data[..n][from..Min(from + c, n)] == data[from..Min(from + c, |data|)]
  {
    var k := Min(c, n - from);
    assert Min(from + c, n) == from + k;
    assert data[..n][from..from + k] == data[from..from + k];
    assert data[from..Min(from + c, |data|)][..k] == data[from..from + k];
  }

  lemma FewerChunks(m: nat, n: nat, c: nat)
    requires c > 0 && m <= n
    ensures CeilDiv(m, c) <= CeilDiv(n, c)
  {
    var a, b := CeilDiv(m, c), CeilDiv(n, c);
    assert c * a <= m + c - 1 && n <= c * b by {
      assert n + c - 1 < c * b + c;
    }
    assert c * (b + 1) == c * b + c;
    if b < a {
      MulMono(c, b + 1, a);
    }
  }

  /** How far the last of `m` chunks reaches. */
  lemma LastPart(n: nat, c: nat, m: nat)
    requires c > 0 && m == CeilDiv(n, c)
    ensures n % c == 0 ==> n == c * m
    ensures n % c != 0 ==> m > 0 && n == c * (m - 1) + n % c
  {
    var q := n / c;
    assert n == c * q + n % c;
    if n % c == 0 {
      DivUnique(n + c - 1, c, q);
    } else {
      assert c * (q + 1) == c * q + c;
      DivUnique(n + c - 1, c, q + 1);
    }
  }

  // ---------------------------------------------------------------- edits that shift

  /** Chunks before the first byte that differs are the same; only those from there on are re-encoded. */
  lemma ShiftKeepsPrefix(data: bytes, edited: bytes, offset: nat, c: nat, i: nat)
    requires c > 0 && offset <= |data| && offset <= |edited| && data[..offset] == edited[..offset] && i < offset / c
    ensures i < |Chunks(data, c)| && i < |Chunks(edited, c)| && Chunks(edited, c)[i] == Chunks(data, c)[i]
  {
    hide Chunks;
    var q := offset / c;
    assert c * q <= offset;
    MulMono(c, i + 1, q);
    assert c * (i + 1) == c * i + c;
    Reaches(data, c, i);
    Reaches(edited, c, i);
    ChunkAt(data, c, i);
    ChunkAt(edited, c, i);
    SharedSlice(data, edited, offset, c * i, c);
  }

  lemma SharedSlice(a: bytes, b: bytes, n: nat, from: nat, c: nat)
    requires n <= |a| && n <= |b| && a[..n] == b[..n] && from + c <= n
    ensures a[from..Min(from + c, |a|)] == b[from..Min(from + c, |b|)]
  {
    assert a[from..from + c] == a[..n][from..from + c];
    assert b[from..from + c] == b[..n][from..from + c];
  }

  lemma Reaches(data: bytes, c: nat, i: nat)
    requires c > 0 && c * i < |data|
    ensures i < |Chunks(data, c)|
  {
    ChunkCount(data, c);
    var k := |Chunks(data, c)|;
    if k <= i {
      MulMono(c, k, i);
    }
  }

  /** The number of the chunk that a position falls into. */
  function ChunkOf(offset: nat, c: nat): nat
    requires c > 0
  {
    offset / c
  }

  /** Everything from the insertion's chunk on is re-encoded, and empty new chunks are announced for the growth. */
  ghost predicate InsertPlan(r: AffectedChunks, offset: nat, length: nat, size: nat, c: nat, offsets: Option<seq<ChunkOffset>>)
    requires c > 0
  {
    && r.modified == [] && r.removed == [] && r.reencoded == IdsFrom(ChunkOf(offset, c), CeilDiv(size, c), offsets)
    && CeilDiv(size, c) + |r.newChunks| == CeilDiv(size + length, c)
    && forall i :: 0 <= i < |r.newChunks| ==> r.newChunks[i] == NewChunk([], 0)
  }

  method PlanInsert(offset: nat, length: nat, size: nat, c: nat, offsets: Option<seq<ChunkOffset>>) returns (r: AffectedChunks)
    requires c > 0
    ensures InsertPlan(r, offset, length, size, c, offsets)
  {
    FewerChunks(size, size + length, c);
    var total, newTotal := CeilDiv(size, c), CeilDiv(size + length, c);
    var reencoded := ListIds(offset / c, total, offsets);
    var newChunks: seq<NewChunk> := [];
    if newTotal > total {
      for i := total to newTotal
        invariant |newChunks| == i - total && forall j :: 0 <= j < |newChunks| ==> newChunks[j] == NewChunk([], 0)
      {
        newChunks := newChunks + [NewChunk([], 0)];
      }
    }
    r := AffectedChunks([], reencoded, newChunks, []);
  }

  /** The size that the plan of a deletion reckons with: the length is subtracted even where the range leaves the file. */
  function Saturated(size: nat, length: nat): nat
  {
    if size >= length then size - length else 0
  }

  /** Everything from the deletion's chunk on is re-encoded, and the chunks beyond the reckoned size are removed. */
  ghost predicate DeletePlan(r: AffectedChunks, offset: nat, length: nat, size: nat, c: nat, offsets: Option<seq<ChunkOffset>>)
    requires c > 0
  {
    && r.modified == [] && r.newChunks == [] && r.reencoded == IdsFrom(ChunkOf(offset, c), CeilDiv(size, c), offsets)
    && r.removed == IdsFrom(CeilDiv(Saturated(size, length), c), CeilDiv(size, c), offsets)
  }

  method PlanDelete(offset: nat, length: nat, size: nat, c: nat, offsets: Option<seq<ChunkOffset>>) returns (r: AffectedChunks)
    requires c > 0
    ensures DeletePlan(r, offset, length, size, c, offsets)
  {
    var total := CeilDiv(size, c);
    var reencoded := ListIds(offset / c, total, offsets);
    var newTotal := CeilDiv(if size >= length then size - length else 0, c);
    var removed: seq<nat> := [];
    if newTotal < total {
      removed := ListIds(newTotal, total, offsets);
    }
    r := AffectedChunks([], reencoded, [], removed);
  }

  /** A range replacement of another length names the chunks from its first to the last that either range reaches. */
  ghost predicate UnequalPlan(r: AffectedChunks, offset: nat, longer: nat, c: nat, offsets: Option<seq<ChunkOffset>>)
    requires c > 0
  {
    r == Unaffected.(reencoded := IdsFrom(ChunkOf(offset, c), ChunkOf(offset + longer, c) + 1, offsets))
  }

  // ---------------------------------------------------------------- the analysis

  /** What the analysis of each kind of delta yields. */
  ghost predicate Analyzed(r: AffectedChunks, delta: DeltaType, size: nat, c: nat, offsets: Option<seq<ChunkOffset>>)
    requires c > 0
  {
    match delta
    case ByteReplace(offset, oldValue, newValue) =>
      r == Unaffected.(modified := r.modified) && Planned(r.modified, [(offset, oldValue, newValue)], size, c, offsets)
    case MultiByteReplace(changes) => r == Unaffected.(modified := r.modified) && Planned(r.modified, changes, size, c, offsets)
    case RangeReplace(offset, oldData, newData) =>
      if |oldData| != |newData| then
        UnequalPlan(r, offset, if |oldData| >= |newData| then |oldData| else |newData|, c, offsets)
      else
        && r == Unaffected.(modified := r.modified)
        && Planned(r.modified, RangeChanges(offset, oldData, newData, |newData|), offset + |newData|, c, offsets)
    case Insert(offset, data) => InsertPlan(r, offset, |data|, size, c, offsets)
    case Delete(offset, length) => DeletePlan(r, offset, length, size, c, offsets)
    case Append(data) => AppendPlan(r, data, size, c, offsets)
    case Truncation(newLength) => TruncatePlan(r, newLength, size, c, offsets)
  }

  /** `analyze_delta` */
  method AnalyzeDelta(delta: DeltaType, size: nat, c: nat, offsets: Option<seq<ChunkOffset>>) returns (r: AffectedChunks)
    requires c > 0
    ensures Analyzed(r, delta, size, c, offsets)
  {
    hide Planned, InsertPlan, DeletePlan, AppendPlan, TruncatePlan;
    match delta
    case ByteReplace(offset, oldValue, newValue) => r := PlanByteReplace((offset, oldValue, newValue), size, c, offsets);
    case MultiByteReplace(changes) => r := PlanMultiByteReplace(changes, size, c, offsets);
    case RangeReplace(offset, oldData, newData) =>
      if |oldData| != |newData| {
        var longer := if |oldData| >= |newData| then |oldData| else |newData|;
        var reencoded := ListIds(offset / c, (offset + longer) / c + 1, offsets);
        r := Unaffected.(reencoded := reencoded);
      } else {
        r := PlanRangeReplace(offset, oldData, newData, c, offsets);
      }
    case Insert(offset, data) => r := PlanInsert(offset, |data|, size, c, offsets);
    case Delete(offset, length) => r := PlanDelete(offset, length, size, c, offsets);
    case Append(data) => r := PlanAppend(data, size, c, offsets);
    case Truncation(newLength) => r := PlanTruncate(newLength, size, c, offsets);
  }
}
