/** The chunk offset index, and reads of a byte range with and without it. */
module Ranges {
  import opened Bytes
  import opened Manifest

  datatype ChunkRange = ChunkRange(chunkId: nat, startWithinChunk: nat, length: nat)

  /** A chunk that a read needs is not in the store. */
  datatype Missing = Missing(id: nat)

  // ---------------------------------------------------------------- the index

  /** Where the `n`th of consecutive blocks of the given sizes starts. */
  function Start(sizes: seq<nat>, n: nat): nat
    requires n <= |sizes|
  {
    if n == 0 then 0 else Start(sizes, n - 1) + sizes[n - 1]
  }

  function OffsetIndex(ids: seq<nat>, sizes: seq<nat>): (r: seq<ChunkOffset>)
    requires |ids| == |sizes|
    ensures |r| == |ids|
    ensures forall i :: 0 <= i < |r| ==> r[i] == ChunkOffset(ids[i], Start(sizes, i), sizes[i])
  {
    seq(|ids|, i requires 0 <= i < |ids| => ChunkOffset(ids[i], Start(sizes, i), sizes[i]))
  }

  /** The index covers `[0, size)` without gaps or overlaps, in order. */
  ghost predicate Tiles(offsets: seq<ChunkOffset>, size: nat)
  {
    && (offsets == [] ==> size == 0)
    && (offsets != [] ==> offsets[0].byteOffset == 0 && offsets[|offsets| - 1].EndOffset() == size)
    && forall i :: 0 <= i < |offsets| - 1 ==> offsets[i].EndOffset() == offsets[i + 1].byteOffset
  }

  /** An index built from the chunks' sizes tiles the file. */
  lemma IndexTiles(ids: seq<nat>, sizes: seq<nat>)
    requires |ids| == |sizes|
    ensures Tiles(OffsetIndex(ids, sizes), Start(sizes, |sizes|))
  {
    hide OffsetIndex;
    var offsets := OffsetIndex(ids, sizes);
    forall i | 0 <= i < |offsets| ensures offsets[i].EndOffset() == Start(sizes, i + 1) {}
  }

  lemma {:induction false} TilesSorted(offsets: seq<ChunkOffset>, size: nat, i: nat, j: nat)
    requires Tiles(offsets, size) && i < j < |offsets|
    ensures offsets[i].EndOffset() <= offsets[j].byteOffset
    decreases j
  {
    if i < j - 1 {
      TilesSorted(offsets, size, i, j - 1);
    }
  }

  /** Exactly one chunk of a tiling contains a given offset of the file. */
  lemma {:induction false} OneChunk(offsets: seq<ChunkOffset>, size: nat, offset: nat) returns (i: nat)
    requires Tiles(offsets, size) && offset < size
    ensures i < |offsets| && offsets[i].Contains(offset)
    ensures forall j :: 0 <= j < |offsets| && offsets[j].Contains(offset) ==> j == i
    decreases |offsets|
  {
    var n := |offsets| - 1;
    if offsets[n].byteOffset <= offset {
      i := n;
      forall j | 0 <= j < n ensures !offsets[j].Contains(offset) {
        TilesSorted(offsets, size, j, n);
      }
    } else {
      assert Tiles(offsets[..n], offsets[n].byteOffset);
      i := OneChunk(offsets[..n], offsets[n].byteOffset, offset);
      forall j | 0 <= j < |offsets| && offsets[j].Contains(offset) ensures j == i {
        assert j < n ==> offsets[..n][j].Contains(offset);
      }
    }
  }

  /** `build_offset_index` */
  method BuildOffsetIndex(e: Entry, sizes: seq<nat>) returns (r: Entry)
    requires |sizes| == |e.chunks|
    ensures r == e.(chunkOffsets := Some(OffsetIndex(e.chunks, sizes)))
  {
    hide OffsetIndex;
    var offset := 0;
    var offsets: seq<ChunkOffset> := [];
    for i := 0 to |sizes|
      invariant offset == Start(sizes, i)
      invariant offsets == OffsetIndex(e.chunks, sizes)[..i]
    {
      assert OffsetIndex(e.chunks, sizes)[i] == ChunkOffset(e.chunks[i], offset, sizes[i]);
      offsets := offsets + [ChunkOffset(e.chunks[i], offset, sizes[i])];
      offset := offset + sizes[i];
    }
    assert OffsetIndex(e.chunks, sizes)[..|sizes|] == OffsetIndex(e.chunks, sizes);
    r := e.(chunkOffsets := Some(offsets));
  }

  /** The binary search over the index finds the one chunk that contains the offset. */
  method FindChunkAtOffset(e: Entry, offset: nat) returns (r: Option<(nat, nat)>)
    requires e.chunkOffsets.Some? ==> Tiles(e.chunkOffsets.value, e.size)
    ensures offset >= e.size ==> r.None?
    ensures offset < e.size && e.chunkOffsets.Some? ==>
      exists i :: 0 <= i < |e.chunkOffsets.value| && e.chunkOffsets.value[i].Contains(offset)
               && r == Some((e.chunkOffsets.value[i].chunkId, offset - e.chunkOffsets.value[i].byteOffset))
    ensures offset < e.size && e.chunkOffsets.None? ==>
      r == if e.chunks == [] then None else Some((e.chunks[0], offset))
  {
    if offset >= e.size {
      return None;
    }
    if e.chunkOffsets.None? {
      return if e.chunks == [] then None else Some((e.chunks[0], offset));
    }
    var offsets := e.chunkOffsets.value;
    ghost var at := OneChunk(offsets, e.size, offset);
    var low: nat, high: nat := 0, |offsets|;
    while low < high
      invariant low <= at < high <= |offsets|
    {
      var mid := (low + high) / 2;
      if offset < offsets[mid].byteOffset {
        Before(offsets, e.size, offset, at, mid);
        high := mid;
      } else if offset >= offsets[mid].EndOffset() {
        Behind(offsets, e.size, offset, at, mid);
        low := mid + 1;
      } else {
        return Some((offsets[mid].chunkId, offset - offsets[mid].byteOffset));
      }
    }
  }

  lemma Before(offsets: seq<ChunkOffset>, size: nat, offset: nat, at: nat, mid: nat)
    requires Tiles(offsets, size) && at < |offsets| && offsets[at].Contains(offset)
    requires mid < |offsets| && offset < offsets[mid].byteOffset
    ensures at < mid
  {
    if mid < at {
      TilesSorted(offsets, size, mid, at);
    }
  }

  lemma Behind(offsets: seq<ChunkOffset>, size: nat, offset: nat, at: nat, mid: nat)
    requires Tiles(offsets, size) && at < |offsets| && offsets[at].Contains(offset)
    requires mid < |offsets| && offset >= offsets[mid].EndOffset()
    ensures mid < at
  {
    if at < mid {
      TilesSorted(offsets, size, at, mid);
    }
  }

  // ---------------------------------------------------------------- pieces of a file

  /** The part of `s` between two positions, which may lie outside it. */
  function Clip(s: bytes, from: int, to: int): bytes
  {
    var a, b := Min(if from < 0 then 0 else from, |s|), Min(if to < 0 then 0 else to, |s|);
    if a <= b then s[a..b] else []
  }

  lemma ClipWhole(s: bytes)
    ensures Clip(s, 0, |s|) == s
  {
  }

  lemma SliceLeft(s: bytes, c: bytes, a: nat, b: nat)
    requires a <= b <= |s|
    ensures (s + c)[a..b] == s[a..b]
  {
  }

  lemma SliceRight(s: bytes, c: bytes, a: nat, b: nat)
    requires |s| <= a <= b <= |s| + |c|
    ensures (s + c)[a..b] == c[a - |s|..b - |s|]
  {
  }

  lemma SliceAcross(s: bytes, c: bytes, a: nat, b: nat)
    requires a <= |s| <= b <= |s| + |c|
    ensures (s + c)[a..b] == s[a..|s|] + c[0..b - |s|]
  {
  }

  lemma ClipLeft(s: bytes, c: bytes, from: nat, to: nat)
    requires to <= |s|
    ensures Clip(s + c, from, to) == Clip(s, from, to)
  {
    if from <= to {
      SliceLeft(s, c, from, to);
    }
  }

  lemma ClipRight(s: bytes, c: bytes, from: nat, to: nat)
    requires |s| <= from
    ensures Clip(s + c, from, to) == Clip(c, from - |s|, to - |s|)
  {
    if from <= to {
      SliceRight(s, c, Min(from, |s| + |c|), Min(to, |s| + |c|));
    }
  }

  lemma ClipNone(s: bytes, from: int, to: int)
    requires from >= |s| || to <= 0 || to <= from
    ensures Clip(s, from, to) == []
  {
  }

  /** A range of a concatenation is the range of the first part and that of the second. */
  lemma ClipConcat(s: bytes, c: bytes, from: nat, to: nat)
    ensures Clip(s + c, from, to) == Clip(s, from, to) + Clip(c, from - |s|, to - |s|)
  {
    if to <= |s| {
      hide Clip;
      ClipLeft(s, c, from, to);
      ClipNone(c, from - |s|, to - |s|);
    } else if from >= |s| {
      hide Clip;
      ClipRight(s, c, from, to);
      ClipNone(s, from, to);
    } else {
      SliceAcross(s, c, from, Min(to, |s| + |c|));
    }
  }

  function ReadSlice(data: bytes, offset: nat, length: nat): bytes
  {
    Clip(data, offset, offset + length)
  }

  /** As many bytes as there are from the offset on, up to the length asked for. */
  lemma ReadSliceSpec(data: bytes, offset: nat, length: nat)
    ensures |ReadSlice(data, offset, length)| == if offset >= |data| then 0 else Min(length, |data| - offset)
    ensures forall k: nat :: k < |ReadSlice(data, offset, length)| ==> ReadSlice(data, offset, length)[k] == data[offset + k]
    ensures offset == 0 && length >= |data| ==> ReadSlice(data, offset, length) == data
  {
  }

  function Prefix(chunks: seq<bytes>, n: nat): bytes
    requires n <= |chunks|
  {
    Flatten(chunks[..n])
  }

  lemma PrefixStart(chunks: seq<bytes>)
    ensures Prefix(chunks, 0) == []
  {
    assert chunks[..0] == [];
  }

  lemma PrefixStep(chunks: seq<bytes>, n: nat, from: nat, to: nat)
    requires n < |chunks|
    ensures Prefix(chunks, n + 1) == Prefix(chunks, n) + chunks[n]
    ensures Clip(Prefix(chunks, n + 1), from, to)
         == Clip(Prefix(chunks, n), from, to) + Clip(chunks[n], from - |Prefix(chunks, n)|, to - |Prefix(chunks, n)|)
  {
    assert chunks[..n + 1] == chunks[..n] + [chunks[n]];
    FlattenSnoc(chunks[..n], chunks[n]);
    ClipConcat(Prefix(chunks, n), chunks[n], from, to);
  }

  /** Once the range's end is reached, the rest of the file adds nothing. */
  lemma Enough(chunks: seq<bytes>, n: nat, from: nat, to: nat)
    requires n <= |chunks| && to <= |Prefix(chunks, n)|
    ensures Clip(Prefix(chunks, n), from, to) == Clip(Flatten(chunks), from, to)
  {
    assert chunks == chunks[..n] + chunks[n..];
    FlattenAppend(chunks[..n], chunks[n..]);
    ClipConcat(Prefix(chunks, n), Flatten(chunks[n..]), from, to);
  }

  function Sizes(chunks: seq<bytes>): (r: seq<nat>)
    ensures |r| == |chunks|
    ensures forall i :: 0 <= i < |chunks| ==> r[i] == |chunks[i]|
  {
    seq(|chunks|, i requires 0 <= i < |chunks| => |chunks[i]|)
  }

  lemma {:induction false} StartIsLength(chunks: seq<bytes>, n: nat)
    requires n <= |chunks|
    ensures Start(Sizes(chunks), n) == |Prefix(chunks, n)|
    decreases n
  {
    if n == 0 {
      PrefixStart(chunks);
    } else {
      StartIsLength(chunks, n - 1);
      PrefixStep(chunks, n - 1, 0, 0);
    }
  }

  /**
   * The entry's chunks, decoded at their own sizes and corrected, are `chunks`, and they make up a file of the
   * entry's size; an offset index, if there is one, was built from their sizes.
   */
  ghost predicate Holds(e: Entry, fetch: nat -> Option<bytes>, chunks: seq<bytes>)
  {
    && |e.chunks| == |chunks| && e.size == |Flatten(chunks)|
    && (forall i :: 0 <= i < |chunks| ==> fetch(e.chunks[i]) == Some(chunks[i]))
    && (e.chunkOffsets.Some? ==> e.chunkOffsets.value == OffsetIndex(e.chunks, Sizes(chunks)))
  }

  /** The same, except that chunks may be missing from the store. */
  ghost predicate Fits(e: Entry, fetch: nat -> Option<bytes>, chunks: seq<bytes>)
  {
    && |e.chunks| == |chunks| && e.size == |Flatten(chunks)|
    && (forall i :: 0 <= i < |chunks| && fetch(e.chunks[i]).Some? ==> fetch(e.chunks[i]) == Some(chunks[i]))
    && (e.chunkOffsets.Some? ==> e.chunkOffsets.value == OffsetIndex(e.chunks, Sizes(chunks)))
  }

  /**
   * A read of `[from, to)` looks at the chunk: with an index, if it holds some of these bytes; without, if it starts
   * before their end.
   */
  ghost predicate Looked(e: Entry, chunks: seq<bytes>, i: nat, from: nat, to: nat)
  {
    && i < |chunks| && |Prefix(chunks, i)| < to
    && (e.chunkOffsets.Some? ==> from < |Prefix(chunks, i)| + |chunks[i]| && chunks[i] != [])
  }

  ghost predicate FirstMissing(e: Entry, fetch: nat -> Option<bytes>, chunks: seq<bytes>, i: nat, from: nat, to: nat)
    requires |e.chunks| == |chunks|
  {
    && Looked(e, chunks, i, from, to) && fetch(e.chunks[i]).None?
    && forall j :: 0 <= j < i && Looked(e, chunks, j, from, to) ==> fetch(e.chunks[j]).Some?
  }

  /** The bytes in the range if all chunks that the read looks at are in the store, otherwise the first that is not. */
  ghost predicate Outcome(e: Entry, fetch: nat -> Option<bytes>, chunks: seq<bytes>, from: nat, to: nat, r: Result<bytes, Missing>)
    requires |e.chunks| == |chunks|
  {
    match r
    case Ok(data) =>
      && data == Clip(Flatten(chunks), from, to)
      && forall i :: 0 <= i < |chunks| && Looked(e, chunks, i, from, to) ==> fetch(e.chunks[i]).Some?
    case Err(missing) => exists i :: 0 <= i < |chunks| && FirstMissing(e, fetch, chunks, i, from, to) && missing.id == e.chunks[i]
  }

  /** With every chunk in the store a read cannot fail. */
  lemma NothingMissing(e: Entry, fetch: nat -> Option<bytes>, chunks: seq<bytes>)
    requires Holds(e, fetch, chunks)
    ensures Fits(e, fetch, chunks) && |e.chunks| == |chunks|
    ensures forall from, to, r :: Outcome(e, fetch, chunks, from, to, r) ==> r.Ok?
  {
    hide Looked, OffsetIndex, Flatten, Clip;
  }

  lemma SameCount(e: Entry, fetch: nat -> Option<bytes>, chunks: seq<bytes>)
    requires Fits(e, fetch, chunks)
    ensures |e.chunks| == |chunks| && e.size == |Flatten(chunks)|
  {
    hide OffsetIndex, Flatten;
  }

  /** Where the index puts a chunk. */
  lemma IndexEntry(e: Entry, fetch: nat -> Option<bytes>, chunks: seq<bytes>, i: nat)
    requires Fits(e, fetch, chunks) && e.chunkOffsets.Some? && i < |chunks|
    ensures i < |e.chunkOffsets.value| && i < |e.chunks|
    ensures fetch(e.chunks[i]).Some? ==> fetch(e.chunks[i]) == Some(chunks[i])
    ensures e.chunkOffsets.value[i] == ChunkOffset(e.chunks[i], |Prefix(chunks, i)|, |chunks[i]|)
  {
    StartIsLength(chunks, i);
  }

  // ---------------------------------------------------------------- the indexed read

  /** The part of a chunk that overlaps `[from, to)`. */
  function Overlap(co: ChunkOffset, from: nat, to: nat): seq<ChunkRange>
  {
    if co.EndOffset() <= from || co.byteOffset >= to then []
    else
      var start := if from >= co.byteOffset then from - co.byteOffset else 0;
      var end := Min(to - co.byteOffset, co.byteLength);
      if end > start then [ChunkRange(co.chunkId, start, end - start)] else []
  }

  function Overlaps(offsets: seq<ChunkOffset>, from: nat, to: nat): seq<ChunkRange>
    decreases |offsets|
  {
    if offsets == [] then []
    else Overlaps(offsets[..|offsets| - 1], from, to) + Overlap(offsets[|offsets| - 1], from, to)
  }

  lemma {:induction false} NoMoreOverlaps(offsets: seq<ChunkOffset>, size: nat, n: nat, from: nat, to: nat)
    requires Tiles(offsets, size) && n < |offsets| && offsets[n].byteOffset >= to
    ensures Overlaps(offsets, from, to) == Overlaps(offsets[..n], from, to)
    decreases |offsets|
  {
    var m := |offsets| - 1;
    if n < m {
      TilesSorted(offsets, size, n, m);
      assert Tiles(offsets[..m], offsets[m].byteOffset);
      NoMoreOverlaps(offsets[..m], offsets[m].byteOffset, n, from, to);
      assert offsets[..m][..n] == offsets[..n];
    }
  }

  /** `chunks_for_range`; without an index, all chunks, with nothing said of their sizes. */
  method ChunksForRange(e: Entry, start: nat, length: nat) returns (ranges: seq<ChunkRange>)
    requires e.chunkOffsets.Some? ==> Tiles(e.chunkOffsets.value, e.size)
    ensures start >= e.size || length == 0 ==> ranges == []
    ensures start < e.size && length > 0 && e.chunkOffsets.Some? ==>
      ranges == Overlaps(e.chunkOffsets.value, start, Min(start + length, e.size))
    ensures start < e.size && length > 0 && e.chunkOffsets.None? ==>
      |ranges| == |e.chunks| && forall i :: 0 <= i < |ranges| ==> ranges[i] == ChunkRange(e.chunks[i], 0, 0)
  {
    if start >= e.size || length == 0 {
      return [];
    }
    if e.chunkOffsets.None? {
      return seq(|e.chunks|, i requires 0 <= i < |e.chunks| => ChunkRange(e.chunks[i], 0, 0));
    }
    var end: nat := Min(start + length, e.size);
    var offsets := e.chunkOffsets.value;
    ranges := [];
    for i := 0 to |offsets|
      invariant ranges == Overlaps(offsets[..i], start, end)
    {
      var co := offsets[i];
      assert offsets[..i + 1][..i] == offsets[..i];
      if co.EndOffset() <= start {
        continue;
      }
      if co.byteOffset >= end {
        NoMoreOverlaps(offsets, e.size, i, start, end);
        return;
      }
      var chunkStart := if start >= co.byteOffset then start - co.byteOffset else 0;
      var chunkEnd := Min(end - co.byteOffset, co.byteLength);
      if chunkEnd - chunkStart > 0 {
        ranges := ranges + [ChunkRange(co.chunkId, chunkStart, chunkEnd - chunkStart)];
      }
    }
    assert offsets[..|offsets|] == offsets;
  }

  /** What reading the ranges one after another yields, as long as no chunk is missing. */
  function ReadAll(ranges: seq<ChunkRange>, fetch: nat -> Option<bytes>): Result<bytes, Missing>
    decreases |ranges|
  {
    if ranges == [] then Ok([])
    else
      var n := |ranges| - 1;
      var before, chunk := ReadAll(ranges[..n], fetch), fetch(ranges[n].chunkId);
      if before.Err? then before
      else if chunk.None? then Err(Missing(ranges[n].chunkId))
      else Ok(before.value + Clip(chunk.value, ranges[n].startWithinChunk, ranges[n].startWithinChunk + ranges[n].length))
  }

  lemma {:induction false} MissingStays(ranges: seq<ChunkRange>, fetch: nat -> Option<bytes>, n: nat)
    requires n <= |ranges| && ReadAll(ranges[..n], fetch).Err?
    ensures ReadAll(ranges, fetch) == ReadAll(ranges[..n], fetch)
    decreases |ranges|
  {
    if n < |ranges| {
      assert ranges[..|ranges| - 1][..n] == ranges[..n];
      MissingStays(ranges[..|ranges| - 1], fetch, n);
    } else {
      assert ranges[..n] == ranges;
    }
  }

  /** `truncate` changes nothing when the data is no longer than that. */
  function Truncate(data: bytes, length: nat): bytes
  {
    data[..Min(length, |data|)]
  }

  /** `read_range_with_index` */
  method ReadRangeWithIndex(e: Entry, fetch: nat -> Option<bytes>, offset: nat, length: nat) returns (r: Result<bytes, Missing>)
    requires e.chunkOffsets.Some? && Tiles(e.chunkOffsets.value, e.size) && offset < e.size && length > 0
    ensures var all := ReadAll(Overlaps(e.chunkOffsets.value, offset, Min(offset + length, e.size)), fetch);
      r == if all.Err? then all else Ok(Truncate(all.value, length))
  {
    hide Clip, Overlaps;
    var ranges := ChunksForRange(e, offset, length);
    hide Tiles;
    var result: bytes := [];
    for i := 0 to |ranges|
      invariant ReadAll(ranges[..i], fetch) == Ok(result)
    {
      var range := ranges[i];
      assert ranges[..i + 1][..i] == ranges[..i];
      var chunk := fetch(range.chunkId);
      if chunk.None? {
        MissingStays(ranges, fetch, i + 1);
        return Err(Missing(range.chunkId));
      }
      var corrected := chunk.value;
      if range.startWithinChunk == 0 && range.length == |corrected| {
        ClipWhole(corrected);
        result := result + corrected;
      } else {
        result := result + Clip(corrected, range.startWithinChunk, range.startWithinChunk + range.length);
      }
    }
    assert ranges[..|ranges|] == ranges;
    r := Ok(Truncate(result, length));
  }

  /** What reading the first `n` chunks' part of the range may give. */
  ghost predicate ReadUpTo(e: Entry, fetch: nat -> Option<bytes>, chunks: seq<bytes>, n: nat, from: nat, to: nat,
                           r: Result<bytes, Missing>)
    requires n <= |chunks| == |e.chunks|
  {
    match r
    case Ok(data) =>
      && data == Clip(Prefix(chunks, n), from, to)
      && forall i :: 0 <= i < n && Looked(e, chunks, i, from, to) ==> fetch(e.chunks[i]).Some?
    case Err(missing) => exists i :: 0 <= i < n && FirstMissing(e, fetch, chunks, i, from, to) && missing.id == e.chunks[i]
  }

  /** Reading the overlaps with the first `n` chunks gives the range of their concatenation, or the first chunk missing. */
  lemma {:induction false} OverlapsRead(e: Entry, fetch: nat -> Option<bytes>, chunks: seq<bytes>, n: nat, from: nat, to: nat)
    requires Fits(e, fetch, chunks) && e.chunkOffsets.Some? && n <= |chunks| && from < to
    ensures n <= |e.chunkOffsets.value| && |e.chunks| == |chunks|
    ensures ReadUpTo(e, fetch, chunks, n, from, to, ReadAll(Overlaps(e.chunkOffsets.value[..n], from, to), fetch))
    decreases n
  {
    var offsets := e.chunkOffsets.value;
    assert |offsets| == |chunks| == |e.chunks|;
    if n == 0 {
      hide Fits, OffsetIndex, Prefix, Clip, Overlap, Overlaps, ReadAll, Looked;
      OverlapsStart(offsets, fetch, chunks, from, to);
    } else {
      hide Fits, OffsetIndex, Prefix, Clip, Overlap, Overlaps, ReadAll, ReadUpTo, Looked;
      var i := n - 1;
      OverlapsRead(e, fetch, chunks, i, from, to);
      IndexEntry(e, fetch, chunks, i);
      OverlapsStep(offsets, i, from, to);
      OneMoreOverlap(e, fetch, chunks, i, from, to, Overlaps(offsets[..i], from, to));
    }
  }

  lemma OneMoreOverlap(e: Entry, fetch: nat -> Option<bytes>, chunks: seq<bytes>, i: nat, from: nat, to: nat, before: seq<ChunkRange>)
    requires e.chunkOffsets.Some? && i < |e.chunkOffsets.value| && i < |chunks| == |e.chunks| && from < to
    requires e.chunkOffsets.value[i] == ChunkOffset(e.chunks[i], |Prefix(chunks, i)|, |chunks[i]|)
    requires fetch(e.chunks[i]).Some? ==> fetch(e.chunks[i]) == Some(chunks[i])
    requires ReadUpTo(e, fetch, chunks, i, from, to, ReadAll(before, fetch))
    ensures ReadUpTo(e, fetch, chunks, i + 1, from, to, ReadAll(before + Overlap(e.chunkOffsets.value[i], from, to), fetch))
  {
    hide Prefix, Clip, Overlap, ReadAll, Looked;
    LookedOverlap(e, chunks, i, from, to);
    if ReadAll(before, fetch).Err? {
      ErrStays(before, Overlap(e.chunkOffsets.value[i], from, to), fetch);
    } else {
      PrefixStep(chunks, i, from, to);
      OverlapRead(before, e.chunkOffsets.value[i], fetch, chunks[i], Clip(Prefix(chunks, i), from, to), from, to);
      if fetch(e.chunks[i]).None? && Looked(e, chunks, i, from, to) {
        assert FirstMissing(e, fetch, chunks, i, from, to);
      }
    }
  }

  /** A read with an index looks at exactly the chunks that overlap the range. */
  lemma LookedOverlap(e: Entry, chunks: seq<bytes>, i: nat, from: nat, to: nat)
    requires e.chunkOffsets.Some? && i < |chunks| && i < |e.chunkOffsets.value| && i < |e.chunks| && from < to
    requires e.chunkOffsets.value[i] == ChunkOffset(e.chunks[i], |Prefix(chunks, i)|, |chunks[i]|)
    ensures Overlap(e.chunkOffsets.value[i], from, to) == [] <==> !Looked(e, chunks, i, from, to)
  {
    hide Prefix;
  }

  lemma ErrStays(before: seq<ChunkRange>, more: seq<ChunkRange>, fetch: nat -> Option<bytes>)
    requires ReadAll(before, fetch).Err?
    ensures ReadAll(before + more, fetch) == ReadAll(before, fetch)
  {
    assert (before + more)[..|before|] == before;
    MissingStays(before + more, fetch, |before|);
  }

  lemma OverlapsStart(offsets: seq<ChunkOffset>, fetch: nat -> Option<bytes>, chunks: seq<bytes>, from: nat, to: nat)
    ensures ReadAll(Overlaps(offsets[..0], from, to), fetch) == Ok(Clip(Prefix(chunks, 0), from, to))
  {
    hide Clip;
    PrefixStart(chunks);
    ClipBefore([], from, to);
  }

  lemma OverlapsStep(offsets: seq<ChunkOffset>, i: nat, from: nat, to: nat)
    requires i < |offsets|
    ensures Overlaps(offsets[..i + 1], from, to) == Overlaps(offsets[..i], from, to) + Overlap(offsets[i], from, to)
  {
    assert offsets[..i + 1][..i] == offsets[..i];
  }

  /** Reading one more overlap adds the piece of the chunk inside the range. */
  lemma OverlapRead(before: seq<ChunkRange>, co: ChunkOffset, fetch: nat -> Option<bytes>, chunk: bytes, read: bytes,
                    from: nat, to: nat)
    requires ReadAll(before, fetch) == Ok(read) && co.byteLength == |chunk| && from <= to
    requires fetch(co.chunkId).Some? ==> fetch(co.chunkId) == Some(chunk)
    ensures ReadAll(before + Overlap(co, from, to), fetch)
         == if Overlap(co, from, to) != [] && fetch(co.chunkId).None? then Err(Missing(co.chunkId))
            else Ok(read + Clip(chunk, from - co.byteOffset, to - co.byteOffset))
  {
    hide Clip, Overlap;
    var more := Overlap(co, from, to);
    OverlapClip(co, chunk, from, to);
    if more == [] {
      assert before + more == before;
      assert read + [] == read;
    } else {
      assert (before + more)[..|before|] == before && (before + more)[|before|] == more[0];
    }
  }

  /** The overlap names exactly the bytes of the chunk that lie in the range. */
  lemma OverlapClip(co: ChunkOffset, chunk: bytes, from: nat, to: nat)
    requires co.byteLength == |chunk| && from <= to
    ensures var more, piece := Overlap(co, from, to), Clip(chunk, from - co.byteOffset, to - co.byteOffset);
      if more == [] then piece == []
      else |more| == 1 && more[0].chunkId == co.chunkId
           && Clip(chunk, more[0].startWithinChunk, more[0].startWithinChunk + more[0].length) == piece
  {
  }

  lemma WholeIndex(e: Entry, fetch: nat -> Option<bytes>, chunks: seq<bytes>)
    requires Fits(e, fetch, chunks) && e.chunkOffsets.Some?
    ensures |e.chunks| == |chunks| == |e.chunkOffsets.value| && e.size == |Flatten(chunks)|
    ensures Tiles(e.chunkOffsets.value, e.size) && e.chunkOffsets.value[..|chunks|] == e.chunkOffsets.value
  {
    hide Flatten, Start, Tiles;
    IndexTiles(e.chunks, Sizes(chunks));
    StartIsLength(chunks, |chunks|);
    assert chunks[..|chunks|] == chunks;
  }

  lemma AllRead(e: Entry, fetch: nat -> Option<bytes>, chunks: seq<bytes>, from: nat, to: nat, r: Result<bytes, Missing>)
    requires |e.chunks| == |chunks| && ReadUpTo(e, fetch, chunks, |chunks|, from, to, r)
    ensures Outcome(e, fetch, chunks, from, to, r)
  {
    hide Looked, FirstMissing, Clip, Flatten;
    assert chunks[..|chunks|] == chunks;
  }

  /** The indexed read returns exactly the requested slice of the file, or the first chunk it needs that is missing. */
  lemma IndexedReadIsSlice(e: Entry, fetch: nat -> Option<bytes>, chunks: seq<bytes>, offset: nat, length: nat)
    requires Fits(e, fetch, chunks) && e.chunkOffsets.Some?
    ensures Tiles(e.chunkOffsets.value, e.size) && |e.chunks| == |chunks|
    ensures length > 0 && offset + length <= e.size ==>
      var all := ReadAll(Overlaps(e.chunkOffsets.value, offset, offset + length), fetch);
      && Outcome(e, fetch, chunks, offset, offset + length, all)
      && (all.Ok? ==> Truncate(all.value, length) == ReadSlice(Flatten(chunks), offset, length))
  {
    hide *;
    WholeIndex(e, fetch, chunks);
    if length > 0 && offset + length <= e.size {
      var all := ReadAll(Overlaps(e.chunkOffsets.value, offset, offset + length), fetch);
      OverlapsRead(e, fetch, chunks, |chunks|, offset, offset + length);
      AllRead(e, fetch, chunks, offset, offset + length, all);
      ReadInFull(e, fetch, chunks, offset, length, all);
    }
  }

  lemma ClipEnd(data: bytes, offset: nat, length: nat)
    requires offset <= |data|
    ensures Clip(data, offset, Min(offset + length, |data|)) == Clip(data, offset, offset + length)
    ensures |Clip(data, offset, offset + length)| <= length
    ensures Truncate(Clip(data, offset, offset + length), length) == Clip(data, offset, offset + length)
  {
  }

  // ---------------------------------------------------------------- the sequential read

  lemma ClipInside(s: bytes, from: int, to: int)
    requires to >= 0
    ensures var start, stop := if from >= 0 then from else 0, Min(to, |s|);
      Clip(s, from, to) == if start < stop then s[start..stop] else []
  {
  }

  lemma ClipBefore(s: bytes, from: int, to: int)
    requires |s| <= from || s == []
    ensures Clip(s, from, to) == []
  {
  }

  /** `read_range_sequential`: decodes chunk after chunk, skipping those before the range; `size` gives stored sizes. */
  method ReadRangeSequential(e: Entry, fetch: nat -> Option<bytes>, size: nat -> nat, offset: nat, length: nat,
                             ghost chunks: seq<bytes>) returns (r: Result<bytes, Missing>)
    requires Fits(e, fetch, chunks) && e.chunkOffsets.None? && length > 0
    requires forall i :: 0 <= i < |chunks| && fetch(e.chunks[i]).Some? ==> size(e.chunks[i]) == |chunks[i]|
    ensures Outcome(e, fetch, chunks, offset, offset + length, r)
  {
    hide Flatten, OffsetIndex, Clip, Looked;
    ClipBefore([], offset, offset + length);
    var result: bytes := [];
    var current: nat := 0;
    var end := offset + length;
    PrefixStart(chunks);
    var i := 0;
    while i < |e.chunks|
      invariant i <= |e.chunks| && current == |Prefix(chunks, i)| && (i < |chunks| ==> current < end)
      invariant result == Clip(Prefix(chunks, i), offset, end)
      invariant forall j :: 0 <= j < i ==> fetch(e.chunks[j]).Some?
      decreases |e.chunks| - i
    {
      var id := e.chunks[i];
      PrefixStep(chunks, i, offset, end);
      if fetch(id).None? {
        LookedSequential(e, chunks, i, offset, end);
        assert FirstMissing(e, fetch, chunks, i, offset, end);
        return Err(Missing(id));
      }
      var chunkEnd := current + size(id);
      if chunkEnd <= offset {
        ClipBefore(chunks[i], offset - current, end - current);
        assert result + [] == result;
        current := chunkEnd;
        i := i + 1;
        continue;
      }
      if current >= end {
        break;
      }
      var corrected := fetch(id).value;
      var start := if offset >= current then offset - current else 0;
      var stop := Min(end - current, |corrected|);
      ClipInside(corrected, offset - current, end - current);
      if start < stop {
        result := result + corrected[start..stop];
      } else {
        assert result + [] == result;
      }
      current := chunkEnd;
      i := i + 1;
      ClipFull(Prefix(chunks, i), offset, end);
      if |result| >= length {
        break;
      }
    }
    SequentialDone(e, fetch, chunks, i, offset, end, result);
    r := Ok(Truncate(result, length));
  }

  lemma LookedSequential(e: Entry, chunks: seq<bytes>, i: nat, from: nat, to: nat)
    requires e.chunkOffsets.None? && i < |chunks|
    ensures Looked(e, chunks, i, from, to) <==> |Prefix(chunks, i)| < to
  {
  }

  lemma {:induction false} PrefixGrows(chunks: seq<bytes>, i: nat, j: nat)
    requires i <= j <= |chunks|
    ensures |Prefix(chunks, i)| <= |Prefix(chunks, j)|
    decreases j
  {
    if i < j {
      PrefixGrows(chunks, i, j - 1);
      PrefixStep(chunks, j - 1, 0, 0);
    }
  }

  lemma SequentialDone(e: Entry, fetch: nat -> Option<bytes>, chunks: seq<bytes>, i: nat, offset: nat, end: nat, result: bytes)
    requires Fits(e, fetch, chunks) && e.chunkOffsets.None? && i <= |chunks| && offset < end
    requires forall j :: 0 <= j < i ==> fetch(e.chunks[j]).Some?
    requires result == Clip(Prefix(chunks, i), offset, end) && (i == |chunks| || |Prefix(chunks, i)| >= end)
    ensures Outcome(e, fetch, chunks, offset, end, Ok(Truncate(result, end - offset)))
  {
    assert |e.chunks| == |chunks|;
    hide Flatten, Clip, Fits, OffsetIndex;
    assert chunks[..|chunks|] == chunks;
    ClipLength(Prefix(chunks, i), offset, end);
    if i < |chunks| {
      Enough(chunks, i, offset, end);
    }
    assert result[..|result|] == result;
    forall j | 0 <= j < |chunks| && Looked(e, chunks, j, offset, end) ensures fetch(e.chunks[j]).Some? {
      if j >= i {
        PrefixGrows(chunks, i, j);
        assert false;
      }
    }
  }

  /** A range of which everything up to its end is there has its full length. */
  lemma ClipFull(s: bytes, from: nat, to: nat)
    requires from < to
    ensures |Clip(s, from, to)| >= to - from <==> |s| >= to
  {
  }

  lemma ClipLength(s: bytes, from: nat, to: nat)
    requires from <= to
    ensures |Clip(s, from, to)| <= to - from
    ensures |s| < to ==> from == to || |Clip(s, from, to)| < to - from
    ensures from == to || |s| <= from ==> Clip(s, from, to) == []
  {
  }

  // ---------------------------------------------------------------- the public form

  datatype RangeError = NotFound | MissingChunk(id: nat)

  /** A range inside the file, with the index if there is one. */
  method ReadClamped(e: Entry, fetch: nat -> Option<bytes>, size: nat -> nat, offset: nat, length: nat, ghost chunks: seq<bytes>)
    returns (got: Result<bytes, Missing>)
    requires Fits(e, fetch, chunks) && 0 < length && offset + length <= e.size
    requires forall i :: 0 <= i < |chunks| && fetch(e.chunks[i]).Some? ==> size(e.chunks[i]) == |chunks[i]|
    ensures |e.chunks| == |chunks| && Outcome(e, fetch, chunks, offset, offset + length, got)
    ensures got.Ok? ==> got.value == ReadSlice(Flatten(chunks), offset, length)
  {
    if e.chunkOffsets.Some? {
      SameCount(e, fetch, chunks);
      IndexedReadIsSlice(e, fetch, chunks, offset, length);
      assert Min(offset + length, e.size) == offset + length;
      hide *;
      got := ReadRangeWithIndex(e, fetch, offset, length);
      ReadInFull(e, fetch, chunks, offset, length, ReadAll(Overlaps(e.chunkOffsets.value, offset, offset + length), fetch));
    } else {
      hide Clip, Flatten, OffsetIndex, Looked, FirstMissing;
      got := ReadRangeSequential(e, fetch, size, offset, length, chunks);
    }
  }

  /** Truncation takes nothing away from a successful read. */
  lemma ReadInFull(e: Entry, fetch: nat -> Option<bytes>, chunks: seq<bytes>, offset: nat, length: nat, all: Result<bytes, Missing>)
    requires |e.chunks| == |chunks| && offset <= |Flatten(chunks)| && Outcome(e, fetch, chunks, offset, offset + length, all)
    ensures all.Ok? ==> Truncate(all.value, length) == all.value == ReadSlice(Flatten(chunks), offset, length)
  {
    hide Clip, Flatten, Looked, FirstMissing;
    ClipEnd(Flatten(chunks), offset, length);
  }

  function Payload(r: Result<(bytes, nat), RangeError>): Result<bytes, Missing>
    requires r != Err(NotFound)
  {
    match r
    case Ok(v) => Ok(v.0)
    case Err(error) => Err(Missing(error.id))
  }

  /**
   * `read_range`: with the index if the entry has one, otherwise chunk by chunk. It fails exactly if a chunk that it
   * looks at is missing.
   */
  method ReadRange(found: Option<Entry>, fetch: nat -> Option<bytes>, size: nat -> nat, offset: nat, length: nat,
                   ghost chunks: seq<bytes>) returns (r: Result<(bytes, nat), RangeError>)
    requires found.Some? && !found.value.deleted ==> Fits(found.value, fetch, chunks)
    requires found.Some? && !found.value.deleted ==>
      forall i :: 0 <= i < |chunks| && fetch(found.value.chunks[i]).Some? ==> size(found.value.chunks[i]) == |chunks[i]|
    ensures r == Err(NotFound) <==> found.None? || found.value.deleted
    ensures r.Ok? ==> r.value == (ReadSlice(Flatten(chunks), offset, length), found.value.version)
    ensures r != Err(NotFound) ==>
      var e := found.value;
      if offset < e.size && length > 0 then Outcome(e, fetch, chunks, offset, Min(offset + length, e.size), Payload(r)) else r.Ok?
  {
    if found.None? || found.value.deleted {
      return Err(NotFound);
    }
    hide Clip, Flatten, Fits, Outcome;
    var e := found.value;
    SameCount(e, fetch, chunks);
    ClipLength(Flatten(chunks), offset, offset + length);
    if offset >= e.size || length == 0 {
      return Ok(([], e.version));
    }
    var actual := Min(length, e.size - offset);
    var got := ReadClamped(e, fetch, size, offset, actual, chunks);
    ClipEnd(Flatten(chunks), offset, length);
    r := match got
      case Ok(data) => Ok((data, e.version))
      case Err(missing) => Err(MissingChunk(missing.id));
    assert Payload(r) == got && offset + actual == Min(offset + length, e.size);
  }
}
