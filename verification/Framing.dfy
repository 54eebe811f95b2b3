/**
 * Files made of records written one after another, and readers that take one record at a time.
 * What is torn, and how much survives, depends on a reader only through how it treats a single record.
 */
module Framing {
  import opened Bytes

  function Prepend<T, E>(items: seq<T>, r: Result<seq<T>, E>): Result<seq<T>, E>
  {
    if r.Err? then r else Ok(items + r.value)
  }

  /** A reader of whole files, the size of its record header, and its error for a record cut after the header. */
  datatype Reader<!T, !E> = Reader(read: bytes -> Result<seq<T>, E>, header: nat, cut: E)

  /** The reader takes `frame` off the front of a file as `item`, and does as told with a frame cut short. */
  ghost predicate Takes<T, E>(r: Reader<T, E>, frame: bytes, item: T)
  {
    && (forall tail :: r.read(frame + tail) == Prepend([item], r.read(tail)))
    && (forall n: nat :: n < |frame| ==> r.read(frame[..n]) == if n < r.header then Ok([]) else Err(r.cut))
  }

  ghost predicate TakesAll<T, E>(r: Reader<T, E>, frames: seq<bytes>, items: seq<T>)
  {
    && |frames| == |items| && r.header > 0 && r.read([]) == Ok([])
    && forall i :: 0 <= i < |frames| ==> Takes(r, frames[i], items[i])
  }

  /** The number of frames that lie wholly within the first `n` bytes. */
  function CompleteFrames(frames: seq<bytes>, n: nat): (k: nat)
    ensures k <= |frames|
  {
    if frames == [] || n < |frames[0]| then 0 else 1 + CompleteFrames(frames[1..], n - |frames[0]|)
  }

  lemma {:induction false} FlattenTake(frames: seq<bytes>, k: nat)
    requires 1 <= k <= |frames|
    ensures Flatten(frames[..k]) == frames[0] + Flatten(frames[1..][..k - 1])
  {
    assert frames[..k][1..] == frames[1..][..k - 1];
  }

  /** A frame is counted exactly when it ends by byte `n`. */
  lemma {:induction false} CompleteFramesSpec(frames: seq<bytes>, n: nat, k: nat)
    requires k <= |frames|
    ensures k <= CompleteFrames(frames, n) <==> |Flatten(frames[..k])| <= n
    decreases k
  {
    if k == 0 {
      assert frames[..0] == [];
    } else {
      FlattenTake(frames, k);
      if n >= |frames[0]| {
        CompleteFramesSpec(frames[1..], n - |frames[0]|, k - 1);
      }
    }
  }

  /** What is read from a file torn at byte `n`: the complete frames, or an error, as the remainder decides. */
  function TornResult<T, E>(r: Reader<T, E>, frames: seq<bytes>, items: seq<T>, n: nat): Result<seq<T>, E>
    requires |frames| == |items|
  {
    var k := CompleteFrames(frames, n);
    if n < |Flatten(frames[..k])| + r.header then Ok(items[..k]) else Err(r.cut)
  }

  lemma {:induction false} TornFirst<T, E>(r: Reader<T, E>, frames: seq<bytes>, items: seq<T>, n: nat)
    requires |frames| == |items| && (frames == [] || n < |frames[0]|)
    ensures TornResult(r, frames, items, n) == if n < r.header then Ok([]) else Err(r.cut)
  {
    assert frames[..0] == [];
    assert items[..0] == [];
  }

  lemma {:induction false} TornTail<T, E>(r: Reader<T, E>, frames: seq<bytes>, items: seq<T>, n: nat)
    requires |frames| == |items| > 0 && n >= |frames[0]|
    ensures TornResult(r, frames, items, n) == Prepend([items[0]], TornResult(r, frames[1..], items[1..], n - |frames[0]|))
  {
    var k := CompleteFrames(frames, n);
    FlattenTake(frames, k);
    assert items[..k] == [items[0]] + items[1..][..k - 1];
  }

  lemma CutConcat(a: bytes, b: bytes, n: nat)
    requires n <= |a| + |b|
    ensures (a + b)[..n] == if n < |a| then a[..n] else a + b[..n - |a|]
  {
  }

  /** Truncation of a file of frames at any byte. */
  lemma {:induction false} TornFrames<T, E>(r: Reader<T, E>, frames: seq<bytes>, items: seq<T>, n: nat)
    requires TakesAll(r, frames, items) && n <= |Flatten(frames)|
    ensures r.read(Flatten(frames)[..n]) == TornResult(r, frames, items, n)
    decreases |frames|
  {
    if frames == [] {
      TornFirst(r, frames, items, n);
      assert Flatten(frames)[..n] == [];
    } else {
      var rest := Flatten(frames[1..]);
      CutConcat(frames[0], rest, n);
      assert Takes(r, frames[0], items[0]);
      if n < |frames[0]| {
        TornFirst(r, frames, items, n);
      } else {
        TornFrames(r, frames[1..], items[1..], n - |frames[0]|);
        TornTail(r, frames, items, n);
      }
    }
  }

  /** Reading a whole file gives back every frame's item. */
  lemma {:induction false} WholeFile<T, E>(r: Reader<T, E>, frames: seq<bytes>, items: seq<T>)
    requires TakesAll(r, frames, items)
    ensures r.read(Flatten(frames)) == Ok(items)
  {
    var n := |Flatten(frames)|;
    TornFrames(r, frames, items, n);
    assert Flatten(frames)[..n] == Flatten(frames);
    assert frames[..|frames|] == frames && items[..|items|] == items;
    CompleteFramesSpec(frames, n, |frames|);
  }

  /** Frames in front of any file are read before it. */
  lemma {:induction false} FramesThen<T, E>(r: Reader<T, E>, frames: seq<bytes>, items: seq<T>, file: bytes)
    requires TakesAll(r, frames, items)
    ensures r.read(Flatten(frames) + file) == Prepend(items, r.read(file))
    decreases |frames|
  {
    if frames == [] {
      assert Flatten(frames) + file == file;
      PrependNothing(r.read(file));
    } else {
      FramesThen(r, frames[1..], items[1..], file);
      assert Flatten(frames) + file == frames[0] + (Flatten(frames[1..]) + file);
      assert Takes(r, frames[0], items[0]);
      PrependTwice([items[0]], items[1..], r.read(file));
      assert [items[0]] + items[1..] == items;
    }
  }

  lemma PrependNothing<T, E>(r: Result<seq<T>, E>)
    ensures Prepend([], r) == r
  {
    if r.Ok? {
      assert [] + r.value == r.value;
    }
  }

  lemma PrependTwice<T, E>(a: seq<T>, b: seq<T>, r: Result<seq<T>, E>)
    ensures Prepend(a, Prepend(b, r)) == Prepend(a + b, r)
  {
    if r.Ok? {
      assert a + (b + r.value) == a + b + r.value;
    }
  }
}
