/** The correction layer: the exact difference between a chunk and its lossy decoding. */
module Correction {
  import opened Bytes

  /** Byte `pos` should be `original` where the decoder produced `approx`. */
  datatype Diff = Diff(pos: nat, original: byte, approx: byte)

  datatype CorrectionType =
    | NoCorrection
    | BitFlips(flips: seq<(nat, byte)>)
    | BlockReplace(offset: nat, original: bytes)
    | Verbatim(data: bytes)

  /** `slice.get(i).copied().unwrap_or(0)` */
  function At(s: bytes, i: nat): byte
  {
    if i < |s| then s[i] else 0
  }

  /** The differing positions below `n`, in increasing order. */
  function DiffsUpTo(original: bytes, approx: bytes, n: nat): seq<Diff>
  {
    if n == 0 then []
    else
      var before := DiffsUpTo(original, approx, n - 1);
      if At(original, n - 1) != At(approx, n - 1)
      then before + [Diff(n - 1, At(original, n - 1), At(approx, n - 1))]
      else before
  }

  function Diffs(original: bytes, approx: bytes): seq<Diff>
  {
    DiffsUpTo(original, approx, if |original| >= |approx| then |original| else |approx|)
  }

  function Power2(k: nat): (r: nat)
    ensures r > 0
  {
    if k == 0 then 1 else 2 * Power2(k - 1)
  }

  /** The exclusive or of the `k` lowest binary digits. */
  function XorDigits(a: nat, b: nat, k: nat): (r: nat)
    ensures r < Power2(k)
    decreases k, a, b
  {
    if k == 0 then 0 else (if a % 2 == b % 2 then 0 else 1) + 2 * XorDigits(a / 2, b / 2, k - 1)
  }

  /** `a ^ b` */
  function Xor(a: byte, b: byte): byte
  {
    assert Power2(8) == 256;
    XorDigits(a as int, b as int, 8) as byte
  }

  function Flips(diffs: seq<Diff>): (r: seq<(nat, byte)>)
    ensures |r| == |diffs|
    ensures forall i :: 0 <= i < |r| ==> r[i] == (diffs[i].pos, Xor(diffs[i].original, diffs[i].approx))
  {
    seq(|diffs|, i requires 0 <= i < |diffs| => (diffs[i].pos, Xor(diffs[i].original, diffs[i].approx)))
  }

  /** From the first difference to the last. */
  function Span(d: seq<Diff>): int
    requires d != []
  {
    d[|d| - 1].pos - d[0].pos + 1
  }

  /** More than ten differences, but not most of the bytes, close together. */
  predicate Clustered(original: bytes, d: seq<Diff>)
  {
    10 < |d| <= |original| / 2 && Span(d) < |d| * 9
  }

  /** The block to be kept would begin behind the original: taking it is a slice out of range. */
  predicate Panics(original: bytes, approx: bytes)
  {
    var d := Diffs(original, approx);
    Clustered(original, d) && d[0].pos > |original|
  }

  /** The correction chosen for `original`, given what the decoder yields; unless choosing it panics. */
  function CorrectionFor(original: bytes, approx: bytes): CorrectionType
  {
    AllDiffs(original, approx);
    var d := Diffs(original, approx);
    if original == approx || d == [] then NoCorrection
    else if |d| > |original| / 2 then Verbatim(original)
    else if Clustered(original, d) then
      var first := d[0].pos;
      BlockReplace(first, if first <= |original| then original[first..Min(first + Span(d), |original|)] else [])
    else BitFlips(Flips(d))
  }

  /** In-place XOR of the listed positions; positions past the end are ignored. */
  function FlipAll(s: bytes, flips: seq<(nat, byte)>): (r: bytes)
    ensures |r| == |s|
    decreases |flips|
  {
    if flips == [] then s
    else
      var before := FlipAll(s, flips[..|flips| - 1]);
      var (pos, mask) := flips[|flips| - 1];
      if pos < |s| then before[pos := Xor(before[pos], mask)] else before
  }

  /** Overwrites `s` from `offset` on, never growing it. */
  function Overwrite(s: bytes, offset: nat, block: bytes): (r: bytes)
    ensures |r| == |s|
  {
    if offset < |s| then
      var end := Min(offset + |block|, |s|);
      s[..offset] + block[..end - offset] + s[end..]
    else s
  }

  function Apply(c: CorrectionType, approx: bytes): bytes
  {
    match c
    case NoCorrection => approx
    case BitFlips(flips) => FlipAll(approx, flips)
    case BlockReplace(offset, block) => Overwrite(approx, offset, block)
    case Verbatim(data) => data
  }

  function StorageSize(c: CorrectionType): nat
  {
    match c
    case NoCorrection => 0
    case BitFlips(flips) => |flips| * 9
    case BlockReplace(_, block) => 8 + |block|
    case Verbatim(data) => |data|
  }

  /** The number of bytes in which two byte strings (zero-padded) differ. */
  function DiffCount(original: bytes, approx: bytes): nat
  {
    |Diffs(original, approx)|
  }

  /** `DiffsUpTo` lists differing positions only, in increasing order. */
  lemma {:induction false} DiffsShape(original: bytes, approx: bytes, n: nat)
    ensures var d := DiffsUpTo(original, approx, n);
      && (forall i :: 0 <= i < |d| ==> d[i].pos < n && d[i] == Diff(d[i].pos, At(original, d[i].pos), At(approx, d[i].pos)))
      && (forall i :: 0 <= i < |d| ==> d[i].original != d[i].approx)
      && (forall i, j :: 0 <= i < j < |d| ==> d[i].pos < d[j].pos)
      && |d| <= n
  {
    if n > 0 {
      DiffsShape(original, approx, n - 1);
    }
  }

  lemma AllDiffs(original: bytes, approx: bytes)
    ensures var d, n := Diffs(original, approx), if |original| >= |approx| then |original| else |approx|;
      && (forall i :: 0 <= i < |d| ==> d[i].pos < n && d[i] == Diff(d[i].pos, At(original, d[i].pos), At(approx, d[i].pos)))
      && (forall i :: 0 <= i < |d| ==> d[i].original != d[i].approx)
      && (forall i, j :: 0 <= i < j < |d| ==> d[i].pos < d[j].pos)
      && (d != [] ==> Span(d) > 0)
  {
    DiffsShape(original, approx, if |original| >= |approx| then |original| else |approx|);
  }

  /** ... and every differing position. */
  lemma {:induction false} DiffsComplete(original: bytes, approx: bytes, n: nat, p: nat) returns (i: nat)
    requires p < n && At(original, p) != At(approx, p)
    ensures i < |DiffsUpTo(original, approx, n)| && DiffsUpTo(original, approx, n)[i] == Diff(p, At(original, p), At(approx, p))
  {
    if p == n - 1 {
      i := |DiffsUpTo(original, approx, n - 1)|;
    } else {
      i := DiffsComplete(original, approx, n - 1, p);
    }
  }

  ghost predicate Increasing(flips: seq<(nat, byte)>)
  {
    forall i, j :: 0 <= i < j < |flips| ==> flips[i].0 < flips[j].0
  }

  /** A position that is not listed keeps its byte. */
  lemma {:induction false} FlipAllMiss(s: bytes, flips: seq<(nat, byte)>, p: nat)
    requires p < |s| && forall i :: 0 <= i < |flips| ==> flips[i].0 != p
    ensures FlipAll(s, flips)[p] == s[p]
    decreases |flips|
  {
    if flips != [] {
      FlipAllMiss(s, flips[..|flips| - 1], p);
    }
  }

  /** Of distinct positions, a listed one is flipped once. */
  lemma {:induction false} FlipAllHit(s: bytes, flips: seq<(nat, byte)>, p: nat, i: nat)
    requires p < |s| && Increasing(flips) && i < |flips| && flips[i].0 == p
    ensures FlipAll(s, flips)[p] == Xor(s[p], flips[i].1)
    decreases |flips|
  {
    var init := flips[..|flips| - 1];
    if i == |flips| - 1 {
      FlipAllMiss(s, init, p);
    } else {
      FlipAllHit(s, init, p, i);
    }
  }

  lemma XorCancel(a: byte, o: byte)
    ensures Xor(a, Xor(o, a)) == o
  {
    DigitsCancel(a as int, o as int, 8);
  }

  lemma {:induction false} DigitsCancel(a: nat, o: nat, k: nat)
    requires o < Power2(k)
    ensures XorDigits(a, XorDigits(o, a, k), k) == o
    decreases k
  {
    if k > 0 {
      DigitsCancel(a / 2, o / 2, k - 1);
      LowDigit(o, a, k);
      LowDigit(a, XorDigits(o, a, k), k);
    }
  }

  /** The lowest digit and the others. */
  lemma LowDigit(a: nat, b: nat, k: nat)
    requires k > 0
    ensures XorDigits(a, b, k) % 2 == (if a % 2 == b % 2 then 0 else 1) && XorDigits(a, b, k) / 2 == XorDigits(a / 2, b / 2, k - 1)
  {
  }

  lemma {:induction false} DigitsInjective(a: nat, b: nat, m: nat, k: nat)
    requires a < Power2(k) && b < Power2(k) && XorDigits(a, m, k) == XorDigits(b, m, k)
    ensures a == b
    decreases k
  {
    if k > 0 {
      LowDigit(a, m, k);
      LowDigit(b, m, k);
      DigitsInjective(a / 2, b / 2, m / 2, k - 1);
    }
  }

  lemma XorInjective(a: byte, b: byte, m: byte)
    ensures Xor(a, m) == Xor(b, m) <==> a == b
  {
    assert Power2(8) == 256;
    if Xor(a, m) == Xor(b, m) {
      DigitsInjective(a as int, b as int, m as int, 8);
    }
  }

  /** The correction replaces byte `p`, whatever it was. */
  predicate Overwrites(c: CorrectionType, p: nat)
  {
    match c
    case Verbatim(_) => true
    case BlockReplace(offset, block) => offset <= p < offset + |block|
    case _ => false
  }

  /**
   * Applied to a longer approximation than the one it was computed from, the correction restores the original as
   * a prefix if and only if the two agree in every byte that it does not overwrite.
   */
  lemma CorrectedPrefixCondition(original: bytes, approx: bytes, longer: bytes)
    requires |approx| == |original| <= |longer|
    ensures var c := CorrectionFor(original, approx);
      original <= Apply(c, longer) <==> forall p :: 0 <= p < |original| ==> longer[p] == approx[p] || Overwrites(c, p)
  {
    var c := CorrectionFor(original, approx);
    var r := Apply(c, longer);
    if !c.Verbatim? {
      forall p: nat | p < |original|
        ensures |r| == |longer| && (r[p] == original[p] <==> longer[p] == approx[p] || Overwrites(c, p))
      {
        CorrectedByte(original, approx, longer, p);
      }
      hide CorrectionFor, Apply, Overwrites;
      PrefixByBytes(original, approx, longer, c);
    }
  }

  lemma PrefixByBytes(original: bytes, approx: bytes, longer: bytes, c: CorrectionType)
    requires |approx| == |original| <= |longer| == |Apply(c, longer)|
    requires forall p: nat :: p < |original| ==>
      (Apply(c, longer)[p] == original[p] <==> longer[p] == approx[p] || Overwrites(c, p))
    ensures original <= Apply(c, longer) <==> forall p :: 0 <= p < |original| ==> longer[p] == approx[p] || Overwrites(c, p)
  {
    var r := Apply(c, longer);
    hide Apply, Overwrites;
    assert original <= r <==> forall p :: 0 <= p < |original| ==> r[p] == original[p];
  }

  /** Applied to any extension of the approximation, the correction restores the original as a prefix. */
  lemma CorrectedPrefix(original: bytes, approx: bytes, longer: bytes)
    requires |approx| == |original| && approx <= longer
    ensures original <= Apply(CorrectionFor(original, approx), longer)
    ensures |longer| == |approx| ==> Apply(CorrectionFor(original, approx), longer) == original
  {
    CorrectedPrefixCondition(original, approx, longer);
    var c := CorrectionFor(original, approx);
    assert |longer| == |approx| ==> |Apply(c, longer)| == |longer| by {
      DiffsShape(original, approx, |original|);
    }
  }

  /** Byte `p` of the corrected approximation. */
  lemma CorrectedByte(original: bytes, approx: bytes, longer: bytes, p: nat)
    requires |approx| == |original| <= |longer| && p < |original|
    requires !CorrectionFor(original, approx).Verbatim?
    ensures var c := CorrectionFor(original, approx);
      && |Apply(c, longer)| == |longer|
      && (Apply(c, longer)[p] == original[p] <==> longer[p] == approx[p] || Overwrites(c, p))
  {
    var c := CorrectionFor(original, approx);
    if c.BitFlips? {
      FlippedByte(original, approx, longer, p);
    } else {
      DiffIndex(original, approx, p);
      if c.BlockReplace? {
        BlockByte(original, approx, longer, p);
      }
    }
  }

  lemma BlockByte(original: bytes, approx: bytes, longer: bytes, p: nat)
    requires |approx| == |original| <= |longer| && p < |original|
    requires CorrectionFor(original, approx).BlockReplace?
    ensures var c := CorrectionFor(original, approx);
      Apply(c, longer)[p] == if c.offset <= p < c.offset + |c.original| then original[p] else longer[p]
  {
    var c := CorrectionFor(original, approx);
    BlockIs(original, approx);
    hide Diffs, CorrectionFor, Span;
    var block := c.original;
    if c.offset < |longer| {
      var end := Min(c.offset + |block|, |longer|);
      assert Apply(c, longer) == longer[..c.offset] + block[..end - c.offset] + longer[end..];
    }
  }

  lemma BlockIs(original: bytes, approx: bytes)
    requires |approx| == |original| && CorrectionFor(original, approx).BlockReplace?
    ensures var c, d := CorrectionFor(original, approx), Diffs(original, approx);
      && d != [] && Span(d) > 0 && c.offset == d[0].pos < |original|
      && c.original == original[c.offset..Min(c.offset + Span(d), |original|)]
  {
    AllDiffs(original, approx);
  }

  /** Position `p` is listed exactly when it differs; the listed positions span the differing ones. */
  lemma DiffIndex(original: bytes, approx: bytes, p: nat)
    requires |approx| == |original| && p < |original|
    ensures var d := Diffs(original, approx);
      && (forall i, j :: 0 <= i < j < |d| ==> d[i].pos < d[j].pos)
      && (original[p] == approx[p] ==> forall i :: 0 <= i < |d| ==> d[i].pos != p)
      && (original[p] != approx[p] ==> d != [] && d[0].pos <= p <= d[|d| - 1].pos)
      && (original[p] != approx[p] ==> exists i :: 0 <= i < |d| && d[i] == Diff(p, original[p], approx[p]))
  {
    hide DiffsUpTo;
    DiffsShape(original, approx, |original|);
    var d := Diffs(original, approx);
    if original[p] != approx[p] {
      var i := DiffsComplete(original, approx, |original|, p);
      assert d[i] == Diff(p, original[p], approx[p]);
    } else {
      assert At(original, p) == At(approx, p);
    }
  }

  lemma FlippedByte(original: bytes, approx: bytes, longer: bytes, p: nat)
    requires |approx| == |original| <= |longer| && p < |original|
    ensures FlipAll(longer, Flips(Diffs(original, approx)))[p] == original[p] <==> longer[p] == approx[p]
  {
    DiffIndex(original, approx, p);
    var d, flips := Diffs(original, approx), Flips(Diffs(original, approx));
    if original[p] != approx[p] {
      var i :| 0 <= i < |d| && d[i] == Diff(p, original[p], approx[p]);
      FlipAllHit(longer, flips, p, i);
      XorCancel(approx[p], original[p]);
      XorInjective(longer[p], approx[p], Xor(original[p], approx[p]));
    } else {
      FlipAllMiss(longer, flips, p);
    }
  }

  /**
   * When choosing a correction panics: exactly if the decoder returned all of the original, at least one zero byte more,
   * and then more than ten nonzero bytes close together, no more than half as many as the original has bytes.
   */
  lemma PanicCondition(original: bytes, approx: bytes)
    ensures Panics(original, approx) <==>
      |approx| > |original| && original + [0] <= approx && Clustered(original, Diffs(original, approx))
  {
    AllDiffs(original, approx);
    var d, n := Diffs(original, approx), if |original| >= |approx| then |original| else |approx|;
    if Panics(original, approx) {
      assert d[0].pos < n == |approx|;
      forall p | 0 <= p <= |original| ensures At(original, p) == At(approx, p) {
        if At(original, p) != At(approx, p) {
          var i := DiffsComplete(original, approx, n, p);
        }
      }
      assert forall p :: 0 <= p <= |original| ==> approx[p] == At(approx, p) == (original + [0])[p];
    } else if |approx| > |original| && original + [0] <= approx && d != [] {
      forall p: nat | p <= |original| ensures At(approx, p) == At(original, p) {
        assert approx[p] == (original + [0])[p];
      }
    }
  }

  /** Twenty-two zero bytes, decoded as twenty-three and eleven ones after them. */
  lemma PanicExample()
    ensures Panics(seq(22, _ => 0), seq(34, i => if i < 23 then 0 else 1))
  {
    var original, approx: bytes := seq(22, _ => 0), seq(34, i => if i < 23 then 0 else 1);
    ZeroThenOnes(original, approx, 34);
  }

  lemma {:induction false} ZeroThenOnes(original: bytes, approx: bytes, n: nat)
    requires |original| == 22 && |approx| == 34 && n <= 34
    requires forall i :: 0 <= i < 22 ==> original[i] == 0
    requires forall i :: 0 <= i < 34 ==> approx[i] == if i < 23 then 0 else 1
    ensures var d := DiffsUpTo(original, approx, n);
      |d| == (if n <= 23 then 0 else n - 23) && forall i :: 0 <= i < |d| ==> d[i].pos == 23 + i
  {
    if n > 0 {
      ZeroThenOnes(original, approx, n - 1);
    }
  }

  /**
   * When the correction restores the original exactly: the decoder returned the right length, or so much
   * differs that the original is kept verbatim.
   */
  lemma ExactnessCondition(original: bytes, approx: bytes)
    ensures Apply(CorrectionFor(original, approx), approx) == original
            <==> |approx| == |original| || DiffCount(original, approx) > |original| / 2
  {
    AllDiffs(original, approx);
    if |approx| == |original| {
      CorrectedPrefix(original, approx, approx);
    }
  }

  /** A correction is chosen unless the decoder returned too much. */
  lemma NoPanic(original: bytes, approx: bytes)
    ensures |approx| <= |original| ==> !Panics(original, approx)
  {
    AllDiffs(original, approx);
  }

  /** Where two byte strings differ, missing bytes counting as zero. */
  ghost function DifferingUpTo(original: bytes, approx: bytes, n: nat): set<nat>
  {
    set p | 0 <= p < n && At(original, p) != At(approx, p)
  }

  lemma {:induction false} CountDiffering(original: bytes, approx: bytes, n: nat)
    ensures |DiffsUpTo(original, approx, n)| == |DifferingUpTo(original, approx, n)|
  {
    hide At;
    if n == 0 {
      assert DifferingUpTo(original, approx, 0) == {};
    } else {
      CountDiffering(original, approx, n - 1);
      assert DifferingUpTo(original, approx, n)
          == DifferingUpTo(original, approx, n - 1) + if At(original, n - 1) != At(approx, n - 1) then {n - 1} else {};
    }
  }

  /** These are the first and the last position at which equally long byte strings differ. */
  ghost predicate Extent(original: bytes, approx: bytes, first: nat, last: nat)
  {
    && first <= last < |original| == |approx| && original[first] != approx[first] && original[last] != approx[last]
    && forall p :: 0 <= p < |original| && original[p] != approx[p] ==> first <= p <= last
  }

  /** What the three ways to correct `d` differing bytes in an extent of `span` among `n` would cost. */
  function Cheapest(n: nat, d: nat, span: nat): nat
  {
    Min(n, Min(8 + span, 9 * d))
  }

  /**
   * What a correction costs, by how many bytes differ and how far apart: the whole chunk if it is most of it, a block if
   * many are close together, and else nine bytes each. That is the least of the three exactly under the condition stated.
   */
  lemma ChosenCost(original: bytes, approx: bytes, first: nat, last: nat)
    requires Extent(original, approx, first, last)
    ensures var n, d, span := |original|, |DifferingUpTo(original, approx, |original|)|, last - first + 1;
      var cost := StorageSize(CorrectionFor(original, approx));
      && cost == (if d > n / 2 then n else if 10 < d && span < 9 * d then 8 + span else 9 * d)
      && (cost == Cheapest(n, d, span) <==>
            if d > n / 2 then n <= 8 + span
            else if 10 < d && span < 9 * d then 8 + span <= Min(n, 9 * d)
            else 9 * d <= Min(n, 8 + span))
  {
    var d := Diffs(original, approx);
    CountDiffering(original, approx, |original|);
    AllDiffs(original, approx);
    var i := DiffsComplete(original, approx, |original|, first);
    var j := DiffsComplete(original, approx, |original|, last);
    ExtentOf(original, approx, first, last, i, j);
    hide DiffsUpTo, DifferingUpTo;
    assert original != approx;
  }

  lemma ExtentOf(original: bytes, approx: bytes, first: nat, last: nat, i: nat, j: nat)
    requires Extent(original, approx, first, last)
    requires var d := Diffs(original, approx); i < |d| && j < |d| && d[i].pos == first && d[j].pos == last
    ensures var d := Diffs(original, approx); d[0].pos == first && d[|d| - 1].pos == last
  {
    AllDiffs(original, approx);
    hide DiffsUpTo;
    var d := Diffs(original, approx);
    assert original[d[0].pos] != approx[d[0].pos] && original[d[|d| - 1].pos] != approx[d[|d| - 1].pos];
  }

  /** Cost: nothing exactly when nothing differs, and at most 9 bytes per differing byte plus 7. */
  lemma CorrectionCost(original: bytes, approx: bytes)
    requires |approx| == |original|
    ensures var size := StorageSize(CorrectionFor(original, approx)); var d := DiffCount(original, approx);
      && (size == 0 <==> d == 0) && (d == 0 <==> original == approx) && size <= 9 * d + 7
  {
    DiffsShape(original, approx, |original|);
    var d := Diffs(original, approx);
    if d == [] {
      forall p | 0 <= p < |original| ensures original[p] == approx[p] {
        if original[p] != approx[p] {
          var i := DiffsComplete(original, approx, |original|, p);
        }
      }
      assert original == approx;
    } else {
      assert At(original, d[0].pos) != At(approx, d[0].pos);
      assert original != approx;
    }
  }

  /** `compute_correction`: collects the differences and picks a representation; `None` is the panic. */
  method ComputeCorrection(original: bytes, approximation: bytes) returns (c: Option<CorrectionType>)
    ensures c == if Panics(original, approximation) then None else Some(CorrectionFor(original, approximation))
    ensures |approximation| <= |original| ==> c.Some?
  {
    NoPanic(original, approximation);
    AllDiffs(original, approximation);
    if original == approximation {
      NothingDiffers(original);
      return Some(NoCorrection);
    }
    var diffPositions: seq<Diff> := [];
    var maxLen := if |original| >= |approximation| then |original| else |approximation|;
    for i := 0 to maxLen
      invariant diffPositions == DiffsUpTo(original, approximation, i)
    {
      var origByte, approxByte := At(original, i), At(approximation, i);
      if origByte != approxByte {
        diffPositions := diffPositions + [Diff(i, origByte, approxByte)];
      }
    }
    var diffCount := |diffPositions|;
    if diffCount == 0 {
      return Some(NoCorrection);
    }
    if diffCount > |original| / 2 {
      return Some(Verbatim(original));
    }
    if diffCount > 10 {
      var firstDiff, lastDiff := diffPositions[0].pos, diffPositions[diffCount - 1].pos;
      var span := lastDiff - firstDiff + 1;
      if span < diffCount * 9 {
        var end := Min(firstDiff + span, |original|);
        if firstDiff > end {
          return None;
        }
        return Some(BlockReplace(firstDiff, original[firstDiff..end]));
      }
    }
    c := Some(BitFlips(Flips(diffPositions)));
  }

  lemma NothingDiffers(original: bytes)
    ensures Diffs(original, original) == []
  {
    AllDiffs(original, original);
  }

  /** `ChunkCorrection::apply`: edits a copy of the approximation. */
  method ApplyCorrection(c: CorrectionType, approximation: bytes) returns (result: bytes)
    ensures result == Apply(c, approximation)
  {
    match c
    case NoCorrection => result := approximation;
    case BitFlips(flips) =>
      var buffer := new byte[|approximation|](i requires 0 <= i < |approximation| => approximation[i]);
      for i := 0 to |flips|
        invariant buffer[..] == FlipAll(approximation, flips[..i])
      {
        assert flips[..i + 1][..i] == flips[..i];
        var (pos, mask) := flips[i];
        if pos < buffer.Length {
          buffer[pos] := Xor(buffer[pos], mask);
        }
      }
      assert flips[..|flips|] == flips;
      result := buffer[..];
    case BlockReplace(offset, block) =>
      result := approximation;
      if offset < |approximation| {
        var end := Min(offset + |block|, |approximation|);
        result := approximation[..offset] + block[..end - offset] + approximation[end..];
      }
    case Verbatim(data) => result := data;
  }

  /** Correction records with the running statistics kept by `CorrectionStore`. */
  datatype StoreState = StoreState(corrections: map<nat, Stored>, correctionBytes: nat, originalBytes: nat, perfect: nat, corrected: nat)

  /** A record and the verification hash of the original chunk. */
  datatype Stored = Stored(correction: CorrectionType, hash: bytes)

  const EmptyStore := StoreState(map[], 0, 0, 0, 0)

  function Add(s: StoreState, hash: bytes -> bytes, id: nat, original: bytes, approx: bytes): StoreState
  {
    var c := CorrectionFor(original, approx);
    StoreState(
      s.corrections[id := Stored(c, hash(original))],
      s.correctionBytes + StorageSize(c),
      s.originalBytes + |original|,
      if c.NoCorrection? then s.perfect + 1 else s.perfect,
      if c.NoCorrection? then s.corrected else s.corrected + 1)
  }

  /** `CorrectionStore::apply`: `None` without a record or when the hash does not match. */
  function ApplyStored(s: StoreState, hash: bytes -> bytes, id: nat, approx: bytes): Option<bytes>
  {
    if id !in s.corrections then None
    else
      var r := Apply(s.corrections[id].correction, approx);
      if hash(r) == s.corrections[id].hash then Some(r) else None
  }

  /**
   * Whatever the hash function, a recorded chunk verifies and comes back exactly if and only if its decoding had the right
   * length or differs in more than half of the bytes.
   */
  lemma AddThenApply(s: StoreState, hash: bytes -> bytes, id: nat, original: bytes, approx: bytes)
    ensures ApplyStored(Add(s, hash, id, original, approx), hash, id, approx) == Some(original)
            <==> |approx| == |original| || DiffCount(original, approx) > |original| / 2
  {
    hide CorrectionFor, Apply, DiffCount;
    ExactnessCondition(original, approx);
  }

  // ---------------------------------------------------------------- statistics over any run of additions

  datatype Addition = Addition(id: nat, original: bytes, approx: bytes)

  function AddAll(hash: bytes -> bytes, adds: seq<Addition>): StoreState
    decreases |adds|
  {
    if adds == [] then EmptyStore
    else
      var last := adds[|adds| - 1];
      Add(AddAll(hash, adds[..|adds| - 1]), hash, last.id, last.original, last.approx)
  }

  /** The decoding agrees with the original in every byte, missing bytes counting as zero. */
  ghost predicate Agrees(a: Addition)
  {
    forall p: nat :: At(a.original, p) == At(a.approx, p)
  }

  ghost function Agreeing(adds: seq<Addition>): set<nat>
  {
    set i | 0 <= i < |adds| && Agrees(adds[i])
  }

  function OriginalBytes(adds: seq<Addition>): nat
  {
    if adds == [] then 0 else OriginalBytes(adds[..|adds| - 1]) + |adds[|adds| - 1].original|
  }

  function CorrectionBytes(adds: seq<Addition>): nat
  {
    if adds == [] then 0
    else
      var last := adds[|adds| - 1];
      CorrectionBytes(adds[..|adds| - 1]) + StorageSize(CorrectionFor(last.original, last.approx))
  }

  lemma NoneWhenAgrees(a: Addition)
    ensures CorrectionFor(a.original, a.approx).NoCorrection? <==> Agrees(a)
  {
    var original, approx := a.original, a.approx;
    var n := if |original| >= |approx| then |original| else |approx|;
    DiffsShape(original, approx, n);
    var d := Diffs(original, approx);
    if d == [] {
      forall p: nat ensures At(original, p) == At(approx, p) {
        if p < n && At(original, p) != At(approx, p) {
          var i := DiffsComplete(original, approx, n, p);
        }
      }
    } else {
      assert At(original, d[0].pos) != At(approx, d[0].pos);
    }
  }

  /**
   * After any run of additions the perfect chunks are those whose decodings agree, the corrected ones all others, and the
   * byte counters are the sums over the chunks added.
   */
  lemma {:induction false} StatisticsExact(hash: bytes -> bytes, adds: seq<Addition>)
    ensures var s := AddAll(hash, adds);
      && s.perfect == |Agreeing(adds)| && s.perfect + s.corrected == |adds|
      && s.originalBytes == OriginalBytes(adds) && s.correctionBytes == CorrectionBytes(adds)
    decreases |adds|
  {
    if adds == [] {
      assert Agreeing(adds) == {};
    } else {
      var n := |adds| - 1;
      StatisticsExact(hash, adds[..n]);
      NoneWhenAgrees(adds[n]);
      hide CorrectionFor, StorageSize, At;
      OneMoreAgrees(adds);
      hide Agreeing, Agrees;
    }
  }

  lemma OneMoreAgrees(adds: seq<Addition>)
    requires adds != []
    ensures var n := |adds| - 1; |Agreeing(adds)| == |Agreeing(adds[..n])| + if Agrees(adds[n]) then 1 else 0
  {
    hide Agrees;
    var n := |adds| - 1;
    assert Agreeing(adds) == Agreeing(adds[..n]) + if Agrees(adds[n]) then {n} else {};
  }

  /** No later addition is for the same identifier. */
  ghost predicate LastOf(adds: seq<Addition>, i: int)
  {
    0 <= i < |adds| && forall j :: i < j < |adds| ==> adds[j].id != adds[i].id
  }

  /** Exactly the identifiers added are recorded, each with the correction and the hash of its last addition. */
  lemma {:induction false} RecordsAre(hash: bytes -> bytes, adds: seq<Addition>, id: nat)
    ensures id in AddAll(hash, adds).corrections <==> exists i :: 0 <= i < |adds| && adds[i].id == id
    ensures forall i :: LastOf(adds, i) && adds[i].id == id ==>
      && id in AddAll(hash, adds).corrections
      && AddAll(hash, adds).corrections[id] == Stored(CorrectionFor(adds[i].original, adds[i].approx), hash(adds[i].original))
    decreases |adds|
  {
    if adds != [] {
      var n := |adds| - 1;
      var before := adds[..n];
      RecordsAre(hash, before, id);
      hide CorrectionFor, StorageSize;
      assert adds == before + [adds[n]];
      if i :| 0 <= i < n && before[i].id == id {
        assert adds[i].id == id;
      }
      forall i | LastOf(adds, i) && adds[i].id == id ensures i == n || (LastOf(before, i) && adds[n].id != id) {
      }
    }
  }

  class CorrectionStore {
    var corrections: map<nat, Stored>
    var totalCorrectionBytes: nat
    var totalOriginalBytes: nat
    var perfectChunks: nat
    var correctedChunks: nat
    const hash: bytes -> bytes

    constructor (hash: bytes -> bytes)
      ensures State() == EmptyStore && this.hash == hash
    {
      corrections, totalCorrectionBytes, totalOriginalBytes, perfectChunks, correctedChunks := map[], 0, 0, 0, 0;
      this.hash := hash;
    }

    function State(): StoreState
      reads this
    {
      StoreState(corrections, totalCorrectionBytes, totalOriginalBytes, perfectChunks, correctedChunks)
    }

    /** Records the correction of a chunk, unless choosing it panics. */
    method AddChunk(id: nat, original: bytes, approximation: bytes) returns (panicked: bool)
      modifies this
      ensures panicked == Panics(original, approximation)
      ensures State() == if panicked then old(State()) else Add(old(State()), hash, id, original, approximation)
      ensures !panicked ==> (ApplyStored(State(), hash, id, approximation) == Some(original)
                             <==> |approximation| == |original| || DiffCount(original, approximation) > |original| / 2)
    {
      AddThenApply(State(), hash, id, original, approximation);
      hide CorrectionFor, Panics, DiffCount;
      var computed := ComputeCorrection(original, approximation);
      if computed.None? {
        return true;
      }
      var correction := computed.value;
      panicked := false;
      totalOriginalBytes := totalOriginalBytes + |original|;
      if !correction.NoCorrection? {
        totalCorrectionBytes := totalCorrectionBytes + StorageSize(correction);
        correctedChunks := correctedChunks + 1;
      } else {
        perfectChunks := perfectChunks + 1;
      }
      corrections := corrections[id := Stored(correction, hash(original))];
    }

    method ApplyTo(id: nat, approximation: bytes) returns (r: Option<bytes>)
      ensures r == ApplyStored(State(), hash, id, approximation)
    {
      if id !in corrections {
        return None;
      }
      var result := ApplyCorrection(corrections[id].correction, approximation);
      r := if hash(result) == corrections[id].hash then Some(result) else None;
    }
  }
}
