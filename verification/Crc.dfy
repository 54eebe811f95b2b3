/**
 * Shift registers in the abstract: what follows about differences of register contents from the rules
 * of a single step. The arithmetic of the concrete register stays in module Crc.
 */
module ShiftRegister {
  type octet = bv8
  type octets = seq<octet>

  function Iterate<T>(f: T -> T, n: nat, x: T): T
    decreases n, x
  {
    if n == 0 then x else f(Iterate(f, n - 1, x))
  }

  /** The register after feeding `data`, first octet first. */
  function Fold<T>(feed: (T, octet) -> T, s: T, data: octets): T
  {
    if data == [] then s else feed(Fold(feed, s, data[..|data| - 1]), data[|data| - 1])
  }

  lemma {:induction false} FoldAppend<T>(feed: (T, octet) -> T, s: T, a: octets, b: octets)
    ensures Fold(feed, s, a + b) == Fold(feed, Fold(feed, s, a), b)
    decreases |b|
  {
    if b == [] {
      assert a + b == a;
    } else {
      FoldAppend(feed, s, a, b[..|b| - 1]);
      assert (a + b)[..|a + b| - 1] == a + b[..|b| - 1];
    }
  }

  lemma FoldSnoc<T>(feed: (T, octet) -> T, s: T, data: octets, i: nat)
    requires i < |data|
    ensures Fold(feed, s, data[..i + 1]) == feed(Fold(feed, s, data[..i]), data[i])
  {
    assert data[..i + 1][..i] == data[..i];
  }

  lemma FoldFirst<T>(feed: (T, octet) -> T, s: T, a: octets)
    requires a != []
    ensures Fold(feed, s, a) == Fold(feed, feed(s, a[0]), a[1..])
  {
    FoldAppend(feed, s, [a[0]], a[1..]);
    assert [a[0]] + a[1..] == a;
    assert [a[0]][..0] == [];
  }

  /** Strings with the same effect on a register are interchangeable in any context. */
  lemma FoldContext<T>(feed: (T, octet) -> T, s: T, before: octets, a: octets, b: octets, after: octets)
    requires Fold(feed, Fold(feed, s, before), a) == Fold(feed, Fold(feed, s, before), b)
    ensures Fold(feed, s, before + a + after) == Fold(feed, s, before + b + after)
  {
    FoldAppend(feed, s, before + a, after);
    FoldAppend(feed, s, before + b, after);
    FoldAppend(feed, s, before, a);
    FoldAppend(feed, s, before, b);
  }

  /** A difference that one step maps back to `double(v)` is mapped back by `n - k` steps. */
  lemma {:induction false} Backwards<T(!new)>(step: T -> T, differ: (T, T, T) -> bool, double: T -> T, fits: T -> bool,
                                              x: T, y: T, v: T, n: nat, k: nat)
    requires k <= n
    requires forall x, y, v :: fits(v) && differ(step(x), step(y), v) ==> differ(x, y, double(v))
    requires forall k: nat :: k < n ==> fits(Iterate(double, k, v))
    requires differ(Iterate(step, n - k, x), Iterate(step, n - k, y), Iterate(double, k, v))
    ensures differ(x, y, Iterate(double, n, v))
    decreases n - k
  {
    if k < n {
      assert fits(Iterate(double, k, v));
      Backwards(step, differ, double, fits, x, y, v, n, k + 1);
    }
  }

  lemma {:induction false} Forwards<T(!new)>(step: T -> T, differ: (T, T, T) -> bool, double: T -> T, fits: T -> bool,
                                             x: T, y: T, v: T, n: nat, k: nat)
    requires k <= n
    requires forall x, y, v :: fits(v) && differ(x, y, double(v)) ==> differ(step(x), step(y), v)
    requires forall k: nat :: k < n ==> fits(Iterate(double, k, v))
    requires differ(x, y, Iterate(double, n, v))
    ensures differ(Iterate(step, n - k, x), Iterate(step, n - k, y), Iterate(double, k, v))
    decreases n - k
  {
    if k < n {
      Forwards(step, differ, double, fits, x, y, v, n, k + 1);
      assert fits(Iterate(double, k, v));
    }
  }

  /** A step that can be undone and redone on differences `v` with `fits(v)`. */
  datatype Stepping<!T> = Stepping(step: T -> T, differ: (T, T, T) -> bool, double: T -> T, fits: T -> bool)

  ghost predicate Reversible<T(!new)>(s: Stepping<T>)
  {
    && (forall x, y, v :: s.fits(v) && s.differ(s.step(x), s.step(y), v) ==> s.differ(x, y, s.double(v)))
    && (forall x, y, v :: s.fits(v) && s.differ(x, y, s.double(v)) ==> s.differ(s.step(x), s.step(y), v))
  }

  lemma ManySteps<T(!new)>(s: Stepping<T>, x: T, y: T, v: T, n: nat)
    requires Reversible(s)
    requires forall k: nat :: k < n ==> s.fits(Iterate(s.double, k, v))
    ensures s.differ(Iterate(s.step, n, x), Iterate(s.step, n, y), v) <==> s.differ(x, y, Iterate(s.double, n, v))
  {
    if s.differ(Iterate(s.step, n, x), Iterate(s.step, n, y), v) {
      Backwards(s.step, s.differ, s.double, s.fits, x, y, v, n, 0);
    }
    if s.differ(x, y, Iterate(s.double, n, v)) {
      Forwards(s.step, s.differ, s.double, s.fits, x, y, v, n, 0);
    }
  }

  /** Mixing an octet each into two registers changes their difference from `merge(d, a, b)` to `d`. */
  ghost predicate Mixes<T(!new)>(s: Stepping<T>, mix: (T, octet) -> T, merge: (T, octet, octet) -> T)
  {
    && (forall x, y, a, b, d :: s.differ(mix(x, a), mix(y, b), d) ==> s.differ(x, y, merge(d, a, b)))
    && (forall x, y, a, b, d :: s.differ(x, y, merge(d, a, b)) ==> s.differ(mix(x, a), mix(y, b), d))
  }

  /** What feeding one octet each, by mixing and then `n` steps, does to the difference of two registers. */
  lemma FeedDifference<T(!new)>(s: Stepping<T>, mix: (T, octet) -> T, merge: (T, octet, octet) -> T,
                                x: T, y: T, a: octet, b: octet, v: T, n: nat)
    requires Reversible(s) && Mixes(s, mix, merge)
    requires forall k: nat :: k < n ==> s.fits(Iterate(s.double, k, v))
    ensures s.differ(Iterate(s.step, n, mix(x, a)), Iterate(s.step, n, mix(y, b)), v)
            <==> s.differ(x, y, merge(Iterate(s.double, n, v), a, b))
  {
    ManySteps(s, mix(x, a), mix(y, b), v, n);
  }

  /**
   * A register whose differences can be traced octet by octet. `join(v, a, b)` is the difference before
   * feeding `a` and `b` that becomes `v`; `fits(v, k)` says that `v` occupies at most `k` bytes.
   */
  datatype Tracing<!T> = Tracing(
    feed: (T, octet) -> T,
    differ: (T, T, T) -> bool,
    zero: T,
    join: (T, octet, octet) -> T,
    fits: (T, nat) -> bool)

  ghost predicate Traceable<T(!new)>(r: Tracing<T>)
  {
    && (forall x, y :: r.differ(x, y, r.zero) <==> x == y)
    && (forall x, v :: r.differ(x, x, v) ==> v == r.zero)
    && (forall x, y, a, b, v :: r.fits(v, 3) ==> (r.differ(r.feed(x, a), r.feed(y, b), v) <==> r.differ(x, y, r.join(v, a, b))))
    && r.fits(r.zero, 0)
    && (forall v, k: nat :: k < 3 && r.fits(v, k) ==> r.fits(v, k + 1))
    && (forall v, k: nat, a, b :: k < 3 && r.fits(v, k) ==> r.fits(r.join(v, a, b), k + 1))
    && (forall v, a, b :: r.fits(v, 3) && r.join(v, a, b) == r.zero ==> v == r.zero && a == b)
    && (forall a :: r.join(r.zero, a, a) == r.zero)
  }

  /** The difference of registers that two equally long strings cancel. */
  function Difference<T>(r: Tracing<T>, a: octets, b: octets): T
    requires |a| == |b|
  {
    if a == [] then r.zero else r.join(Difference(r, a[1..], b[1..]), a[0], b[0])
  }

  lemma JoinRules<T(!new)>(r: Tracing<T>, x: T, y: T, v: T, k: nat, a: octet, b: octet)
    requires Traceable(r) && r.fits(v, k)
    ensures k < 3 ==> r.fits(r.join(v, a, b), k + 1)
    ensures k == 3 ==> (r.differ(r.feed(x, a), r.feed(y, b), v) <==> r.differ(x, y, r.join(v, a, b)))
    ensures k == 3 && r.join(v, a, b) == r.zero ==> v == r.zero && a == b
  {
  }

  lemma FitsThree<T(!new)>(r: Tracing<T>, v: T, k: nat)
    requires Traceable(r) && k <= 3 && r.fits(v, k)
    ensures r.fits(v, 3)
  {
    if k < 3 { assert r.fits(v, k + 1); }
    if k < 2 { assert r.fits(v, k + 2); }
  }

  lemma {:induction false} DifferenceFits<T(!new)>(r: Tracing<T>, a: octets, b: octets)
    requires Traceable(r) && |a| == |b| <= 3
    ensures r.fits(Difference(r, a, b), |a|) && r.fits(Difference(r, a, b), 3)
  {
    if a != [] {
      DifferenceFits(r, a[1..], b[1..]);
      JoinRules(r, r.zero, r.zero, Difference(r, a[1..], b[1..]), |a| - 1, a[0], b[0]);
    }
    FitsThree(r, Difference(r, a, b), |a|);
  }

  lemma DifferenceFirst<T>(r: Tracing<T>, x: octet, a: octets, y: octet, b: octets)
    requires |a| == |b|
    ensures Difference(r, [x] + a, [y] + b) == r.join(Difference(r, a, b), x, y)
  {
    assert ([x] + a)[1..] == a && ([y] + b)[1..] == b;
  }

  lemma FourBytes<T>(r: Tracing<T>, a0: octet, a1: octet, a2: octet, a3: octet, b0: octet, b1: octet, b2: octet, b3: octet)
    ensures Difference(r, [a0, a1, a2, a3], [b0, b1, b2, b3])
         == r.join(r.join(r.join(r.join(r.zero, a3, b3), a2, b2), a1, b1), a0, b0)
  {
    assert Difference(r, [], []) == r.zero;
    assert [a3] == [a3] + [] && [b3] == [b3] + [];
    assert [a2, a3] == [a2] + [a3] && [b2, b3] == [b2] + [b3];
    assert [a1, a2, a3] == [a1] + [a2, a3] && [b1, b2, b3] == [b1] + [b2, b3];
    assert [a0, a1, a2, a3] == [a0] + [a1, a2, a3] && [b0, b1, b2, b3] == [b0] + [b1, b2, b3];
    hide Difference;
    DifferenceFirst(r, a3, [], b3, []);
    DifferenceFirst(r, a2, [a3], b2, [b3]);
    DifferenceFirst(r, a1, [a2, a3], b1, [b2, b3]);
    DifferenceFirst(r, a0, [a1, a2, a3], b0, [b1, b2, b3]);
  }

  /** Registers meet after up to four octets exactly when they started with the difference of the bytes. */
  lemma {:induction false} WindowDifference<T(!new)>(r: Tracing<T>, x: T, y: T, a: octets, b: octets)
    requires Traceable(r) && |a| == |b| <= 4
    ensures Fold(r.feed, x, a) == Fold(r.feed, y, b) <==> r.differ(x, y, Difference(r, a, b))
    decreases |a|
  {
    if a != [] {
      FoldFirst(r.feed, x, a);
      FoldFirst(r.feed, y, b);
      WindowDifference(r, r.feed(x, a[0]), r.feed(y, b[0]), a[1..], b[1..]);
      DifferenceFits(r, a[1..], b[1..]);
      JoinRules(r, x, y, Difference(r, a[1..], b[1..]), 3, a[0], b[0]);
    }
  }

  lemma {:induction false} DifferenceZero<T(!new)>(r: Tracing<T>, a: octets, b: octets)
    requires Traceable(r) && |a| == |b| <= 4 && Difference(r, a, b) == r.zero
    ensures a == b
    decreases |a|
  {
    if a != [] {
      DifferenceFits(r, a[1..], b[1..]);
      JoinRules(r, r.zero, r.zero, Difference(r, a[1..], b[1..]), 3, a[0], b[0]);
      DifferenceZero(r, a[1..], b[1..]);
      assert a == [a[0]] + a[1..] && b == [b[0]] + b[1..];
    }
  }

  /** Feeding the same octets never merges two register states. */
  lemma {:induction false} FoldInjective<T(!new)>(r: Tracing<T>, x: T, y: T, data: octets)
    requires Traceable(r) && Fold(r.feed, x, data) == Fold(r.feed, y, data)
    ensures x == y
    decreases |data|
  {
    if data != [] {
      var x', y' := Fold(r.feed, x, data[..|data| - 1]), Fold(r.feed, y, data[..|data| - 1]);
      var b := data[|data| - 1];
      FitsThree(r, r.zero, 0);
      assert r.differ(r.feed(x', b), r.feed(y', b), r.zero);
      assert r.differ(x', y', r.join(r.zero, b, b));
      FoldInjective(r, x, y, data[..|data| - 1]);
    }
  }

  /** Strings that differ, and only inside four consecutive octets, leave different registers. */
  lemma BurstChangesFold<T(!new)>(r: Tracing<T>, s: T, before: octets, a: octets, b: octets, after: octets)
    requires Traceable(r) && |a| == |b| <= 4 && a != b
    ensures Fold(r.feed, s, before + a + after) != Fold(r.feed, s, before + b + after)
  {
    var t := Fold(r.feed, s, before);
    FoldAppend(r.feed, s, before + a, after);
    FoldAppend(r.feed, s, before + b, after);
    FoldAppend(r.feed, s, before, a);
    FoldAppend(r.feed, s, before, b);
    if Fold(r.feed, s, before + a + after) == Fold(r.feed, s, before + b + after) {
      FoldInjective(r, Fold(r.feed, t, a), Fold(r.feed, t, b), after);
      WindowDifference(r, t, t, a, b);
      DifferenceZero(r, a, b);
    }
  }
}

/** Bytes as bit vectors. */
module Octetting {
  import opened Bytes

  /** The bit vector with the given binary digits, lowest first. */
  function Assemble(d0: bool, d1: bool, d2: bool, d3: bool, d4: bool, d5: bool, d6: bool, d7: bool): bv8
  {
    (if d0 then 0x01 else 0) | (if d1 then 0x02 else 0) | (if d2 then 0x04 else 0) | (if d3 then 0x08 else 0)
    | (if d4 then 0x10 else 0) | (if d5 then 0x20 else 0) | (if d6 then 0x40 else 0) | (if d7 then 0x80 else 0)
  }

  predicate Odd(n: int)
  {
    n % 2 == 1
  }

  /** The bits of a byte. */
  function Octet(b: byte): bv8
  {
    var n := b as int;
    Assemble(Odd(n), Odd(n / 2), Odd(n / 4), Odd(n / 8), Odd(n / 16), Odd(n / 32), Odd(n / 64), Odd(n / 128))
  }

  function Octets(data: bytes): (r: seq<bv8>)
    ensures |r| == |data|
  {
    seq(|data|, i requires 0 <= i < |data| => Octet(data[i]))
  }

  lemma AssembleInjective(d0: bool, d1: bool, d2: bool, d3: bool, d4: bool, d5: bool, d6: bool, d7: bool,
                          e0: bool, e1: bool, e2: bool, e3: bool, e4: bool, e5: bool, e6: bool, e7: bool)
    requires Assemble(d0, d1, d2, d3, d4, d5, d6, d7) == Assemble(e0, e1, e2, e3, e4, e5, e6, e7)
    ensures d0 == e0 && d1 == e1 && d2 == e2 && d3 == e3 && d4 == e4 && d5 == e5 && d6 == e6 && d7 == e7
  {
  }

  /** Numbers whose halves agree and whose last digits agree are equal. */
  lemma Halves(m: nat, n: nat, half: nat, k: nat)
    requires k > 0 && half == 2 * k && m / half == n / half && Odd(m / k) == Odd(n / k)
    ensures m / k == n / k
  {
    HalfOf(m, k);
    HalfOf(n, k);
  }

  lemma HalfOf(m: nat, k: nat)
    requires k > 0
    ensures m / k / 2 == m / (2 * k)
  {
    var q := m / k / 2;
    assert 2 * q <= m / k <= 2 * q + 1;
    MulMono(k, 2 * q, m / k);
    MulMono(k, m / k, 2 * q + 1);
    assert k * (2 * q) == 2 * k * q && k * (2 * q + 1) == 2 * k * q + k;
    DivUnique(m, 2 * k, q);
  }

  lemma OddsDetermine(m: nat, n: nat)
    requires m < 256 && n < 256 && Odd(m) == Odd(n) && Odd(m / 2) == Odd(n / 2) && Odd(m / 4) == Odd(n / 4)
    requires Odd(m / 8) == Odd(n / 8) && Odd(m / 16) == Odd(n / 16) && Odd(m / 32) == Odd(n / 32)
    requires Odd(m / 64) == Odd(n / 64) && Odd(m / 128) == Odd(n / 128)
    ensures m == n
  {
    Halves(m, n, 256, 128);
    Halves(m, n, 128, 64);
    Halves(m, n, 64, 32);
    Halves(m, n, 32, 16);
    Halves(m, n, 16, 8);
    Halves(m, n, 8, 4);
    Halves(m, n, 4, 2);
    Halves(m, n, 2, 1);
  }

  lemma OctetInjective(a: byte, b: byte)
    requires Octet(a) == Octet(b)
    ensures a == b
  {
    var m, n := a as int, b as int;
    AssembleInjective(Odd(m), Odd(m / 2), Odd(m / 4), Odd(m / 8), Odd(m / 16), Odd(m / 32), Odd(m / 64), Odd(m / 128),
                      Odd(n), Odd(n / 2), Odd(n / 4), Odd(n / 8), Odd(n / 16), Odd(n / 32), Odd(n / 64), Odd(n / 128));
    OddsDetermine(m, n);
  }

  lemma OctetsInjective(a: bytes, b: bytes)
    requires |a| == |b| && a != b
    ensures Octets(a) != Octets(b)
  {
    var i :| 0 <= i < |a| && a[i] != b[i];
    assert Octets(a)[i] == Octet(a[i]) && Octets(b)[i] == Octet(b[i]);
    if Octet(a[i]) == Octet(b[i]) {
      OctetInjective(a[i], b[i]);
    }
  }
}

/** 32-bit words as numbers: the value of a word and the word of a value, digit by digit. */
module Words {

  function Pop(c: bv32): bv32
  {
    c >> 1
  }

  predicate LowBitSet(c: bv32)
  {
    c & 1 == 1
  }

  function Push(c: bv32, low: bool): bv32
  {
    (c << 1) | (if low then 1 else 0)
  }

  /** The number that the lowest `k` bits stand for. */
  function LowValue(c: bv32, k: nat): nat
    decreases k, c
  {
    if k == 0 then 0 else (if LowBitSet(c) then 1 else 0) + 2 * LowValue(Pop(c), k - 1)
  }

  /** The word with the lowest `k` binary digits of `n`. */
  function LowWord(n: nat, k: nat): bv32
    decreases k, n
  {
    if k == 0 then 0 else Push(LowWord(n / 2, k - 1), n % 2 == 1)
  }

  /** Every bit from the `k`th up is clear. */
  ghost predicate Short(c: bv32, k: nat)
    decreases k
  {
    if k == 0 then c == 0 else Short(Pop(c), k - 1)
  }

  lemma PushPop(c: bv32)
    ensures Push(Pop(c), LowBitSet(c)) == c
  {
  }

  lemma {:induction false} LowRoundTrip(c: bv32, k: nat)
    requires Short(c, k)
    ensures LowWord(LowValue(c, k), k) == c
    decreases k
  {
    if k > 0 {
      LowRoundTrip(Pop(c), k - 1);
      PushPop(c);
    }
  }

  lemma ShortEight(c: bv32, k: nat)
    requires Short(c >> 8, k)
    ensures Short(c, k + 8)
  {
    EightPops(c);
    assert Short(Pop(Pop(Pop(Pop(Pop(Pop(c)))))), k + 2);
    assert Short(Pop(Pop(Pop(c))), k + 5);
  }

  lemma EightPops(c: bv32)
    ensures Pop(Pop(Pop(Pop(Pop(Pop(Pop(Pop(c)))))))) == c >> 8
  {
  }

  lemma AllShifted(c: bv32)
    ensures c >> 8 >> 8 >> 8 >> 8 == 0
  {
  }

  function Drop(c: bv32): bv32
  {
    c >> 8
  }

  lemma DropShort(c: bv32, k: nat, n: nat)
    requires Short(Drop(c), k) && n == k + 8
    ensures Short(c, n)
  {
    ShortEight(c, k);
  }

  lemma AllDropped(c: bv32)
    ensures Short(Drop(Drop(Drop(Drop(c)))), 0)
  {
    AllShifted(c);
  }

  lemma AllShort(c: bv32)
    ensures Short(c, 32)
  {
    AllDropped(c);
    hide *;
    DropShort(Drop(Drop(Drop(c))), 0, 8);
    DropShort(Drop(Drop(c)), 8, 16);
    DropShort(Drop(c), 16, 24);
    DropShort(c, 24, 32);
  }

  function Power2(k: nat): nat
  {
    if k == 0 then 1 else 2 * Power2(k - 1)
  }

  lemma {:induction false} LowValueBound(c: bv32, k: nat)
    ensures LowValue(c, k) < Power2(k)
    decreases k
  {
    if k > 0 {
      LowValueBound(Pop(c), k - 1);
    }
  }

  lemma PowerEight(k: nat)
    ensures Power2(k + 8) == 256 * Power2(k)
  {
    assert Power2(k + 7) == 2 * Power2(k + 6) && Power2(k + 5) == 2 * Power2(k + 4);
    assert Power2(k + 3) == 2 * Power2(k + 2) && Power2(k + 1) == 2 * Power2(k);
  }

  lemma ValueBound(c: bv32)
    ensures LowValue(c, 32) < 0x1_0000_0000
  {
    LowValueBound(c, 32);
    PowerEight(0);
    PowerEight(8);
    PowerEight(16);
    PowerEight(24);
  }

  /** `c as u64`, in effect: the value of a 32-bit word. */
  function Value(c: bv32): (n: nat)
    ensures n < 0x1_0000_0000
  {
    ValueBound(c);
    LowValue(c, 32)
  }

  function Word(n: nat): bv32
  {
    LowWord(n, 32)
  }

  lemma {:induction false} WordOfValue(c: bv32)
    ensures Word(Value(c)) == c
  {
    AllShort(c);
    LowRoundTrip(c, 32);
  }

  lemma {:induction false} ShortMore(c: bv32, k: nat)
    requires Short(c, k)
    ensures Short(c, k + 1)
    decreases k
  {
    if k > 0 {
      ShortMore(Pop(c), k - 1);
    }
  }

  lemma {:induction false} ShortAt(c: bv32, k: nat, n: nat)
    requires Short(c, k) && k <= n
    ensures Short(c, n)
    decreases n - k
  {
    if k < n {
      ShortMore(c, k);
      ShortAt(c, k + 1, n);
    }
  }

  lemma ShortPop(c: bv32, k: nat)
    requires Short(c, k + 1)
    ensures Short(Pop(c), k)
  {
  }

  lemma EightShort(c: bv32, k: nat)
    requires Short(c, k + 8)
    ensures Short(c >> 8, k)
  {
    EightPops(c);
    hide Pop, Short;
    var c1, c2, c3, c4 := Pop(c), Pop(Pop(c)), Pop(Pop(Pop(c))), Pop(Pop(Pop(Pop(c))));
    ShortPop(c, k + 7);
    ShortPop(c1, k + 6);
    ShortPop(c2, k + 5);
    ShortPop(c3, k + 4);
    ShortPop(c4, k + 3);
    ShortPop(Pop(c4), k + 2);
    ShortPop(Pop(Pop(c4)), k + 1);
    ShortPop(Pop(Pop(Pop(c4))), k);
  }

  lemma TopClear(c: bv32)
    requires Short(c, 31)
    ensures c >> 31 == 0
  {
    SevenPops(c);
    EightShort(c, 23);
    EightShort(c >> 8, 15);
    EightShort(c >> 8 >> 8, 7);
    SevenShort(c >> 8 >> 8 >> 8);
    hide Pop, Short;
  }

  lemma SevenShort(c: bv32)
    requires Short(c, 7)
    ensures Pop(Pop(Pop(Pop(Pop(Pop(Pop(c))))))) == 0
  {
    var c3 := Pop(Pop(Pop(c)));
    hide Pop;
    ShortPop(c, 6);
    ShortPop(Pop(c), 5);
    ShortPop(Pop(Pop(c)), 4);
    ShortPop(c3, 3);
    ShortPop(Pop(c3), 2);
    ShortPop(Pop(Pop(c3)), 1);
    ShortPop(Pop(Pop(Pop(c3))), 0);
  }

  lemma SevenPops(c: bv32)
    ensures Pop(Pop(Pop(Pop(Pop(Pop(Pop(c >> 8 >> 8 >> 8))))))) == c >> 31
  {
  }

  lemma PopPushBits(c: bv32, low: bool)
    requires c >> 31 == 0
    ensures Pop(Push(c, low)) == c && LowBitSet(Push(c, low)) == low
  {
  }

  lemma ShortBack(d: bv32, k: nat)
    requires Short(Pop(d), k)
    ensures Short(d, k + 1)
  {
    hide Pop;
  }

  lemma LowWordNext(n: nat, k: nat)
    ensures LowWord(n, k + 1) == Push(LowWord(n / 2, k), n % 2 == 1)
  {
    hide Push;
  }

  lemma {:induction false} LowWordShort(n: nat, k: nat)
    requires k <= 32
    ensures Short(LowWord(n, k), k)
    decreases k
  {
    if k > 0 {
      var c := LowWord(n / 2, k - 1);
      LowWordShort(n / 2, k - 1);
      LowWordNext(n, k - 1);
      hide Push, Pop, LowWord, Short, LowBitSet;
      ShortAt(c, k - 1, 31);
      TopClear(c);
      PopPushBits(c, n % 2 == 1);
      ShortBack(LowWord(n, k), k - 1);
    }
  }

  lemma {:induction false} LowValueOf(n: nat, k: nat)
    requires n < Power2(k) && k <= 32
    ensures LowValue(LowWord(n, k), k) == n
    decreases k
  {
    if k > 0 {
      var c, low := LowWord(n / 2, k - 1), n % 2 == 1;
      LowValueOf(n / 2, k - 1);
      LowWordShort(n / 2, k - 1);
      LowWordNext(n, k - 1);
      hide Push, Pop, LowWord, Short, LowBitSet;
      ShortAt(c, k - 1, 31);
      TopClear(c);
      PopPushBits(c, low);
    }
  }

  /** Words and their values correspond one to one. */
  lemma ValueOfWord(n: nat)
    requires n < 0x1_0000_0000
    ensures Value(Word(n)) == n
  {
    PowerEight(0);
    PowerEight(8);
    PowerEight(16);
    PowerEight(24);
    assert Power2(0) == 1;
    LowValueOf(n, 32);
  }
}

/** The bitwise CRC-32 of section 8 of RFC 1952, and the burst errors it is certain to detect. */
module Crc {
  import opened Bytes
  import opened ShiftRegister
  import opened Octetting

  const POLYNOMIAL: bv32 := 0xEDB88320

  /** One shift of the register. */
  function ShiftBit(crc: bv32): bv32
  {
    if crc & 1 != 0 then (crc >> 1) ^ POLYNOMIAL else crc >> 1
  }

  /** `byte as u32` */
  function Bits(b: octet): bv32
  {
    b as bv32
  }

  function Mix(crc: bv32, b: octet): bv32
  {
    crc ^ Bits(b)
  }

  function FeedByte(crc: bv32, b: octet): bv32
  {
    Iterate(ShiftBit, 8, Mix(crc, b))
  }

  function Complement(crc: bv32): bv32
  {
    !crc
  }

  /** The register after feeding `data`. */
  function Register(crc: bv32, data: bytes): bv32
    decreases |data|
  {
    if data == [] then crc else Register(FeedByte(crc, Octet(data[0])), data[1..])
  }

  function Crc32(header: bytes, payload: bytes): bv32
  {
    Complement(Register(0xFFFF_FFFF, header + payload))
  }

  lemma {:induction false} RegisterIsFold(crc: bv32, data: bytes)
    ensures Register(crc, data) == Fold(FeedByte, crc, Octets(data))
    decreases |data|
  {
    if data != [] {
      RegisterIsFold(FeedByte(crc, Octet(data[0])), data[1..]);
      FoldFirst(FeedByte, crc, Octets(data));
      assert Octets(data)[1..] == Octets(data[1..]);
    }
  }

  /** The inner loop: one byte is fed by eight shifts. */
  method Feed(crc: bv32, b: octet) returns (r: bv32)
    ensures r == FeedByte(crc, b)
  {
    ghost var start := Mix(crc, b);
    r := crc ^ Bits(b);
    for k := 0 to 8
      invariant r == Iterate(ShiftBit, k, start)
    {
      if r & 1 != 0 {
        r := (r >> 1) ^ POLYNOMIAL;
      } else {
        r := r >> 1;
      }
    }
  }

  /** The loop over `header.iter().chain(payload.iter())`. */
  method Crc32Compute(header: bytes, payload: bytes) returns (r: bv32)
    ensures r == Crc32(header, payload)
  {
    var data := header + payload;
    var crc: bv32 := 0xFFFF_FFFF;
    for i := 0 to |data|
      invariant crc == Fold(FeedByte, 0xFFFF_FFFF, Octets(data[..i]))
    {
      crc := Feed(crc, Octet(data[i]));
      assert Octets(data[..i + 1]) == Octets(data[..i]) + [Octet(data[i])];
      FoldSnoc(FeedByte, 0xFFFF_FFFF, Octets(data[..i + 1]), i);
    }
    assert data[..|data|] == data;
    RegisterIsFold(0xFFFF_FFFF, data);
    r := Complement(crc);
  }

  predicate Differ(x: bv32, y: bv32, v: bv32)
  {
    x ^ y == v
  }

  function Double(v: bv32): bv32
  {
    v << 1
  }

  predicate TopBitClear(v: bv32)
  {
    v & 0x8000_0000 == 0
  }

  /** A shift can be undone on differences: the top bit of the polynomial reveals the branch taken. */
  lemma BackBits(x: bv32, y: bv32, v: bv32)
    requires v & 0x8000_0000 == 0 && ShiftBit(x) ^ ShiftBit(y) == v
    ensures x ^ y == v << 1
  {
  }

  lemma ForthBits(x: bv32, y: bv32, v: bv32)
    requires v & 0x8000_0000 == 0 && x ^ y == v << 1
    ensures ShiftBit(x) ^ ShiftBit(y) == v
  {
  }

  lemma ShiftBack(x: bv32, y: bv32, v: bv32)
    requires TopBitClear(v) && Differ(ShiftBit(x), ShiftBit(y), v)
    ensures Differ(x, y, Double(v))
  {
    BackBits(x, y, v);
  }

  lemma ShiftForth(x: bv32, y: bv32, v: bv32)
    requires TopBitClear(v) && Differ(x, y, Double(v))
    ensures Differ(ShiftBit(x), ShiftBit(y), v)
  {
    ForthBits(x, y, v);
  }

  const SHIFTING: Stepping<bv32> := Stepping(ShiftBit, Differ, Double, TopBitClear)

  lemma ShiftingReversible()
    ensures Reversible(SHIFTING)
  {
    forall x, y, v | SHIFTING.fits(v) && SHIFTING.differ(SHIFTING.step(x), SHIFTING.step(y), v)
      ensures SHIFTING.differ(x, y, SHIFTING.double(v))
    {
      ShiftBack(x, y, v);
    }
    forall x, y, v | SHIFTING.fits(v) && SHIFTING.differ(x, y, SHIFTING.double(v))
      ensures SHIFTING.differ(SHIFTING.step(x), SHIFTING.step(y), v)
    {
      ShiftForth(x, y, v);
    }
  }

  lemma DoubleBits(v: bv32)
    requires v & 0xFF00_0000 == 0
    ensures TopBitClear(v) && TopBitClear(v << 1) && TopBitClear((v << 1) << 1)
    ensures TopBitClear(((v << 1) << 1) << 1) && TopBitClear((((v << 1) << 1) << 1) << 1)
    ensures TopBitClear(((((v << 1) << 1) << 1) << 1) << 1) && TopBitClear((((((v << 1) << 1) << 1) << 1) << 1) << 1)
    ensures TopBitClear(((((((v << 1) << 1) << 1) << 1) << 1) << 1) << 1)
    ensures ((((((((v << 1) << 1) << 1) << 1) << 1) << 1) << 1) << 1) == v << 8
    ensures v == 1 ==> ((((((v << 1) << 1) << 1) << 1) << 1) << 1) << 1 == 0x80
  {
  }

  /** Doubling a 24-bit value eight times shifts it by a byte, and the top bit stays clear on the way. */
  lemma DoubleEight(v: bv32)
    requires v & 0xFF00_0000 == 0
    ensures forall k: nat :: k < 8 ==> TopBitClear(Iterate(Double, k, v))
    ensures Iterate(Double, 8, v) == v << 8
    ensures v == 1 ==> Iterate(Double, 7, v) == 0x80
  {
    DoubleBits(v);
    assert Iterate(Double, 0, v) == v;
    assert Iterate(Double, 1, v) == v << 1;
    assert Iterate(Double, 2, v) == (v << 1) << 1;
    assert Iterate(Double, 3, v) == ((v << 1) << 1) << 1;
    assert Iterate(Double, 4, v) == (((v << 1) << 1) << 1) << 1;
    assert Iterate(Double, 5, v) == ((((v << 1) << 1) << 1) << 1) << 1;
    assert Iterate(Double, 6, v) == (((((v << 1) << 1) << 1) << 1) << 1) << 1;
    assert Iterate(Double, 7, v) == ((((((v << 1) << 1) << 1) << 1) << 1) << 1) << 1;
    assert Iterate(Double, 8, v) == (((((((v << 1) << 1) << 1) << 1) << 1) << 1) << 1) << 1;
    forall k: nat | k < 8 ensures TopBitClear(Iterate(Double, k, v)) {
      assert k == 0 || k == 1 || k == 2 || k == 3 || k == 4 || k == 5 || k == 6 || k == 7;
    }
  }

  function Merge(d: bv32, a: octet, b: octet): bv32
  {
    d ^ (Bits(a) ^ Bits(b))
  }

  function Join(v: bv32, a: octet, b: octet): bv32
  {
    Merge(Iterate(Double, 8, v), a, b)
  }

  predicate Fits(v: bv32, k: nat)
  {
    v & (if k == 0 then 0xFFFF_FFFF else if k == 1 then 0xFFFF_FF00 else if k == 2 then 0xFFFF_0000 else 0xFF00_0000) == 0
  }

  const TRACING: Tracing<bv32> := Tracing(FeedByte, Differ, 0, Join, Fits)

  lemma UngroupBits(x: bv32, y: bv32, a: bv32, b: bv32, d: bv32)
    requires (x ^ a) ^ (y ^ b) == d
    ensures x ^ y == d ^ (a ^ b)
  {
  }

  lemma RegroupBits(x: bv32, y: bv32, a: bv32, b: bv32)
    ensures (x ^ a) ^ (y ^ b) == (x ^ y) ^ (a ^ b)
  {
  }

  lemma CancelBits(d: bv32, c: bv32)
    ensures (d ^ c) ^ c == d
  {
  }

  lemma MixBack(x: bv32, y: bv32, a: octet, b: octet, d: bv32)
    requires Differ(Mix(x, a), Mix(y, b), d)
    ensures Differ(x, y, Merge(d, a, b))
  {
    UngroupBits(x, y, Bits(a), Bits(b), d);
  }

  lemma MixForth(x: bv32, y: bv32, a: octet, b: octet, d: bv32)
    requires Differ(x, y, Merge(d, a, b))
    ensures Differ(Mix(x, a), Mix(y, b), d)
  {
    RegroupBits(x, y, Bits(a), Bits(b));
    CancelBits(d, Bits(a) ^ Bits(b));
  }

  lemma MixingRule()
    ensures Mixes(SHIFTING, Mix, Merge)
  {
    forall x, y, a, b, d | SHIFTING.differ(Mix(x, a), Mix(y, b), d) ensures SHIFTING.differ(x, y, Merge(d, a, b)) {
      MixBack(x, y, a, b, d);
    }
    forall x, y, a, b, d | SHIFTING.differ(x, y, Merge(d, a, b)) ensures SHIFTING.differ(Mix(x, a), Mix(y, b), d) {
      MixForth(x, y, a, b, d);
    }
  }

  lemma JoinFitsBits(v: bv32, a: bv32, b: bv32)
    requires a & 0xFFFF_FF00 == 0 && b & 0xFFFF_FF00 == 0
    ensures v == 0 ==> ((v << 8) ^ (a ^ b)) & 0xFFFF_FF00 == 0
    ensures v & 0xFFFF_FF00 == 0 ==> ((v << 8) ^ (a ^ b)) & 0xFFFF_0000 == 0
    ensures v & 0xFFFF_0000 == 0 ==> ((v << 8) ^ (a ^ b)) & 0xFF00_0000 == 0
  {
  }

  lemma JoinZeroBits(v: bv32, a: bv32, b: bv32)
    requires a & 0xFFFF_FF00 == 0 && b & 0xFFFF_FF00 == 0
    requires v & 0xFF00_0000 == 0 && (v << 8) ^ (a ^ b) == 0
    ensures v == 0 && a == b
  {
  }

  lemma SameBits(a: octet, b: octet)
    requires Bits(a) == Bits(b)
    ensures a == b
  {
  }

  lemma FitsMore(v: bv32, k: nat)
    requires k < 3 && Fits(v, k)
    ensures Fits(v, k + 1) && v & 0xFF00_0000 == 0
  {
  }

  lemma ByteFits(a: octet)
    ensures Bits(a) & 0xFFFF_FF00 == 0
  {
  }

  lemma JoinFits(v: bv32, k: nat, a: octet, b: octet)
    requires k < 3 && Fits(v, k)
    ensures Fits(Join(v, a, b), k + 1)
  {
    FitsMore(v, k);
    DoubleEight(v);
    ByteFits(a);
    ByteFits(b);
    JoinFitsBits(v, Bits(a), Bits(b));
  }

  lemma JoinZero(v: bv32, a: octet, b: octet)
    requires Fits(v, 3) && Join(v, a, b) == 0
    ensures v == 0 && a == b
  {
    DoubleEight(v);
    ByteFits(a);
    ByteFits(b);
    JoinZeroBits(v, Bits(a), Bits(b));
    SameBits(a, b);
  }

  lemma FeedRule(x: bv32, y: bv32, a: octet, b: octet, v: bv32)
    requires Fits(v, 3)
    ensures TRACING.differ(TRACING.feed(x, a), TRACING.feed(y, b), v) <==> TRACING.differ(x, y, TRACING.join(v, a, b))
  {
    ShiftingReversible();
    MixingRule();
    DoubleEight(v);
    FeedDifference(SHIFTING, Mix, Merge, x, y, a, b, v, 8);
  }

  lemma EqualityRules()
    ensures forall x, y :: TRACING.differ(x, y, TRACING.zero) <==> x == y
    ensures forall x, v :: TRACING.differ(x, x, v) ==> v == TRACING.zero
    ensures TRACING.fits(TRACING.zero, 0)
  {
  }

  lemma FeedRules()
    ensures forall x, y, a, b, v :: TRACING.fits(v, 3) ==>
              (TRACING.differ(TRACING.feed(x, a), TRACING.feed(y, b), v) <==> TRACING.differ(x, y, TRACING.join(v, a, b)))
  {
    forall x, y, a, b, v | TRACING.fits(v, 3)
      ensures TRACING.differ(TRACING.feed(x, a), TRACING.feed(y, b), v) <==> TRACING.differ(x, y, TRACING.join(v, a, b))
    {
      FeedRule(x, y, a, b, v);
    }
  }

  lemma FitsRules()
    ensures forall v, k: nat :: k < 3 && TRACING.fits(v, k) ==> TRACING.fits(v, k + 1)
    ensures forall v, k: nat, a, b :: k < 3 && TRACING.fits(v, k) ==> TRACING.fits(TRACING.join(v, a, b), k + 1)
  {
    forall v, k: nat | k < 3 && TRACING.fits(v, k) ensures TRACING.fits(v, k + 1) {
      FitsMore(v, k);
    }
    forall v, k: nat, a, b {:trigger TRACING.fits(v, k), TRACING.join(v, a, b)} | k < 3 && TRACING.fits(v, k)
      ensures TRACING.fits(TRACING.join(v, a, b), k + 1)
    {
      JoinFits(v, k, a, b);
    }
  }

  lemma ZeroRules()
    ensures forall v, a, b :: TRACING.fits(v, 3) && TRACING.join(v, a, b) == TRACING.zero ==> v == TRACING.zero && a == b
    ensures forall a :: TRACING.join(TRACING.zero, a, a) == TRACING.zero
  {
    forall v, a, b | TRACING.fits(v, 3) && TRACING.join(v, a, b) == TRACING.zero ensures v == TRACING.zero && a == b {
      JoinZero(v, a, b);
    }
    forall a ensures TRACING.join(TRACING.zero, a, a) == TRACING.zero {
      DoubleEight(0);
    }
  }

  lemma RegisterTraceable()
    ensures Traceable(TRACING)
  {
    EqualityRules();
    FeedRules();
    FitsRules();
    ZeroRules();
  }

  lemma OctetsOfParts(a: bytes, b: bytes, c: bytes)
    ensures Octets(a + b + c) == Octets(a) + Octets(b) + Octets(c)
  {
  }

  /** Payloads that differ, and only inside four consecutive bytes, have different checksums. */
  lemma BurstChangesCrc(header: bytes, before: bytes, a: bytes, b: bytes, after: bytes)
    requires |a| == |b| <= 4 && a != b
    ensures Crc32(header, before + a + after) != Crc32(header, before + b + after)
  {
    RegisterTraceable();
    OctetsInjective(a, b);
    CrcOfParts(header, before, a, after);
    CrcOfParts(header, before, b, after);
    BurstChangesFold(TRACING, 0xFFFF_FFFF, Octets(header + before), Octets(a), Octets(b), Octets(after));
    ComplementInjective(Fold(FeedByte, 0xFFFF_FFFF, Octets(header + before) + Octets(a) + Octets(after)),
                        Fold(FeedByte, 0xFFFF_FFFF, Octets(header + before) + Octets(b) + Octets(after)));
  }

  lemma CrcOfParts(header: bytes, before: bytes, a: bytes, after: bytes)
    ensures Crc32(header, before + a + after)
            == Complement(Fold(FeedByte, 0xFFFF_FFFF, Octets(header + before) + Octets(a) + Octets(after)))
  {
    assert header + (before + a + after) == header + before + a + after;
    RegisterIsFold(0xFFFF_FFFF, header + before + a + after);
    OctetsOfParts(header + before, a, after);
  }

  lemma ComplementInjective(x: bv32, y: bv32)
    requires x != y
    ensures Complement(x) != Complement(y)
  {
  }

  /** The polynomial's own bit pattern, as five message bytes. */
  const BURST: bytes := [0x80, 0x20, 0x83, 0xB8, 0xED]

  const QUIET: bytes := [0, 0, 0, 0, 0]

  /** Four bytes is the most: flipping the pattern of the polynomial over five zero bytes goes unnoticed. */
  lemma FiveByteBurstUndetected(header: bytes, before: bytes, after: bytes)
    ensures Crc32(header, before + BURST + after) == Crc32(header, before + QUIET + after)
  {
    BurstOctets();
    FiveBytes(Fold(FeedByte, 0xFFFF_FFFF, Octets(header + before)));
    FoldContext(FeedByte, 0xFFFF_FFFF, Octets(header + before), Octets(BURST), Octets(QUIET), Octets(after));
    CrcOfParts(header, before, BURST, after);
    CrcOfParts(header, before, QUIET, after);
  }

  lemma BurstOctets()
    ensures Octets(BURST) == [0x80, 0x20, 0x83, 0xB8, 0xED]
    ensures Octets(QUIET) == [0, 0, 0, 0, 0]
  {
    OctetValues();
  }

  lemma OctetValues()
    ensures Octet(0x80) == 0x80 && Octet(0x20) == 0x20 && Octet(0x83) == 0x83
    ensures Octet(0xB8) == 0xB8 && Octet(0xED) == 0xED && Octet(0) == 0
  {
  }

  lemma FiveBytes(s: bv32)
    ensures Fold(FeedByte, s, [0x80, 0x20, 0x83, 0xB8, 0xED]) == Fold(FeedByte, s, [0, 0, 0, 0, 0])
  {
    var burst: octets, zeros: octets := [0x80, 0x20, 0x83, 0xB8, 0xED], [0, 0, 0, 0, 0];
    FoldFirst(FeedByte, s, burst);
    FoldFirst(FeedByte, s, zeros);
    assert burst[1..] == [0x20, 0x83, 0xB8, 0xED] && zeros[1..] == [0, 0, 0, 0];
    TopBitOfByte(s);
    BurstDifference();
    RegisterTraceable();
    WindowDifference(TRACING, FeedByte(s, 0x80), FeedByte(s, 0), [0x20, 0x83, 0xB8, 0xED], [0, 0, 0, 0]);
  }

  lemma BurstDifference()
    ensures Difference(TRACING, [0x20, 0x83, 0xB8, 0xED], [0, 0, 0, 0]) == POLYNOMIAL
  {
    var a: octets, b: octets := [0x20, 0x83, 0xB8, 0xED], [0, 0, 0, 0];
    assert a[1..] == [0x83, 0xB8, 0xED] && b[1..] == [0, 0, 0];
    assert a[2..] == a[1..][1..] == [0xB8, 0xED] && b[2..] == b[1..][1..] == [0, 0];
    assert a[3..] == a[2..][1..] == [0xED] && b[3..] == b[2..][1..] == [0];
    assert Difference(TRACING, [], []) == 0;
    assert Difference(TRACING, a[3..], b[3..]) == Join(0, 0xED, 0) == 0xED;
    assert Difference(TRACING, a[2..], b[2..]) == Join(0xED, 0xB8, 0) == 0xEDB8;
    assert Difference(TRACING, a[1..], b[1..]) == Join(0xEDB8, 0x83, 0) == 0xED_B883;
  }

  /** Flipping the top bit of a byte flips the polynomial in the register. */
  lemma TopBitOfByte(s: bv32)
    ensures Differ(FeedByte(s, 0x80), FeedByte(s, 0), POLYNOMIAL)
  {
    SevenShifts(s);
    LowBit(Iterate(ShiftBit, 7, Mix(s, 0x80)), Iterate(ShiftBit, 7, Mix(s, 0)));
  }

  lemma SevenShifts(s: bv32)
    ensures Differ(Iterate(ShiftBit, 7, Mix(s, 0x80)), Iterate(ShiftBit, 7, Mix(s, 0)), 1)
  {
    ShiftingReversible();
    DoubleEight(1);
    TopBitMix(s);
    ManySteps(SHIFTING, Mix(s, 0x80), Mix(s, 0), 1, 7);
  }

  lemma TopBitMix(s: bv32)
    ensures Differ(Mix(s, 0x80), Mix(s, 0), 0x80)
  {
    assert Bits(0x80) == 0x80;
    assert Bits(0) == 0;
    XorBits(s);
  }

  lemma XorBits(s: bv32)
    ensures (s ^ 0x80) ^ (s ^ 0) == 0x80
  {
  }

  lemma LowBit(x: bv32, y: bv32)
    requires Differ(x, y, 1)
    ensures Differ(ShiftBit(x), ShiftBit(y), POLYNOMIAL)
  {
  }

  // ---------------------------------------------------------------- the values of the checksum

  lemma EightShifts(crc: bv32, b: octet)
    ensures FeedByte(crc, b)
         == ShiftBit(ShiftBit(ShiftBit(ShiftBit(ShiftBit(ShiftBit(ShiftBit(ShiftBit(crc ^ Bits(b)))))))))
  {
    hide ShiftBit;
    var x := Mix(crc, b);
    assert Iterate(ShiftBit, 1, x) == ShiftBit(Iterate(ShiftBit, 0, x));
    assert Iterate(ShiftBit, 2, x) == ShiftBit(Iterate(ShiftBit, 1, x));
    assert Iterate(ShiftBit, 3, x) == ShiftBit(Iterate(ShiftBit, 2, x));
    assert Iterate(ShiftBit, 4, x) == ShiftBit(Iterate(ShiftBit, 3, x));
    assert Iterate(ShiftBit, 5, x) == ShiftBit(Iterate(ShiftBit, 4, x));
    assert Iterate(ShiftBit, 6, x) == ShiftBit(Iterate(ShiftBit, 5, x));
    assert Iterate(ShiftBit, 7, x) == ShiftBit(Iterate(ShiftBit, 6, x));
    assert Iterate(ShiftBit, 8, x) == ShiftBit(Iterate(ShiftBit, 7, x));
  }

  /** "123456789", on which checksums of this kind are compared. */
  const DIGITS: bytes := [0x31, 0x32, 0x33, 0x34, 0x35, 0x36, 0x37, 0x38, 0x39]

  lemma LowDigitOctets()
    ensures Octet(0x31) == 0x31 && Octet(0x32) == 0x32 && Octet(0x33) == 0x33 && Octet(0x34) == 0x34
  {
  }

  lemma HighDigitOctets()
    ensures Octet(0x35) == 0x35 && Octet(0x36) == 0x36 && Octet(0x37) == 0x37 && Octet(0x38) == 0x38 && Octet(0x39) == 0x39
  {
  }

  lemma DigitOctets()
    ensures Octets(DIGITS) == [0x31, 0x32, 0x33, 0x34, 0x35, 0x36, 0x37, 0x38, 0x39]
  {
    LowDigitOctets();
    HighDigitOctets();
    hide Octet;
  }

  lemma DigitFeeds()
    ensures FeedByte(0xFFFF_FFFF, 0x31) == 0x7C23_1048 && FeedByte(0x7C23_1048, 0x32) == 0xB0AC_BB32
    ensures FeedByte(0xB0AC_BB32, 0x33) == 0x77B7_9C2D && FeedByte(0x77B7_9C2D, 0x34) == 0x641C_1F5C
    ensures FeedByte(0x641C_1F5C, 0x35) == 0x340A_C5E3 && FeedByte(0x340A_C5E3, 0x36) == 0xF68D_2C9E
    ensures FeedByte(0xF68D_2C9E, 0x37) == 0xAFFC_9660 && FeedByte(0xAFFC_9660, 0x38) == 0x651F_2550
    ensures FeedByte(0x651F_2550, 0x39) == 0x340B_C6D9
  {
    EightShifts(0xFFFF_FFFF, 0x31);
    EightShifts(0x7C23_1048, 0x32);
    EightShifts(0xB0AC_BB32, 0x33);
    EightShifts(0x77B7_9C2D, 0x34);
    EightShifts(0x641C_1F5C, 0x35);
    EightShifts(0x340A_C5E3, 0x36);
    EightShifts(0xF68D_2C9E, 0x37);
    EightShifts(0xAFFC_9660, 0x38);
    EightShifts(0x651F_2550, 0x39);
  }

  lemma DigitFold()
    ensures Fold(FeedByte, 0xFFFF_FFFF, [0x31, 0x32, 0x33, 0x34, 0x35, 0x36, 0x37, 0x38, 0x39]) == 0x340B_C6D9
  {
    hide FeedByte;
    var s: bv32, d: octets := 0xFFFF_FFFF, [0x31, 0x32, 0x33, 0x34, 0x35, 0x36, 0x37, 0x38, 0x39];
    assert d[..0] == [] && d[..9] == d;
    DigitFeeds();
    FoldSnoc(FeedByte, s, d, 0);
    FoldSnoc(FeedByte, s, d, 1);
    FoldSnoc(FeedByte, s, d, 2);
    FoldSnoc(FeedByte, s, d, 3);
    FoldSnoc(FeedByte, s, d, 4);
    FoldSnoc(FeedByte, s, d, 5);
    FoldSnoc(FeedByte, s, d, 6);
    FoldSnoc(FeedByte, s, d, 7);
    FoldSnoc(FeedByte, s, d, 8);
  }

  /** The checksum of nothing, and the check value of the CRC-32 of section 8 of RFC 1952. */
  lemma CheckValues()
    ensures Crc32([], []) == 0 && Crc32([], DIGITS) == 0xCBF4_3926 && Crc32(DIGITS, []) == 0xCBF4_3926
  {
    hide Fold, FeedByte, Octet, Octets;
    assert [] + DIGITS == DIGITS && DIGITS + [] == DIGITS;
    RegisterIsFold(0xFFFF_FFFF, DIGITS);
    DigitOctets();
    DigitFold();
    assert !(0x340B_C6D9 as bv32) == 0xCBF4_3926;
  }

  /** The byte that begins `k` bits above the lowest. */
  function ByteAt(crc: bv32, k: nat): octet
    requires k < 32
  {
    ((crc >> k) & 0xFF) as bv8
  }

  /** The lowest byte of a checksum is the first to be stored. */
  function StoredOctets(crc: bv32): octets
  {
    [ByteAt(crc, 0), ByteAt(crc, 8), ByteAt(crc, 16), ByteAt(crc, 24)]
  }

  const ONES: octets := [0xFF, 0xFF, 0xFF, 0xFF]

  function Inverted(c: bv32, k: nat): bv32
    requires k < 32
  {
    ((c >> k) & 0xFF) ^ 0xFF
  }

  lemma InvertedBits(c: bv32)
    ensures Bits(ByteAt(c, 0)) ^ 0xFF == Inverted(c, 0) && Bits(ByteAt(c, 8)) ^ 0xFF == Inverted(c, 8)
    ensures Bits(ByteAt(c, 16)) ^ 0xFF == Inverted(c, 16) && Bits(ByteAt(c, 24)) ^ 0xFF == Inverted(c, 24)
  {
  }

  function Behind(v: bv32, low: bv32): bv32
  {
    (v << 8) ^ low
  }

  predicate Roomy(v: bv32)
  {
    v & 0xFF00_0000 == 0
  }

  /** Putting the inverted bytes together again, the last one first. */
  lemma JoinedBits(c: bv32)
    ensures var v3 := Behind(0, Inverted(c, 24));
      var v2 := Behind(v3, Inverted(c, 16));
      var v1 := Behind(v2, Inverted(c, 8));
      Roomy(0) && Roomy(v3) && Roomy(v2) && Roomy(v1) && Behind(v1, Inverted(c, 0)) == !c
  {
  }

  lemma JoinIs(v: bv32, a: octet, low: bv32)
    requires Roomy(v) && Bits(a) ^ 0xFF == low
    ensures TRACING.join(v, a, 0xFF) == Behind(v, low)
  {
    DoubleEight(v);
    assert Bits(0xFF) == 0xFF;
  }

  lemma JoinFour(a0: octet, a1: octet, a2: octet, a3: octet, v1: bv32, v2: bv32, v3: bv32, v: bv32)
    requires TRACING.join(0, a3, 0xFF) == v3 && TRACING.join(v3, a2, 0xFF) == v2
    requires TRACING.join(v2, a1, 0xFF) == v1 && TRACING.join(v1, a0, 0xFF) == v
    ensures Difference(TRACING, [a0, a1, a2, a3], ONES) == v
  {
    assert TRACING.zero == 0 && ONES == [0xFF, 0xFF, 0xFF, 0xFF];
    hide *;
    FourBytes(TRACING, a0, a1, a2, a3, 0xFF, 0xFF, 0xFF, 0xFF);
  }

  lemma StoredDifference(c: bv32)
    ensures Difference(TRACING, StoredOctets(c), ONES) == !c
  {
    JoinedBits(c);
    InvertedBits(c);
    hide *;
    var v3 := Behind(0, Inverted(c, 24));
    var v2 := Behind(v3, Inverted(c, 16));
    var v1 := Behind(v2, Inverted(c, 8));
    JoinIs(0, ByteAt(c, 24), Inverted(c, 24));
    JoinIs(v3, ByteAt(c, 16), Inverted(c, 16));
    JoinIs(v2, ByteAt(c, 8), Inverted(c, 8));
    JoinIs(v1, ByteAt(c, 0), Inverted(c, 0));
    JoinFour(ByteAt(c, 0), ByteAt(c, 8), ByteAt(c, 16), ByteAt(c, 24), v1, v2, v3, !c);
    StoredAre(c);
  }

  lemma StoredAre(c: bv32)
    ensures StoredOctets(c) == [ByteAt(c, 0), ByteAt(c, 8), ByteAt(c, 16), ByteAt(c, 24)]
  {
  }

  lemma OnesFeeds()
    ensures FeedByte(0, 0xFF) == 0x2D02_EF8D && FeedByte(0x2D02_EF8D, 0xFF) == 0xBE26_12FF
    ensures FeedByte(0xBE26_12FF, 0xFF) == 0x00BE_2612 && FeedByte(0x00BE_2612, 0xFF) == 0xDEBB_20E3
  {
    EightShifts(0, 0xFF);
    EightShifts(0x2D02_EF8D, 0xFF);
    EightShifts(0xBE26_12FF, 0xFF);
    EightShifts(0x00BE_2612, 0xFF);
  }

  lemma OnesFold()
    ensures Fold(FeedByte, 0, ONES) == 0xDEBB_20E3
  {
    hide FeedByte;
    assert ONES[..0] == [] && ONES[..4] == ONES;
    OnesFeeds();
    FoldSnoc(FeedByte, 0, ONES, 0);
    FoldSnoc(FeedByte, 0, ONES, 1);
    FoldSnoc(FeedByte, 0, ONES, 2);
    FoldSnoc(FeedByte, 0, ONES, 3);
  }

  lemma ComplementTwice(s: bv32)
    ensures !(!s) == s && s ^ 0 == s
  {
  }

  /** The residue law: whatever the data, its checksum behind it brings the register to one and the same value. */
  lemma Residue(header: bytes, payload: bytes)
    ensures Fold(FeedByte, 0xFFFF_FFFF, Octets(header + payload) + StoredOctets(Crc32(header, payload))) == 0xDEBB_20E3
  {
    var data, c := Octets(header + payload), Crc32(header, payload);
    var s := Fold(FeedByte, 0xFFFF_FFFF, data);
    RegisterIsFold(0xFFFF_FFFF, header + payload);
    FoldAppend(FeedByte, 0xFFFF_FFFF, data, StoredOctets(c));
    RegisterTraceable();
    ComplementTwice(s);
    hide Fold, FeedByte, StoredOctets, Difference, Traceable;
    StoredDifference(c);
    SameLengths(c);
    WindowDifference(TRACING, s, 0, StoredOctets(c), ONES);
    OnesFold();
  }

  lemma SameLengths(c: bv32)
    ensures |StoredOctets(c)| == |ONES| == 4
  {
  }
}
