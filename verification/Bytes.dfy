/** Bytes, the external vector codec, and the canonical chunking `data.chunks(c)`. */
module Bytes {

  newtype byte = x: int | 0 <= x < 256
  type bytes = seq<byte>

  datatype Option<+T> = None | Some(value: T)

  datatype Result<+T, +E> = Ok(value: T) | Err(error: E)

  function Min(a: int, b: int): (m: int)
    ensures m <= a && m <= b && (m == a || m == b)
  {
    if a <= b then a else b
  }

  function CeilDiv(n: nat, d: nat): nat
    requires d > 0
  {
    (n + d - 1) / d
  }

  /** Sparse ternary vector of the external vector library. */
  datatype SparseVec = SparseVec(pos: seq<nat>, neg: seq<nat>)

  /** The external vector operations. Encoding is lossy and arbitrary. */
  datatype Codec = Codec(
    encode: (bytes, string) -> SparseVec,
    decode: (SparseVec, string, nat) -> bytes,
    bundle: (SparseVec, SparseVec) -> SparseVec)
  {
    /** Decoding to `n` bytes yields exactly `n` bytes. */
    ghost predicate Sized() {
      forall v, p, n: nat :: |decode(v, p, n)| == n
    }

    /** Decoding to fewer bytes yields a prefix of decoding to more. */
    ghost predicate PrefixStable() {
      forall v, p, m: nat, n: nat :: m <= n && |decode(v, p, n)| == n ==> decode(v, p, n)[..m] == decode(v, p, m)
    }
  }

  /** Concatenation of a list of chunks. */
  function Flatten(chunks: seq<bytes>): bytes
  {
    if chunks == [] then [] else chunks[0] + Flatten(chunks[1..])
  }

  /** `data.chunks(c)`: blocks of `c` bytes, the last one possibly shorter. */
  function Chunks(data: bytes, c: nat): seq<bytes>
    requires c > 0
  {
    if data == [] then []
    else if |data| <= c then [data]
    else [data[..c]] + Chunks(data[c..], c)
  }

  /** The shape `chunks(c)` produces: full blocks, then one nonempty block of at most `c`. */
  ghost predicate Canonical(chunks: seq<bytes>, c: nat)
  {
    && (forall i :: 0 <= i < |chunks| - 1 ==> |chunks[i]| == c)
    && (chunks != [] ==> 0 < |chunks[|chunks| - 1]| <= c)
  }

  lemma {:induction false} FlattenAppend(a: seq<bytes>, b: seq<bytes>)
    ensures Flatten(a + b) == Flatten(a) + Flatten(b)
  {
    if a == [] {
      assert a + b == b;
    } else {
      FlattenAppend(a[1..], b);
      assert (a + b)[1..] == a[1..] + b;
    }
  }

  lemma FlattenSnoc(a: seq<bytes>, x: bytes)
    ensures Flatten(a + [x]) == Flatten(a) + x
  {
    FlattenAppend(a, [x]);
    assert Flatten([x]) == x + Flatten([]);
  }

  /** Euclidean quotients are unique. */
  lemma DivUnique(n: int, c: int, q: int)
    requires c > 0 && c * q <= n < c * q + c
    ensures n / c == q
  {
    var d := n / c;
    assert c * d <= n < c * d + c;
    if d < q { assert c * (d + 1) <= c * q by { MulMono(c, d + 1, q); } }
    if q < d { assert c * (q + 1) <= c * d by { MulMono(c, q + 1, d); } }
  }

  lemma MulMono(c: int, a: int, b: int)
    requires c >= 0 && a <= b
    ensures c * a <= c * b
  {
    assert c * (b - a) >= 0;
    assert c * (b - a) == c * b - c * a;
  }

  lemma MulPred(c: int, i: int)
    ensures c * (i - 1) == c * i - c
  {
  }

  lemma CeilDivUnique(n: nat, c: nat, q: nat)
    requires c > 0 && c * q - c < n <= c * q
    ensures CeilDiv(n, c) == q
  {
    DivUnique(n + c - 1, c, q);
  }

  /** Chunking loses nothing, and cuts canonically. */
  lemma {:induction false} ChunksSpec(data: bytes, c: nat)
    requires c > 0
    ensures Flatten(Chunks(data, c)) == data
    ensures Canonical(Chunks(data, c), c)
    ensures Chunks(data, c) == [] <==> data == []
    decreases |data|
  {
    if data == [] {
    } else if |data| <= c {
      assert Flatten([data]) == data + Flatten([]);
    } else {
      var rest, all := Chunks(data[c..], c), Chunks(data, c);
      ChunksSpec(data[c..], c);
      assert all[1..] == rest && rest != [];
      forall i | 0 <= i < |all| - 1 ensures |all[i]| == c {
        if i > 0 { assert all[i] == rest[i - 1]; }
      }
      assert all[|all| - 1] == rest[|rest| - 1];
    }
  }

  /** Each chunk is the expected slice of the data. */
  lemma {:induction false} ChunkAt(data: bytes, c: nat, i: nat)
    requires c > 0 && i < |Chunks(data, c)|
    ensures c * i < |data| && Chunks(data, c)[i] == data[c * i..Min(c * i + c, |data|)]
    decreases i
  {
    if |data| > c && i > 0 {
      ChunkAt(data[c..], c, i - 1);
      MulPred(c, i);
      var from, end := c * i, Min(c * i + c, |data|);
      assert data[c..][from - c..end - c] == data[from..end];
    } else {
      assert c * 0 == 0;
    }
  }

  lemma {:induction false} ChunkCount(data: bytes, c: nat)
    requires c > 0
    ensures |Chunks(data, c)| == CeilDiv(|data|, c)
    ensures c * |Chunks(data, c)| - c < |data| <= c * |Chunks(data, c)|
    decreases |data|
  {
    var k := |Chunks(data, c)|;
    if |data| > c {
      ChunkCount(data[c..], c);
      assert c * (k - 1) == c * k - c;
    } else if data == [] {
      assert c * 0 == 0;
    } else {
      assert c * 1 == c;
    }
    CeilDivUnique(|data|, c, k);
  }

  /** `chunks(c)` is the only canonical way to cut a byte string. */
  lemma {:induction false} CanonicalUnique(chunks: seq<bytes>, c: nat)
    requires c > 0 && Canonical(chunks, c)
    ensures Chunks(Flatten(chunks), c) == chunks
  {
    if chunks == [] {
    } else if |chunks| == 1 {
      assert Flatten(chunks) == chunks[0] + Flatten(chunks[1..]);
      assert Flatten(chunks) == chunks[0];
    } else {
      var rest := chunks[1..];
      assert Canonical(rest, c) by {
        forall i | 0 <= i < |rest| - 1 ensures |rest[i]| == c { assert rest[i] == chunks[i + 1]; }
        assert rest[|rest| - 1] == chunks[|chunks| - 1];
      }
      CanonicalUnique(rest, c);
      var flat := Flatten(chunks);
      assert rest[0] == chunks[1];
      assert |rest[0]| > 0;
      assert Flatten(rest) == rest[0] + Flatten(rest[1..]);
      assert flat[..c] == chunks[0] && flat[c..] == Flatten(rest);
    }
  }
}
