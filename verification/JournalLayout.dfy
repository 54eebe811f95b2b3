/** Where the fields of journal records are, byte by byte, and what the stored checksum amounts to. */
module JournalLayout {
  import opened Bytes
  import opened JournalFormat
  import opened ShiftRegister
  import Octetting
  import Words
  import Crc

  // ---------------------------------------------------------------- little-endian numbers

  /** The bytes of a number are its digits to the base 256, the lowest one first. */
  lemma {:induction false} LeDigit(n: nat, k: nat, i: nat)
    requires i < k
    ensures Le(n, k)[i] as nat == n / Power256(i) % 256
    decreases i
  {
    if i == 0 {
      assert n / 1 == n;
    } else {
      LeDigit(n / 256, k - 1, i - 1);
      DivTwice(n, 256, Power256(i - 1));
    }
  }

  lemma DivTwice(n: nat, a: nat, b: nat)
    requires a > 0 && b > 0
    ensures a * b > 0 && n / a / b == n / (a * b)
  {
    var q := n / a / b;
    assert b * q <= n / a < b * (q + 1) by { DivBounds(n / a, b); }
    DivBounds(n, a);
    MulMono(a, b * q, n / a);
    MulMono(a, n / a + 1, b * (q + 1));
    assert a * (b * q) == a * b * q && a * (b * (q + 1)) == a * b * q + a * b;
    DivUnique(n, a * b, q);
  }

  lemma DivBounds(n: nat, d: nat)
    requires d > 0
    ensures d * (n / d) <= n < d * (n / d + 1)
  {
  }

  // ---------------------------------------------------------------- the checksum field

  function Bit(c: bv32): nat
  {
    if Words.LowBitSet(c) then 1 else 0
  }

  function Shifted(c: bv32, i: nat): bv32
  {
    if i == 0 then c else Words.Pop(Shifted(c, i - 1))
  }

  lemma EightDigits(c: bv32, k: nat)
    requires k >= 8
    ensures Words.LowValue(c, k)
         == Bit(c) + 2 * Bit(Shifted(c, 1)) + 4 * Bit(Shifted(c, 2)) + 8 * Bit(Shifted(c, 3)) + 16 * Bit(Shifted(c, 4))
            + 32 * Bit(Shifted(c, 5)) + 64 * Bit(Shifted(c, 6)) + 128 * Bit(Shifted(c, 7)) + 256 * Words.LowValue(Shifted(c, 8), k - 8)
  {
    hide Words.LowBitSet, Words.Pop;
    Digit(c, k);
    Digit(Shifted(c, 1), k - 1);
    Digit(Shifted(c, 2), k - 2);
    Digit(Shifted(c, 3), k - 3);
    Digit(Shifted(c, 4), k - 4);
    Digit(Shifted(c, 5), k - 5);
    Digit(Shifted(c, 6), k - 6);
    Digit(Shifted(c, 7), k - 7);
    hide Words.LowValue, Bit;
    assert Shifted(c, 1) == Words.Pop(c);
  }

  lemma Digit(c: bv32, k: nat)
    requires k > 0
    ensures Words.LowValue(c, k) == Bit(c) + 2 * Words.LowValue(Words.Pop(c), k - 1)
  {
  }

  /** The binary digits of a number below 256. */
  lemma LowDigits(b0: nat, b1: nat, b2: nat, b3: nat, b4: nat, b5: nat, b6: nat, b7: nat, rest: nat)
    requires b0 <= 1 && b1 <= 1 && b2 <= 1 && b3 <= 1 && b4 <= 1 && b5 <= 1 && b6 <= 1 && b7 <= 1
    ensures var n := b0 + 2 * b1 + 4 * b2 + 8 * b3 + 16 * b4 + 32 * b5 + 64 * b6 + 128 * b7 + 256 * rest;
      && n / 256 == rest
      && Octetting.Octet((n % 256) as byte)
         == Octetting.Assemble(b0 == 1, b1 == 1, b2 == 1, b3 == 1, b4 == 1, b5 == 1, b6 == 1, b7 == 1)
  {
    hide Octetting.Assemble;
    var m := b0 + 2 * b1 + 4 * b2 + 8 * b3 + 16 * b4 + 32 * b5 + 64 * b6 + 128 * b7;
    assert (m + 256 * rest) % 256 == m;
    assert m / 2 == b1 + 2 * b2 + 4 * b3 + 8 * b4 + 16 * b5 + 32 * b6 + 64 * b7;
    assert m / 4 == b2 + 2 * b3 + 4 * b4 + 8 * b5 + 16 * b6 + 32 * b7;
    assert m / 8 == b3 + 2 * b4 + 4 * b5 + 8 * b6 + 16 * b7;
    assert m / 16 == b4 + 2 * b5 + 4 * b6 + 8 * b7;
    assert m / 32 == b5 + 2 * b6 + 4 * b7;
    assert m / 64 == b6 + 2 * b7;
    assert m / 128 == b7;
  }

  lemma PopIs(c: bv32)
    ensures Words.Pop(c) == c >> 1 && Words.Pop(c >> 1) == c >> 2 && Words.Pop(c >> 2) == c >> 3 && Words.Pop(c >> 3) == c >> 4
    ensures Words.Pop(c >> 4) == c >> 5 && Words.Pop(c >> 5) == c >> 6 && Words.Pop(c >> 6) == c >> 7 && Words.Pop(c >> 7) == c >> 8
  {
  }

  lemma ShiftNext(c: bv32, i: nat)
    ensures Shifted(c, 0) == c && Shifted(c, i + 1) == Words.Pop(Shifted(c, i))
  {
    hide Words.Pop;
  }

  lemma ShiftedIs(c: bv32)
    ensures Shifted(c, 1) == c >> 1 && Shifted(c, 2) == c >> 2 && Shifted(c, 3) == c >> 3 && Shifted(c, 4) == c >> 4
    ensures Shifted(c, 5) == c >> 5 && Shifted(c, 6) == c >> 6 && Shifted(c, 7) == c >> 7 && Shifted(c, 8) == c >> 8
  {
    hide *;
    PopIs(c);
    ShiftNext(c, 0);
    ShiftNext(c, 1);
    ShiftNext(c, 2);
    ShiftNext(c, 3);
    ShiftNext(c, 4);
    ShiftNext(c, 5);
    ShiftNext(c, 6);
    ShiftNext(c, 7);
  }

  lemma BitIs(c: bv32)
    ensures Bit(c) == 1 <==> c & 1 == 1
  {
  }

  lemma ShiftBits(c: bv32)
    ensures Shifted(c, 8) == c >> 8
    ensures Octetting.Assemble(Bit(c) == 1, Bit(Shifted(c, 1)) == 1, Bit(Shifted(c, 2)) == 1, Bit(Shifted(c, 3)) == 1,
                               Bit(Shifted(c, 4)) == 1, Bit(Shifted(c, 5)) == 1, Bit(Shifted(c, 6)) == 1, Bit(Shifted(c, 7)) == 1)
         == (c & 0xFF) as bv8
  {
    hide Shifted, Bit, Octetting.Assemble;
    ShiftedIs(c);
    LowByte(c);
    BitIs(c);
    BitIs(c >> 1);
    BitIs(c >> 2);
    BitIs(c >> 3);
    BitIs(c >> 4);
    BitIs(c >> 5);
    BitIs(c >> 6);
    BitIs(c >> 7);
  }

  lemma LowByte(c: bv32)
    ensures Octetting.Assemble(c & 1 == 1, (c >> 1) & 1 == 1, (c >> 2) & 1 == 1, (c >> 3) & 1 == 1, (c >> 4) & 1 == 1,
                               (c >> 5) & 1 == 1, (c >> 6) & 1 == 1, (c >> 7) & 1 == 1) == (c & 0xFF) as bv8
  {
  }

  lemma LowOctet(c: bv32, k: nat)
    requires k >= 8
    ensures Octetting.Octet((Words.LowValue(c, k) % 256) as byte) == (c & 0xFF) as bv8
    ensures Words.LowValue(c, k) / 256 == Words.LowValue(c >> 8, k - 8)
  {
    EightDigits(c, k);
    ShiftBits(c);
    hide Words.LowValue, Octetting.Octet, Octetting.Assemble, Shifted;
    LowDigits(Bit(c), Bit(Shifted(c, 1)), Bit(Shifted(c, 2)), Bit(Shifted(c, 3)), Bit(Shifted(c, 4)), Bit(Shifted(c, 5)),
              Bit(Shifted(c, 6)), Bit(Shifted(c, 7)), Words.LowValue(Shifted(c, 8), k - 8));
  }

  lemma ByteSums(c: bv32)
    ensures LowOf(c) == Crc.ByteAt(c, 0) && LowOf(Above(c)) == Crc.ByteAt(c, 8)
    ensures LowOf(Above(Above(c))) == Crc.ByteAt(c, 16) && LowOf(Above(Above(Above(c)))) == Crc.ByteAt(c, 24)
  {
  }

  lemma FourLe(n: nat)
    ensures Le(n, 4) == [(n % 256) as byte, (n / 256 % 256) as byte, (n / 256 / 256 % 256) as byte, (n / 256 / 256 / 256 % 256) as byte]
  {
    var n1, n2, n3 := n / 256, n / 256 / 256, n / 256 / 256 / 256;
    assert Le(n3 / 256, 0) == [] && Le(n3, 1) == [(n3 % 256) as byte] + Le(n3 / 256, 0);
    assert Le(n2, 2) == [(n2 % 256) as byte] + Le(n3, 1);
    assert Le(n1, 3) == [(n1 % 256) as byte] + Le(n2, 2);
  }

  lemma FourOctets(n: nat)
    ensures Octetting.Octets(Le(n, 4)) == [
      Octetting.Octet((n % 256) as byte), Octetting.Octet((n / 256 % 256) as byte),
      Octetting.Octet((n / 256 / 256 % 256) as byte), Octetting.Octet((n / 256 / 256 / 256 % 256) as byte)]
  {
    hide Octetting.Octet, Le;
    FourLe(n);
  }

  /** The lowest byte of a register, and the register without it. */
  function LowOf(c: bv32): bv8
  {
    (c & 0xFF) as bv8
  }

  function Above(c: bv32): bv32
  {
    c >> 8
  }

  lemma LowAbove(c: bv32, k: nat)
    requires k >= 8
    ensures Octetting.Octet((Words.LowValue(c, k) % 256) as byte) == LowOf(c)
    ensures Words.LowValue(c, k) / 256 == Words.LowValue(Above(c), k - 8)
  {
    hide Words.LowValue, Octetting.Octet;
    LowOctet(c, k);
  }

  lemma FourLow(c: bv32)
    ensures var n := Words.Value(c);
      && Octetting.Octet((n % 256) as byte) == LowOf(c)
      && Octetting.Octet((n / 256 % 256) as byte) == LowOf(Above(c))
      && Octetting.Octet((n / 256 / 256 % 256) as byte) == LowOf(Above(Above(c)))
      && Octetting.Octet((n / 256 / 256 / 256 % 256) as byte) == LowOf(Above(Above(Above(c))))
  {
    assert Words.Value(c) == Words.LowValue(c, 32);
    hide *;
    LowAbove(c, 32);
    LowAbove(Above(c), 24);
    LowAbove(Above(Above(c)), 16);
    LowAbove(Above(Above(Above(c))), 8);
  }

  /** The four bytes in which a checksum is stored hold its bits, the lowest byte first. */
  lemma StoredChecksum(c: bv32)
    ensures Octetting.Octets(Le(Words.Value(c), 4)) == Crc.StoredOctets(c)
  {
    ByteSums(c);
    hide *;
    FourOctets(Words.Value(c));
    FourLow(c);
    Crc.StoredAre(c);
  }

  /**
   * Every record header written ends with a checksum that, fed after the header's other fields and the payload, brings the
   * register to the residue of the CRC-32.
   */
  lemma HeaderResidue(h: RecordHeader, payload: bytes)
    ensures Fold(Crc.FeedByte, 0xFFFF_FFFF,
                 Octetting.Octets(h.ToBytes(payload)[..28] + payload + h.ToBytes(payload)[28..])) == 0xDEBB_20E3
  {
    var fields, c := h.Fields(), Crc.Crc32(h.Fields(), payload);
    var stored := Le(Words.Value(c), 4);
    StoredLast(h, payload, fields, stored);
    hide *;
    StoredChecksum(c);
    Crc.Residue(fields, payload);
    OctetsJoin(fields + payload, stored);
  }

  lemma StoredLast(h: RecordHeader, payload: bytes, fields: bytes, stored: bytes)
    requires fields == h.Fields() && stored == Le(Words.Value(Crc.Crc32(fields, payload)), 4)
    ensures h.ToBytes(payload)[..28] == fields && h.ToBytes(payload)[28..] == stored
  {
    hide Le, Crc.Crc32, Words.Value;
    assert h.ToBytes(payload) == fields + stored;
  }

  lemma OctetsJoin(a: bytes, b: bytes)
    ensures Octetting.Octets(a + b) == Octetting.Octets(a) + Octetting.Octets(b)
  {
    hide Octetting.Octet;
  }

  // ---------------------------------------------------------------- headers and operations

  /** The places of a header's fields. */
  lemma HeaderLayout(txnId: u64, timestamp: u64, length: nat, payload: bytes)
    ensures var b := NewHeader(txnId, timestamp, length).ToBytes(payload);
      && |b| == 32 && b[..8] == [0x45, 0x4D, 0x42, 0x52, 1, 0, 1, 0]
      && b[8..16] == Le(txnId, 8) && b[16..24] == Le(timestamp, 8) && b[24..28] == Le(length % 0x1_0000_0000, 4)
  {
    hide Le, Crc.Crc32, Words.Value;
    var h := NewHeader(txnId, timestamp, length);
    FirstBytes();
    var c := Words.Value(Crc.Crc32(h.Fields(), payload));
    HeaderSlices(Le(h.magic, 4), Le(h.version, 2), Le(h.flags.ToU16(), 2), Le(h.txnId, 8), Le(h.timestamp, 8),
                 Le(h.payloadLen, 4), Le(c, 4));
    var b := h.ToBytes(payload);
    assert b[..8] == b[0..4] + b[4..6] + b[6..8];
  }

  lemma FirstBytes()
    ensures Le(JOURNAL_MAGIC, 4) == [0x45, 0x4D, 0x42, 0x52] && Le(1, 2) == [1, 0]
  {
    FourLe(JOURNAL_MAGIC);
    assert Le(1, 2) == [1] + Le(0, 1) && Le(0, 1) == [0] + Le(0, 0);
  }

  /** The tags and places of the operations' fields. */
  lemma OpLayout(op: JournalOp)
    ensures var b := OpBytes(op);
      match op
      case WriteChunk(id, hash, len) => |b| == 49 && b[0] == 1 && b[1..9] == Le(id, 8) && b[9..41] == hash && b[41..] == Le(len, 8)
      case DeleteChunk(id) => |b| == 9 && b[0] == 2 && b[1..] == Le(id, 8)
      case WriteFile(path, ids, size) =>
        var at := 5 + |path|;
        && |b| == at + 4 + 8 * |ids| + 8 && b[0] == 3 && b[1..5] == Le(|path| % 0x1_0000_0000, 4) && b[5..at] == path
        && b[at..at + 4] == Le(|ids| % 0x1_0000_0000, 4) && b[at + 4 + 8 * |ids|..] == Le(size, 8)
        && forall i :: 0 <= i < |ids| ==> b[at + 4 + 8 * i..at + 12 + 8 * i] == Le(ids[i], 8)
      case DeleteFile(path) => |b| == 5 + |path| && b[0] == 4 && b[1..5] == Le(|path| % 0x1_0000_0000, 4) && b[5..] == path
      case UpdateRoot(hash) => |b| == 33 && b[0] == 5 && b[1..] == hash
      case Barrier => b == [6]
  {
    hide Le;
    match op
    case WriteChunk(id, hash, len) => ChunkSlices(1, Le(id, 8), hash, Le(len, 8), []);
      assert OpBytes(op) + [] == OpBytes(op);
      assert OpBytes(op)[41..] == OpBytes(op)[41..49];
    case WriteFile(path, ids, size) =>
      FileSlices(3, Le(Narrow(|path|), 4), path, Le(Narrow(|ids|), 4), IdsBytes(ids), Le(size, 8), []);
      assert OpBytes(op) + [] == OpBytes(op);
      var b, at := OpBytes(op), 9 + |path|;
      assert b[at + 8 * |ids|..] == b[at + 8 * |ids|..at + 8 * |ids| + 8];
      var head := [3] + Le(Narrow(|path|), 4) + path + Le(Narrow(|ids|), 4);
      Slice(head, IdsBytes(ids), Le(size, 8) + []);
      forall i | 0 <= i < |ids| ensures b[at + 8 * i..at + 8 * i + 8] == Le(ids[i], 8) {
        IdAt(ids, i);
        assert b[at..at + 8 * |ids|][8 * i..8 * i + 8] == b[at + 8 * i..at + 8 * i + 8];
      }
    case _ =>
  }

  lemma {:induction false} IdAt(ids: seq<u64>, i: nat)
    requires i < |ids|
    ensures IdsBytes(ids)[8 * i..8 * i + 8] == Le(ids[i], 8)
    decreases |ids|
  {
    hide Le;
    var n := |ids| - 1;
    var before := IdsBytes(ids[..n]);
    if i < n {
      IdAt(ids[..n], i);
      assert (before + Le(ids[n], 8))[8 * i..8 * i + 8] == before[8 * i..8 * i + 8];
    } else {
      assert (before + Le(ids[n], 8))[8 * n..] == Le(ids[n], 8);
    }
  }

  // ---------------------------------------------------------------- what parses

  lemma {:induction false} LeOf(b: bytes)
    ensures Le(FromLe(b), |b|) == b
  {
    if b != [] {
      LeOf(b[1..]);
      var n := FromLe(b[1..]);
      assert (b[0] as nat + 256 * n) % 256 == b[0] as nat && (b[0] as nat + 256 * n) / 256 == n;
      assert b == [b[0]] + b[1..];
    }
  }

  /** A header that parses is the one whose fields and checksum the bytes print. */
  lemma ParsedHeader(data: bytes)
    requires RecordHeader.FromBytes(data).Ok?
    ensures |data| >= HEADER_SIZE && data[..28] == RecordHeader.FromBytes(data).value.Fields()
    ensures data[28..32] == Le(Words.Value(RecordHeader.FromBytes(data).value.checksum), 4)
  {
    LeOf(data[0..4]);
    LeOf(data[4..6]);
    LeOf(data[6..8]);
    LeOf(data[8..16]);
    LeOf(data[16..24]);
    LeOf(data[24..28]);
    LeOf(data[28..32]);
    Words.ValueOfWord(U32(data[28..32]));
    hide Le, FromLe, Words.Value, Words.Word;
    assert data[..28] == data[0..4] + data[4..6] + data[6..8] + data[8..16] + data[16..24] + data[24..28];
  }

  /** The operation with its path as `lossy` decodes it. */
  function Decoded(op: JournalOp, lossy: bytes -> bytes): JournalOp
  {
    match op
    case WriteFile(path, ids, size) => WriteFile(lossy(path), ids, size)
    case DeleteFile(path) => DeleteFile(lossy(path))
    case _ => op
  }

  lemma ParseDecodes(data: bytes, lossy: bytes -> bytes)
    ensures var raw := ParseOp(data, p => p);
      ParseOp(data, lossy) == if raw.Err? then raw else Ok((Decoded(raw.value.0, lossy), raw.value.1))
  {
    hide FromLe;
  }

  lemma {:induction false} IdsPrinted(data: bytes, pos: nat, count: nat)
    requires pos + 8 * count <= |data|
    ensures IdsBytes(IdsFrom(data, pos, count)) == data[pos..pos + 8 * count]
    decreases count
  {
    if count > 0 {
      IdsPrinted(data, pos, count - 1);
      var ids, last := IdsFrom(data, pos, count), data[pos + 8 * (count - 1)..pos + 8 * count];
      assert ids[..count - 1] == IdsFrom(data, pos, count - 1);
      LeOf(last);
      assert data[pos..pos + 8 * count] == data[pos..pos + 8 * (count - 1)] + last;
    }
  }

  /** What parses is what the operation prints. */
  lemma ParsedOp(data: bytes)
    requires ParseOp(data, p => p).Ok?
    ensures var (op, n) := ParseOp(data, p => p).value; LengthsFit(op) && n <= |data| && data[..n] == OpBytes(op)
  {
    if data[0] == 1 {
      ParsedChunk(data);
    } else if data[0] == 2 {
      LeOf(data[1..9]);
      hide FromLe, Le;
      assert data[..9] == [2] + data[1..9];
    } else if data[0] == 3 {
      ParsedFile(data);
    } else if data[0] == 4 {
      LeOf(data[1..5]);
      hide FromLe, Le;
      var end := 5 + U32(data[1..5]);
      assert data[..end] == [4] + data[1..5] + data[5..end];
    } else if data[0] == 5 {
      assert data[..33] == [5] + data[1..33];
    } else {
      assert data[..1] == [6];
    }
  }

  lemma ParsedChunk(data: bytes)
    requires |data| >= 49 && data[0] == 1
    ensures var (op, n) := ParseOp(data, p => p).value; LengthsFit(op) && n <= |data| && data[..n] == OpBytes(op)
  {
    LeOf(data[1..9]);
    LeOf(data[41..49]);
    hide FromLe, Le;
    assert data[..49] == [1] + data[1..9] + data[9..41] + data[41..49];
  }

  lemma ParsedFile(data: bytes)
    requires data != [] && data[0] == 3 && ParseWriteFile(data, p => p).Ok?
    ensures var (op, n) := ParseWriteFile(data, p => p).value; LengthsFit(op) && n <= |data| && data[..n] == OpBytes(op)
  {
    hide FromLe, OpBytes, IdsFrom;
    var n: nat := U32(data[1..5]);
    FileBytes(data, n, U32(data[5 + n..9 + n]));
  }

  lemma FileBytes(data: bytes, n: nat, count: nat)
    requires 17 + n + 8 * count <= |data| && data[0] == 3
    requires n == U32(data[1..5]) && count == U32(data[5 + n..9 + n])
    ensures LengthsFit(FileAt(data, n, count, p => p).0)
    ensures OpBytes(FileAt(data, n, count, p => p).0) == data[..17 + n + 8 * count]
  {
    var at := 9 + n + 8 * count;
    LeOf(data[1..5]);
    LeOf(data[5 + n..9 + n]);
    LeOf(data[at..at + 8]);
    IdsPrinted(data, 9 + n, count);
    hide FromLe, Le, IdsBytes, IdsFrom;
    FileSplit(data, n, at);
  }

  lemma FileSplit(data: bytes, n: nat, at: nat)
    requires 9 + n <= at && at + 8 <= |data| && data[0] == 3
    ensures data[..at + 8] == [3] + data[1..5] + data[5..5 + n] + data[5 + n..9 + n] + data[9 + n..at] + data[at..at + 8]
  {
  }

  /**
   * The byte strings that parse are exactly those that begin with a printed operation, which is then what they parse to;
   * any other is empty, begins with no tag, or is cut short.
   */
  lemma ParsesWhen(data: bytes, lossy: bytes -> bytes)
    ensures ParseOp(data, lossy).Ok? <==> exists op, rest :: Begins(data, op, rest)
    ensures forall op, rest :: Begins(data, op, rest) ==> ParseOp(data, lossy) == Ok((Decoded(op, lossy), |OpBytes(op)|))
    ensures ParseOp(data, lossy).Err? ==>
      ParseOp(data, lossy).error == if data == [] then EmptyData else if 1 <= data[0] <= 6 then Truncated else UnknownOp
  {
    ParseDecodes(data, lossy);
    hide OpBytes, LengthsFit, Decoded;
    forall op, rest | Begins(data, op, rest) ensures ParseOp(data, lossy) == Ok((Decoded(op, lossy), |OpBytes(op)|)) {
      OpRoundTrip(op, rest, p => p);
    }
    if ParseOp(data, lossy).Ok? {
      ParsedOp(data);
      var (op, n) := ParseOp(data, p => p).value;
      assert data == data[..n] + data[n..];
      assert Begins(data, op, data[n..]);
    }
  }

  ghost predicate Begins(data: bytes, op: JournalOp, rest: bytes)
  {
    LengthsFit(op) && data == OpBytes(op) + rest
  }
}
