/** The binary record format of the write-ahead journal: little-endian fields, headers and operations. */
module JournalFormat {
  import opened Bytes
  import Crc
  import Words

  type u16 = n: nat | n < 0x1_0000
  type u32 = n: nat | n < 0x1_0000_0000
  type u64 = n: nat | n < 0x1_0000_0000_0000_0000
  type Hash32 = h: bytes | |h| == 32 witness seq(32, _ => 0)

  const JOURNAL_MAGIC: u32 := 0x52424D45
  const JOURNAL_VERSION: u16 := 1
  const HEADER_SIZE: nat := 32
  const U32_SIZE: nat := 0x1_0000_0000

  datatype Error =
    | HeaderTooShort | InvalidMagic | UnsupportedVersion | InvalidFlags
    | EmptyData | Truncated | UnknownOp | ChecksumMismatch | UnexpectedEof | Closed

  /** `n.to_le_bytes()` in `k` bytes; higher digits are dropped, as by a narrowing cast. */
  function Le(n: nat, k: nat): (r: bytes)
    ensures |r| == k
    decreases k, n
  {
    if k == 0 then [] else [(n % 256) as byte] + Le(n / 256, k - 1)
  }

  function FromLe(b: bytes): nat
  {
    if b == [] then 0 else (b[0] as nat) + 256 * FromLe(b[1..])
  }

  function Power256(k: nat): (r: nat)
    ensures r > 0
  {
    if k == 0 then 1 else 256 * Power256(k - 1)
  }

  lemma {:induction false} LeRoundTrip(n: nat, k: nat)
    requires n < Power256(k)
    ensures FromLe(Le(n, k)) == n
    decreases k
  {
    if k > 0 {
      LeRoundTrip(n / 256, k - 1);
      assert Le(n, k)[1..] == Le(n / 256, k - 1);
    }
  }

  lemma {:induction false} FromLeBound(b: bytes)
    ensures FromLe(b) < Power256(|b|)
  {
    if b != [] {
      FromLeBound(b[1..]);
    }
  }

  function U16(b: bytes): u16
    requires |b| == 2
  {
    FromLeBound(b);
    assert Power256(2) == 0x1_0000;
    FromLe(b)
  }

  function U32(b: bytes): u32
    requires |b| == 4
  {
    FromLeBound(b);
    assert Power256(4) == 0x1_0000_0000;
    FromLe(b)
  }

  function U64(b: bytes): u64
    requires |b| == 8
  {
    FromLeBound(b);
    assert Power256(8) == 0x1_0000_0000_0000_0000;
    FromLe(b)
  }

  lemma U16Le(n: u16)
    ensures U16(Le(n, 2)) == n
  {
    assert Power256(2) == 0x1_0000;
    LeRoundTrip(n, 2);
  }

  lemma U32Le(n: u32)
    ensures U32(Le(n, 4)) == n
  {
    assert Power256(4) == 0x1_0000_0000;
    LeRoundTrip(n, 4);
  }

  lemma U64Le(n: u64)
    ensures U64(Le(n, 8)) == n
  {
    assert Power256(8) == 0x1_0000_0000_0000_0000;
    LeRoundTrip(n, 8);
  }

  // ---------------------------------------------------------------- record headers

  datatype RecordFlags = Pending | Committed | Checkpointed | Aborted
  {
    function ToU16(): u16 {
      match this
      case Pending => 0
      case Committed => 1
      case Checkpointed => 2
      case Aborted => 3
    }

    static function FromU16(v: u16): Option<RecordFlags> {
      if v == 0 then Some(Pending)
      else if v == 1 then Some(Committed)
      else if v == 2 then Some(Checkpointed)
      else if v == 3 then Some(Aborted)
      else None
    }
  }

  datatype RecordHeader = RecordHeader(
    magic: u32, version: u16, flags: RecordFlags, txnId: u64, timestamp: u64, payloadLen: u32, checksum: bv32)
  {
    /** The 28 bytes before the checksum. */
    function Fields(): (r: bytes)
      ensures |r| == 28
    {
      Le(magic, 4) + Le(version, 2) + Le(flags.ToU16(), 2) + Le(txnId, 8) + Le(timestamp, 8) + Le(payloadLen, 4)
    }

    /** `to_bytes`: the stored checksum is computed here, not taken from the header. */
    function ToBytes(payload: bytes): (r: bytes)
      ensures |r| == HEADER_SIZE
    {
      Fields() + Le(Words.Value(Crc.Crc32(Fields(), payload)), 4)
    }

    predicate VerifyChecksum(payload: bytes) {
      Crc.Crc32(Fields(), payload) == checksum
    }

    static function FromBytes(data: bytes): Result<RecordHeader, Error> {
      if |data| < HEADER_SIZE then Err(HeaderTooShort)
      else if U32(data[0..4]) != JOURNAL_MAGIC then Err(InvalidMagic)
      else if U16(data[4..6]) != JOURNAL_VERSION then Err(UnsupportedVersion)
      else
        var flags := RecordFlags.FromU16(U16(data[6..8]));
        if flags.None? then Err(InvalidFlags)
        else Ok(RecordHeader(JOURNAL_MAGIC, JOURNAL_VERSION, flags.value, U64(data[8..16]), U64(data[16..24]),
                             U32(data[24..28]), Words.Word(U32(data[28..32]))))
    }
  }

  /** `RecordHeader::new`; the payload length is narrowed to 32 bits. */
  function NewHeader(txnId: u64, timestamp: u64, payloadLength: nat): RecordHeader
  {
    RecordHeader(JOURNAL_MAGIC, JOURNAL_VERSION, Committed, txnId, timestamp, Narrow(payloadLength), 0)
  }

  lemma ChecksumLe(c: bv32)
    ensures Words.Word(U32(Le(Words.Value(c), 4))) == c
  {
    U32Le(Words.Value(c));
    Words.WordOfValue(c);
  }

  lemma Slice(a: bytes, b: bytes, c: bytes)
    ensures (a + b + c)[|a|..|a| + |b|] == b
  {
  }

  lemma Regroup(a: bytes, b: bytes, c: bytes, d: bytes)
    ensures a + (b + c) + d == a + b + (c + d) && a + b + (c + d) == a + b + c + d && a + (b + c + d) == a + b + c + d
  {
  }

  lemma HeaderSlices(a: bytes, b: bytes, c: bytes, d: bytes, e: bytes, f: bytes, g: bytes)
    requires |a| == 4 && |b| == 2 && |c| == 2 && |d| == 8 && |e| == 8 && |f| == 4 && |g| == 4
    ensures var data := a + b + c + d + e + f + g;
      && data[0..4] == a && data[4..6] == b && data[6..8] == c && data[8..16] == d && data[16..24] == e
      && data[24..28] == f && data[28..32] == g
  {
    var data := a + b + c + d + e + f + g;
    assert data[0..4] == a;
    assert data == (a + b) + (c + d + e + f + g) && data == (a + b + c) + (d + e + f + g);
    assert data == (a + b + c + d) + (e + f + g) && data == (a + b + c + d + e) + (f + g);
    Slice(a, b, c + d + e + f + g);
    Slice(a + b, c, d + e + f + g);
    Slice(a + b + c, d, e + f + g);
    Slice(a + b + c + d, e, f + g);
    Slice(a + b + c + d + e, f, g);
    assert data[28..32] == g;
  }

  /** A printed header parses back to itself, with the checksum of its fields and payload filled in. */
  lemma HeaderRoundTrip(h: RecordHeader, payload: bytes)
    requires h.magic == JOURNAL_MAGIC && h.version == JOURNAL_VERSION
    ensures RecordHeader.FromBytes(h.ToBytes(payload)) == Ok(h.(checksum := Crc.Crc32(h.Fields(), payload)))
    ensures h.(checksum := Crc.Crc32(h.Fields(), payload)).VerifyChecksum(payload)
  {
    var c := Crc.Crc32(h.Fields(), payload);
    HeaderSlices(Le(h.magic, 4), Le(h.version, 2), Le(h.flags.ToU16(), 2), Le(h.txnId, 8), Le(h.timestamp, 8),
                 Le(h.payloadLen, 4), Le(Words.Value(c), 4));
    U32Le(h.magic);
    U16Le(h.version);
    FlagsRoundTrip(h.flags);
    U64Le(h.txnId);
    U64Le(h.timestamp);
    U32Le(h.payloadLen);
    ChecksumLe(c);
  }

  lemma FlagsRoundTrip(f: RecordFlags)
    ensures RecordFlags.FromU16(U16(Le(f.ToU16(), 2))) == Some(f)
  {
    U16Le(f.ToU16());
  }

  // ---------------------------------------------------------------- operations

  /** Paths are the UTF-8 bytes of a string. */
  datatype JournalOp =
    | WriteChunk(chunkId: u64, dataHash: Hash32, dataLen: u64)
    | DeleteChunk(chunkId: u64)
    | WriteFile(path: bytes, chunkIds: seq<u64>, size: u64)
    | DeleteFile(path: bytes)
    | UpdateRoot(rootHash: Hash32)
    | Barrier

  function IdsBytes(ids: seq<u64>): (r: bytes)
    ensures |r| == 8 * |ids|
  {
    if ids == [] then [] else IdsBytes(ids[..|ids| - 1]) + Le(ids[|ids| - 1], 8)
  }

  /** `n as u32`. */
  function Narrow(n: nat): (r: u32)
    ensures r == n <==> n < U32_SIZE
  {
    n % U32_SIZE
  }

  /** `JournalOp::to_bytes`; lengths and counts are narrowed to 32 bits. */
  function OpBytes(op: JournalOp): (r: bytes)
    ensures |r| > 0
  {
    match op
    case WriteChunk(id, hash, len) => [1] + Le(id, 8) + hash + Le(len, 8)
    case DeleteChunk(id) => [2] + Le(id, 8)
    case WriteFile(path, ids, size) =>
      [3] + Le(Narrow(|path|), 4) + path + Le(Narrow(|ids|), 4) + IdsBytes(ids) + Le(size, 8)
    case DeleteFile(path) => [4] + Le(Narrow(|path|), 4) + path
    case UpdateRoot(hash) => [5] + hash
    case Barrier => [6]
  }

  function IdsFrom(data: bytes, pos: nat, count: nat): (r: seq<u64>)
    requires pos + 8 * count <= |data|
    ensures |r| == count
  {
    if count == 0 then [] else IdsFrom(data, pos, count - 1) + [U64(data[pos + 8 * (count - 1)..pos + 8 * count])]
  }

  /** The fields of a `WriteFile` whose path takes `n` bytes and which lists `count` chunks. */
  function FileAt(data: bytes, n: nat, count: nat, lossy: bytes -> bytes): (JournalOp, nat)
    requires |data| >= 17 + n + 8 * count
  {
    (WriteFile(lossy(data[5..5 + n]), IdsFrom(data, 9 + n, count), U64(data[9 + n + 8 * count..17 + n + 8 * count])),
     17 + n + 8 * count)
  }

  /** The `WriteFile` branch of `from_bytes`. */
  function ParseWriteFile(data: bytes, lossy: bytes -> bytes): (r: Result<(JournalOp, nat), Error>)
    ensures r.Ok? ==> 0 < r.value.1 <= |data|
  {
    if |data| < 5 then Err(Truncated)
    else
      var n := U32(data[1..5]);
      if |data| < 9 + n then Err(Truncated)
      else
        var count := U32(data[5 + n..9 + n]);
        if |data| < 17 + n + 8 * count then Err(Truncated) else Ok(FileAt(data, n, count, lossy))
  }

  /**
   * `JournalOp::from_bytes`: the operation at the start of `data` and the bytes it takes.
   * `lossy` stands for `String::from_utf8_lossy`.
   */
  function ParseOp(data: bytes, lossy: bytes -> bytes): (r: Result<(JournalOp, nat), Error>)
    ensures r.Ok? ==> 0 < r.value.1 <= |data|
  {
    if data == [] then Err(EmptyData)
    else if data[0] == 1 then
      if |data| < 49 then Err(Truncated)
      else Ok((WriteChunk(U64(data[1..9]), data[9..41], U64(data[41..49])), 49))
    else if data[0] == 2 then
      if |data| < 9 then Err(Truncated) else Ok((DeleteChunk(U64(data[1..9])), 9))
    else if data[0] == 3 then ParseWriteFile(data, lossy)
    else if data[0] == 4 then
      if |data| < 5 then Err(Truncated)
      else
        var end := 5 + U32(data[1..5]);
        if |data| < end then Err(Truncated) else Ok((DeleteFile(lossy(data[5..end])), end))
    else if data[0] == 5 then
      if |data| < 33 then Err(Truncated) else Ok((UpdateRoot(data[1..33]), 33))
    else if data[0] == 6 then Ok((Barrier, 1))
    else Err(UnknownOp)
  }

  /** The operation's path is a string: decoding its bytes as UTF-8 loses nothing. */
  predicate PathIsString(op: JournalOp, lossy: bytes -> bytes)
  {
    (op.WriteFile? || op.DeleteFile?) ==> lossy(op.path) == op.path
  }

  /** No length or count of the operation is narrowed. */
  predicate LengthsFit(op: JournalOp)
  {
    match op
    case WriteFile(path, ids, _) => |path| < U32_SIZE && |ids| < U32_SIZE
    case DeleteFile(path) => |path| < U32_SIZE
    case _ => true
  }

  /** One more identifier, read from the eight bytes it was printed to. */
  lemma IdsFromStep(data: bytes, pos: nat, ids: seq<u64>, last: u64)
    requires pos + 8 * |ids| + 8 <= |data|
    requires IdsFrom(data, pos, |ids|) == ids && data[pos + 8 * |ids|..pos + 8 * |ids| + 8] == Le(last, 8)
    ensures IdsFrom(data, pos, |ids| + 1) == ids + [last]
  {
    U64Le(last);
  }

  lemma {:induction false} IdsRoundTrip(before: bytes, ids: seq<u64>, after: bytes)
    ensures IdsFrom(before + IdsBytes(ids) + after, |before|, |ids|) == ids
    decreases |ids|
  {
    if ids != [] {
      var init, last := ids[..|ids| - 1], ids[|ids| - 1];
      IdsSplit(before, IdsBytes(init), Le(last, 8), after);
      IdsRoundTrip(before, init, Le(last, 8) + after);
      IdsFromStep(before + IdsBytes(ids) + after, |before|, init, last);
      assert init + [last] == ids;
    }
  }

  lemma IdsSplit(a: bytes, b: bytes, c: bytes, d: bytes)
    ensures a + (b + c) + d == a + b + (c + d)
    ensures (a + (b + c) + d)[|a| + |b|..|a| + |b| + |c|] == c
  {
    Regroup(a, b, c, d);
    Slice(a + b, c, d);
  }

  lemma ChunkSlices(tag: byte, a: bytes, b: bytes, c: bytes, rest: bytes)
    requires |a| == 8 && |b| == 32 && |c| == 8
    ensures var data := [tag] + a + b + c + rest;
      |data| >= 49 && data[0] == tag && data[1..9] == a && data[9..41] == b && data[41..49] == c
  {
    var data := [tag] + a + b + c + rest;
    assert data == [tag] + a + (b + c + rest) && data == ([tag] + a) + b + (c + rest);
    Slice([tag], a, b + c + rest);
    Slice([tag] + a, b, c + rest);
    Slice([tag] + a + b, c, rest);
  }

  lemma FileSlices(tag: byte, n: bytes, path: bytes, m: bytes, ids: bytes, size: bytes, rest: bytes)
    requires |n| == 4 && |m| == 4 && |size| == 8
    ensures var data := [tag] + n + path + m + ids + size + rest; var idsAt := 5 + |path| + 4; var sizeAt := idsAt + |ids|;
      && |data| >= sizeAt + 8 && data[0] == tag && data[1..5] == n && data[5..idsAt - 4] == path
      && data[idsAt - 4..idsAt] == m && data[sizeAt..sizeAt + 8] == size
      && data == ([tag] + n + path + m) + ids + (size + rest)
  {
    var data := [tag] + n + path + m + ids + size + rest;
    var tail := ids + size + rest;
    Regroup([tag] + n + path + m, ids, size, rest);
    Regroup([tag] + n, path, m, tail);
    assert data == [tag] + n + path + m + tail;
    Slice([tag], n, path + m + tail);
    Regroup([tag], n, path, m + tail);
    Slice([tag] + n, path, m + tail);
    Slice([tag] + n + path, m, tail);
    Slice([tag] + n + path + m + ids, size, rest);
  }

  /** A printed operation whose lengths fit parses back to itself, whatever follows it. */
  lemma OpRoundTrip(op: JournalOp, rest: bytes, lossy: bytes -> bytes)
    requires LengthsFit(op) && PathIsString(op, lossy)
    ensures ParseOp(OpBytes(op) + rest, lossy) == Ok((op, |OpBytes(op)|))
  {
    match op
    case WriteChunk(id, hash, len) => WriteChunkRoundTrip(id, hash, len, rest, lossy);
    case DeleteChunk(id) =>
      Slice([2], Le(id, 8), rest);
      U64Le(id);
    case WriteFile(path, ids, size) => WriteFileRoundTrip(path, ids, size, rest, lossy);
    case DeleteFile(path) => DeleteFileRoundTrip(path, rest, lossy);
    case UpdateRoot(hash) => Slice([5], hash, rest);
    case Barrier =>
  }

  lemma WriteChunkRoundTrip(id: u64, hash: Hash32, len: u64, rest: bytes, lossy: bytes -> bytes)
    ensures ParseOp(OpBytes(WriteChunk(id, hash, len)) + rest, lossy) == Ok((WriteChunk(id, hash, len), 49))
  {
    ChunkSlices(1, Le(id, 8), hash, Le(len, 8), rest);
    U64Le(id);
    U64Le(len);
  }

  lemma PathSlices(tag: byte, n: bytes, path: bytes, rest: bytes)
    requires |n| == 4
    ensures var data := [tag] + n + path + rest;
      |data| >= 5 + |path| && data[0] == tag && data[1..5] == n && data[5..5 + |path|] == path
  {
    Regroup([tag], n, path, rest);
    Slice([tag], n, path + rest);
    Slice([tag] + n, path, rest);
  }

  lemma DeleteFileRoundTrip(path: bytes, rest: bytes, lossy: bytes -> bytes)
    requires |path| < U32_SIZE && lossy(path) == path
    ensures ParseOp(OpBytes(DeleteFile(path)) + rest, lossy) == Ok((DeleteFile(path), 5 + |path|))
  {
    PathSlices(4, Le(|path|, 4), path, rest);
    U32Le(|path|);
  }

  /** The fields of a `WriteFile` stand in `data` where the parser looks for them. */
  ghost predicate FileLaidOut(data: bytes, path: bytes, ids: seq<u64>, size: u64)
  {
    var idsAt := 9 + |path|;
    var sizeAt := idsAt + 8 * |ids|;
    && |data| >= sizeAt + 8
    && U32(data[1..5]) == |path| && data[5..5 + |path|] == path
    && U32(data[5 + |path|..idsAt]) == |ids| && IdsFrom(data, idsAt, |ids|) == ids
    && U64(data[sizeAt..sizeAt + 8]) == size
  }

  lemma WriteFileLaidOut(data: bytes, path: bytes, ids: seq<u64>, size: u64, n: bytes, m: bytes, s: bytes, rest: bytes)
    requires |n| == 4 && |m| == 4 && |s| == 8 && U32(n) == |path| && U32(m) == |ids| && U64(s) == size
    requires data == [3] + n + path + m + IdsBytes(ids) + s + rest
    ensures data != [] && data[0] == 3 && FileLaidOut(data, path, ids, size)
  {
    FileSlices(3, n, path, m, IdsBytes(ids), s, rest);
    IdsRoundTrip([3] + n + path + m, ids, s + rest);
  }

  lemma LaidOutParses(data: bytes, path: bytes, ids: seq<u64>, size: u64, lossy: bytes -> bytes)
    requires FileLaidOut(data, path, ids, size) && lossy(path) == path
    ensures ParseWriteFile(data, lossy) == Ok((WriteFile(path, ids, size), 17 + |path| + 8 * |ids|))
  {
    assert FileAt(data, |path|, |ids|, lossy) == (WriteFile(path, ids, size), 17 + |path| + 8 * |ids|);
  }

  lemma WriteFileParses(data: bytes, path: bytes, ids: seq<u64>, size: u64, rest: bytes, lossy: bytes -> bytes)
    requires |path| < U32_SIZE && |ids| < U32_SIZE && lossy(path) == path
    requires data == [3] + Le(|path|, 4) + path + Le(|ids|, 4) + IdsBytes(ids) + Le(size, 8) + rest
    ensures ParseOp(data, lossy) == Ok((WriteFile(path, ids, size), 17 + |path| + 8 * |ids|))
  {
    U32Le(|path|);
    U32Le(|ids|);
    U64Le(size);
    WriteFileLaidOut(data, path, ids, size, Le(|path|, 4), Le(|ids|, 4), Le(size, 8), rest);
    LaidOutParses(data, path, ids, size, lossy);
    TaggedFile(data, lossy);
  }

  lemma WriteFileBytes(path: bytes, ids: seq<u64>, size: u64)
    requires |path| < U32_SIZE && |ids| < U32_SIZE
    ensures OpBytes(WriteFile(path, ids, size)) == [3] + Le(|path|, 4) + path + Le(|ids|, 4) + IdsBytes(ids) + Le(size, 8)
    ensures |OpBytes(WriteFile(path, ids, size))| == 17 + |path| + 8 * |ids|
  {
  }

  lemma WriteFileRoundTrip(path: bytes, ids: seq<u64>, size: u64, rest: bytes, lossy: bytes -> bytes)
    requires |path| < U32_SIZE && |ids| < U32_SIZE && lossy(path) == path
    ensures var op := WriteFile(path, ids, size); ParseOp(OpBytes(op) + rest, lossy) == Ok((op, |OpBytes(op)|))
  {
    hide ParseOp;
    WriteFileBytes(path, ids, size);
    WriteFileParses(OpBytes(WriteFile(path, ids, size)) + rest, path, ids, size, rest, lossy);
  }

  lemma TaggedFile(data: bytes, lossy: bytes -> bytes)
    requires data != [] && data[0] == 3
    ensures ParseOp(data, lossy) == ParseWriteFile(data, lossy)
  {
  }

  /** Parsing gives back what was printed exactly when no length was narrowed. */
  lemma OpRoundTripCondition(op: JournalOp, rest: bytes, lossy: bytes -> bytes)
    requires PathIsString(op, lossy) && forall b :: |lossy(b)| <= 3 * |b|
    ensures ParseOp(OpBytes(op) + rest, lossy) == Ok((op, |OpBytes(op)|)) <==> LengthsFit(op)
  {
    if LengthsFit(op) {
      OpRoundTrip(op, rest, lossy);
    } else {
      NarrowedPath(op, rest);
      if op.WriteFile? && |op.path| < U32_SIZE {
        NarrowedCount(op, rest);
      }
    }
  }

  lemma NarrowedPath(op: JournalOp, rest: bytes)
    requires op.WriteFile? || op.DeleteFile?
    ensures |OpBytes(op) + rest| >= 5 && U32((OpBytes(op) + rest)[1..5]) == Narrow(|op.path|)
  {
    var n := Le(Narrow(|op.path|), 4);
    var tail := OpBytes(op)[5..];
    assert OpBytes(op) + rest == [OpBytes(op)[0]] + n + (tail + rest);
    Slice([OpBytes(op)[0]], n, tail + rest);
    U32Le(Narrow(|op.path|));
  }

  lemma NarrowedCount(op: JournalOp, rest: bytes)
    requires op.WriteFile? && |op.path| < U32_SIZE
    ensures var at := 5 + |op.path|;
      |OpBytes(op) + rest| >= at + 4 && U32((OpBytes(op) + rest)[at..at + 4]) == Narrow(|op.chunkIds|)
  {
    FileSlices(3, Le(Narrow(|op.path|), 4), op.path, Le(Narrow(|op.chunkIds|), 4), IdsBytes(op.chunkIds), Le(op.size, 8), rest);
    U32Le(Narrow(|op.chunkIds|));
  }

  // ---------------------------------------------------------------- the same, as the program does it

  method OpToBytes(op: JournalOp) returns (buf: bytes)
    ensures buf == OpBytes(op)
  {
    match op
    case WriteChunk(id, hash, len) =>
      buf := [1];
      buf := buf + Le(id, 8);
      buf := buf + hash;
      buf := buf + Le(len, 8);
    case DeleteChunk(id) =>
      buf := [2];
      buf := buf + Le(id, 8);
    case WriteFile(path, ids, size) =>
      buf := WriteFileToBytes(path, ids, size);
    case DeleteFile(path) =>
      buf := [4];
      buf := buf + Le(Narrow(|path|), 4);
      buf := buf + path;
    case UpdateRoot(hash) =>
      buf := [5];
      buf := buf + hash;
    case Barrier =>
      buf := [6];
  }

  method WriteFileToBytes(path: bytes, ids: seq<u64>, size: u64) returns (buf: bytes)
    ensures buf == OpBytes(WriteFile(path, ids, size))
  {
    buf := [3];
    buf := buf + Le(Narrow(|path|), 4);
    buf := buf + path;
    buf := buf + Le(Narrow(|ids|), 4);
    ghost var head := buf;
    for i := 0 to |ids|
      invariant buf == head + IdsBytes(ids[..i])
    {
      buf := buf + Le(ids[i], 8);
      assert ids[..i + 1][..i] == ids[..i];
    }
    assert ids[..|ids|] == ids;
    buf := buf + Le(size, 8);
  }

  method OpFromBytes(data: bytes, lossy: bytes -> bytes) returns (r: Result<(JournalOp, nat), Error>)
    ensures r == ParseOp(data, lossy)
  {
    if data == [] {
      return Err(EmptyData);
    }
    var pos: nat := 1;
    if data[0] == 1 {
      if |data| < pos + 8 + 32 + 8 { return Err(Truncated); }
      var id := U64(data[pos..pos + 8]);
      pos := pos + 8;
      var hash := data[pos..pos + 32];
      pos := pos + 32;
      var len := U64(data[pos..pos + 8]);
      pos := pos + 8;
      r := Ok((WriteChunk(id, hash, len), pos));
    } else if data[0] == 2 {
      if |data| < pos + 8 { return Err(Truncated); }
      var id := U64(data[pos..pos + 8]);
      pos := pos + 8;
      r := Ok((DeleteChunk(id), pos));
    } else if data[0] == 3 {
      r := WriteFileFromBytes(data, lossy);
    } else if data[0] == 4 {
      if |data| < pos + 4 { return Err(Truncated); }
      var pathLen: nat := U32(data[pos..pos + 4]);
      pos := pos + 4;
      if |data| < pos + pathLen { return Err(Truncated); }
      r := Ok((DeleteFile(lossy(data[pos..pos + pathLen])), pos + pathLen));
    } else if data[0] == 5 {
      if |data| < pos + 32 { return Err(Truncated); }
      r := Ok((UpdateRoot(data[pos..pos + 32]), pos + 32));
    } else if data[0] == 6 {
      r := Ok((Barrier, pos));
    } else {
      r := Err(UnknownOp);
    }
  }

  /** The `WriteFile` branch, with its loop that stops at the first identifier missing from the data. */
  method WriteFileFromBytes(data: bytes, lossy: bytes -> bytes) returns (r: Result<(JournalOp, nat), Error>)
    requires data != []
    ensures r == ParseWriteFile(data, lossy)
  {
    var pos: nat := 1;
    if |data| < pos + 4 { return Err(Truncated); }
    var pathLen: nat := U32(data[pos..pos + 4]);
    pos := pos + 4;
    if |data| < pos + pathLen { return Err(Truncated); }
    var path := lossy(data[pos..pos + pathLen]);
    pos := pos + pathLen;
    if |data| < pos + 4 { return Err(Truncated); }
    var count: nat := U32(data[pos..pos + 4]);
    pos := pos + 4;
    var ids := IdsFromBytes(data, pos, count);
    if ids.None? { return Err(Truncated); }
    pos := pos + 8 * count;
    if |data| < pos + 8 { return Err(Truncated); }
    r := Ok((WriteFile(path, ids.value, U64(data[pos..pos + 8])), pos + 8));
  }

  method IdsFromBytes(data: bytes, start: nat, count: nat) returns (r: Option<seq<u64>>)
    requires start <= |data|
    ensures r == if start + 8 * count <= |data| then Some(IdsFrom(data, start, count)) else None
  {
    var pos := start;
    var ids: seq<u64> := [];
    for i := 0 to count
      invariant pos == start + 8 * i <= |data|
      invariant ids == IdsFrom(data, start, i)
    {
      if |data| < pos + 8 { return None; }
      ids := ids + [U64(data[pos..pos + 8])];
      pos := pos + 8;
    }
    r := Some(ids);
  }

  method HeaderToBytes(h: RecordHeader, payload: bytes) returns (buf: bytes)
    ensures buf == h.ToBytes(payload)
  {
    buf := Le(h.magic, 4);
    buf := buf + Le(h.version, 2);
    buf := buf + Le(h.flags.ToU16(), 2);
    buf := buf + Le(h.txnId, 8);
    buf := buf + Le(h.timestamp, 8);
    buf := buf + Le(h.payloadLen, 4);
    var checksum := Crc.Crc32Compute(buf, payload);
    buf := buf + Le(Words.Value(checksum), 4);
  }

  method HeaderVerify(h: RecordHeader, payload: bytes) returns (ok: bool)
    ensures ok == h.VerifyChecksum(payload)
  {
    var computed := Crc.Crc32Compute(h.Fields(), payload);
    ok := computed == h.checksum;
  }
}
