/** Writing and replaying the journal of one session, in `Immediate` mode. */
module JournalReplay {
  import opened Bytes
  import opened Framing
  import opened JournalFormat
  import Crc

  /** A transaction as replay reports it. */
  datatype Txn = Txn(id: u64, ops: seq<JournalOp>)

  /** A transaction as it is written, stamped with the clock. */
  datatype Written = Written(id: u64, timestamp: u64, ops: seq<JournalOp>)

  function OpRecords(ops: seq<JournalOp>): (r: seq<bytes>)
    ensures |r| == |ops|
    ensures forall i :: 0 <= i < |ops| ==> r[i] == OpBytes(ops[i])
  {
    seq(|ops|, i requires 0 <= i < |ops| => OpBytes(ops[i]))
  }

  function Payload(ops: seq<JournalOp>): bytes
  {
    Flatten(OpRecords(ops))
  }

  lemma {:induction false} PayloadTail(ops: seq<JournalOp>)
    requires ops != []
    ensures Payload(ops) == OpBytes(ops[0]) + Payload(ops[1..])
  {
    assert OpRecords(ops)[1..] == OpRecords(ops[1..]);
  }

  lemma {:induction false} PayloadSnoc(ops: seq<JournalOp>, i: nat)
    requires i < |ops|
    ensures Payload(ops[..i + 1]) == Payload(ops[..i]) + OpBytes(ops[i])
  {
    assert OpRecords(ops[..i + 1]) == OpRecords(ops[..i]) + [OpBytes(ops[i])];
    FlattenSnoc(OpRecords(ops[..i]), OpBytes(ops[i]));
  }

  function Header(w: Written): RecordHeader
  {
    NewHeader(w.id, w.timestamp, |Payload(w.ops)|)
  }

  /** The header as it is found in the file. */
  function StoredHeader(w: Written): RecordHeader
  {
    Header(w).(checksum := Crc.Crc32(Header(w).Fields(), Payload(w.ops)))
  }

  function RecordSize(w: Written): (n: nat)
    ensures n >= HEADER_SIZE
  {
    HEADER_SIZE + |Payload(w.ops)|
  }

  function RecordBytes(w: Written): (r: bytes)
    ensures |r| == RecordSize(w)
  {
    Header(w).ToBytes(Payload(w.ops)) + Payload(w.ops)
  }

  function Records(ws: seq<Written>): (r: seq<bytes>)
    ensures |r| == |ws|
    ensures forall i :: 0 <= i < |ws| ==> r[i] == RecordBytes(ws[i])
  {
    seq(|ws|, i requires 0 <= i < |ws| => RecordBytes(ws[i]))
  }

  function Txns(ws: seq<Written>): (r: seq<Txn>)
    ensures |r| == |ws|
    ensures forall i :: 0 <= i < |ws| ==> r[i] == Txn(ws[i].id, ws[i].ops)
  {
    seq(|ws|, i requires 0 <= i < |ws| => Txn(ws[i].id, ws[i].ops))
  }

  /** The journal file after the records `ws`. */
  function JournalFile(ws: seq<Written>): bytes
  {
    Flatten(Records(ws))
  }

  /** The loop over a payload: operations one after another until it is used up. */
  function ParseOps(payload: bytes, lossy: bytes -> bytes): Result<seq<JournalOp>, Error>
    decreases |payload|
  {
    if payload == [] then Ok([])
    else
      var first := ParseOp(payload, lossy);
      if first.Err? then Err(first.error)
      else
        var rest := ParseOps(payload[first.value.1..], lossy);
        if rest.Err? then rest else Ok([first.value.0] + rest.value)
  }

  /** The record at the start of the file: its transaction if it is committed, and its size. */
  function ReadRecord(file: bytes, lossy: bytes -> bytes): (r: Result<(Option<Txn>, nat), Error>)
    requires |file| >= HEADER_SIZE
    ensures r.Ok? ==> HEADER_SIZE <= r.value.1 <= |file|
  {
    var h := RecordHeader.FromBytes(file[..HEADER_SIZE]);
    if h.Err? then Err(h.error) else ReadPayload(h.value, file, lossy)
  }

  function ReadPayload(h: RecordHeader, file: bytes, lossy: bytes -> bytes): (r: Result<(Option<Txn>, nat), Error>)
    requires |file| >= HEADER_SIZE
    ensures r.Ok? ==> HEADER_SIZE <= r.value.1 <= |file|
  {
    var end := HEADER_SIZE + h.payloadLen;
    if |file| < end then Err(UnexpectedEof)
    else if !h.VerifyChecksum(file[HEADER_SIZE..end]) then Err(ChecksumMismatch)
    else if h.flags != Committed then Ok((None, end))
    else
      var ops := ParseOps(file[HEADER_SIZE..end], lossy);
      if ops.Err? then Err(ops.error) else Ok((Some(Txn(h.txnId, ops.value)), end))
  }

  function Listed(t: Option<Txn>): seq<Txn>
  {
    if t.None? then [] else [t.value]
  }

  /** `replay`: a file that ends inside a header ends the journal; every other defect is an error. */
  function Replay(file: bytes, lossy: bytes -> bytes): Result<seq<Txn>, Error>
    decreases |file|
  {
    if |file| < HEADER_SIZE then Ok([])
    else
      var r := ReadRecord(file, lossy);
      if r.Err? then Err(r.error) else Prepend(Listed(r.value.0), Replay(file[r.value.1..], lossy))
  }

  // ---------------------------------------------------------------- round trip

  ghost predicate StringPaths(ops: seq<JournalOp>, lossy: bytes -> bytes)
  {
    forall i :: 0 <= i < |ops| ==> PathIsString(ops[i], lossy)
  }

  /** The record's payload length fits its 32-bit field. */
  ghost predicate Fits(w: Written)
  {
    |Payload(w.ops)| < U32_SIZE
  }

  ghost predicate AllFit(ws: seq<Written>)
  {
    forall i :: 0 <= i < |ws| ==> Fits(ws[i])
  }

  ghost predicate AllStrings(ws: seq<Written>, lossy: bytes -> bytes)
  {
    forall i :: 0 <= i < |ws| ==> StringPaths(ws[i].ops, lossy)
  }

  lemma ShortOpFits(op: JournalOp)
    requires |OpBytes(op)| < U32_SIZE
    ensures LengthsFit(op)
  {
  }

  /** One operation off the front of a payload. */
  lemma ParseOpsStep(op: JournalOp, rest: bytes, lossy: bytes -> bytes)
    requires LengthsFit(op) && PathIsString(op, lossy)
    ensures var r := ParseOps(rest, lossy);
      ParseOps(OpBytes(op) + rest, lossy) == if r.Err? then r else Ok([op] + r.value)
  {
    OpRoundTrip(op, rest, lossy);
    assert (OpBytes(op) + rest)[|OpBytes(op)|..] == rest;
  }

  lemma {:induction false} PayloadRoundTrip(ops: seq<JournalOp>, lossy: bytes -> bytes)
    requires |Payload(ops)| < U32_SIZE && StringPaths(ops, lossy)
    ensures ParseOps(Payload(ops), lossy) == Ok(ops)
  {
    if ops != [] {
      PayloadTail(ops);
      PayloadRoundTrip(ops[1..], lossy);
      ShortOpFits(ops[0]);
      ParseOpsStep(ops[0], Payload(ops[1..]), lossy);
      assert [ops[0]] + ops[1..] == ops;
    }
  }

  lemma HeadAndBody(head: bytes, body: bytes, tail: bytes)
    requires |head| == HEADER_SIZE
    ensures var file := head + body + tail;
      file[..HEADER_SIZE] == head && file[HEADER_SIZE..HEADER_SIZE + |body|] == body
  {
    Slice(head, body, tail);
    assert head + body + tail == head + (body + tail);
  }

  /** The header written for `w` reads back with its checksum filled in. */
  lemma {:induction false} HeaderReads(w: Written, tail: bytes)
    ensures var file := RecordBytes(w) + tail;
      && RecordHeader.FromBytes(file[..HEADER_SIZE])
         == Ok(StoredHeader(w))
      && file[HEADER_SIZE..HEADER_SIZE + |Payload(w.ops)|] == Payload(w.ops)
  {
    HeaderRoundTrip(Header(w), Payload(w.ops));
    HeadAndBody(Header(w).ToBytes(Payload(w.ops)), Payload(w.ops), tail);
  }

  /** A whole committed record holds the operations its payload parses to, if its checksum is right. */
  lemma {:induction false} ReadShape(h: RecordHeader, payload: bytes, file: bytes, lossy: bytes -> bytes)
    requires |file| >= HEADER_SIZE + h.payloadLen && h.flags == Committed
    requires RecordHeader.FromBytes(file[..HEADER_SIZE]) == Ok(h)
    requires file[HEADER_SIZE..HEADER_SIZE + h.payloadLen] == payload
    ensures var ops := ParseOps(payload, lossy);
      ReadRecord(file, lossy)
      == if !h.VerifyChecksum(payload) then Err(ChecksumMismatch)
         else if ops.Err? then Err(ops.error)
         else Ok((Some(Txn(h.txnId, ops.value)), HEADER_SIZE + h.payloadLen))
  {
  }

  lemma {:induction false} RecordRoundTrip(w: Written, tail: bytes, lossy: bytes -> bytes)
    requires Fits(w) && StringPaths(w.ops, lossy)
    ensures ReadRecord(RecordBytes(w) + tail, lossy) == Ok((Some(Txn(w.id, w.ops)), |RecordBytes(w)|))
  {
    HeaderReads(w, tail);
    HeaderRoundTrip(Header(w), Payload(w.ops));
    PayloadRoundTrip(w.ops, lossy);
    ReadShape(StoredHeader(w), Payload(w.ops), RecordBytes(w) + tail, lossy);
  }

  /** Replay takes one record off the front of a file. */
  lemma {:induction false} ReplayStep(w: Written, tail: bytes, lossy: bytes -> bytes)
    requires Fits(w) && StringPaths(w.ops, lossy)
    ensures Replay(RecordBytes(w) + tail, lossy) == Prepend([Txn(w.id, w.ops)], Replay(tail, lossy))
  {
    RecordRoundTrip(w, tail, lossy);
    assert (RecordBytes(w) + tail)[|RecordBytes(w)|..] == tail;
  }

  // ---------------------------------------------------------------- torn files

  /** A file that ends inside the first record is empty to replay if no whole header is left, and else rejected. */
  lemma {:induction false} CutRecord(w: Written, n: nat, lossy: bytes -> bytes)
    requires Fits(w) && n < RecordSize(w)
    ensures Replay(RecordBytes(w)[..n], lossy) == if n < HEADER_SIZE then Ok([]) else Err(UnexpectedEof)
  {
    if n >= HEADER_SIZE {
      HeaderReads(w, []);
      var file := RecordBytes(w);
      assert file + [] == file;
      assert file[..n][..HEADER_SIZE] == file[..HEADER_SIZE];
      var h := StoredHeader(w);
      assert ReadPayload(h, file[..n], lossy) == Err(UnexpectedEof);
    }
  }

  /** Replay as a reader of records. */
  function Replayer(lossy: bytes -> bytes): Reader<Txn, Error>
  {
    Reader(file => Replay(file, lossy), HEADER_SIZE, UnexpectedEof)
  }

  lemma {:induction false} ReplayTakes(w: Written, lossy: bytes -> bytes)
    requires Fits(w) && StringPaths(w.ops, lossy)
    ensures Takes(Replayer(lossy), RecordBytes(w), Txn(w.id, w.ops))
  {
    forall tail ensures Replay(RecordBytes(w) + tail, lossy) == Prepend([Txn(w.id, w.ops)], Replay(tail, lossy)) {
      ReplayStep(w, tail, lossy);
    }
    forall n: nat | n < RecordSize(w)
      ensures Replay(RecordBytes(w)[..n], lossy) == if n < HEADER_SIZE then Ok([]) else Err(UnexpectedEof)
    {
      CutRecord(w, n, lossy);
    }
  }

  lemma {:induction false} ReplayTakesAll(ws: seq<Written>, lossy: bytes -> bytes)
    requires AllFit(ws) && AllStrings(ws, lossy)
    ensures TakesAll(Replayer(lossy), Records(ws), Txns(ws))
  {
    forall i | 0 <= i < |ws| ensures Takes(Replayer(lossy), Records(ws)[i], Txns(ws)[i]) {
      ReplayTakes(ws[i], lossy);
    }
  }

  /** Replay of a journal returns exactly the transactions written, in order. */
  lemma {:induction false} ReplayRoundTrip(ws: seq<Written>, lossy: bytes -> bytes)
    requires AllFit(ws) && AllStrings(ws, lossy)
    ensures Replay(JournalFile(ws), lossy) == Ok(Txns(ws))
  {
    ReplayTakesAll(ws, lossy);
    WholeFile(Replayer(lossy), Records(ws), Txns(ws));
  }

  /** The number of records that lie wholly within the first `n` bytes of the file. */
  function CompleteRecords(ws: seq<Written>, n: nat): (k: nat)
    ensures k <= |ws|
  {
    CompleteFrames(Records(ws), n)
  }

  /** A record is counted exactly when it ends by byte `n`. */
  lemma {:induction false} CompleteRecordsSpec(ws: seq<Written>, n: nat, k: nat)
    requires k <= |ws|
    ensures k <= CompleteRecords(ws, n) <==> |JournalFile(ws[..k])| <= n
  {
    CompleteFramesSpec(Records(ws), n, k);
    assert Records(ws[..k]) == Records(ws)[..k];
  }

  /**
   * Truncation at any byte: when the cut falls on a record boundary or inside a header, replay returns exactly
   * the complete records; when it falls inside a payload, replay fails. No partial transaction appears.
   */
  lemma {:induction false} TornFile(ws: seq<Written>, n: nat, lossy: bytes -> bytes)
    requires AllFit(ws) && AllStrings(ws, lossy) && n <= |JournalFile(ws)|
    ensures var whole := ws[..CompleteRecords(ws, n)];
      && |JournalFile(whole)| <= n
      && Replay(JournalFile(ws)[..n], lossy)
         == if n < |JournalFile(whole)| + HEADER_SIZE then Ok(Txns(whole)) else Err(UnexpectedEof)
  {
    hide Replay, RecordBytes, AllFit, AllStrings;
    var k := CompleteRecords(ws, n);
    ReplayTakesAll(ws, lossy);
    TornFrames(Replayer(lossy), Records(ws), Txns(ws), n);
    CompleteRecordsSpec(ws, n, k);
    assert Records(ws[..k]) == Records(ws)[..k];
    assert Txns(ws[..k]) == Txns(ws)[..k];
  }

  // ---------------------------------------------------------------- damaged payloads

  /** A burst of at most four damaged bytes in a payload is always rejected, whatever precedes and follows the record. */
  lemma {:induction false} DamagedPayload(ws: seq<Written>, w: Written, before: bytes, a: bytes, b: bytes, after: bytes,
                                          tail: bytes, lossy: bytes -> bytes)
    requires AllFit(ws) && AllStrings(ws, lossy) && Fits(w)
    requires Payload(w.ops) == before + a + after && |a| == |b| <= 4 && a != b
    ensures Replay(JournalFile(ws) + (Header(w).ToBytes(Payload(w.ops)) + (before + b + after) + tail), lossy)
         == Err(ChecksumMismatch)
  {
    ReplayTakesAll(ws, lossy);
    DamagedRecord(w, before, a, b, after, tail, lossy);
    FramesThen(Replayer(lossy), Records(ws), Txns(ws), Header(w).ToBytes(Payload(w.ops)) + (before + b + after) + tail);
  }

  lemma {:induction false} DamagedRecord(w: Written, before: bytes, a: bytes, b: bytes, after: bytes, tail: bytes, lossy: bytes -> bytes)
    requires Fits(w) && Payload(w.ops) == before + a + after && |a| == |b| <= 4 && a != b
    ensures Replay(Header(w).ToBytes(Payload(w.ops)) + (before + b + after) + tail, lossy) == Err(ChecksumMismatch)
  {
    var p, q, head := Payload(w.ops), before + b + after, Header(w).ToBytes(Payload(w.ops));
    var h := StoredHeader(w);
    HeaderRoundTrip(Header(w), p);
    HeadAndBody(head, q, tail);
    Crc.BurstChangesCrc(h.Fields(), before, a, b, after);
    assert !h.VerifyChecksum(q);
    assert ReadPayload(h, head + q + tail, lossy) == Err(ChecksumMismatch);
  }

  // ---------------------------------------------------------------- exactly when a journal survives

  lemma CutField(data: bytes, n: nat, from: nat, to: nat)
    requires from <= to <= n <= |data|
    ensures data[..n][from..to] == data[from..to]
  {
  }

  /** An operation cut short never parses. */
  lemma CutOp(op: JournalOp, n: nat, lossy: bytes -> bytes)
    requires LengthsFit(op) && n < |OpBytes(op)|
    ensures ParseOp(OpBytes(op)[..n], lossy).Err?
  {
    if n >= 5 && (op.WriteFile? || op.DeleteFile?) {
      NarrowedPath(op, []);
      assert OpBytes(op) + [] == OpBytes(op);
      CutField(OpBytes(op), n, 1, 5);
      if op.WriteFile? {
        CutWriteFile(op, n, lossy);
      }
    }
  }

  lemma {:induction false} CutWriteFile(op: JournalOp, n: nat, lossy: bytes -> bytes)
    requires op.WriteFile? && LengthsFit(op) && 5 <= n < |OpBytes(op)|
    requires U32(OpBytes(op)[1..5]) == |op.path|
    ensures ParseWriteFile(OpBytes(op)[..n], lossy).Err?
  {
    var at := 5 + |op.path|;
    if n >= at + 4 {
      NarrowedCount(op, []);
      assert OpBytes(op) + [] == OpBytes(op);
      CutField(OpBytes(op), n, at, at + 4);
    }
    CutField(OpBytes(op), n, 1, 5);
  }

  /** A string cut short decodes to at most two bytes more than were left: one replacement for the character cut through. */
  ghost predicate CutsStrings(lossy: bytes -> bytes)
  {
    forall s, n :: 0 <= n <= |s| && lossy(s) == s ==> |lossy(s[..n])| <= n + 2
  }

  lemma NarrowHalves(n: nat)
    ensures n >= U32_SIZE ==> Narrow(n) + U32_SIZE <= n
  {
  }

  lemma FieldStart(data: bytes, from: nat, to: nat, k: nat)
    requires from + k <= to <= |data|
    ensures data[from..to][..k] == data[from..from + k]
  {
  }

  lemma AroundPath(op: JournalOp) returns (head: bytes, tail: bytes)
    requires op.WriteFile? || op.DeleteFile?
    ensures |head| == 5 && OpBytes(op) == head + op.path + tail
  {
    if op.WriteFile? {
      head := [3] + Le(Narrow(|op.path|), 4);
      var count, ids, size := Le(Narrow(|op.chunkIds|), 4), IdsBytes(op.chunkIds), Le(op.size, 8);
      tail := count + ids + size;
      Regroup4(head + op.path, count, ids, size);
    } else {
      head, tail := [4] + Le(Narrow(|op.path|), 4), [];
    }
  }

  lemma Regroup4(a: bytes, b: bytes, c: bytes, d: bytes)
    ensures a + b + c + d == a + (b + c + d)
  {
  }

  /** What is left of the path's beginning in a file cut short. */
  lemma PathPlace(op: JournalOp, rest: bytes, n: nat, k: nat)
    requires (op.WriteFile? || op.DeleteFile?) && k <= |op.path| && 5 + k <= n <= |OpBytes(op) + rest|
    ensures (OpBytes(op) + rest)[..n][5..5 + k] == op.path[..k]
  {
    hide OpBytes;
    var head, tail := AroundPath(op);
    Regroup4(head, op.path, tail, rest);
    assert OpBytes(op) + rest == head + op.path + (tail + rest);
    Slice(head, op.path, tail + rest);
    CutField(OpBytes(op) + rest, n, 5, 5 + k);
    FieldStart(OpBytes(op) + rest, 5, 5 + |op.path|, k);
  }

  /** Where a length was narrowed, nothing that follows makes the operation parse to itself. */
  lemma {:induction false} NarrowedOp(op: JournalOp, rest: bytes, n: nat, lossy: bytes -> bytes)
    requires !LengthsFit(op) && PathIsString(op, lossy) && CutsStrings(lossy) && n <= |OpBytes(op) + rest|
    ensures var r := ParseOp((OpBytes(op) + rest)[..n], lossy); r.Ok? ==> r.value.0 != op
  {
    var data := OpBytes(op) + rest;
    NarrowedPath(op, rest);
    if n >= 5 {
      CutField(data, n, 1, 5);
      assert data[..n][0] == OpBytes(op)[0];
      if |op.path| >= U32_SIZE {
        NarrowedPathDiffers(op, rest, n, lossy);
      } else {
        NarrowedCountDiffers(op, rest, n, lossy);
      }
    }
  }

  lemma {:induction false} NarrowedPathDiffers(op: JournalOp, rest: bytes, n: nat, lossy: bytes -> bytes)
    requires (op.WriteFile? || op.DeleteFile?) && |op.path| >= U32_SIZE && PathIsString(op, lossy) && CutsStrings(lossy)
    requires 5 <= n <= |OpBytes(op) + rest|
    ensures 5 + Narrow(|op.path|) <= n ==> lossy((OpBytes(op) + rest)[..n][5..5 + Narrow(|op.path|)]) != op.path
  {
    hide OpBytes, Narrow;
    var k := Narrow(|op.path|);
    NarrowHalves(|op.path|);
    if 5 + k <= n {
      PathPlace(op, rest, n, k);
      assert |lossy(op.path[..k])| <= k + 2;
    }
  }

  lemma {:induction false} NarrowedCountDiffers(op: JournalOp, rest: bytes, n: nat, lossy: bytes -> bytes)
    requires op.WriteFile? && |op.path| < U32_SIZE && |op.chunkIds| >= U32_SIZE && 5 <= n <= |OpBytes(op) + rest|
    requires U32((OpBytes(op) + rest)[..n][1..5]) == |op.path|
    ensures var r := ParseWriteFile((OpBytes(op) + rest)[..n], lossy); r.Ok? ==> r.value.0 != op
  {
    hide OpBytes, Narrow;
    var at := 5 + |op.path|;
    NarrowHalves(|op.chunkIds|);
    if n >= at + 4 {
      NarrowedCount(op, rest);
      CutField(OpBytes(op) + rest, n, at, at + 4);
    }
  }

  /** Only the whole payload parses to all of its operations. */
  lemma {:induction false} CutPayload(ops: seq<JournalOp>, n: nat, lossy: bytes -> bytes)
    requires n <= |Payload(ops)| && StringPaths(ops, lossy) && CutsStrings(lossy)
    requires ParseOps(Payload(ops)[..n], lossy) == Ok(ops)
    ensures n == |Payload(ops)|
    decreases |ops|
  {
    if ops != [] {
      var m, rest := |OpBytes(ops[0])|, Payload(ops[1..]);
      PayloadTail(ops);
      CutConcat(OpBytes(ops[0]), rest, n);
      if !LengthsFit(ops[0]) {
        NarrowedOp(ops[0], rest, n, lossy);
      } else if n < m {
        CutOp(ops[0], n, lossy);
      } else {
        ParseOpsStep(ops[0], rest[..n - m], lossy);
        assert ParseOps(rest[..n - m], lossy) == Ok(ops[1..]);
        CutPayload(ops[1..], n - m, lossy);
      }
    }
  }

  lemma NarrowShrinks(n: nat)
    ensures Narrow(n) <= n
  {
  }

  /** Reading a record whose length was narrowed sees a prefix of its payload. */
  lemma {:induction false} NarrowedPayload(w: Written, tail: bytes)
    requires !Fits(w)
    ensures var n, file := Narrow(|Payload(w.ops)|), RecordBytes(w) + tail;
      && n < |Payload(w.ops)| && HEADER_SIZE + n <= |file|
      && file[HEADER_SIZE..HEADER_SIZE + n] == Payload(w.ops)[..n]
  {
    hide Payload, Narrow, RecordBytes, RecordHeader.FromBytes, StoredHeader;
    RecordLength(w);
    HeaderReads(w, tail);
    NarrowShrinks(|Payload(w.ops)|);
    var p, n, file := Payload(w.ops), Narrow(|Payload(w.ops)|), RecordBytes(w) + tail;
    assert file[HEADER_SIZE..HEADER_SIZE + n] == file[HEADER_SIZE..HEADER_SIZE + |p|][..n];
  }

  lemma RecordLength(w: Written)
    ensures |RecordBytes(w)| == HEADER_SIZE + |Payload(w.ops)|
  {
    hide Payload;
  }

  /** A record whose payload length was narrowed is never read back as written. */
  lemma {:induction false} NarrowedRecord(w: Written, tail: bytes, lossy: bytes -> bytes)
    requires !Fits(w) && StringPaths(w.ops, lossy) && CutsStrings(lossy)
    ensures var r := ReadRecord(RecordBytes(w) + tail, lossy);
      r.Ok? ==> r.value.0.Some? && r.value.0.value.ops != w.ops
  {
    var p := Payload(w.ops);
    var n, file := Narrow(|p|), RecordBytes(w) + tail;
    HeaderReads(w, tail);
    NarrowedPayload(w, tail);
    ReadShape(StoredHeader(w), p[..n], file, lossy);
    if ParseOps(p[..n], lossy) == Ok(w.ops) {
      CutPayload(w.ops, n, lossy);
    }
  }

  /** A journal replays to what was written exactly when no payload reached 4 GiB. */
  lemma {:induction false} ReplayCondition(ws: seq<Written>, lossy: bytes -> bytes)
    requires AllStrings(ws, lossy) && CutsStrings(lossy)
    ensures Replay(JournalFile(ws), lossy) == Ok(Txns(ws)) <==> AllFit(ws)
  {
    if ws == [] {
      ReplayRoundTrip(ws, lossy);
    } else if Fits(ws[0]) {
      var rest := ws[1..];
      ReplayCondition(rest, lossy);
      JournalTail(ws);
      ReplayStep(ws[0], JournalFile(rest), lossy);
      FitTail(ws);
      SamePrefix(Txn(ws[0].id, ws[0].ops), Txns(rest), Replay(JournalFile(rest), lossy));
    } else {
      NarrowedFirst(ws, lossy);
    }
  }

  lemma {:induction false} JournalTail(ws: seq<Written>)
    requires ws != []
    ensures JournalFile(ws) == RecordBytes(ws[0]) + JournalFile(ws[1..])
    ensures Txns(ws) == [Txn(ws[0].id, ws[0].ops)] + Txns(ws[1..])
  {
    hide RecordBytes;
    assert Records(ws)[1..] == Records(ws[1..]);
  }

  lemma {:induction false} NarrowedFirst(ws: seq<Written>, lossy: bytes -> bytes)
    requires ws != [] && !Fits(ws[0]) && StringPaths(ws[0].ops, lossy) && CutsStrings(lossy)
    ensures Replay(JournalFile(ws), lossy) != Ok(Txns(ws))
  {
    var file := RecordBytes(ws[0]) + JournalFile(ws[1..]);
    JournalTail(ws);
    NarrowedRecord(ws[0], JournalFile(ws[1..]), lossy);
    var r := ReadRecord(file, lossy);
    if r.Ok? {
      var t := r.value.0.value;
      assert Replay(file, lossy) == Prepend([t], Replay(file[r.value.1..], lossy));
      DifferentFirst(t, Replay(file[r.value.1..], lossy), Txn(ws[0].id, ws[0].ops), Txns(ws[1..]));
    }
  }

  lemma DifferentFirst(t: Txn, r: Result<seq<Txn>, Error>, u: Txn, us: seq<Txn>)
    requires t != u
    ensures Prepend([t], r) != Ok([u] + us)
  {
    if r.Ok? {
      assert ([t] + r.value)[0] != ([u] + us)[0];
    }
  }

  lemma {:induction false} FitTail(ws: seq<Written>)
    requires ws != [] && Fits(ws[0])
    ensures AllFit(ws) <==> AllFit(ws[1..])
  {
    if AllFit(ws[1..]) {
      forall i | 0 <= i < |ws| ensures Fits(ws[i]) {
        if i > 0 { assert Fits(ws[1..][i - 1]); }
      }
    }
  }

  lemma SamePrefix(t: Txn, ts: seq<Txn>, r: Result<seq<Txn>, Error>)
    ensures Prepend([t], r) == Ok([t] + ts) <==> r == Ok(ts)
  {
    if r.Ok? && [t] + r.value == [t] + ts {
      assert r.value == ([t] + r.value)[1..] == ([t] + ts)[1..] == ts;
    }
  }

  // ---------------------------------------------------------------- the same, as the program does it

  method SerializeOps(ops: seq<JournalOp>) returns (payload: bytes)
    ensures payload == Payload(ops)
  {
    payload := [];
    for i := 0 to |ops|
      invariant payload == Payload(ops[..i])
    {
      var b := OpToBytes(ops[i]);
      PayloadSnoc(ops, i);
      payload := payload + b;
    }
    assert ops[..|ops|] == ops;
  }

  /** The outcome of the parse loop at `pos`, after the operations already parsed. */
  ghost function ParseFrom(done: seq<JournalOp>, payload: bytes, pos: nat, lossy: bytes -> bytes)
    : Result<seq<JournalOp>, Error>
    requires pos <= |payload|
  {
    var rest := ParseOps(payload[pos..], lossy);
    if rest.Err? then rest else Ok(done + rest.value)
  }

  lemma {:induction false} ParseFromStep(done: seq<JournalOp>, payload: bytes, pos: nat, lossy: bytes -> bytes)
    requires pos < |payload| && ParseOp(payload[pos..], lossy).Ok?
    ensures var r := ParseOp(payload[pos..], lossy).value;
      ParseFrom(done, payload, pos, lossy) == ParseFrom(done + [r.0], payload, pos + r.1, lossy)
  {
    var r := ParseOp(payload[pos..], lossy).value;
    assert payload[pos..][r.1..] == payload[pos + r.1..];
    var rest := ParseOps(payload[pos + r.1..], lossy);
    if rest.Ok? {
      assert done + ([r.0] + rest.value) == done + [r.0] + rest.value;
    }
  }

  lemma {:induction false} ParseFromStart(payload: bytes, lossy: bytes -> bytes)
    ensures ParseFrom([], payload, 0, lossy) == ParseOps(payload, lossy)
  {
    assert payload[0..] == payload;
    var r := ParseOps(payload, lossy);
    if r.Ok? {
      assert [] + r.value == r.value;
    }
  }

  lemma {:induction false} ParseFromEnd(done: seq<JournalOp>, payload: bytes, lossy: bytes -> bytes)
    ensures ParseFrom(done, payload, |payload|, lossy) == Ok(done)
  {
    assert payload[|payload|..] == [];
    assert done + [] == done;
  }

  method ParsePayload(payload: bytes, lossy: bytes -> bytes) returns (r: Result<seq<JournalOp>, Error>)
    ensures r == ParseOps(payload, lossy)
  {
    var ops: seq<JournalOp> := [];
    var pos: nat := 0;
    ParseFromStart(payload, lossy);
    while pos < |payload|
      invariant pos <= |payload|
      invariant ParseFrom(ops, payload, pos, lossy) == ParseOps(payload, lossy)
      decreases |payload| - pos
    {
      var next := OpFromBytes(payload[pos..], lossy);
      if next.Err? {
        return Err(next.error);
      }
      ParseFromStep(ops, payload, pos, lossy);
      ops := ops + [next.value.0];
      pos := pos + next.value.1;
    }
    ParseFromEnd(ops, payload, lossy);
    r := Ok(ops);
  }

  /** The replay loop at `pos`, after the transactions already read. */
  ghost function ReplayFrom(done: seq<Txn>, file: bytes, pos: nat, lossy: bytes -> bytes): Result<seq<Txn>, Error>
    requires pos <= |file|
    decreases |file| - pos
  {
    if |file| - pos < HEADER_SIZE then Ok(done)
    else
      var r := ReadRecord(file[pos..], lossy);
      if r.Err? then Err(r.error) else ReplayFrom(done + Listed(r.value.0), file, pos + r.value.1, lossy)
  }

  lemma {:induction false} ReplayFromSpec(done: seq<Txn>, file: bytes, pos: nat, lossy: bytes -> bytes)
    requires pos <= |file|
    ensures ReplayFrom(done, file, pos, lossy) == Prepend(done, Replay(file[pos..], lossy))
    decreases |file| - pos
  {
    hide ReadRecord;
    if |file| - pos < HEADER_SIZE {
      assert done + [] == done;
    } else {
      var r := ReadRecord(file[pos..], lossy);
      if r.Ok? {
        ReplayFromSpec(done + Listed(r.value.0), file, pos + r.value.1, lossy);
        assert file[pos..][r.value.1..] == file[pos + r.value.1..];
        PrependTwice(done, Listed(r.value.0), Replay(file[pos + r.value.1..], lossy));
      }
    }
  }

  lemma {:induction false} ReplayFromStart(file: bytes, lossy: bytes -> bytes)
    ensures ReplayFrom([], file, 0, lossy) == Replay(file, lossy)
  {
    hide ReadRecord;
    ReplayFromSpec([], file, 0, lossy);
    assert file[0..] == file;
    PrependNothing(Replay(file, lossy));
  }

  /** `replay`'s loop over the file: one header, one payload, one list of operations at a time. */
  method ReplayFile(file: bytes, lossy: bytes -> bytes) returns (r: Result<seq<Txn>, Error>)
    ensures r == ReplayFrom([], file, 0, lossy)
  {
    hide ReadRecord;
    var transactions: seq<Txn> := [];
    var pos: nat := 0;
    while |file| - pos >= HEADER_SIZE
      invariant pos <= |file|
      invariant ReplayFrom(transactions, file, pos, lossy) == ReplayFrom([], file, 0, lossy)
      decreases |file| - pos
    {
      var next := ReplayOne(file[pos..], lossy);
      if next.Err? {
        return Err(next.error);
      }
      transactions := transactions + Listed(next.value.0);
      pos := pos + next.value.1;
    }
    r := Ok(transactions);
  }

  /** One turn of the replay loop. */
  method ReplayOne(file: bytes, lossy: bytes -> bytes) returns (r: Result<(Option<Txn>, nat), Error>)
    requires |file| >= HEADER_SIZE
    ensures r == ReadRecord(file, lossy)
  {
    var header := RecordHeader.FromBytes(file[..HEADER_SIZE]);
    if header.Err? {
      return Err(header.error);
    }
    var h := header.value;
    if |file| - HEADER_SIZE < h.payloadLen {
      return Err(UnexpectedEof);
    }
    var end := HEADER_SIZE + h.payloadLen;
    var payload := file[HEADER_SIZE..end];
    var ok := HeaderVerify(h, payload);
    if !ok {
      return Err(ChecksumMismatch);
    }
    if h.flags != Committed {
      return Ok((None, end));
    }
    var ops := ParsePayload(payload, lossy);
    r := if ops.Err? then Err(ops.error) else Ok((Some(Txn(h.txnId, ops.value)), end));
  }

  const U64_SIZE: nat := 0x1_0000_0000_0000_0000

  /** `fetch_add(1)` on a 64-bit counter. */
  function NextId(id: u64): (r: u64)
    ensures r == (id + 1) % U64_SIZE
  {
    (id + 1) % U64_SIZE
  }

  lemma {:induction false} JournalSnoc(ws: seq<Written>, w: Written)
    ensures JournalFile(ws + [w]) == JournalFile(ws) + RecordBytes(w)
  {
    assert Records(ws + [w]) == Records(ws) + [RecordBytes(w)];
    FlattenSnoc(Records(ws), RecordBytes(w));
  }

  lemma RecordIs(w: Written, header: RecordHeader, payload: bytes)
    requires payload == Payload(w.ops) && header == NewHeader(w.id, w.timestamp, |payload|)
    ensures header.ToBytes(payload) + payload == RecordBytes(w)
  {
  }

  lemma AppendTwice(a: bytes, b: bytes, c: bytes)
    ensures a + b + c == a + (b + c)
  {
  }

  /** The header and then the payload make one more record. */
  lemma WrittenAppends(log: seq<Written>, w: Written, payload: bytes)
    requires payload == Payload(w.ops)
    ensures JournalFile(log) + NewHeader(w.id, w.timestamp, |payload|).ToBytes(payload) + payload == JournalFile(log + [w])
  {
    hide JournalFile, RecordBytes, Payload, NewHeader, RecordHeader.ToBytes;
    RecordIs(w, NewHeader(w.id, w.timestamp, |payload|), payload);
    JournalSnoc(log, w);
    AppendTwice(JournalFile(log), NewHeader(w.id, w.timestamp, |payload|).ToBytes(payload), payload);
  }

  /** Writing at a position overwrites what is there and extends the file where it ends. */
  function WriteAt(file: bytes, pos: nat, data: bytes): bytes
    requires pos <= |file|
  {
    file[..pos] + data + if pos + |data| < |file| then file[pos + |data|..] else []
  }

  /** A file of which the first bytes have been overwritten. */
  function Over(before: bytes, written: bytes): bytes
  {
    written + if |written| < |before| then before[|written|..] else []
  }

  lemma OverwriteOn(before: bytes, written: bytes, data: bytes)
    ensures WriteAt(Over(before, written), |written|, data) == Over(before, written + data)
  {
    var file := Over(before, written);
    assert file[..|written|] == written;
    if |written| + |data| < |before| {
      assert file[|written| + |data|..] == before[|written| + |data|..];
    }
  }

  /** Two writes, one after the other. */
  function WriteRecord(file: bytes, pos: nat, header: bytes, payload: bytes): bytes
    requires pos <= |file|
  {
    WriteAt(WriteAt(file, pos, header), pos + |header|, payload)
  }

  /** Writing a record at the end of those written so far. */
  lemma RecordOver(before: bytes, log: seq<Written>, w: Written, header: bytes, payload: bytes, file: bytes, pos: nat)
    requires payload == Payload(w.ops) && header == NewHeader(w.id, w.timestamp, |payload|).ToBytes(payload)
    requires file == Over(before, JournalFile(log)) && pos == |JournalFile(log)|
    ensures pos <= |file| && WriteRecord(file, pos, header, payload) == Over(before, JournalFile(log + [w]))
    ensures |JournalFile(log + [w])| == pos + |header| + |payload|
  {
    hide JournalFile, Payload, NewHeader, RecordHeader.ToBytes, WriteAt;
    var written := JournalFile(log);
    WrittenAppends(log, w, payload);
    OverwriteOn(before, written, header);
    OverwriteOn(before, written + header, payload);
  }

  /** A journal in `Immediate` mode. It is opened with the writer at the start of the file, whatever the file holds. */
  class Journal {
    var file: bytes
    var pos: nat
    var nextTxnId: u64
    var open: bool
    /** What the file held when it was opened, and the records written since then or since the last checkpoint. */
    ghost var before: bytes
    ghost var log: seq<Written>

    ghost predicate Valid()
      reads this
    {
      file == Over(before, JournalFile(log)) && pos == |JournalFile(log)|
    }

    constructor (existing: bytes)
      ensures Valid() && open && file == existing && before == existing && log == [] && nextTxnId == 1
    {
      file, pos, nextTxnId, open, before, log := existing, 0, 1, true, existing, [];
      new;
      assert [] + existing[0..] == existing;
    }

    method WriteTransaction(ops: seq<JournalOp>, timestamp: u64) returns (r: Result<u64, Error>)
      requires Valid()
      modifies this
      ensures Valid() && open == old(open) && before == old(before)
      ensures !open ==> r == Err(Closed) && log == old(log) && nextTxnId == old(nextTxnId)
      ensures open ==> r == Ok(old(nextTxnId)) && nextTxnId == (old(nextTxnId) + 1) % U64_SIZE
                       && log == old(log) + [Written(old(nextTxnId), timestamp, ops)]
    {
      if !open {
        return Err(Closed);
      }
      hide *;
      var txnId := nextTxnId;
      var payload := SerializeOps(ops);
      var header := NewHeader(txnId, timestamp, |payload|);
      var headerBytes := HeaderToBytes(header, payload);
      ghost var w := Written(txnId, timestamp, ops);
      ValidIs();
      RecordOver(before, log, w, headerBytes, payload, file, pos);
      file, pos := WriteRecord(file, pos, headerBytes, payload), pos + |headerBytes| + |payload|;
      nextTxnId := NextId(txnId);
      log := log + [w];
      ValidIs();
      r := Ok(txnId);
    }

    lemma ValidIs()
      ensures Valid() <==> file == Over(before, JournalFile(log)) && pos == |JournalFile(log)|
    {
    }

    /** What has been written since the last checkpoint is what replay returns, on a file that was empty before. */
    method ReplayAll(lossy: bytes -> bytes) returns (r: Result<seq<Txn>, Error>)
      requires Valid()
      ensures r == Replay(file, lossy)
      ensures before == [] && AllFit(log) && AllStrings(log, lossy) ==> r == Ok(Txns(log))
    {
      hide Replay, JournalFile, AllFit, AllStrings;
      r := ReplayFile(file, lossy);
      ReplayFromStart(file, lossy);
      if before == [] && AllFit(log) && AllStrings(log, lossy) {
        assert file == JournalFile(log);
        ReplayRoundTrip(log, lossy);
      }
    }

    method Checkpoint()
      modifies this
      ensures Valid() && log == [] && file == [] && before == [] && open == old(open) && nextTxnId == old(nextTxnId)
    {
      file, pos := [], 0;
      before, log := [], [];
    }

    method Close()
      requires Valid()
      modifies this
      ensures Valid() && !open && file == old(file) && before == old(before) && log == old(log) && nextTxnId == old(nextTxnId)
    {
      open := false;
    }
  }
}
