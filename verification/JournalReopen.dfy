/** What a journal that is opened again on an existing file still replays once it has been written to. */
module JournalReopen {
  import opened Bytes
  import opened Framing
  import opened JournalFormat
  import opened JournalReplay

  ghost predicate DistinctIds(ws: seq<Written>)
  {
    forall i, j :: 0 <= i < j < |ws| ==> ws[i].id != ws[j].id
  }

  /** Replay of whole records followed by other bytes. */
  lemma {:induction false} ReplayThen(ws: seq<Written>, tail: bytes, lossy: bytes -> bytes)
    requires AllFit(ws) && AllStrings(ws, lossy)
    ensures var r := Replay(tail, lossy);
      Replay(JournalFile(ws) + tail, lossy) == if r.Err? then r else Ok(Txns(ws) + r.value)
    decreases |ws|
  {
    hide *;
    var r := Replay(tail, lossy);
    if ws == [] {
      NoRecords(tail, r);
    } else {
      var first, rest := ws[0], ws[1..];
      JournalTail(ws);
      RestFits(ws, lossy);
      ReplayThen(rest, tail, lossy);
      AppendTwice(RecordBytes(first), JournalFile(rest), tail);
      ReplayStep(first, JournalFile(rest) + tail, lossy);
      PrependBoth(Txn(first.id, first.ops), Txns(rest), r);
    }
  }

  lemma NoRecords(tail: bytes, r: Result<seq<Txn>, Error>)
    ensures JournalFile([]) + tail == tail && (r.Ok? ==> Txns([]) + r.value == r.value)
  {
    assert JournalFile([]) == [];
  }

  lemma PrependBoth(t: Txn, ts: seq<Txn>, r: Result<seq<Txn>, Error>)
    ensures Prepend([t], if r.Err? then r else Ok(ts + r.value)) == if r.Err? then r else Ok(([t] + ts) + r.value)
  {
    if r.Ok? {
      assert [t] + (ts + r.value) == ([t] + ts) + r.value;
    }
  }

  lemma RestFits(ws: seq<Written>, lossy: bytes -> bytes)
    requires ws != [] && AllFit(ws) && AllStrings(ws, lossy)
    ensures Fits(ws[0]) && StringPaths(ws[0].ops, lossy) && AllFit(ws[1..]) && AllStrings(ws[1..], lossy)
  {
    hide StringPaths, Fits;
  }

  /** Records of the same operations take the same number of bytes. */
  lemma {:induction false} SameSizes(a: seq<Written>, b: seq<Written>)
    requires Txns(a) == Txns(b)
    ensures |a| == |b| && |JournalFile(a)| == |JournalFile(b)|
    decreases |a|
  {
    assert |a| == |Txns(a)| == |b|;
    hide *;
    if a == [] {
      assert b == [];
    } else {
      var n := |a| - 1;
      SameLast(a, b, n);
      SameSizes(a[..n], b[..n]);
      SizeSnoc(a, n);
      SizeSnoc(b, n);
    }
  }

  lemma SameLast(a: seq<Written>, b: seq<Written>, n: nat)
    requires Txns(a) == Txns(b) && n < |a| && n < |b|
    ensures Txns(a[..n]) == Txns(b[..n]) && RecordSize(a[n]) == RecordSize(b[n])
  {
    hide Payload;
    assert Txns(a)[n] == Txns(b)[n];
    assert Txns(a[..n]) == Txns(a)[..n] && Txns(b[..n]) == Txns(b)[..n];
  }

  lemma SizeSnoc(ws: seq<Written>, n: nat)
    requires |ws| == n + 1
    ensures |JournalFile(ws)| == |JournalFile(ws[..n])| + RecordSize(ws[n])
  {
    hide JournalFile, RecordBytes, RecordSize;
    JournalSnoc(ws[..n], ws[n]);
    assert ws == ws[..n] + [ws[n]];
  }

  lemma JournalSplit(ws: seq<Written>, n: nat)
    requires n <= |ws|
    ensures JournalFile(ws) == JournalFile(ws[..n]) + JournalFile(ws[n..])
  {
    hide RecordBytes;
    assert Records(ws) == Records(ws[..n]) + Records(ws[n..]);
    FlattenAppend(Records(ws[..n]), Records(ws[n..]));
  }

  /** Were everything replayed, the later records would have replaced as many earlier ones byte for byte. */
  lemma NotBoth(earlier: seq<Written>, later: seq<Written>, lossy: bytes -> bytes)
    requires AllFit(earlier) && AllStrings(earlier, lossy) && AllFit(later) && AllStrings(later, lossy)
    requires earlier != [] && later != [] && DistinctIds(later) && |JournalFile(later)| < |JournalFile(earlier)|
    ensures Replay(Over(JournalFile(earlier), JournalFile(later)), lossy) != Ok(Txns(earlier + later))
  {
    var tail := JournalFile(earlier)[|JournalFile(later)|..];
    ReplayThen(later, tail, lossy);
    hide Replay, JournalFile, AllFit, AllStrings;
    var r, all := Replay(tail, lossy), Txns(earlier + later);
    if r.Ok? {
      var m, n, joined := |earlier|, |later|, Txns(later) + r.value;
      if m < n {
        assert joined[m].id == later[m].id && all[m].id == later[0].id;
      } else if joined == all {
        assert all[..n] == Txns(earlier[..n]) && joined[..n] == Txns(later);
        SameSizes(earlier[..n], later);
        JournalSplit(earlier, n);
        assert tail == JournalFile(earlier[n..]);
        LaterParts(earlier, n, lossy);
        ReplayRoundTrip(earlier[n..], lossy);
      }
    }
  }

  lemma LaterParts(ws: seq<Written>, n: nat, lossy: bytes -> bytes)
    requires n <= |ws| && AllFit(ws) && AllStrings(ws, lossy)
    ensures AllFit(ws[n..]) && AllStrings(ws[n..], lossy)
  {
    hide Fits, StringPaths;
  }

  /**
   * A journal opened on the file of an earlier session, and written to, replays both sessions exactly if one of them wrote
   * nothing: the writer starts at the beginning of the file, over the earlier records.
   */
  lemma ReopenCondition(earlier: seq<Written>, later: seq<Written>, lossy: bytes -> bytes)
    requires AllFit(earlier) && AllStrings(earlier, lossy) && AllFit(later) && AllStrings(later, lossy) && DistinctIds(later)
    ensures Replay(Over(JournalFile(earlier), JournalFile(later)), lossy) == Ok(Txns(earlier + later))
            <==> earlier == [] || later == []
  {
    var old', new' := JournalFile(earlier), JournalFile(later);
    ReplayRoundTrip(earlier, lossy);
    ReplayRoundTrip(later, lossy);
    if later == [] {
      assert Over(old', new') == old' && earlier + later == earlier;
    } else if |new'| < |old'| {
      if earlier != [] {
        NotBoth(earlier, later, lossy);
      }
    } else {
      hide Replay, JournalFile;
      assert Over(old', new') == new';
      assert |Txns(earlier + later)| == |earlier| + |later|;
      if earlier == [] {
        assert earlier + later == later;
      }
    }
  }

  /** What is replayed after reopening, if anything is, begins with the later session's transactions. */
  lemma LaterFirst(before: bytes, later: seq<Written>, lossy: bytes -> bytes)
    requires AllFit(later) && AllStrings(later, lossy)
    ensures var file := Over(before, JournalFile(later)); var n := |JournalFile(later)|;
      var rest := Replay(if n < |before| then before[n..] else [], lossy);
      Replay(file, lossy) == if rest.Err? then rest else Ok(Txns(later) + rest.value)
  {
    var n := |JournalFile(later)|;
    ReplayThen(later, if n < |before| then before[n..] else [], lossy);
  }

  /** A reopened journal whose new transaction cannot be replayed either: the rest of the old record is no header. */
  lemma ReopenedUnreadable(lossy: bytes -> bytes) returns (earlier: seq<Written>, later: seq<Written>)
    requires forall p: bytes :: lossy(p) == p
    ensures Replay(JournalFile(earlier), lossy) == Ok(Txns(earlier)) && Replay(JournalFile(later), lossy) == Ok(Txns(later))
    ensures Replay(Over(JournalFile(earlier), JournalFile(later)), lossy) == Err(InvalidMagic)
  {
    var zeros: Hash32 := seq(32, _ => 0);
    assert HEADER_SIZE == 32;
    hide *;
    ShortPayloads(zeros);
    earlier, later := [Written(1, 0, [UpdateRoot(zeros)])], [Written(1, 0, [Barrier])];
    Unreadable(earlier[0], later[0], [5], zeros, lossy);
  }

  /** The shorter record covers the longer one up to bytes that are no header. */
  lemma Unreadable(long: Written, short: Written, front: bytes, rest: bytes, lossy: bytes -> bytes)
    requires Payload(long.ops) == front + rest && |Payload(short.ops)| == |front| <= 1 && forall p: bytes :: lossy(p) == p
    requires |rest| == HEADER_SIZE && forall i :: 0 <= i < HEADER_SIZE ==> rest[i] == 0
    ensures Replay(JournalFile([long]), lossy) == Ok(Txns([long])) && Replay(JournalFile([short]), lossy) == Ok(Txns([short]))
    ensures Replay(Over(JournalFile([long]), JournalFile([short])), lossy) == Err(InvalidMagic)
  {
    assert HEADER_SIZE == 32;
    hide *;
    ShortRecord(long, lossy);
    ShortRecord(short, lossy);
    PayloadEnd(long, front, rest);
    ZeroHeader(rest, lossy);
    RestRejected(RecordBytes(long), [short], rest, InvalidMagic, lossy);
  }

  lemma ShortPayloads(hash: Hash32)
    ensures Payload([UpdateRoot(hash)]) == [5] + hash && Payload([Barrier]) == [6]
  {
    OneOp(UpdateRoot(hash));
    OneOp(Barrier);
    hide Payload;
  }

  lemma RestRejected(before: bytes, later: seq<Written>, rest: bytes, e: Error, lossy: bytes -> bytes)
    requires AllFit(later) && AllStrings(later, lossy) && Replay(rest, lossy) == Err(e)
    requires |JournalFile(later)| < |before| && before[|JournalFile(later)|..] == rest
    ensures Replay(Over(before, JournalFile(later)), lossy) == Err(e)
  {
    hide *;
    LaterFirst(before, later, lossy);
  }

  lemma ShortRecord(w: Written, lossy: bytes -> bytes)
    requires |Payload(w.ops)| <= 33 && forall p: bytes :: lossy(p) == p
    ensures AllFit([w]) && AllStrings([w], lossy) && Replay(JournalFile([w]), lossy) == Ok(Txns([w]))
    ensures JournalFile([w]) == RecordBytes(w) && |RecordBytes(w)| == HEADER_SIZE + |Payload(w.ops)|
  {
    hide JournalFile, Replay, RecordBytes, Payload;
    assert Fits(w) && StringPaths(w.ops, lossy);
    ReplayRoundTrip([w], lossy);
    OneRecord(w);
  }

  lemma OneOp(op: JournalOp)
    ensures Payload([op]) == OpBytes(op)
  {
    PayloadTail([op]);
    assert Payload([]) == [];
  }

  lemma OneRecord(w: Written)
    ensures JournalFile([w]) == RecordBytes(w) && |RecordBytes(w)| == HEADER_SIZE + |Payload(w.ops)|
  {
    hide RecordBytes;
    JournalSnoc([], w);
    assert [] + [w] == [w] && JournalFile([]) == [];
  }

  lemma PayloadEnd(w: Written, front: bytes, back: bytes)
    requires Payload(w.ops) == front + back
    ensures |RecordBytes(w)| == HEADER_SIZE + |front| + |back| && RecordBytes(w)[HEADER_SIZE + |front|..] == back
  {
  }

  lemma ZeroHeader(file: bytes, lossy: bytes -> bytes)
    requires |file| == HEADER_SIZE && forall i :: 0 <= i < HEADER_SIZE ==> file[i] == 0
    ensures Replay(file, lossy) == Err(InvalidMagic)
  {
    var b := file[..HEADER_SIZE][0..4];
    assert b == [0, 0, 0, 0];
    assert FromLe([0, 0, 0, 0]) == 0 by {
      assert [0, 0, 0, 0][1..] == [0, 0, 0] && [0, 0, 0][1..] == [0, 0] && [0, 0][1..] == [0] && [0][1..] == [];
    }
    assert U32(b) == 0;
    assert RecordHeader.FromBytes(file[..HEADER_SIZE]) == Err(InvalidMagic);
  }
}
