/**
 * Group commit as a state machine: writers queue records, whoever flushes drains the queue, writes and syncs the
 * batch under the writer lock, and then wakes the writers. A run is any interleaving of the threads' steps, with
 * the buffered writer spilling to the file at any moment.
 */
module GroupCommit {
  import opened Bytes
  import opened Framing
  import opened JournalFormat
  import opened JournalReplay

  /** Where a transaction's record is. */
  datatype Place = Held(tid: nat) | Queued | InFile

  /** `own` is the transaction the flushing thread itself waits for, if it is a writer. */
  datatype Phase =
    | Idle
    | Allocated(w: Written)
    | Draining(own: Option<Written>)
    | Locking(batch: seq<Written>, own: Option<Written>)
    | Writing(batch: seq<Written>, i: nat, own: Option<Written>)
    | Flushing(batch: seq<Written>, own: Option<Written>)
    | Syncing(batch: seq<Written>, own: Option<Written>)
    | Signalling(batch: seq<Written>, i: nat, own: Option<Written>)
    | Waiting(w: Written)

  /**
   * The journal: its queue, the buffered writer and the file under it, the lock on the writer, and the wake-up flags.
   * The fields from `issued` on record the history of the run.
   */
  datatype Shared = Shared(
    nextTxnId: u64, pending: seq<Written>, buffer: bytes, file: bytes, synced: nat, lock: Option<nat>, done: set<nat>,
    issued: map<nat, Written>, place: map<nat, Place>, logged: seq<Written>, durable: nat, acked: seq<Written>)

  datatype Label = Transact(tid: nat, timestamp: u64, ops: seq<JournalOp>) | Flush(tid: nat) | Step(tid: nat) | Spill(n: nat)

  datatype World = World(shared: Shared, threads: map<nat, Phase>)

  const InitialWorld := World(Shared(1, [], [], [], 0, None, {}, map[], map[], [], 0, []), map[])

  function PhaseOf(w: World, tid: nat): Phase
  {
    if tid in w.threads then w.threads[tid] else Idle
  }

  // ---------------------------------------------------------------- steps

  function After(own: Option<Written>): Phase
  {
    if own.Some? then Waiting(own.value) else Idle
  }

  function Relocate(place: map<nat, Place>, rs: seq<Written>, to: Place): map<nat, Place>
    decreases |rs|
  {
    if rs == [] then place else Relocate(place, rs[..|rs| - 1], to)[rs[|rs| - 1].id := to]
  }

  /** `write_transaction` draws the next identifier; a run draws fewer than 2^64. */
  function Draw(g: Shared, t: nat, timestamp: u64, ops: seq<JournalOp>): (Shared, Phase)
    requires g.nextTxnId + 1 < U64_SIZE
  {
    var w := Written(g.nextTxnId, timestamp, ops);
    (g.(nextTxnId := g.nextTxnId + 1, issued := g.issued[w.id := w], place := g.place[w.id := Held(t)]), Allocated(w))
  }

  /** Queues the record; the writer that fills the queue flushes it. */
  function Push(g: Shared, w: Written, maxPending: nat): (Shared, Phase)
  {
    var pending := g.pending + [w];
    (g.(pending := pending, place := g.place[w.id := Queued]),
     if |pending| >= maxPending then Draining(Some(w)) else Waiting(w))
  }

  function Drain(g: Shared, t: nat, own: Option<Written>): (Shared, Phase)
  {
    if g.pending == [] then (g, After(own))
    else (g.(pending := [], place := Relocate(g.place, g.pending, Held(t))), Locking(g.pending, own))
  }

  function WriteOne(g: Shared, ph: Phase): (Shared, Phase)
    requires ph.Writing?
  {
    if ph.i >= |ph.batch| then (g, Flushing(ph.batch, ph.own))
    else
      var w := ph.batch[ph.i];
      (g.(buffer := g.buffer + RecordBytes(w), place := g.place[w.id := InFile], logged := g.logged + [w]),
       Writing(ph.batch, ph.i + 1, ph.own))
  }

  function Signal(g: Shared, ph: Phase): (Shared, Phase)
    requires ph.Signalling?
  {
    if ph.i >= |ph.batch| then (g, After(ph.own)) 
    else (g.(done := g.done + {ph.batch[ph.i].id}), Signalling(ph.batch, ph.i + 1, ph.own))
  }

  function Act(maxPending: nat, g: Shared, t: nat, ph: Phase): (Shared, Phase)
  {
    match ph
    case Idle => (g, ph)
    case Allocated(w) => Push(g, w, maxPending)
    case Draining(own) => Drain(g, t, own)
    case Locking(batch, own) => if g.lock.None? then (g.(lock := Some(t)), Writing(batch, 0, own)) else (g, ph)
    case Writing(_, _, _) => WriteOne(g, ph)
    case Flushing(batch, own) => (g.(file := g.file + g.buffer, buffer := []), Syncing(batch, own))
    case Syncing(batch, own) =>
      (g.(synced := |g.file|, durable := |g.logged|, lock := None), Signalling(batch, 0, own))
    case Signalling(_, _, _) => Signal(g, ph)
    case Waiting(w) => if w.id in g.done then (g.(acked := g.acked + [w]), Idle) else (g, ph)
  }

  /** One step of the run; a step that is not enabled changes nothing. */
  function Next(maxPending: nat, w: World, event: Label): World
  {
    match event
    case Transact(t, timestamp, ops) =>
      if PhaseOf(w, t).Idle? && w.shared.nextTxnId + 1 < U64_SIZE then
        var (g, ph) := Draw(w.shared, t, timestamp, ops);
        World(g, w.threads[t := ph])
      else w
    case Flush(t) => if PhaseOf(w, t).Idle? then World(w.shared, w.threads[t := Draining(None)]) else w
    case Step(t) =>
      var (g, ph) := Act(maxPending, w.shared, t, PhaseOf(w, t));
      World(g, w.threads[t := ph])
    case Spill(n) =>
      if n <= |w.shared.buffer| then
        World(w.shared.(file := w.shared.file + w.shared.buffer[..n], buffer := w.shared.buffer[n..]), w.threads)
      else w
  }

  function Run(maxPending: nat, labels: seq<Label>): World
    decreases |labels|
  {
    if labels == [] then InitialWorld else Next(maxPending, Run(maxPending, labels[..|labels| - 1]), labels[|labels| - 1])
  }

  // ---------------------------------------------------------------- invariant

  /** The records are exactly those that are in the place, each once. */
  ghost predicate Accounts(issued: map<nat, Written>, place: map<nat, Place>, rs: seq<Written>, where: Place)
  {
    && (forall i :: 0 <= i < |rs| ==>
          rs[i].id in issued && issued[rs[i].id] == rs[i] && rs[i].id in place && place[rs[i].id] == where)
    && (forall i, j :: 0 <= i < j < |rs| ==> rs[i].id != rs[j].id)
    && (forall id :: id in place && place[id] == where ==> exists i :: 0 <= i < |rs| && rs[i].id == id)
  }

  /** The records a thread is carrying. */
  function Carried(ph: Phase): seq<Written>
  {
    match ph
    case Allocated(w) => [w]
    case Locking(batch, _) => batch
    case Writing(batch, i, _) => if i <= |batch| then batch[i..] else []
    case _ => []
  }

  ghost predicate AllOf(rs: seq<Written>, log: seq<Written>)
  {
    forall i :: 0 <= i < |rs| ==> rs[i] in log
  }

  predicate HasLock(ph: Phase)
  {
    ph.Writing? || ph.Flushing? || ph.Syncing?
  }

  /** What a thread in the middle of a flush may rely on. */
  ghost predicate FlushOk(g: Shared, t: nat, ph: Phase)
  {
    && (HasLock(ph) <==> g.lock == Some(t))
    && (ph.Writing? ==> ph.i <= |ph.batch| && AllOf(ph.batch[..ph.i], g.logged))
    && ((ph.Flushing? || ph.Syncing?) ==> AllOf(ph.batch, g.logged))
    && (ph.Syncing? ==> g.buffer == [])
    && (ph.Signalling? ==> g.durable <= |g.logged| && AllOf(ph.batch, g.logged[..g.durable]))
  }

  function Own(ph: Phase): Option<Written>
  {
    match ph
    case Waiting(w) => Some(w)
    case Draining(own) => own
    case Locking(_, own) => own
    case Writing(_, _, own) => own
    case Flushing(_, own) => own
    case Syncing(_, own) => own
    case Signalling(_, _, own) => own
    case _ => None
  }

  ghost predicate Genuine(g: Shared, w: Written)
  {
    w.id in g.issued && g.issued[w.id] == w
  }

  ghost predicate FileOk(g: Shared)
  {
    && g.file + g.buffer == JournalFile(g.logged)
    && g.durable <= |g.logged| && g.synced == |JournalFile(g.logged[..g.durable])| <= |g.file|
  }

  ghost predicate IssuedOk(g: Shared)
  {
    && g.issued.Keys == g.place.Keys
    && forall id :: id in g.issued ==> id < g.nextTxnId && g.issued[id].id == id
  }

  ghost predicate DoneOk(g: Shared)
  {
    && g.durable <= |g.logged|
    && (forall id :: id in g.done ==> id in g.issued && g.issued[id] in g.logged[..g.durable])
    && (forall i :: 0 <= i < |g.acked| ==> Genuine(g, g.acked[i]) && g.acked[i].id in g.done)
  }

  ghost predicate ThreadOk(g: Shared, t: nat, ph: Phase)
  {
    && Accounts(g.issued, g.place, Carried(ph), Held(t)) && FlushOk(g, t, ph)
    && (Own(ph).Some? ==> Genuine(g, Own(ph).value))
  }

  ghost predicate Inv(w: World)
  {
    var g := w.shared;
    && IssuedOk(g) && FileOk(g) && DoneOk(g)
    && Accounts(g.issued, g.place, g.pending, Queued) && Accounts(g.issued, g.place, g.logged, InFile)
    && forall t: nat :: ThreadOk(g, t, PhaseOf(w, t))
  }

  // ---------------------------------------------------------------- the other threads

  ghost predicate At(place: map<nat, Place>, id: nat, where: Place)
  {
    id in place && place[id] == where
  }

  /** What a step of thread `t` leaves alone as far as the other threads are concerned. */
  ghost predicate Leaves(g: Shared, h: Shared, t: nat)
  {
    && (forall id :: id in g.issued ==> id in h.issued && h.issued[id] == g.issued[id])
    && (forall id: nat, u: nat :: u != t ==> (At(h.place, id, Held(u)) <==> At(g.place, id, Held(u))))
    && g.logged <= h.logged && g.durable <= h.durable <= |h.logged|
    && (forall u: nat :: u != t ==> (g.lock == Some(u) <==> h.lock == Some(u)))
    && (g.lock.Some? && g.lock != Some(t) ==> h.buffer == g.buffer)
  }

  lemma AllOfGrows(rs: seq<Written>, a: seq<Written>, b: seq<Written>)
    requires AllOf(rs, a) && a <= b
    ensures AllOf(rs, b)
  {
    forall i | 0 <= i < |rs| ensures rs[i] in b {
      var j :| 0 <= j < |a| && a[j] == rs[i];
      assert b[j] == rs[i];
    }
  }

  lemma AccountsKept(g: Shared, h: Shared, rs: seq<Written>, where: Place)
    requires Accounts(g.issued, g.place, rs, where) && forall id :: id in g.issued ==> id in h.issued && h.issued[id] == g.issued[id]
    requires forall id: nat :: At(h.place, id, where) <==> At(g.place, id, where)
    ensures Accounts(h.issued, h.place, rs, where)
  {
    forall i | 0 <= i < |rs| ensures rs[i].id in h.place && h.place[rs[i].id] == where {
      assert At(g.place, rs[i].id, where);
    }
    forall id | id in h.place && h.place[id] == where ensures exists i :: 0 <= i < |rs| && rs[i].id == id {
      assert At(h.place, id, where);
      assert At(g.place, id, where);
    }
  }

  lemma OtherThread(g: Shared, h: Shared, t: nat, u: nat, ph: Phase)
    requires Leaves(g, h, t) && u != t && ThreadOk(g, u, ph)
    ensures ThreadOk(h, u, ph)
  {
    hide At;
    AccountsKept(g, h, Carried(ph), Held(u));
    if ph.Writing? {
      AllOfGrows(ph.batch[..ph.i], g.logged, h.logged);
    } else if ph.Flushing? || ph.Syncing? {
      AllOfGrows(ph.batch, g.logged, h.logged);
    } else if ph.Signalling? {
      AllOfGrows(ph.batch, g.logged[..g.durable], h.logged[..h.durable]);
    }
  }

  /** The shared part of the invariant. */
  ghost predicate SharedOk(g: Shared)
  {
    IssuedOk(g) && FileOk(g) && DoneOk(g) && Accounts(g.issued, g.place, g.pending, Queued) && Accounts(g.issued, g.place, g.logged, InFile)
  }

  ghost predicate Steps(g: Shared, t: nat, next: (Shared, Phase))
  {
    SharedOk(next.0) && ThreadOk(next.0, t, next.1) && Leaves(g, next.0, t)
  }

  // ---------------------------------------------------------------- each step

  lemma LeavesSelf(g: Shared, t: nat)
    requires g.durable <= |g.logged|
    ensures Leaves(g, g, t)
  {
  }

  lemma NothingThere(g: Shared, where: Place, id: nat)
    requires Accounts(g.issued, g.place, [], where)
    ensures !At(g.place, id, where)
  {
  }

  lemma DrawSteps(g: Shared, t: nat, timestamp: u64, ops: seq<JournalOp>)
    requires SharedOk(g) && ThreadOk(g, t, Idle) && g.nextTxnId + 1 < U64_SIZE
    ensures Steps(g, t, Draw(g, t, timestamp, ops))
  {
    hide JournalFile;
    var h := Draw(g, t, timestamp, ops).0;
    assert g.nextTxnId !in g.issued;
    AccountsKept(g, h, g.pending, Queued);
    AccountsKept(g, h, g.logged, InFile);
    hide Accounts;
    DrawnHeld(g, h, t, timestamp, ops);
  }

  lemma DrawnHeld(g: Shared, h: Shared, t: nat, timestamp: u64, ops: seq<JournalOp>)
    requires g.nextTxnId + 1 < U64_SIZE && h == Draw(g, t, timestamp, ops).0
    requires Accounts(g.issued, g.place, [], Held(t))
    ensures Accounts(h.issued, h.place, [Written(g.nextTxnId, timestamp, ops)], Held(t))
  {
    var w := Written(g.nextTxnId, timestamp, ops);
    assert [w][0] == w;
    forall id | id in h.place && h.place[id] == Held(t) ensures id == w.id {
      NothingThere(g, Held(t), id);
    }
  }

  lemma PushSteps(g: Shared, t: nat, w: Written, maxPending: nat)
    requires SharedOk(g) && ThreadOk(g, t, Allocated(w))
    ensures Steps(g, t, Push(g, w, maxPending))
  {
    hide JournalFile;
    var h := Push(g, w, maxPending).0;
    assert Carried(Allocated(w))[0] == w;
    AccountsKept(g, h, g.logged, InFile);
    MoveLast(g, h, w, Held(t), Queued);
  }

  /** A record moves from a place that held only it to the end of another list. */
  lemma MoveLast(g: Shared, h: Shared, w: Written, from: Place, to: Place)
    requires Accounts(g.issued, g.place, [w], from) && from != to && h.issued == g.issued && h.place == g.place[w.id := to]
    ensures Accounts(h.issued, h.place, [], from)
    ensures forall rs :: Accounts(g.issued, g.place, rs, to) ==> Accounts(h.issued, h.place, rs + [w], to)
  {
    assert [w][0] == w;
    forall rs | Accounts(g.issued, g.place, rs, to) ensures Accounts(h.issued, h.place, rs + [w], to) {
      AppendMoved(g, h, rs, w, to);
    }
  }

  lemma AppendMoved(g: Shared, h: Shared, rs: seq<Written>, w: Written, to: Place)
    requires Accounts(g.issued, g.place, rs, to) && h.issued == g.issued && h.place == g.place[w.id := to]
    requires Genuine(g, w) && !At(g.place, w.id, to)
    ensures Accounts(h.issued, h.place, rs + [w], to)
  {
    var more := rs + [w];
    forall i | 0 <= i < |rs| ensures rs[i].id != w.id {
      assert At(g.place, rs[i].id, to);
    }
    forall id | id in h.place && h.place[id] == to ensures exists i :: 0 <= i < |more| && more[i].id == id {
      if id == w.id {
        assert more[|rs|].id == id;
      } else {
        var i :| 0 <= i < |rs| && rs[i].id == id;
        assert more[i].id == id;
      }
    }
  }

  lemma {:induction false} RelocateSpec(place: map<nat, Place>, rs: seq<Written>, to: Place, id: nat)
    requires forall i :: 0 <= i < |rs| ==> rs[i].id in place
    ensures Relocate(place, rs, to).Keys == place.Keys
    ensures id in place ==>
      Relocate(place, rs, to)[id] == if exists i :: 0 <= i < |rs| && rs[i].id == id then to else place[id]
    decreases |rs|
  {
    if rs != [] {
      var n := |rs| - 1;
      RelocateSpec(place, rs[..n], to, id);
      if id != rs[n].id && exists i :: 0 <= i < |rs| && rs[i].id == id {
        var i :| 0 <= i < |rs| && rs[i].id == id;
        assert rs[..n][i].id == id;
      }
    }
  }

  lemma DrainSteps(g: Shared, t: nat, own: Option<Written>)
    requires SharedOk(g) && ThreadOk(g, t, Draining(own))
    ensures Steps(g, t, Drain(g, t, own))
  {
    hide JournalFile, Relocate, Accounts, IssuedOk, FileOk, Relocated;
    if g.pending == [] {
      LeavesSelf(g, t);
    } else {
      var h := Drain(g, t, own).0;
      forall id: nat ensures Relocated(g, h, t, id) {
        DrainedPlace(g, h, t, id);
      }
      Drained(g, h, t);
    }
  }

  /** A queued identifier moves to the thread; every other stays. */
  ghost predicate Relocated(g: Shared, h: Shared, t: nat, id: nat)
  {
    && (id in h.place <==> id in g.place)
    && (id in g.place ==> h.place[id] == if g.place[id] == Queued then Held(t) else g.place[id])
  }

  lemma DrainedPlace(g: Shared, h: Shared, t: nat, id: nat)
    requires Accounts(g.issued, g.place, g.pending, Queued) && h.place == Relocate(g.place, g.pending, Held(t))
    ensures Relocated(g, h, t, id)
  {
    RelocateSpec(g.place, g.pending, Held(t), id);
  }

  lemma Drained(g: Shared, h: Shared, t: nat)
    requires SharedOk(g) && Accounts(g.issued, g.place, [], Held(t)) && h == g.(pending := [], place := h.place)
    requires forall id: nat :: Relocated(g, h, t, id)
    ensures SharedOk(h) && Leaves(g, h, t) && Accounts(h.issued, h.place, g.pending, Held(t))
  {
    hide JournalFile;
    forall id: nat, u: nat | u != t ensures At(h.place, id, Held(u)) <==> At(g.place, id, Held(u)) {
      assert Relocated(g, h, t, id);
    }
    forall id: nat ensures At(h.place, id, InFile) <==> At(g.place, id, InFile) {
      assert Relocated(g, h, t, id);
    }
    forall id: nat ensures At(h.place, id, Held(t)) <==> At(g.place, id, Queued) {
      assert Relocated(g, h, t, id);
      assert !At(g.place, id, Held(t));
    }
    forall id | id in h.place ensures h.place[id] != Queued {
      assert Relocated(g, h, t, id);
    }
    assert Accounts(h.issued, h.place, [], Queued);
    assert h.place.Keys == g.place.Keys by {
      forall id ensures id in h.place <==> id in g.place {
        assert Relocated(g, h, t, id);
      }
    }
    AccountsKept(g, h, g.logged, InFile);
    Renamed(g, h, g.pending, Queued, Held(t));
  }

  lemma Renamed(g: Shared, h: Shared, rs: seq<Written>, from: Place, to: Place)
    requires Accounts(g.issued, g.place, rs, from) && h.issued == g.issued
    requires forall id: nat :: At(h.place, id, to) <==> At(g.place, id, from)
    ensures Accounts(h.issued, h.place, rs, to)
  {
    forall i | 0 <= i < |rs| ensures rs[i].id in h.place && h.place[rs[i].id] == to {
      assert At(g.place, rs[i].id, from);
      assert At(h.place, rs[i].id, to);
    }
    forall id | id in h.place && h.place[id] == to ensures exists i :: 0 <= i < |rs| && rs[i].id == id {
      assert At(h.place, id, to);
      assert At(g.place, id, from);
    }
  }

  lemma LockSteps(g: Shared, t: nat, batch: seq<Written>, own: Option<Written>)
    requires SharedOk(g) && ThreadOk(g, t, Locking(batch, own)) && g.lock.None?
    ensures Steps(g, t, (g.(lock := Some(t)), Writing(batch, 0, own)))
  {
    hide JournalFile, Accounts;
    var h := g.(lock := Some(t));
    assert batch[0..] == batch && batch[..0] == [];
  }

  lemma BytesAppended(file: bytes, buffer: bytes, record: bytes)
    ensures file + (buffer + record) == file + buffer + record
  {
  }

  lemma WriteSteps(g: Shared, t: nat, ph: Phase)
    requires SharedOk(g) && ThreadOk(g, t, ph) && ph.Writing? && ph.i < |ph.batch|
    ensures Steps(g, t, WriteOne(g, ph))
  {
    hide RecordBytes, JournalFile, Accounts;
    var w, h := ph.batch[ph.i], WriteOne(g, ph).0;
    assert Carried(ph) == [w] + ph.batch[ph.i + 1..];
    FirstPlace(g, w, ph.batch[ph.i + 1..], t);
    WriteShared(g, h, w);
    WriteThread(g, h, t, ph);
    WriteLeaves(g, h, t, w);
  }

  lemma WriteLeaves(g: Shared, h: Shared, t: nat, w: Written)
    requires h == g.(buffer := h.buffer, place := g.place[w.id := InFile], logged := g.logged + [w])
    requires At(g.place, w.id, Held(t)) && g.lock == Some(t) && g.durable <= |g.logged|
    ensures Leaves(g, h, t)
  {
    MovedAway(g, h, w, t);
    hide At;
  }

  lemma WriteShared(g: Shared, h: Shared, w: Written)
    requires SharedOk(g) && Genuine(g, w) && !At(g.place, w.id, InFile) && !At(g.place, w.id, Queued)
    requires h == g.(buffer := g.buffer + RecordBytes(w), place := g.place[w.id := InFile], logged := g.logged + [w])
    ensures SharedOk(h)
  {
    hide JournalFile, RecordBytes, Accounts, FileOk, DoneOk, IssuedOk;
    AppendMoved(g, h, g.logged, w, InFile);
    AccountsKept(g, h, g.pending, Queued);
    LoggedFile(g, h, w);
    IssuedMoved(g, h, w);
  }

  lemma WriteThread(g: Shared, h: Shared, t: nat, ph: Phase)
    requires ThreadOk(g, t, ph) && ph.Writing? && ph.i < |ph.batch| && h == WriteOne(g, ph).0
    ensures ThreadOk(h, t, Writing(ph.batch, ph.i + 1, ph.own))
  {
    hide RecordBytes, Accounts;
    var w := ph.batch[ph.i];
    assert Carried(ph) == [w] + ph.batch[ph.i + 1..];
    Dropped(g, h, w, ph.batch[ph.i + 1..], Held(t), InFile);
    AllOfSnoc(ph.batch[..ph.i], g.logged, w);
    assert ph.batch[..ph.i + 1] == ph.batch[..ph.i] + [w];
  }

  lemma AllOfSnoc(rs: seq<Written>, log: seq<Written>, w: Written)
    requires AllOf(rs, log)
    ensures AllOf(rs + [w], log + [w])
  {
    AllOfGrows(rs, log, log + [w]);
    assert (log + [w])[|log|] == w;
  }

  lemma IssuedMoved(g: Shared, h: Shared, w: Written)
    requires IssuedOk(g) && Genuine(g, w) && h.issued == g.issued && h.place == g.place[w.id := InFile] && h.nextTxnId == g.nextTxnId
    ensures IssuedOk(h)
  {
  }

  lemma FirstPlace(g: Shared, w: Written, rest: seq<Written>, t: nat)
    requires Accounts(g.issued, g.place, [w] + rest, Held(t))
    ensures Genuine(g, w) && At(g.place, w.id, Held(t)) && !At(g.place, w.id, InFile) && !At(g.place, w.id, Queued)
  {
    assert ([w] + rest)[0] == w;
  }

  lemma MovedAway(g: Shared, h: Shared, w: Written, t: nat)
    requires At(g.place, w.id, Held(t)) && h.place == g.place[w.id := InFile]
    ensures forall id: nat, u: nat :: u != t ==> (At(h.place, id, Held(u)) <==> At(g.place, id, Held(u)))
    ensures forall id: nat :: At(h.place, id, Queued) <==> At(g.place, id, Queued)
  {
  }

  /** The record goes to the end of the file and of the log together. */
  lemma LoggedFile(g: Shared, h: Shared, w: Written)
    requires FileOk(g) && DoneOk(g) && h.logged == g.logged + [w] && h.buffer == g.buffer + RecordBytes(w)
    requires h == g.(logged := h.logged, buffer := h.buffer, place := h.place)
    ensures FileOk(h) && DoneOk(h)
  {
    hide JournalFile, RecordBytes;
    BytesAppended(g.file, g.buffer, RecordBytes(w));
    JournalSnoc(g.logged, w);
    assert h.logged[..h.durable] == g.logged[..g.durable];
  }

  /** The first record of a list leaves its place. */
  lemma Dropped(g: Shared, h: Shared, w: Written, rest: seq<Written>, from: Place, to: Place)
    requires Accounts(g.issued, g.place, [w] + rest, from) && from != to && h.issued == g.issued && h.place == g.place[w.id := to]
    ensures Accounts(h.issued, h.place, rest, from)
  {
    var all := [w] + rest;
    OthersDistinct(all);
    assert all[1..] == rest;
    forall i | 0 <= i < |rest| ensures rest[i] == all[i + 1] && rest[i].id != w.id {
      assert all[0].id != all[i + 1].id;
    }
    forall id | id in h.place && h.place[id] == from ensures exists i :: 0 <= i < |rest| && rest[i].id == id {
      Remaining(g, w, rest, from, id);
    }
  }

  lemma Remaining(g: Shared, w: Written, rest: seq<Written>, from: Place, id: nat)
    requires Accounts(g.issued, g.place, [w] + rest, from) && At(g.place, id, from) && id != w.id
    ensures exists i :: 0 <= i < |rest| && rest[i].id == id
  {
    var i :| 0 <= i < |[w] + rest| && ([w] + rest)[i].id == id;
    assert i > 0 && rest[i - 1].id == id;
  }

  lemma OthersDistinct(all: seq<Written>)
    requires all != [] && forall i, j :: 0 <= i < j < |all| ==> all[i].id != all[j].id
    ensures forall i, j :: 0 <= i < j < |all[1..]| ==> all[1..][i].id != all[1..][j].id
  {
  }

  lemma FlushSteps(g: Shared, t: nat, batch: seq<Written>, own: Option<Written>)
    requires SharedOk(g) && ThreadOk(g, t, Flushing(batch, own))
    ensures Steps(g, t, (g.(file := g.file + g.buffer, buffer := []), Syncing(batch, own)))
  {
    hide JournalFile, Accounts;
    var h := g.(file := g.file + g.buffer, buffer := []);
    assert h.file + [] == h.file;
  }

  /** The thread that syncs holds the writer, so nothing has been written since it flushed. */
  lemma SyncSteps(g: Shared, t: nat, batch: seq<Written>, own: Option<Written>)
    requires SharedOk(g) && ThreadOk(g, t, Syncing(batch, own))
    ensures Steps(g, t, (g.(synced := |g.file|, durable := |g.logged|, lock := None), Signalling(batch, 0, own)))
  {
    hide JournalFile, Accounts;
    var h := g.(synced := |g.file|, durable := |g.logged|, lock := None);
    assert g.file + [] == g.file;
    assert h.logged[..h.durable] == g.logged;
    MoreDurable(g.logged, g.durable);
  }

  lemma MoreDurable(log: seq<Written>, n: nat)
    requires n <= |log|
    ensures forall w :: w in log[..n] ==> w in log
  {
  }

  lemma LoggedGenuine(g: Shared, j: nat)
    requires Accounts(g.issued, g.place, g.logged, InFile) && j < |g.logged|
    ensures Genuine(g, g.logged[j])
  {
  }

  lemma SignalSteps(g: Shared, t: nat, ph: Phase)
    requires SharedOk(g) && ThreadOk(g, t, ph) && ph.Signalling?
    ensures Steps(g, t, Signal(g, ph))
  {
    hide JournalFile, Accounts;
    var h := Signal(g, ph).0;
    LeavesSelf(g, t);
    if ph.i < |ph.batch| {
      var w := ph.batch[ph.i];
      assert w in g.logged[..g.durable];
      var j :| 0 <= j < |g.logged| && g.logged[j] == w;
      LoggedGenuine(g, j);
    }
  }

  lemma WaitSteps(g: Shared, t: nat, w: Written)
    requires SharedOk(g) && ThreadOk(g, t, Waiting(w)) && w.id in g.done
    ensures Steps(g, t, (g.(acked := g.acked + [w]), Idle))
  {
    hide JournalFile, Accounts;
    var h := g.(acked := g.acked + [w]);
    LeavesSelf(g, t);
  }

  lemma ActSteps(maxPending: nat, g: Shared, t: nat, ph: Phase)
    requires SharedOk(g) && ThreadOk(g, t, ph)
    ensures Steps(g, t, Act(maxPending, g, t, ph))
  {
    LeavesSelf(g, t);
    hide SharedOk, Push, Drain, Signal, Leaves;
    match ph
    case Allocated(w) => PushSteps(g, t, w, maxPending);
    case Draining(own) => DrainSteps(g, t, own);
    case Locking(batch, own) => if g.lock.None? { LockSteps(g, t, batch, own); }
    case Writing(_, _, _) => if ph.i < |ph.batch| { WriteSteps(g, t, ph); } else { WrittenSteps(g, t, ph); }
    case Flushing(batch, own) => FlushSteps(g, t, batch, own);
    case Syncing(batch, own) => SyncSteps(g, t, batch, own);
    case Signalling(_, _, _) => SignalSteps(g, t, ph);
    case Waiting(w) => if w.id in g.done { WaitSteps(g, t, w); }
    case Idle =>
  }

  lemma WrittenSteps(g: Shared, t: nat, ph: Phase)
    requires SharedOk(g) && ThreadOk(g, t, ph) && ph.Writing? && ph.i >= |ph.batch|
    ensures Steps(g, t, WriteOne(g, ph))
  {
    LeavesSelf(g, t);
    hide SharedOk, Leaves;
    assert ph.batch[..ph.i] == ph.batch && ph.batch[ph.i..] == [];
  }

  // ---------------------------------------------------------------- whole runs

  lemma ThreadStepInv(w: World, t: nat, next: (Shared, Phase))
    requires Inv(w) && Steps(w.shared, t, next)
    ensures Inv(World(next.0, w.threads[t := next.1]))
  {
    hide ThreadOk, Leaves, IssuedOk, FileOk, DoneOk, Accounts;
    var v := World(next.0, w.threads[t := next.1]);
    forall u: nat ensures ThreadOk(v.shared, u, PhaseOf(v, u)) {
      if u != t {
        assert PhaseOf(v, u) == PhaseOf(w, u);
        OtherThread(w.shared, next.0, t, u, PhaseOf(w, u));
      }
    }
  }

  /** Spilling moves bytes from the buffer to the file and touches nothing else. */
  lemma SpillInv(w: World, n: nat)
    requires Inv(w) && n <= |w.shared.buffer|
    ensures Inv(Next(0, w, Spill(n)))
  {
    hide JournalFile, Accounts, DoneOk, IssuedOk;
    var g, v := w.shared, Next(0, w, Spill(n));
    var h := v.shared;
    SpillBytes(g.file, g.buffer, n);
    DoneSpilled(g, h);
    IssuedSpilled(g, h);
    forall u: nat ensures ThreadOk(h, u, PhaseOf(v, u)) {
      assert ThreadOk(g, u, PhaseOf(w, u));
    }
  }

  lemma SpillBytes(file: bytes, buffer: bytes, n: nat)
    requires n <= |buffer|
    ensures file + buffer[..n] + buffer[n..] == file + buffer
    ensures buffer == [] ==> buffer[n..] == []
  {
  }

  lemma DoneSpilled(g: Shared, h: Shared)
    requires DoneOk(g) && h == g.(file := h.file, buffer := h.buffer)
    ensures DoneOk(h)
  {
  }

  lemma IssuedSpilled(g: Shared, h: Shared)
    requires IssuedOk(g) && h == g.(file := h.file, buffer := h.buffer)
    ensures IssuedOk(h)
  {
  }

  lemma NextInv(maxPending: nat, w: World, event: Label)
    requires Inv(w)
    ensures Inv(Next(maxPending, w, event))
  {
    var g := w.shared;
    SharedOf(w);
    hide SharedOk, ThreadOk, Leaves, Inv, Draw, Act;
    match event
    case Transact(t, timestamp, ops) =>
      if PhaseOf(w, t).Idle? && g.nextTxnId + 1 < U64_SIZE {
        ThreadOf(w, t);
        DrawSteps(g, t, timestamp, ops);
        ThreadStepInv(w, t, Draw(g, t, timestamp, ops));
      }
    case Flush(t) =>
      if PhaseOf(w, t).Idle? {
        ThreadOf(w, t);
        BeginFlush(g, t);
        ThreadStepInv(w, t, (g, Draining(None)));
      }
    case Step(t) =>
      ThreadOf(w, t);
      ActSteps(maxPending, g, t, PhaseOf(w, t));
      ThreadStepInv(w, t, Act(maxPending, g, t, PhaseOf(w, t)));
    case Spill(n) =>
      if n <= |g.buffer| {
        SpillInv(w, n);
      }
  }

  lemma SharedOf(w: World)
    requires Inv(w)
    ensures SharedOk(w.shared)
  {
    hide IssuedOk, FileOk, DoneOk, Accounts, ThreadOk;
  }

  lemma ThreadOf(w: World, t: nat)
    requires Inv(w)
    ensures ThreadOk(w.shared, t, PhaseOf(w, t))
  {
    hide IssuedOk, FileOk, DoneOk, Accounts, ThreadOk;
  }

  lemma BeginFlush(g: Shared, t: nat)
    requires SharedOk(g) && ThreadOk(g, t, Idle)
    ensures Steps(g, t, (g, Draining(None)))
  {
    hide JournalFile, Accounts;
    LeavesSelf(g, t);
  }

  lemma {:induction false} RunInv(maxPending: nat, labels: seq<Label>)
    ensures Inv(Run(maxPending, labels))
    decreases |labels|
  {
    if labels == [] {
      assert Inv(InitialWorld);
    } else {
      hide Inv, Next;
      RunInv(maxPending, labels[..|labels| - 1]);
      NextInv(maxPending, Run(maxPending, labels[..|labels| - 1]), labels[|labels| - 1]);
    }
  }

  // ---------------------------------------------------------------- what it means

  ghost predicate Lists(rs: seq<Written>, w: Written)
  {
    exists i :: 0 <= i < |rs| && rs[i] == w
  }

  ghost predicate Once(rs: seq<Written>, w: Written)
  {
    forall i, j :: 0 <= i < |rs| && 0 <= j < |rs| && rs[i] == w && rs[j] == w ==> i == j
  }

  lemma Listed(g: Shared, rs: seq<Written>, where: Place, id: nat)
    requires IssuedOk(g) && Accounts(g.issued, g.place, rs, where) && id in g.issued
    ensures Lists(rs, g.issued[id]) <==> g.place[id] == where
    ensures Once(rs, g.issued[id])
  {
    if g.place[id] == where {
      var i :| 0 <= i < |rs| && rs[i].id == id;
      assert rs[i] == g.issued[id];
    }
  }

  /**
   * Every transaction drawn is, at every moment, in exactly one place and there once: carried by exactly one thread,
   * in the queue, or in the file.
   */
  lemma ExactlyOnePlace(maxPending: nat, labels: seq<Label>, id: nat)
    requires id in Run(maxPending, labels).shared.issued
    ensures id in Run(maxPending, labels).shared.place
    ensures var w := Run(maxPending, labels); var g, r := w.shared, w.shared.issued[id];
      && (Lists(g.pending, r) <==> g.place[id] == Queued) && Once(g.pending, r)
      && (Lists(g.logged, r) <==> g.place[id] == InFile) && Once(g.logged, r)
      && forall t: nat :: (Lists(Carried(PhaseOf(w, t)), r) <==> g.place[id] == Held(t)) && Once(Carried(PhaseOf(w, t)), r)
  {
    RunInv(maxPending, labels);
    var w := Run(maxPending, labels);
    hide Lists, Once, Accounts, FileOk, DoneOk, FlushOk;
    Listed(w.shared, w.shared.pending, Queued, id);
    Listed(w.shared, w.shared.logged, InFile, id);
    forall t: nat
      ensures Lists(Carried(PhaseOf(w, t)), w.shared.issued[id]) <==> w.shared.place[id] == Held(t)
      ensures Once(Carried(PhaseOf(w, t)), w.shared.issued[id])
    {
      assert ThreadOk(w.shared, t, PhaseOf(w, t));
      Listed(w.shared, Carried(PhaseOf(w, t)), Held(t), id);
    }
  }

  /** The file, with what the buffer still holds, is whole records one after another; at most one thread writes. */
  lemma ContiguousRecords(maxPending: nat, labels: seq<Label>)
    ensures var w := Run(maxPending, labels);
      && w.shared.file + w.shared.buffer == JournalFile(w.shared.logged)
      && forall t: nat, u: nat :: HasLock(PhaseOf(w, t)) && HasLock(PhaseOf(w, u)) ==> t == u
  {
    RunInv(maxPending, labels);
    var w := Run(maxPending, labels);
    hide JournalFile, Accounts, DoneOk, IssuedOk;
    forall t: nat, u: nat | HasLock(PhaseOf(w, t)) && HasLock(PhaseOf(w, u)) ensures t == u {
      assert ThreadOk(w.shared, t, PhaseOf(w, t)) && ThreadOk(w.shared, u, PhaseOf(w, u));
    }
  }

  /** Every acknowledged transaction is among the records that were synced. */
  lemma AckedIsDurable(maxPending: nat, labels: seq<Label>, i: nat)
    requires i < |Run(maxPending, labels).shared.acked|
    ensures var g := Run(maxPending, labels).shared;
      && g.durable <= |g.logged| && g.acked[i] in g.logged[..g.durable]
      && g.synced == |JournalFile(g.logged[..g.durable])| <= |g.file|
  {
    RunInv(maxPending, labels);
    hide JournalFile, Accounts, IssuedOk, ThreadOk;
  }

  /**
   * After a crash the file is some prefix that contains the synced bytes; `k` records lie wholly within it, among them
   * every acknowledged one. Replay returns exactly these, in file order, if the file ends on a record boundary or inside
   * a header, and fails exactly if it ends inside a payload; replay of the synced bytes themselves succeeds.
   */
  lemma CrashReplay(maxPending: nat, labels: seq<Label>, cut: nat, lossy: bytes -> bytes) returns (k: nat)
    requires var g := Run(maxPending, labels).shared;
      g.synced <= cut <= |g.file| && AllFit(g.logged) && AllStrings(g.logged, lossy)
    ensures var g := Run(maxPending, labels).shared; var r := Replay(g.file[..cut], lossy);
      && g.durable <= k <= |g.logged|
      && (forall j: nat :: j <= |g.logged| ==> (j <= k <==> |JournalFile(g.logged[..j])| <= cut))
      && r == (if cut < |JournalFile(g.logged[..k])| + HEADER_SIZE then Ok(Txns(g.logged[..k])) else Err(UnexpectedEof))
      && (cut == g.synced ==> r.Ok?)
      && forall i :: 0 <= i < |g.acked| ==> g.acked[i] in g.logged[..k]
  {
    var g := Run(maxPending, labels).shared;
    RunInv(maxPending, labels);
    hide JournalFile, Accounts, IssuedOk, ThreadOk, Replay, Txns, AllFit, AllStrings;
    k := CompleteRecords(g.logged, cut);
    FileCut(g.file, g.buffer, JournalFile(g.logged), cut);
    TornFile(g.logged, cut, lossy);
    forall j: nat | j <= |g.logged| ensures j <= k <==> |JournalFile(g.logged[..j])| <= cut {
      CompleteRecordsSpec(g.logged, cut, j);
    }
    if cut == g.synced {
      LongerJournal(g.logged, g.durable, k);
    }
    forall i | 0 <= i < |g.acked| ensures g.acked[i] in g.logged[..k] {
      assert g.acked[i] in g.logged[..g.durable];
      TakeMore(g.logged, g.durable, k, g.acked[i]);
    }
  }

  lemma FileCut(file: bytes, buffer: bytes, whole: bytes, cut: nat)
    requires file + buffer == whole && cut <= |file|
    ensures cut <= |whole| && file[..cut] == whole[..cut]
  {
  }

  lemma TakeMore(log: seq<Written>, m: nat, k: nat, w: Written)
    requires m <= k <= |log| && w in log[..m]
    ensures w in log[..k]
  {
    var j :| 0 <= j < m && log[j] == w;
    assert log[..k][j] == w;
  }

  lemma LongerJournal(log: seq<Written>, m: nat, k: nat)
    requires m <= k <= |log|
    ensures |JournalFile(log[..m])| <= |JournalFile(log[..k])|
  {
    hide RecordBytes;
    assert Records(log[..k]) == Records(log[..m]) + Records(log[m..k]);
    FlattenAppend(Records(log[..m]), Records(log[m..k]));
  }
}
