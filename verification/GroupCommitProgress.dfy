/** What group commit gets done: a thread that is left alone completes its flush and releases every writer of the batch. */
module GroupCommitProgress {
  import opened Bytes
  import opened Framing
  import opened JournalFormat
  import opened JournalReplay
  import opened GroupCommit

  /** The same thread takes the next `n` steps. */
  function Repeat(maxPending: nat, w: World, t: nat, n: nat): World
  {
    if n == 0 then w else Next(maxPending, Repeat(maxPending, w, t, n - 1), Step(t))
  }

  function Repeated(t: nat, n: nat): (r: seq<Label>)
    ensures |r| == n
  {
    seq(n, _ => Step(t))
  }

  lemma {:induction false} RepeatMore(maxPending: nat, w: World, t: nat, m: nat, n: nat)
    ensures Repeat(maxPending, w, t, m + n) == Repeat(maxPending, Repeat(maxPending, w, t, m), t, n)
    decreases n
  {
    hide Next;
    if n > 0 {
      RepeatMore(maxPending, w, t, m, n - 1);
    }
  }

  lemma RepeatSum(maxPending: nat, w: World, t: nat, m: nat, n: nat, k: nat)
    requires k == m + n
    ensures Repeat(maxPending, w, t, k) == Repeat(maxPending, Repeat(maxPending, w, t, m), t, n)
  {
    RepeatMore(maxPending, w, t, m, n);
  }

  lemma {:induction false} RunRepeat(maxPending: nat, labels: seq<Label>, t: nat, n: nat)
    ensures Run(maxPending, labels + Repeated(t, n)) == Repeat(maxPending, Run(maxPending, labels), t, n)
    decreases n
  {
    hide Next;
    if n == 0 {
      assert labels + Repeated(t, 0) == labels;
    } else {
      RunRepeat(maxPending, labels, t, n - 1);
      var longer := labels + Repeated(t, n);
      assert longer[..|longer| - 1] == labels + Repeated(t, n - 1);
    }
  }

  /** Another thread is where it was. */
  ghost predicate OthersStay(w: World, v: World, t: nat)
  {
    forall u: nat :: u != t ==> PhaseOf(v, u) == PhaseOf(w, u)
  }

  lemma OneStep(maxPending: nat, w: World, t: nat)
    ensures var v := Next(maxPending, w, Step(t));
      (v.shared, PhaseOf(v, t)) == Act(maxPending, w.shared, t, PhaseOf(w, t)) && OthersStay(w, v, t)
  {
    hide Act;
  }

  lemma RepeatNext(maxPending: nat, w: World, t: nat, n: nat)
    ensures Repeat(maxPending, w, t, 0) == w
    ensures Repeat(maxPending, w, t, n + 1) == Next(maxPending, Repeat(maxPending, w, t, n), Step(t))
  {
    hide Next;
  }

  /** The next of some steps of the thread. */
  lemma NextStep(maxPending: nat, w: World, t: nat, n: nat)
    ensures var v, u := Repeat(maxPending, w, t, n), Repeat(maxPending, w, t, n + 1);
      (u.shared, PhaseOf(u, t)) == Act(maxPending, v.shared, t, PhaseOf(v, t)) && OthersStay(v, u, t)
  {
    hide *;
    RepeatNext(maxPending, w, t, n);
    OneStep(maxPending, Repeat(maxPending, w, t, n), t);
  }

  lemma StayTogether(w: World, v: World, u: World, t: nat)
    requires OthersStay(w, v, t) && OthersStay(v, u, t)
    ensures OthersStay(w, u, t)
  {
    hide PhaseOf;
  }

  /** The queue and what was drawn and acknowledged are as before. */
  ghost predicate KeepsQueue(g: Shared, h: Shared)
  {
    h.pending == g.pending && h.acked == g.acked && h.issued == g.issued && h.nextTxnId == g.nextTxnId
  }

  lemma KeptTogether(g: Shared, h: Shared, k: Shared)
    requires KeepsQueue(g, h) && KeepsQueue(h, k)
    ensures KeepsQueue(g, k)
  {
  }

  /** The writer is given back, with everything written so far synced. */
  ghost predicate Synced(g: Shared)
  {
    g.lock.None? && g.buffer == [] && g.durable == |g.logged| && g.synced == |g.file|
  }

  function Ids(rs: seq<Written>): set<nat>
  {
    set i | 0 <= i < |rs| :: rs[i].id
  }

  /** The records of the batch from `i` on, written one after another. */
  lemma {:induction false} WritesAll(maxPending: nat, w: World, t: nat, batch: seq<Written>, i: nat, own: Option<Written>, n: nat)
    requires i + n == |batch| && PhaseOf(w, t) == Writing(batch, i, own)
    ensures PhaseOf(Repeat(maxPending, w, t, n), t) == Writing(batch, |batch|, own)
    ensures OthersStay(w, Repeat(maxPending, w, t, n), t)
    ensures KeepsQueue(w.shared, Repeat(maxPending, w, t, n).shared)
    ensures Repeat(maxPending, w, t, n).shared.done == w.shared.done
    ensures Repeat(maxPending, w, t, n).shared.logged == w.shared.logged + batch[i..]
    decreases n
  {
    AppendRest(w.shared.logged, batch, i);
    if n > 0 {
      hide *;
      var v, m := Next(maxPending, w, Step(t)), n - 1;
      WritesOne(maxPending, w, t, batch, i, own);
      FirstStep(maxPending, w, t, m, n);
      WritesAll(maxPending, v, t, batch, i + 1, own, m);
      var u := Repeat(maxPending, v, t, m);
      StayTogether(w, v, u, t);
      KeptTogether(w.shared, v.shared, u.shared);
    }
  }

  lemma AppendRest(log: seq<Written>, batch: seq<Written>, i: nat)
    requires i <= |batch|
    ensures i == |batch| ==> log + batch[i..] == log
    ensures i < |batch| ==> log + [batch[i]] + batch[i + 1..] == log + batch[i..]
  {
  }

  lemma WritesOne(maxPending: nat, w: World, t: nat, batch: seq<Written>, i: nat, own: Option<Written>)
    requires i < |batch| && PhaseOf(w, t) == Writing(batch, i, own)
    ensures var v := Next(maxPending, w, Step(t));
      && PhaseOf(v, t) == Writing(batch, i + 1, own) && OthersStay(w, v, t)
      && KeepsQueue(w.shared, v.shared) && v.shared.done == w.shared.done && v.shared.logged == w.shared.logged + [batch[i]]
  {
    hide RecordBytes;
    OneStep(maxPending, w, t);
  }

  /** The first of some steps of the thread. */
  lemma FirstStep(maxPending: nat, w: World, t: nat, n: nat, k: nat)
    requires k == n + 1
    ensures Repeat(maxPending, w, t, k) == Repeat(maxPending, Next(maxPending, w, Step(t)), t, n)
  {
    hide Next;
    assert Repeat(maxPending, w, t, 1) == Next(maxPending, w, Step(t));
    RepeatMore(maxPending, w, t, 1, n);
  }

  /** The writers of the batch from `i` on, woken one after another. */
  lemma {:induction false} SignalsAll(maxPending: nat, w: World, t: nat, batch: seq<Written>, i: nat, own: Option<Written>, n: nat)
    requires i + n == |batch| && PhaseOf(w, t) == Signalling(batch, i, own)
    ensures PhaseOf(Repeat(maxPending, w, t, n), t) == Signalling(batch, |batch|, own)
    ensures OthersStay(w, Repeat(maxPending, w, t, n), t)
    ensures KeepsQueue(w.shared, Repeat(maxPending, w, t, n).shared)
    ensures Repeat(maxPending, w, t, n).shared.logged == w.shared.logged
    ensures Repeat(maxPending, w, t, n).shared.done == w.shared.done + Ids(batch[i..])
    ensures Synced(w.shared) ==> Synced(Repeat(maxPending, w, t, n).shared)
    decreases n
  {
    WokenRest(w.shared.done, batch, i);
    if n > 0 {
      hide *;
      var v, m := Next(maxPending, w, Step(t)), n - 1;
      SignalsOne(maxPending, w, t, batch, i, own);
      FirstStep(maxPending, w, t, m, n);
      SignalsAll(maxPending, v, t, batch, i + 1, own, m);
      var u := Repeat(maxPending, v, t, m);
      StayTogether(w, v, u, t);
      KeptTogether(w.shared, v.shared, u.shared);
    }
  }

  lemma SignalsOne(maxPending: nat, w: World, t: nat, batch: seq<Written>, i: nat, own: Option<Written>)
    requires i < |batch| && PhaseOf(w, t) == Signalling(batch, i, own)
    ensures var v := Next(maxPending, w, Step(t));
      && PhaseOf(v, t) == Signalling(batch, i + 1, own) && OthersStay(w, v, t)
      && KeepsQueue(w.shared, v.shared) && v.shared.logged == w.shared.logged
      && v.shared.done == w.shared.done + {batch[i].id} && (Synced(w.shared) ==> Synced(v.shared))
  {
    OneStep(maxPending, w, t);
  }

  lemma WokenRest(done: set<nat>, batch: seq<Written>, i: nat)
    requires i <= |batch|
    ensures i == |batch| ==> done + Ids(batch[i..]) == done
    ensures i < |batch| ==> done + {batch[i].id} + Ids(batch[i + 1..]) == done + Ids(batch[i..])
  {
    if i < |batch| {
      FirstId(batch, i);
    }
  }

  lemma FirstId(rs: seq<Written>, i: nat)
    requires i < |rs|
    ensures Ids(rs[i..]) == {rs[i].id} + Ids(rs[i + 1..])
  {
    var all, rest := rs[i..], rs[i + 1..];
    assert all[0] == rs[i] && all[1..] == rest;
    forall id | id in Ids(all) ensures id in {rs[i].id} + Ids(rest) {
      var k :| 0 <= k < |all| && all[k].id == id;
      if k > 0 {
        assert rest[k - 1].id == id;
      }
    }
    forall id | id in Ids(rest) ensures id in Ids(all) {
      var k :| 0 <= k < |rest| && rest[k].id == id;
      assert all[k + 1].id == id;
    }
  }

  /** From the last record of the batch to the first wake-up: the end of writing, the flush and the sync. */
  lemma WrittenToSynced(maxPending: nat, w: World, t: nat, batch: seq<Written>, own: Option<Written>)
    requires PhaseOf(w, t) == Writing(batch, |batch|, own)
    ensures var v := Repeat(maxPending, w, t, 3);
      && PhaseOf(v, t) == Signalling(batch, 0, own) && OthersStay(w, v, t) && Synced(v.shared)
      && KeepsQueue(w.shared, v.shared) && v.shared.done == w.shared.done && v.shared.logged == w.shared.logged
  {
    RepeatNext(maxPending, w, t, 0);
    NextStep(maxPending, w, t, 0);
    NextStep(maxPending, w, t, 1);
    NextStep(maxPending, w, t, 2);
    hide Repeat, PhaseOf;
  }

  /** How many steps a flush takes with `n` records queued. */
  function FlushSteps(n: nat): nat
  {
    if n == 0 then 1 else 2 + (n + 3 + n + 1)
  }

  /** What a completed flush leaves: the queue empty, its records at the end of the log and durable, their writers woken. */
  ghost predicate Flushed(g: Shared, h: Shared)
  {
    && KeepsQueue(g.(pending := []), h) && h.lock.None?
    && h.logged == g.logged + g.pending && h.done == g.done + Ids(g.pending)
    && (g.pending != [] ==> Synced(h))
    && (g.pending == [] ==> h == g)
  }

  /** A flush whose thread is left alone, from draining the queue on. */
  lemma FlushCompletes(maxPending: nat, w: World, t: nat, own: Option<Written>) returns (v: World)
    requires PhaseOf(w, t) == Draining(own) && w.shared.lock.None?
    ensures v == Repeat(maxPending, w, t, FlushSteps(|w.shared.pending|))
    ensures PhaseOf(v, t) == After(own)
    ensures OthersStay(w, v, t)
    ensures Flushed(w.shared, v.shared)
  {
    var batch := w.shared.pending;
    if batch == [] {
      v := NothingQueued(maxPending, w, t, own);
    } else {
      hide Repeat, OthersStay;
      var w2 := Locks(maxPending, w, t, own);
      var n := |batch|;
      v := BatchCompletes(maxPending, w2, t, batch, own, n);
      RepeatSum(maxPending, w, t, 2, n + 3 + n + 1, FlushSteps(n));
      hide *;
      StayTogether(w, w2, v, t);
      FlushedIs(w.shared, w2.shared, v.shared);
    }
  }

  lemma FlushedIs(g: Shared, h: Shared, k: Shared)
    requires g.pending != [] && h == g.(pending := [], place := h.place, lock := h.lock) && KeepsQueue(h, k) && Synced(k)
    requires k.logged == h.logged + g.pending && k.done == h.done + Ids(g.pending)
    ensures Flushed(g, k)
  {
    hide Ids;
  }

  lemma NothingQueued(maxPending: nat, w: World, t: nat, own: Option<Written>) returns (v: World)
    requires PhaseOf(w, t) == Draining(own) && w.shared.lock.None? && w.shared.pending == []
    ensures v == Repeat(maxPending, w, t, 1)
    ensures PhaseOf(v, t) == After(own)
    ensures OthersStay(w, v, t)
    ensures Flushed(w.shared, v.shared)
  {
    v := Repeat(maxPending, w, t, 1);
    RepeatNext(maxPending, w, t, 0);
    NextStep(maxPending, w, t, 0);
    hide Repeat, PhaseOf, Ids;
    NoIds();
    assert w.shared.logged + [] == w.shared.logged;
  }

  lemma NoIds()
    ensures Ids([]) == {}
  {
  }

  /** A batch whose thread has the writer. */
  lemma BatchCompletes(maxPending: nat, w: World, t: nat, batch: seq<Written>, own: Option<Written>, n: nat) returns (v: World)
    requires PhaseOf(w, t) == Writing(batch, 0, own) && n == |batch|
    ensures v == Repeat(maxPending, w, t, n + 3 + n + 1)
    ensures PhaseOf(v, t) == After(own)
    ensures OthersStay(w, v, t)
    ensures Synced(v.shared)
    ensures KeepsQueue(w.shared, v.shared)
    ensures v.shared.logged == w.shared.logged + batch
    ensures v.shared.done == w.shared.done + Ids(batch)
  {
    assert batch[0..] == batch;
    hide *;
    var w1 := Repeat(maxPending, w, t, n);
    WritesAll(maxPending, w, t, batch, 0, own, n);
    var w2 := Repeat(maxPending, w1, t, 3);
    WrittenToSynced(maxPending, w1, t, batch, own);
    var w3 := Repeat(maxPending, w2, t, n);
    SignalsAll(maxPending, w2, t, batch, 0, own, n);
    v := Repeat(maxPending, w3, t, 1);
    Returns(maxPending, w3, t, batch, own);
    Joined(maxPending, w, w1, w2, w3, v, t, n);
    KeptTogether(w.shared, w1.shared, w2.shared);
    KeptTogether(w.shared, w2.shared, w3.shared);
  }

  lemma Joined(maxPending: nat, w: World, w1: World, w2: World, w3: World, w4: World, t: nat, n: nat)
    requires w1 == Repeat(maxPending, w, t, n) && w2 == Repeat(maxPending, w1, t, 3)
    requires w3 == Repeat(maxPending, w2, t, n) && w4 == Repeat(maxPending, w3, t, 1)
    requires OthersStay(w, w1, t) && OthersStay(w1, w2, t) && OthersStay(w2, w3, t) && OthersStay(w3, w4, t)
    ensures w4 == Repeat(maxPending, w, t, n + 3 + n + 1) && OthersStay(w, w4, t)
  {
    hide *;
    RepeatMore(maxPending, w, t, n, 3);
    RepeatMore(maxPending, w, t, n + 3, n);
    RepeatMore(maxPending, w, t, n + 3 + n, 1);
    StayTogether(w, w1, w2, t);
    StayTogether(w, w2, w3, t);
    StayTogether(w, w3, w4, t);
  }

  lemma Returns(maxPending: nat, w: World, t: nat, batch: seq<Written>, own: Option<Written>)
    requires PhaseOf(w, t) == Signalling(batch, |batch|, own)
    ensures var v := Repeat(maxPending, w, t, 1); PhaseOf(v, t) == After(own) && OthersStay(w, v, t) && v.shared == w.shared
  {
    RepeatNext(maxPending, w, t, 0);
    NextStep(maxPending, w, t, 0);
    hide Repeat, PhaseOf;
  }

  /** The queue drained and the writer taken. */
  lemma Locks(maxPending: nat, w: World, t: nat, own: Option<Written>) returns (v: World)
    requires PhaseOf(w, t) == Draining(own) && w.shared.lock.None? && w.shared.pending != []
    ensures v == Repeat(maxPending, w, t, 2) && PhaseOf(v, t) == Writing(w.shared.pending, 0, own) && OthersStay(w, v, t)
    ensures v.shared == w.shared.(pending := [], place := v.shared.place, lock := Some(t))
  {
    v := Repeat(maxPending, w, t, 2);
    RepeatNext(maxPending, w, t, 0);
    NextStep(maxPending, w, t, 0);
    NextStep(maxPending, w, t, 1);
    hide Repeat, PhaseOf, Relocate;
  }

  /**
   * After any run, a flush by an idle thread that finds the writer free and is left alone writes and syncs all that was
   * queued, in order, and wakes the writers; the file is then whole records, all of them synced.
   */
  lemma FlushAlone(maxPending: nat, labels: seq<Label>, t: nat)
    requires PhaseOf(Run(maxPending, labels), t).Idle? && Run(maxPending, labels).shared.lock.None?
    ensures var w := Run(maxPending, labels); var n := |w.shared.pending|;
      var v := Run(maxPending, labels + [Flush(t)] + Repeated(t, FlushSteps(n)));
      && PhaseOf(v, t).Idle? && OthersStay(w, v, t) && Flushed(w.shared, v.shared)
      && (n > 0 ==> v.shared.file == JournalFile(v.shared.logged) && v.shared.synced == |v.shared.file|)
  {
    var w := Run(maxPending, labels);
    var w1, more := Next(maxPending, w, Flush(t)), labels + [Flush(t)];
    assert more[..|more| - 1] == labels;
    assert Run(maxPending, more) == w1;
    assert PhaseOf(w1, t) == Draining(None) && w1.shared == w.shared && OthersStay(w, w1, t);
    hide Run, Next;
    RunRepeat(maxPending, more, t, FlushSteps(|w.shared.pending|));
    var v := FlushCompletes(maxPending, w1, t, None);
    AllInFile(maxPending, more + Repeated(t, FlushSteps(|w.shared.pending|)));
  }

  lemma AllInFile(maxPending: nat, labels: seq<Label>)
    ensures var g := Run(maxPending, labels).shared; g.buffer == [] ==> g.file == JournalFile(g.logged)
  {
    ContiguousRecords(maxPending, labels);
    hide JournalFile, Run;
    var g := Run(maxPending, labels).shared;
    assert g.file + [] == g.file;
  }

  /** A writer whose record such a flush wrote returns with its next step. */
  lemma WriterReleased(maxPending: nat, labels: seq<Label>, t: nat, u: nat, r: Written)
    requires PhaseOf(Run(maxPending, labels), t).Idle? && Run(maxPending, labels).shared.lock.None?
    requires PhaseOf(Run(maxPending, labels), u) == Waiting(r) && r in Run(maxPending, labels).shared.pending
    ensures var w := Run(maxPending, labels);
      var v := Run(maxPending, labels + [Flush(t)] + Repeated(t, FlushSteps(|w.shared.pending|)) + Repeated(u, 1));
      PhaseOf(v, u).Idle? && v.shared.acked == w.shared.acked + [r]
  {
    var w := Run(maxPending, labels);
    var more := labels + [Flush(t)] + Repeated(t, FlushSteps(|w.shared.pending|));
    FlushAlone(maxPending, labels, t);
    RunRepeat(maxPending, more, u, 1);
    var v := Run(maxPending, more);
    hide Run;
    assert Repeat(maxPending, v, u, 1) == Next(maxPending, v, Step(u));
    OneStep(maxPending, v, u);
    var i :| 0 <= i < |w.shared.pending| && w.shared.pending[i] == r;
    assert r.id in Ids(w.shared.pending);
  }

  function StepsOfWriter(maxPending: nat, w: World): nat
  {
    var n := |w.shared.pending| + 1;
    if n >= maxPending then 1 + FlushSteps(n) + 1 else 1
  }

  /**
   * A writer left alone: its record joins the queue; if that fills the queue it flushes it, its own record last, and
   * returns, and else it waits.
   */
  lemma WriterAlone(maxPending: nat, labels: seq<Label>, t: nat, timestamp: u64, ops: seq<JournalOp>) returns (v: World)
    requires PhaseOf(Run(maxPending, labels), t).Idle? && Run(maxPending, labels).shared.lock.None?
    requires Run(maxPending, labels).shared.nextTxnId + 1 < U64_SIZE
    ensures v == Run(maxPending, labels + [Transact(t, timestamp, ops)] + Repeated(t, StepsOfWriter(maxPending, Run(maxPending, labels))))
    ensures var g := Run(maxPending, labels).shared; var r := Written(g.nextTxnId, timestamp, ops);
      if |g.pending| + 1 >= maxPending
      then PhaseOf(v, t).Idle? && v.shared.acked == g.acked + [r] && v.shared.logged == g.logged + g.pending + [r] && Synced(v.shared)
      else PhaseOf(v, t) == Waiting(r) && v.shared.pending == g.pending + [r] && v.shared.logged == g.logged
  {
    var w := Run(maxPending, labels);
    var g, r := w.shared, Written(w.shared.nextTxnId, timestamp, ops);
    var n := |g.pending| + 1;
    var w1 := Drawn(maxPending, labels, t, timestamp, ops);
    RunRepeat(maxPending, labels + [Transact(t, timestamp, ops)], t, StepsOfWriter(maxPending, w));
    v := Repeat(maxPending, w1, t, StepsOfWriter(maxPending, w));
    hide Run, Repeat, PhaseOf, FlushSteps, Flushed;
    Pushes(maxPending, w1, t, r);
    if n >= maxPending {
      var w2 := Repeat(maxPending, w1, t, 1);
      var w3 := FlushCompletes(maxPending, w2, t, Some(r));
      RepeatSum(maxPending, w1, t, 1, FlushSteps(n), 1 + FlushSteps(n));
      RepeatSum(maxPending, w1, t, 1 + FlushSteps(n), 1, StepsOfWriter(maxPending, w));
      hide *;
      Acknowledged(maxPending, w3, t, g, w2.shared, r);
    }
  }

  lemma Pushes(maxPending: nat, w: World, t: nat, r: Written)
    requires PhaseOf(w, t) == Allocated(r)
    ensures var v, g := Repeat(maxPending, w, t, 1), w.shared;
      && PhaseOf(v, t) == (if |g.pending| + 1 >= maxPending then Draining(Some(r)) else Waiting(r))
      && v.shared == g.(pending := g.pending + [r], place := v.shared.place)
  {
    RepeatNext(maxPending, w, t, 0);
    NextStep(maxPending, w, t, 0);
    hide Repeat, PhaseOf;
  }

  lemma Acknowledged(maxPending: nat, w: World, t: nat, g: Shared, h: Shared, r: Written)
    requires PhaseOf(w, t) == After(Some(r)) && Flushed(h, w.shared)
    requires h.pending == g.pending + [r] && h.logged == g.logged && h.acked == g.acked
    ensures var v := Repeat(maxPending, w, t, 1);
      PhaseOf(v, t).Idle? && v.shared.acked == g.acked + [r] && v.shared.logged == g.logged + g.pending + [r] && Synced(v.shared)
  {
    LastId(g.pending, r);
    RepeatNext(maxPending, w, t, 0);
    NextStep(maxPending, w, t, 0);
    hide Repeat, PhaseOf, Ids;
    assert g.logged + (g.pending + [r]) == g.logged + g.pending + [r];
  }

  lemma LastId(rs: seq<Written>, r: Written)
    ensures r.id in Ids(rs + [r])
  {
    assert (rs + [r])[|rs|] == r;
  }

  lemma Drawn(maxPending: nat, labels: seq<Label>, t: nat, timestamp: u64, ops: seq<JournalOp>) returns (v: World)
    requires PhaseOf(Run(maxPending, labels), t).Idle? && Run(maxPending, labels).shared.nextTxnId + 1 < U64_SIZE
    ensures v == Run(maxPending, labels + [Transact(t, timestamp, ops)])
    ensures var g := Run(maxPending, labels).shared;
      && PhaseOf(v, t) == Allocated(Written(g.nextTxnId, timestamp, ops))
      && v.shared.pending == g.pending && v.shared.logged == g.logged && v.shared.lock == g.lock && v.shared.acked == g.acked
  {
    var more := labels + [Transact(t, timestamp, ops)];
    assert more[..|more| - 1] == labels;
    v := Run(maxPending, more);
    assert v == Next(maxPending, Run(maxPending, labels), Transact(t, timestamp, ops));
    hide Run;
  }

  /** How many steps the thread in possession of the writer takes before it gives it back. */
  function StepsToRelease(ph: Phase): nat
    requires HasLock(ph) && (ph.Writing? ==> ph.i <= |ph.batch|)
  {
    if ph.Writing? then |ph.batch| - ph.i + 3 else if ph.Flushing? then 1 + 1 else 1
  }

  /** The writer is never held for good: whoever holds it gives it back by its own steps, having synced. */
  lemma LockReleased(maxPending: nat, labels: seq<Label>, t: nat)
    requires Run(maxPending, labels).shared.lock == Some(t)
    ensures var ph := PhaseOf(Run(maxPending, labels), t);
      && HasLock(ph) && (ph.Writing? ==> ph.i <= |ph.batch|)
      && Synced(Run(maxPending, labels + Repeated(t, StepsToRelease(ph))).shared)
  {
    var w := Run(maxPending, labels);
    var ph := PhaseOf(w, t);
    HolderWrites(maxPending, labels, t);
    RunRepeat(maxPending, labels, t, StepsToRelease(ph));
    hide Repeat, PhaseOf, Run, Synced;
    if ph.Writing? {
      var n := |ph.batch| - ph.i;
      WritesAll(maxPending, w, t, ph.batch, ph.i, ph.own, n);
      WrittenToSynced(maxPending, Repeat(maxPending, w, t, n), t, ph.batch, ph.own);
      RepeatSum(maxPending, w, t, n, 3, StepsToRelease(ph));
    } else if ph.Flushing? {
      Flushes(maxPending, w, t, ph.batch, ph.own);
      Syncs(maxPending, Repeat(maxPending, w, t, 1), t, ph.batch, ph.own);
      RepeatSum(maxPending, w, t, 1, 1, StepsToRelease(ph));
    } else {
      SyncedEmpty(maxPending, labels, t);
      Syncs(maxPending, w, t, ph.batch, ph.own);
    }
  }

  lemma Flushes(maxPending: nat, w: World, t: nat, batch: seq<Written>, own: Option<Written>)
    requires PhaseOf(w, t) == Flushing(batch, own)
    ensures var v := Repeat(maxPending, w, t, 1); PhaseOf(v, t) == Syncing(batch, own) && v.shared.buffer == []
  {
    RepeatNext(maxPending, w, t, 0);
    NextStep(maxPending, w, t, 0);
    hide Repeat, PhaseOf;
  }

  lemma Syncs(maxPending: nat, w: World, t: nat, batch: seq<Written>, own: Option<Written>)
    requires PhaseOf(w, t) == Syncing(batch, own) && w.shared.buffer == []
    ensures Synced(Repeat(maxPending, w, t, 1).shared)
  {
    RepeatNext(maxPending, w, t, 0);
    NextStep(maxPending, w, t, 0);
    hide Repeat, PhaseOf;
  }

  lemma HolderWrites(maxPending: nat, labels: seq<Label>, t: nat)
    requires Run(maxPending, labels).shared.lock == Some(t)
    ensures var ph := PhaseOf(Run(maxPending, labels), t); HasLock(ph) && (ph.Writing? ==> ph.i <= |ph.batch|)
  {
    RunInv(maxPending, labels);
    hide Run, JournalFile, Accounts, AllOf;
    var w := Run(maxPending, labels);
    assert ThreadOk(w.shared, t, PhaseOf(w, t));
  }

  lemma SyncedEmpty(maxPending: nat, labels: seq<Label>, t: nat)
    requires PhaseOf(Run(maxPending, labels), t).Syncing?
    ensures Run(maxPending, labels).shared.buffer == []
  {
    RunInv(maxPending, labels);
    hide Run, JournalFile, Accounts, AllOf;
    var w := Run(maxPending, labels);
    assert ThreadOk(w.shared, t, PhaseOf(w, t));
  }
}
