/** When an operation fails: exactly when what it found has changed since, or is not what it was asked to replace. */
module ProtocolProgress {
  import opened Bytes
  import opened Correction
  import opened Manifest
  import opened Stores
  import opened Protocol
  import opened ProtocolInvariant
  import opened ProtocolSteps
  import opened ProtocolRuns
  import opened ProtocolTheorems

  /** The path has the entry that a write replaces, or no entry when it creates one. */
  ghost predicate AsExpected(g: Shared, path: string, expected: Option<nat>)
  {
    var found := Lookup(g.manifest, path);
    if expected.None? then found.None? else found.Some? && found.value.version == expected.value
  }

  /** The step of a write returns an error; it changes nothing but the record of what was returned. */
  ghost predicate Fails(g: Shared, job: Job, error: FsError, next: (Shared, Phase))
  {
    && next.0 == g.(outcomes := g.outcomes + [WriteFailed(job.op, error)])
    && (next.1.Idle? || (next.1.Fetching? && job.origin.Some? && error.VersionMismatch?))
  }

  /** A write whose entry is the expected one passes its check, and any other fails it with the error for its case. */
  lemma CheckFailsWhen(cfg: Config, g: Shared, job: Job)
    requires cfg.codec.Sized() && Valid(g.manifest)
    ensures var next := Act(cfg, g, Checking(job)); var found := Lookup(g.manifest, job.path);
      && (AsExpected(g, job.path, job.expected) <==> next.1.Versioning?)
      && (next.1.Versioning? ==> next == (g, Versioning(job.(existing := job.expected))))
      && (job.expected.None? && found.Some? ==> Fails(g, job, FileExists, next))
      && (job.expected.Some? && found.None? ==> Fails(g, job, FileNotFound, next))
      && (job.expected.Some? && found.Some? && found.value.version != job.expected.value ==>
            Fails(g, job, VersionMismatch(Mismatch(job.expected.value, found.value.version)), next))
  {
    hide Valid, Lookup;
  }

  /** Storing the chunks fails exactly when the write replaces an entry and some batch came between. */
  lemma InsertFailsWhen(cfg: Config, g: Shared, job: Job, storeVersion: nat, ids: seq<nat>)
    requires cfg.codec.Sized() && Valid(g.manifest) && |ids| == |FileChunks(job.data)|
    ensures var next := Act(cfg, g, Allocating(job, storeVersion, ids));
      if job.expected.Some? && g.chunkStore.version != storeVersion
      then Fails(g, job, VersionMismatch(Mismatch(storeVersion, g.chunkStore.version)), next)
      else next.1 == (if job.expected.Some? then Reversioning(job, ids) else Correcting(job, ids, 0))
  {
    hide Valid, FileChunks, ChunkUpdates, InsertAll;
  }

  /** So does storing the corrections. */
  lemma CorrectFailsWhen(cfg: Config, g: Shared, job: Job, ids: seq<nat>, version: nat)
    requires cfg.codec.Sized() && Valid(g.manifest) && |ids| == |FileChunks(job.data)|
    ensures var next := Act(cfg, g, Correcting(job, ids, version));
      if job.expected.Some? && g.corrStore.version != version
      then Fails(g, job, VersionMismatch(Mismatch(version, g.corrStore.version)), next)
      else next.1 == Committing(job, ids)
  {
    hide Valid, FileChunks, CorrectionUpdates, InsertAll, NewKeys;
  }

  /** The commit fails exactly when the path's entry is no longer the one that the check passed. */
  lemma CommitFailsWhen(cfg: Config, g: Shared, job: Job, ids: seq<nat>)
    requires cfg.codec.Sized() && Valid(g.manifest) && job.existing == job.expected
    ensures var next := Act(cfg, g, Committing(job, ids));
      && (AsExpected(g, job.path, job.expected) <==> next.1.Rooting?)
      && (next.1.Rooting? ==>
            && next.1 == Rooting(job.op, |g.commits|, ids, if job.expected.None? then 0 else job.expected.value + 1)
            && |next.0.commits| == |g.commits| + 1 && next.0.commits[..|g.commits|] == g.commits && next.0.outcomes == g.outcomes
            && next.0.commits[|g.commits|].path == job.path && next.0.commits[|g.commits|].data == job.data)
      && (!next.1.Rooting? ==> exists error :: Fails(g, job, error, next) && error.VersionMismatch?)
  {
    var e := NewEntry(job.path, |job.data|, ids);
    AddFileSpec(g.manifest, e);
    if job.expected.Some? {
      UpdateFileSpec(g.manifest, job.path, e, job.expected.value);
    }
    hide Valid, Lookup, AddFile, Manifest.UpdateFile, Sets, Points;
    var next := Act(cfg, g, Committing(job, ids));
    if !next.1.Rooting? {
      var m := if job.expected.Some? then Manifest.UpdateFile(g.manifest, job.path, e, job.expected.value) else AddFile(g.manifest, e);
      assert Fails(g, job, VersionMismatch(m.error), next);
    }
  }

  /** A swap is tried again exactly when another write's chunks came into the root since it was read. */
  lemma SwapRetriesWhen(cfg: Config, g: Shared, ph: Phase)
    requires cfg.codec.Sized() && Shaped(g, ph) && ph.Bundling? && ph.i >= |ph.ids|
    ensures var next := Act(cfg, g, ph);
      && (g.rootVersion == ph.rootVersion <==> next.1 == Bumping(ph.op, Wrote(ph.op, ph.fileVersion, ph.at)))
      && (g.rootVersion != ph.rootVersion <==> next == (g, Rooting(ph.op, ph.at, ph.ids, ph.fileVersion)))
  {
    hide Shaped;
  }

  /** A removal fails exactly when the path's entry does not have the expected version. */
  lemma RemoveFailsWhen(cfg: Config, g: Shared, op: nat, path: string, expected: nat)
    requires cfg.codec.Sized() && Valid(g.manifest)
    ensures var next := Act(cfg, g, Removing(op, path, expected)); var found := Lookup(g.manifest, path);
      && (AsExpected(g, path, Some(expected)) <==> next.1 == Bumping(op, Removed(op, |g.commits|)))
      && (!AsExpected(g, path, Some(expected)) ==>
            next == (g.(outcomes := g.outcomes + [RemoveFailed(op, VersionMismatch(
              Mismatch(expected, if found.None? then 0 else found.value.version)))]), Idle))
  {
    RemoveFileSpec(g.manifest, path, expected);
    var r := RemoveFile(g.manifest, path, expected);
    if r.Ok? {
      SetsLookup(g.manifest, r.value, path, Lookup(g.manifest, path).value.(deleted := true, version := expected + 1));
    }
    hide Sets, Points, Latest;
  }

  // ---------------------------------------------------------------- a write that nobody disturbs

  /** A thread's state and the shared one after `n` steps of that thread alone. */
  ghost function Alone(cfg: Config, from: (Shared, Phase), n: nat): (Shared, Phase)
    requires cfg.codec.Sized()
  {
    if n == 0 then from
    else
      var at := Alone(cfg, from, n - 1);
      if Shaped(at.0, at.1) then Act(cfg, at.0, at.1) else at
  }

  ghost predicate Gets(cfg: Config, from: (Shared, Phase), to: (Shared, Phase))
    requires cfg.codec.Sized()
  {
    exists n: nat :: Alone(cfg, from, n) == to
  }

  lemma {:induction false} AloneTwice(cfg: Config, from: (Shared, Phase), m: nat, n: nat)
    requires cfg.codec.Sized()
    ensures Alone(cfg, from, m + n) == Alone(cfg, Alone(cfg, from, m), n)
    decreases n
  {
    hide Shaped, Act;
    if n > 0 {
      AloneTwice(cfg, from, m, n - 1);
    }
  }

  lemma GetsOn(cfg: Config, a: (Shared, Phase), b: (Shared, Phase), c: (Shared, Phase))
    requires cfg.codec.Sized() && Gets(cfg, a, b) && Gets(cfg, b, c)
    ensures Gets(cfg, a, c)
  {
    hide Alone;
    var m: nat :| Alone(cfg, a, m) == b;
    var n: nat :| Alone(cfg, b, n) == c;
    AloneTwice(cfg, a, m, n);
  }

  /** One step, which keeps the invariant. */
  lemma GetsStep(cfg: Config, g: Shared, ph: Phase)
    requires Lawful(cfg) && SharedInv(cfg, g) && PhaseInv(cfg, g, ph)
    ensures Shaped(g, ph)
    ensures var next := Act(cfg, g, ph); Gets(cfg, (g, ph), next) && SharedInv(cfg, next.0) && PhaseInv(cfg, next.0, next.1)
  {
    hide SharedInv, PhaseInv, Shaped, Act, Grows;
    ActKept(cfg, g, ph);
    assert Alone(cfg, (g, ph), 0) == (g, ph);
    assert Alone(cfg, (g, ph), 1) == Act(cfg, g, ph);
  }

  /** What the steps before the commit leave alone. */
  ghost predicate Uncommitting(g: Shared, h: Shared)
  {
    h.manifest == g.manifest && h.commits == g.commits && h.outcomes == g.outcomes && h.rootVersion == g.rootVersion
  }

  lemma {:induction false} AllocatesAll(cfg: Config, g: Shared, job: Job, v: nat, ids: seq<nat>) returns (h: Shared, all: seq<nat>)
    requires Lawful(cfg) && SharedInv(cfg, g) && PhaseInv(cfg, g, Allocating(job, v, ids)) && |ids| <= |FileChunks(job.data)|
    ensures Gets(cfg, (g, Allocating(job, v, ids)), (h, Allocating(job, v, all))) && |all| == |FileChunks(job.data)|
    ensures SharedInv(cfg, h) && PhaseInv(cfg, h, Allocating(job, v, all))
    ensures Uncommitting(g, h) && h.chunkStore == g.chunkStore && h.corrStore == g.corrStore
    decreases |FileChunks(job.data)| - |ids|
  {
    hide SharedInv, PhaseInv, Shaped, Gets, FileChunks;
    var ph := Allocating(job, v, ids);
    if |ids| == |FileChunks(job.data)| {
      h, all := g, ids;
      GetsNone(cfg, (g, ph));
    } else {
      GetsStep(cfg, g, ph);
      var next := Act(cfg, g, ph);
      h, all := AllocatesAll(cfg, next.0, job, v, ids + [g.nextId]);
      GetsOn(cfg, (g, ph), next, (h, Allocating(job, v, all)));
    }
  }

  lemma GetsNone(cfg: Config, at: (Shared, Phase))
    requires cfg.codec.Sized()
    ensures Gets(cfg, at, at)
  {
    assert Alone(cfg, at, 0) == at;
  }

  /** From the check to the commit. */
  lemma StoresAll(cfg: Config, g: Shared, job: Job) returns (h: Shared, ids: seq<nat>)
    requires Lawful(cfg) && SharedInv(cfg, g) && PhaseInv(cfg, g, Versioning(job))
    ensures Gets(cfg, (g, Versioning(job)), (h, Committing(job, ids)))
    ensures SharedInv(cfg, h) && PhaseInv(cfg, h, Committing(job, ids)) && Uncommitting(g, h)
  {
    hide SharedInv, PhaseInv, Shaped, Gets, FileChunks, InsertAll, NewKeys, ChunkUpdates, CorrectionUpdates;
    var start, v := (g, Versioning(job)), g.chunkStore.version;
    GetsStep(cfg, g, Versioning(job));
    NoIds(job);
    var a: Shared;
    a, ids := AllocatesAll(cfg, g, job, v, []);
    GetsOn(cfg, start, (g, Allocating(job, v, [])), (a, Allocating(job, v, ids)));
    var b, u := StoresChunks(cfg, a, job, ids);
    GetsOn(cfg, start, (a, Allocating(job, v, ids)), (b, Correcting(job, ids, u)));
    InvValid(cfg, b);
    GetsStep(cfg, b, Correcting(job, ids, u));
    CorrectFailsWhen(cfg, b, job, ids, u);
    h := Act(cfg, b, Correcting(job, ids, u)).0;
    GetsOn(cfg, start, (b, Correcting(job, ids, u)), (h, Committing(job, ids)));
  }

  lemma NoIds(job: Job)
    ensures 0 <= |FileChunks(job.data)|
  {
  }

  lemma InvValid(cfg: Config, g: Shared)
    requires cfg.codec.Sized() && SharedInv(cfg, g)
    ensures Valid(g.manifest)
  {
    hide MemoryOk, CommitsReady, Chain, RootOk, OutcomesOk, Valid;
  }

  lemma StoresChunks(cfg: Config, g: Shared, job: Job, ids: seq<nat>) returns (h: Shared, u: nat)
    requires Lawful(cfg) && SharedInv(cfg, g) && PhaseInv(cfg, g, Allocating(job, g.chunkStore.version, ids))
    requires |ids| == |FileChunks(job.data)|
    ensures Gets(cfg, (g, Allocating(job, g.chunkStore.version, ids)), (h, Correcting(job, ids, u)))
    ensures SharedInv(cfg, h) && PhaseInv(cfg, h, Correcting(job, ids, u)) && Uncommitting(g, h)
    ensures job.expected.Some? ==> u == h.corrStore.version
  {
    hide SharedInv, PhaseInv, Shaped, Gets, FileChunks, InsertAll, ChunkUpdates;
    var start := (g, Allocating(job, g.chunkStore.version, ids));
    InvValid(cfg, g);
    GetsStep(cfg, g, start.1);
    InsertFailsWhen(cfg, g, job, g.chunkStore.version, ids);
    h, u := Act(cfg, g, start.1).0, 0;
    if job.expected.Some? {
      GetsStep(cfg, h, Reversioning(job, ids));
      u := h.corrStore.version;
      GetsOn(cfg, start, (h, Reversioning(job, ids)), (h, Correcting(job, ids, u)));
    }
  }

  lemma {:induction false} BundlesAll(cfg: Config, g: Shared, ph: Phase) returns (newRoot: SparseVec)
    requires Lawful(cfg) && SharedInv(cfg, g) && PhaseInv(cfg, g, ph) && ph.Bundling? && ph.i <= |ph.ids|
    ensures var done := ph.(newRoot := newRoot, i := |ph.ids|);
      Gets(cfg, (g, ph), (g, done)) && PhaseInv(cfg, g, done)
    decreases |ph.ids| - ph.i
  {
    hide SharedInv, PhaseInv, Shaped, Gets;
    if ph.i == |ph.ids| {
      newRoot := ph.newRoot;
      GetsNone(cfg, (g, ph));
      assert ph == ph.(newRoot := newRoot, i := |ph.ids|);
    } else {
      GetsStep(cfg, g, ph);
      var next := Act(cfg, g, ph);
      newRoot := BundlesAll(cfg, g, next.1);
      GetsOn(cfg, (g, ph), next, (g, ph.(newRoot := newRoot, i := |ph.ids|)));
    }
  }

  /** From the commit to the answer. */
  lemma Answers(cfg: Config, g: Shared, op: nat, at: nat, ids: seq<nat>, version: nat) returns (h: Shared)
    requires Lawful(cfg) && SharedInv(cfg, g) && PhaseInv(cfg, g, Rooting(op, at, ids, version))
    ensures Gets(cfg, (g, Rooting(op, at, ids, version)), (h, Idle)) && SharedInv(cfg, h)
    ensures h.commits == g.commits && h.outcomes == g.outcomes + [Wrote(op, version, at)]
  {
    hide SharedInv, PhaseInv, Shaped, Gets;
    var start, ph := (g, Rooting(op, at, ids, version)), Bundling(op, at, ids, version, g.rootVersion, g.root, 0);
    GetsStep(cfg, g, start.1);
    var newRoot := BundlesAll(cfg, g, ph);
    var full := ph.(newRoot := newRoot, i := |ids|);
    GetsOn(cfg, start, (g, ph), (g, full));
    GetsStep(cfg, g, full);
    var swapped := Act(cfg, g, full);
    GetsOn(cfg, start, (g, full), swapped);
    GetsStep(cfg, swapped.0, swapped.1);
    h := Act(cfg, swapped.0, swapped.1).0;
    GetsOn(cfg, start, swapped, (h, Idle));
  }

  /** Undisturbed from its check on, a write succeeds exactly if the entry is the expected one. */
  lemma Undisturbed(cfg: Config, g: Shared, job: Job) returns (h: Shared)
    requires Lawful(cfg) && SharedInv(cfg, g) && PhaseInv(cfg, g, Checking(job)) && AsExpected(g, job.path, job.expected)
    ensures var version := if job.expected.None? then 0 else job.expected.value + 1;
      && Gets(cfg, (g, Checking(job)), (h, Idle)) && SharedInv(cfg, h)
      && h.outcomes == g.outcomes + [Wrote(job.op, version, |g.commits|)]
      && View(h.commits, job.path) == Some((job.data, version))
      && forall p :: p != job.path ==> View(h.commits, p) == View(g.commits, p)
  {
    hide SharedInv, PhaseInv, Shaped, Gets, View, AsExpected, Uncommitting, Lookup, Act, Fails;
    var start, checked := (g, Checking(job)), job.(existing := job.expected);
    InvValid(cfg, g);
    GetsStep(cfg, g, start.1);
    CheckFailsWhen(cfg, g, job);
    var a, ids := StoresAll(cfg, g, checked);
    GetsOn(cfg, start, (g, Versioning(checked)), (a, Committing(checked, ids)));
    StillExpected(g, a, job.path, job.expected);
    InvValid(cfg, a);
    GetsStep(cfg, a, Committing(checked, ids));
    CommitFailsWhen(cfg, a, checked, ids);
    var committed := Act(cfg, a, Committing(checked, ids));
    GetsOn(cfg, start, (a, Committing(checked, ids)), committed);
    var ph := committed.1;
    h := Answers(cfg, committed.0, ph.op, ph.at, ph.ids, ph.fileVersion);
    GetsOn(cfg, start, committed, (h, Idle));
    LastWritten(cfg, h, a.commits, job.path, ph.fileVersion);
  }

  lemma StillExpected(g: Shared, h: Shared, path: string, expected: Option<nat>)
    requires Uncommitting(g, h) && AsExpected(g, path, expected)
    ensures AsExpected(h, path, expected) && h.commits == g.commits && h.outcomes == g.outcomes
  {
  }

  /** The last commit decides what its own path holds, and nothing else. */
  lemma LastWritten(cfg: Config, h: Shared, before: seq<Commit>, path: string, version: nat)
    requires Lawful(cfg) && SharedInv(cfg, h) && h.outcomes != [] && |h.commits| == |before| + 1 && h.commits[..|before|] == before
    requires h.outcomes[|h.outcomes| - 1].Wrote? && h.outcomes[|h.outcomes| - 1].at == |before|
    requires h.outcomes[|h.outcomes| - 1].version == version && h.commits[|before|].path == path
    ensures View(h.commits, path) == Some((h.commits[|before|].data, version))
    ensures forall p :: p != path ==> View(h.commits, p) == View(before, p)
  {
    hide MemoryOk, CommitsReady, Chain, ManifestOk, RootOk, Latest;
    assert OutcomeOk(h.commits, h.batches, h.nextOp, h.outcomes[|h.outcomes| - 1]);
    assert h.commits == before + [h.commits[|before|]];
    forall p ensures Latest(h.commits, p) == if p == path then Some(h.commits[|before|]) else Latest(before, p) {
      LatestSnoc(before, h.commits[|before|], p);
    }
  }

  function Steps(t: nat, n: nat): (r: seq<Label>)
    ensures |r| == n && forall i :: 0 <= i < n ==> r[i] == Step(t)
  {
    seq(n, i => Step(t))
  }

  /** Steps of one thread, taken in a run. */
  lemma {:induction false} RunAlone(cfg: Config, labels: seq<Label>, t: nat, n: nat)
    requires cfg.codec.Sized()
    ensures var w, v := Run(cfg, labels), Run(cfg, labels + Steps(t, n));
      (v.shared, PhaseOf(v, t)) == Alone(cfg, (w.shared, PhaseOf(w, t)), n)
    decreases n
  {
    hide Shaped, Act;
    if n == 0 {
      assert labels + Steps(t, 0) == labels;
    } else {
      RunAlone(cfg, labels, t, n - 1);
      assert (labels + Steps(t, n))[..|labels| + n - 1] == labels + Steps(t, n - 1);
      assert (labels + Steps(t, n))[|labels| + n - 1] == Step(t);
    }
  }

  lemma Begins(cfg: Config, labels: seq<Label>, t: nat, request: Request)
    requires Lawful(cfg) && PhaseOf(Run(cfg, labels), t).Idle?
    ensures var w, v := Run(cfg, labels), Run(cfg, labels + [Begin(t, request)]);
      (v.shared, PhaseOf(v, t)) == Start(w.shared, request)
    ensures SharedInv(cfg, Start(Run(cfg, labels).shared, request).0)
    ensures PhaseInv(cfg, Start(Run(cfg, labels).shared, request).0, Start(Run(cfg, labels).shared, request).1)
  {
    assert (labels + [Begin(t, request)])[..|labels|] == labels;
    RunInv(cfg, labels);
    hide SharedInv, PhaseInv, Grows, AllBundled, DistinctOps, ThreadsInv;
    StartKept(cfg, Run(cfg, labels).shared, request);
  }

  /**
   * A write begun after any run and not disturbed ends after some number of steps: it returns the next version and the
   * path holds the data under it, with all other paths as they were, if the entry is the expected one; and otherwise it
   * returns the error for its case and nothing changes.
   */
  lemma WriteAlone(cfg: Config, labels: seq<Label>, t: nat, path: string, data: bytes, expected: Option<nat>) returns (n: nat)
    requires Lawful(cfg) && PhaseOf(Run(cfg, labels), t).Idle?
    ensures var w, v := Run(cfg, labels), Run(cfg, labels + [Begin(t, WriteFile(path, data, expected))] + Steps(t, n));
      var g, h, found := w.shared, v.shared, Lookup(w.shared.manifest, path);
      && PhaseOf(v, t).Idle?
      && if (if expected.None? then found.None? else found.Some? && found.value.version == expected.value) then
           var version := if expected.None? then 0 else expected.value + 1;
           && h.outcomes == g.outcomes + [Wrote(g.nextOp, version, |g.commits|)]
           && View(h.commits, path) == Some((data, version))
           && forall p :: p != path ==> View(h.commits, p) == View(g.commits, p)
         else
           var error := if expected.None? then FileExists else if found.None? then FileNotFound
                        else VersionMismatch(Mismatch(expected.value, found.value.version));
           && h.outcomes == g.outcomes + [WriteFailed(g.nextOp, error)]
           && h.commits == g.commits && h.manifest == g.manifest
  {
    hide SharedInv, PhaseInv, Shaped, View, Run, Act, Lookup, Alone;
    var request := Request.WriteFile(path, data, expected);
    var g := Run(cfg, labels).shared;
    var job := Job(g.nextOp, path, data, expected, None, None);
    var start := Start(g, request);
    Begins(cfg, labels, t, request);
    if AsExpected(start.0, path, expected) {
      var h := Undisturbed(cfg, start.0, job);
      n :| Alone(cfg, start, n) == (h, Idle);
    } else {
      n := 1;
      GetsStep(cfg, start.0, start.1);
      InvValid(cfg, start.0);
      CheckFailsWhen(cfg, start.0, job);
      AloneOnce(cfg, start);
    }
    RunAlone(cfg, labels + [Begin(t, request)], t, n);
  }

  lemma AloneOnce(cfg: Config, from: (Shared, Phase))
    requires cfg.codec.Sized() && Shaped(from.0, from.1)
    ensures Alone(cfg, from, 1) == Act(cfg, from.0, from.1)
  {
    hide Shaped, Act;
    assert Alone(cfg, from, 0) == from;
  }

  // ---------------------------------------------------------------- reads, updates and removals that nobody disturbs

  function AllDecoded(ph: Phase, acc: bytes): Phase
    requires ph.Decoding?
  {
    Decoding(ph.path, ph.again, ph.since, ph.entry, ph.at, |ph.entry.chunks|, acc)
  }

  /** A chunk that a reader needs is there to be decoded. */
  lemma DecodesNext(cfg: Config, g: Shared, ph: Phase)
    requires Lawful(cfg) && SharedInv(cfg, g) && PhaseInv(cfg, g, ph) && ph.Decoding? && ph.i < |ph.entry.chunks| && Shaped(g, ph)
    ensures var next := Act(cfg, g, ph);
      && next.0 == g && next.1.Fixing?
      && next.1 == Fixing(ph.path, ph.again, ph.since, ph.entry, ph.at, ph.i, ph.acc, next.1.decoded)
  {
    hide SharedInv, PhaseInv, Shaped;
    var h := DecodeStep(cfg, g, ph).0;
    assert ph.entry.chunks[ph.i] !in g.chunkStore.chunks ==> |h.outcomes| == |g.outcomes| + 1;
    Decoded(cfg, g, ph);
  }

  lemma {:induction false} DecodesAll(cfg: Config, g: Shared, ph: Phase) returns (acc: bytes)
    requires Lawful(cfg) && SharedInv(cfg, g) && PhaseInv(cfg, g, ph) && ph.Decoding? && ph.i <= |ph.entry.chunks|
    ensures Gets(cfg, (g, ph), (g, AllDecoded(ph, acc))) && PhaseInv(cfg, g, AllDecoded(ph, acc))
    decreases |ph.entry.chunks| - ph.i
  {
    hide SharedInv, PhaseInv, Shaped, Gets;
    if ph.i == |ph.entry.chunks| {
      acc := ph.acc;
      GetsNone(cfg, (g, ph));
    } else {
      GetsStep(cfg, g, ph);
      DecodesNext(cfg, g, ph);
      var fixing := Act(cfg, g, ph).1;
      GetsStep(cfg, g, fixing);
      var next := Act(cfg, g, fixing).1;
      acc := DecodesAll(cfg, g, next);
      GetsOn(cfg, (g, ph), (g, fixing), (g, next));
      GetsOn(cfg, (g, ph), (g, next), (g, AllDecoded(ph, acc)));
    }
  }

  /** Undisturbed, a read returns what the path holds; one that is to be followed by a write goes on to its check. */
  lemma ReadsAll(cfg: Config, g: Shared, path: string, again: bool, since: nat) returns (h: Shared, next: Phase)
    requires Lawful(cfg) && SharedInv(cfg, g) && PhaseInv(cfg, g, Fetching(path, again, since))
    ensures Gets(cfg, (g, Fetching(path, again, since)), (h, next)) && SharedInv(cfg, h) && PhaseInv(cfg, h, next)
    ensures h.commits == g.commits && h.manifest == g.manifest
    ensures var v := View(g.commits, path);
      if v.None? then next.Idle? && h.outcomes == g.outcomes + [ReadFailed(path, FileNotFound, since, |g.commits|)]
      else
        && h.outcomes == g.outcomes + [Got(path, v.value.0, v.value.1, since, |g.commits|)]
        && next == if again
             then Checking(Job(g.nextOp, path, cfg.update(v.value.0), Some(v.value.1), Some(|g.commits|), None)) else Idle
  {
    hide SharedInv, PhaseInv, Shaped, Gets, View, Lookup, Truncate;
    var start := (g, Fetching(path, again, since));
    GetsStep(cfg, g, start.1);
    var fetched := Act(cfg, g, start.1);
    if fetched.1.Idle? {
      h, next := fetched.0, fetched.1;
    } else {
      var acc := DecodesAll(cfg, g, fetched.1);
      var done := AllDecoded(fetched.1, acc);
      GetsOn(cfg, start, fetched, (g, done));
      GetsStep(cfg, g, done);
      h, next := Act(cfg, g, done).0, Act(cfg, g, done).1;
      GetsOn(cfg, start, (g, done), (h, next));
    }
    LastOutcome(cfg, h, g.outcomes);
    assert g.commits[..|g.commits|] == g.commits;
  }

  lemma LastOutcome(cfg: Config, h: Shared, before: seq<Outcome>)
    requires Lawful(cfg) && SharedInv(cfg, h) && |h.outcomes| == |before| + 1
    ensures OutcomeOk(h.commits, h.batches, h.nextOp, h.outcomes[|before|])
  {
    hide MemoryOk, CommitsReady, Chain, ManifestOk, RootOk, OutcomeOk;
  }

  /** A read begun after any run and not disturbed returns what the path holds at that moment. */
  lemma ReadAlone(cfg: Config, labels: seq<Label>, t: nat, path: string) returns (n: nat)
    requires Lawful(cfg) && PhaseOf(Run(cfg, labels), t).Idle?
    ensures var w, u := Run(cfg, labels), Run(cfg, labels + [Begin(t, ReadFile(path))] + Steps(t, n));
      var g, v, m := w.shared, View(w.shared.commits, path), |w.shared.commits|;
      && PhaseOf(u, t).Idle? && u.shared.commits == g.commits
      && u.shared.outcomes
         == g.outcomes + [if v.None? then ReadFailed(path, FileNotFound, m, m) else Got(path, v.value.0, v.value.1, m, m)]
  {
    hide SharedInv, PhaseInv, Shaped, View, Run, Act, Lookup, Alone;
    var request := Request.ReadFile(path);
    var g := Run(cfg, labels).shared;
    Begins(cfg, labels, t, request);
    var h, next := ReadsAll(cfg, g, path, false, |g.commits|);
    n :| Alone(cfg, Start(g, request), n) == (h, next);
    RunAlone(cfg, labels + [Begin(t, request)], t, n);
  }

  /** What the path holds is in its entry. */
  lemma ViewEntry(cfg: Config, g: Shared, path: string)
    requires Lawful(cfg) && SharedInv(cfg, g) && View(g.commits, path).Some?
    ensures AsExpected(g, path, Some(View(g.commits, path).value.1))
  {
    hide MemoryOk, CommitsReady, Chain, RootOk, OutcomesOk, Latest, Lookup, Valid;
    assert Lookup(g.manifest, path) == EntryOf(Latest(g.commits, path));
  }

  /** A read-modify-write of a file, begun after any run and not disturbed, applies the update to what the file holds. */
  lemma UpdateAlone(cfg: Config, labels: seq<Label>, t: nat, path: string) returns (n: nat)
    requires Lawful(cfg) && PhaseOf(Run(cfg, labels), t).Idle? && View(Run(cfg, labels).shared.commits, path).Some?
    ensures var w, u := Run(cfg, labels), Run(cfg, labels + [Begin(t, UpdateFile(path))] + Steps(t, n));
      var g, h, v := w.shared, u.shared, View(w.shared.commits, path).value;
      && PhaseOf(u, t).Idle?
      && h.outcomes == g.outcomes + [Got(path, v.0, v.1, |g.commits|, |g.commits|)] + [Wrote(g.nextOp, v.1 + 1, |g.commits|)]
      && View(h.commits, path) == Some((cfg.update(v.0), v.1 + 1))
      && forall p :: p != path ==> View(h.commits, p) == View(g.commits, p)
  {
    hide SharedInv, PhaseInv, Shaped, View, Run, Act, Lookup, Alone, AsExpected;
    var request := Request.UpdateFile(path);
    var g := Run(cfg, labels).shared;
    var start := Start(g, request);
    Begins(cfg, labels, t, request);
    var a, next := ReadsAll(cfg, g, path, true, |g.commits|);
    ViewEntry(cfg, a, path);
    var h := Undisturbed(cfg, a, next.job);
    GetsOn(cfg, start, (a, next), (h, Idle));
    n :| Alone(cfg, start, n) == (h, Idle);
    RunAlone(cfg, labels + [Begin(t, request)], t, n);
  }

  /** A removal begun after any run and not disturbed takes effect exactly if the entry has the expected version. */
  lemma RemoveAlone(cfg: Config, labels: seq<Label>, t: nat, path: string, expected: nat) returns (n: nat)
    requires Lawful(cfg) && PhaseOf(Run(cfg, labels), t).Idle?
    ensures var w, u := Run(cfg, labels), Run(cfg, labels + [Begin(t, DeleteFile(path, expected))] + Steps(t, n));
      var g, h, found := w.shared, u.shared, Lookup(w.shared.manifest, path);
      && PhaseOf(u, t).Idle?
      && if found.Some? && found.value.version == expected then
           && h.outcomes == g.outcomes + [Removed(g.nextOp, |g.commits|)] && View(h.commits, path) == None
         else
           && h.outcomes == g.outcomes + [RemoveFailed(g.nextOp, VersionMismatch(
                Mismatch(expected, if found.None? then 0 else found.value.version)))]
           && h.commits == g.commits && h.manifest == g.manifest
  {
    hide SharedInv, PhaseInv, Shaped, View, Run, Act, Lookup, Alone;
    var request := Request.DeleteFile(path, expected);
    var g := Run(cfg, labels).shared;
    var start := Start(g, request);
    Begins(cfg, labels, t, request);
    GetsStep(cfg, start.0, start.1);
    InvValid(cfg, start.0);
    RemoveFailsWhen(cfg, start.0, g.nextOp, path, expected);
    AloneOnce(cfg, start);
    var removed := Act(cfg, start.0, start.1);
    n := 1;
    if AsExpected(start.0, path, Some(expected)) {
      n := 2;
      GetsStep(cfg, removed.0, removed.1);
      AloneTwice(cfg, start, 1, 1);
      AloneOnce(cfg, removed);
      Bumps(cfg, removed.0, removed.1);
      RemoveCommits(cfg, start.0, start.1);
      LastRemoved(cfg, Act(cfg, removed.0, removed.1).0, g.commits, path, g.outcomes);
    }
    RunAlone(cfg, labels + [Begin(t, request)], t, n);
  }

  lemma Bumps(cfg: Config, g: Shared, ph: Phase)
    requires cfg.codec.Sized() && Shaped(g, ph) && ph.Bumping?
    ensures var next := Act(cfg, g, ph);
      next.1.Idle? && next.0.outcomes == g.outcomes + [ph.outcome] && next.0.commits == g.commits && next.0.manifest == g.manifest
  {
    hide Shaped;
  }

  lemma RemoveCommits(cfg: Config, g: Shared, ph: Phase)
    requires cfg.codec.Sized() && Shaped(g, ph) && ph.Removing? && Act(cfg, g, ph).1.Bumping?
    ensures var h := Act(cfg, g, ph).0;
      && h.outcomes == g.outcomes && |h.commits| == |g.commits| + 1 && h.commits[..|g.commits|] == g.commits
      && h.commits[|g.commits|].path == ph.path
  {
    hide Shaped, Latest, Lookup, RemoveFile;
  }

  lemma LastRemoved(cfg: Config, h: Shared, before: seq<Commit>, path: string, outcomes: seq<Outcome>)
    requires Lawful(cfg) && SharedInv(cfg, h) && |h.commits| == |before| + 1 && h.commits[..|before|] == before
    requires |h.outcomes| == |outcomes| + 1 && h.outcomes[|outcomes|].Removed? && h.outcomes[|outcomes|].at == |before|
    requires h.commits[|before|].path == path
    ensures View(h.commits, path) == None
  {
    hide SharedInv, Latest;
    LastOutcome(cfg, h, outcomes);
    assert h.commits == before + [h.commits[|before|]];
    LatestSnoc(before, h.commits[|before|], path);
  }
}
