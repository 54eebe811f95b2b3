/** Safety over all runs: any number of threads, any requests, any interleaving of their steps. */
module ProtocolRuns {
  import opened Bytes
  import opened Correction
  import opened Manifest
  import opened Stores
  import opened Protocol
  import opened ProtocolInvariant
  import opened ProtocolSteps

  // ---------------------------------------------------------------- runs

  ghost predicate DistinctOps(threads: map<nat, Phase>)
  {
    forall t, u :: t in threads && u in threads && t != u && OpOf(threads[t]).Some? ==> OpOf(threads[t]) != OpOf(threads[u])
  }

  /** The thread still has the chunks of the commit at `at` to bundle. */
  predicate Bundles(ph: Phase, at: nat)
  {
    (ph.Rooting? || ph.Bundling?) && ph.at == at
  }

  /** Every committed write has been bundled, or a thread is at it. */
  ghost predicate AllBundled(w: World)
  {
    forall at :: 0 <= at < |w.shared.commits| && !w.shared.commits[at].entry.deleted ==>
      at in w.shared.batches || exists t :: t in w.threads && Bundles(w.threads[t], at)
  }

  /** The operations that have succeeded. */
  function Successes(outcomes: seq<Outcome>): nat
    decreases |outcomes|
  {
    if outcomes == [] then 0
    else
      var o := outcomes[|outcomes| - 1];
      Successes(outcomes[..|outcomes| - 1]) + if o.Wrote? || o.Removed? then 1 else 0
  }

  ghost predicate ThreadsInv(cfg: Config, g: Shared, threads: map<nat, Phase>)
    requires cfg.codec.Sized()
  {
    forall t :: t in threads ==> PhaseInv(cfg, g, threads[t])
  }

  ghost predicate WorldInv(cfg: Config, w: World)
    requires cfg.codec.Sized()
  {
    && SharedInv(cfg, w.shared)
    && ThreadsInv(cfg, w.shared, w.threads)
    && DistinctOps(w.threads) && AllBundled(w) && w.shared.globalVersion == Successes(w.shared.outcomes)
  }

  lemma ActKept(cfg: Config, g: Shared, ph: Phase)
    requires Lawful(cfg) && SharedInv(cfg, g) && PhaseInv(cfg, g, ph)
    ensures Shaped(g, ph) && Kept(cfg, g, OpOf(ph), Act(cfg, g, ph))
  {
    PhaseShaped(cfg, g, ph);
    hide SharedInv, PhaseInv, Kept, FileChunks, Shaped;
    if ph.Checking? || ph.Versioning? || ph.Allocating? || ph.Reversioning? || ph.Correcting? || ph.Committing? {
      JobActKept(cfg, g, ph);
    } else {
      OtherActKept(cfg, g, ph);
    }
  }

  lemma JobActKept(cfg: Config, g: Shared, ph: Phase)
    requires Lawful(cfg) && SharedInv(cfg, g) && PhaseInv(cfg, g, ph) && Shaped(g, ph)
    requires ph.Checking? || ph.Versioning? || ph.Allocating? || ph.Reversioning? || ph.Correcting? || ph.Committing?
    ensures Kept(cfg, g, OpOf(ph), Act(cfg, g, ph))
  {
    PhaseShaped(cfg, g, ph);
    hide SharedInv, PhaseInv, Kept, FileChunks, CheckEntry, AllocateId, InsertChunks, InsertCorrections, CommitEntry, Shaped;
    match ph
    case Checking(job) => CheckKept(cfg, g, job);
    case Versioning(job) => VersionKept(cfg, g, job);
    case Allocating(job, v, ids) =>
      if |ids| < |FileChunks(job.data)| { AllocateKept(cfg, g, job, v, ids); } else { InsertKept(cfg, g, job, v, ids); }
    case Reversioning(job, ids) => ReversionKept(cfg, g, job, ids);
    case Correcting(job, ids, v) => CorrectKept(cfg, g, job, ids, v);
    case Committing(job, ids) => CommitKept(cfg, g, job, ids);
  }

  lemma OtherActKept(cfg: Config, g: Shared, ph: Phase)
    requires Lawful(cfg) && SharedInv(cfg, g) && PhaseInv(cfg, g, ph) && Shaped(g, ph)
    requires !ph.Checking? && !ph.Versioning? && !ph.Allocating? && !ph.Reversioning? && !ph.Correcting? && !ph.Committing?
    ensures Kept(cfg, g, OpOf(ph), Act(cfg, g, ph))
  {
    PhaseShaped(cfg, g, ph);
    hide SharedInv, PhaseInv, Kept, FileChunks, BundleStep, FetchEntry, DecodeStep, FixStep, RemoveStep, Shaped;
    match ph
    case Idle => IdleKept(cfg, g);
    case Rooting(_, _, _, _) => RootingKept(cfg, g, ph);
    case Bundling(_, _, ids, _, _, _, i) => if i < |ids| { BundleTurnKept(cfg, g, ph); } else { SwapKept(cfg, g, ph); }
    case Bumping(op, o) => BumpKept(cfg, g, op, o);
    case Fetching(path, again, since) => FetchKept(cfg, g, path, again, since);
    case Decoding(_, _, _, e, _, i, _) => if i < |e.chunks| { DecodeKept(cfg, g, ph); } else { FinishKept(cfg, g, ph); }
    case Fixing(_, _, _, _, _, _, _, _) => FixKept(cfg, g, ph);
    case Removing(_, _, _) => RemoveKept(cfg, g, ph);
  }

  /** The shapes that the steps rely on. */
  lemma PhaseShaped(cfg: Config, g: Shared, ph: Phase)
    requires cfg.codec.Sized() && SharedInv(cfg, g) && PhaseInv(cfg, g, ph)
    ensures Shaped(g, ph)
    ensures ph.Allocating? ==> |ph.ids| <= |FileChunks(ph.job.data)|
    ensures ph.Bundling? ==> ph.i <= |ph.ids|
    ensures ph.Decoding? ==> ph.i <= |ph.entry.chunks|
  {
    hide Chain, RootOk, OutcomesOk, CommitsReady, MemoryOk, JobOk, NoneCorrected, AllIn, BundleOk, EntryReady, View, FileChunks;
  }

  lemma IdleKept(cfg: Config, g: Shared)
    requires cfg.codec.Sized() && SharedInv(cfg, g)
    ensures Kept(cfg, g, None, (g, Idle))
  {
    hide SharedInv;
    SameShared(cfg, g, None, Idle);
  }

  lemma VersionKept(cfg: Config, g: Shared, job: Job)
    requires cfg.codec.Sized() && SharedInv(cfg, g) && PhaseInv(cfg, g, Versioning(job))
    ensures Kept(cfg, g, Some(job.op), (g, Allocating(job, g.chunkStore.version, [])))
  {
    hide SharedInv, JobOk, NoneCorrected;
    SameShared(cfg, g, Some(job.op), Allocating(job, g.chunkStore.version, []));
  }

  lemma ReversionKept(cfg: Config, g: Shared, job: Job, ids: seq<nat>)
    requires cfg.codec.Sized() && SharedInv(cfg, g) && PhaseInv(cfg, g, Reversioning(job, ids))
    ensures Kept(cfg, g, Some(job.op), (g, Correcting(job, ids, g.corrStore.version)))
  {
    hide SharedInv, JobOk, NoneCorrected, IdsOk, AllIn, FileChunks;
    SameShared(cfg, g, Some(job.op), Correcting(job, ids, g.corrStore.version));
  }

  /**
   * The next state: a request begins on an idle thread, or a thread takes its one step. `Shaped` says that the
   * thread's positions and lookups are in range; `NeverStuck` shows that they always are.
   */
  ghost function Next(cfg: Config, w: World, event: Label): World
    requires cfg.codec.Sized()
  {
    var ph := PhaseOf(w, event.tid);
    match event
    case Begin(t, request) =>
      if ph.Idle? then var (h, next) := Start(w.shared, request); World(h, w.threads[t := next]) else w
    case Step(t) =>
      if Shaped(w.shared, ph) then var (h, next) := Act(cfg, w.shared, ph); World(h, w.threads[t := next]) else w
  }

  lemma WorldShaped(cfg: Config, w: World, t: nat)
    requires Lawful(cfg) && WorldInv(cfg, w)
    ensures Shaped(w.shared, PhaseOf(w, t)) && PhaseInv(cfg, w.shared, PhaseOf(w, t)) && SharedInv(cfg, w.shared)
  {
    hide SharedInv, PhaseInv, AllBundled, DistinctOps, Shaped;
    IdleInv(cfg, w.shared);
    PhaseShaped(cfg, w.shared, PhaseOf(w, t));
  }

  lemma IdleInv(cfg: Config, g: Shared)
    requires cfg.codec.Sized()
    ensures PhaseInv(cfg, g, Idle)
  {
  }

  /** Replacing the acting thread's phase keeps the threads' part of the invariant. */
  lemma ThreadsKept(cfg: Config, w: World, t: nat, h: Shared, ph: Phase)
    requires cfg.codec.Sized() && WorldInv(cfg, w) && Kept(cfg, w.shared, OpOf(PhaseOf(w, t)), (h, ph))
    ensures ThreadsInv(cfg, h, w.threads[t := ph])
    ensures DistinctOps(w.threads[t := ph])
  {
    var threads, actor := w.threads[t := ph], OpOf(PhaseOf(w, t));
    hide SharedInv, Grows, AllBundled, Successes, PhaseInv;
    forall u | u in threads ensures PhaseInv(cfg, h, threads[u]) {
      if u != t {
        assert u in w.threads && w.threads[u] == threads[u];
        PhaseStable(cfg, w.shared, h, actor, threads[u]);
      }
    }
    forall u | u in w.threads && u != t && OpOf(w.threads[u]).Some?
      ensures OpOf(w.threads[u]).value < w.shared.nextOp
    {
      OpsDrawn(cfg, w.shared, w.threads[u]);
    }
  }

  /** A thread only works for operations whose numbers have been drawn. */
  lemma OpsDrawn(cfg: Config, g: Shared, ph: Phase)
    requires cfg.codec.Sized() && SharedInv(cfg, g) && PhaseInv(cfg, g, ph) && OpOf(ph).Some?
    ensures OpOf(ph).value < g.nextOp
  {
    hide MemoryOk, Chain, ManifestOk, RootOk, OutcomesOk, EntryReady, IdsOk, AllIn, NoneCorrected, View, FileChunks, BundleAll;
  }

  /** A committed write stays with its thread until it is in the root, and every new one has a thread. */
  lemma ActBundles(cfg: Config, g: Shared, ph: Phase, at: nat)
    requires cfg.codec.Sized() && Shaped(g, ph) && (ph.Bundling? ==> ph.at < |g.commits|)
    ensures var (h, next) := Act(cfg, g, ph);
      && (Bundles(ph, at) ==> Bundles(next, at) || at in h.batches)
      && (|g.commits| <= at < |h.commits| ==> h.commits[at].entry.deleted || Bundles(next, at))
  {
    hide FileChunks, ChunkUpdates, CorrectionUpdates, Latest, BatchInsert, BatchInsertNew, BatchAdd, BatchUpdate, InsertAll;
    if ph.Removing? {
      hide RemoveFile, Lookup, Sets;
      RemoveFileSpec(g.manifest, ph.path, ph.expected);
      var r := RemoveFile(g.manifest, ph.path, ph.expected);
      if r.Ok? {
        SetsLookup(g.manifest, r.value, ph.path,
                   Lookup(g.manifest, ph.path).value.(deleted := true, version := ph.expected + 1));
      }
    } else {
      hide RemoveFile, Lookup, AddFile, Manifest.UpdateFile;
    }
  }

  lemma AllBundledKept(cfg: Config, w: World, t: nat, h: Shared, next: Phase)
    requires cfg.codec.Sized() && AllBundled(w) && Grows(w.shared, h, OpOf(PhaseOf(w, t)))
    requires forall at: nat :: Bundles(PhaseOf(w, t), at) ==> Bundles(next, at) || at in h.batches
    requires forall at: nat :: |w.shared.commits| <= at < |h.commits| ==> h.commits[at].entry.deleted || Bundles(next, at)
    ensures AllBundled(World(h, w.threads[t := next]))
  {
    hide MemoryGrows, OutcomesGrow;
    var v := World(h, w.threads[t := next]);
    forall at | 0 <= at < |h.commits| && !h.commits[at].entry.deleted && at !in h.batches
      ensures exists u :: u in v.threads && Bundles(v.threads[u], at)
    {
      if at < |w.shared.commits| {
        assert w.shared.commits[at] == h.commits[at];
        StillBundled(w.shared.batches, h.batches, at);
        var u :| u in w.threads && Bundles(w.threads[u], at);
        assert u != t ==> Bundles(v.threads[u], at);
        assert u == t ==> Bundles(v.threads[t], at);
      } else {
        assert Bundles(v.threads[t], at);
      }
    }
  }

  lemma StillBundled(a: seq<nat>, b: seq<nat>, at: nat)
    requires a <= b
    ensures at in a ==> at in b
  {
    if at in a {
      var i :| 0 <= i < |a| && a[i] == at;
      assert b[i] == at;
    }
  }

  lemma SuccessesSnoc(outcomes: seq<Outcome>, o: Outcome)
    ensures Successes(outcomes + [o]) == Successes(outcomes) + if o.Wrote? || o.Removed? then 1 else 0
  {
    assert (outcomes + [o])[..|outcomes|] == outcomes;
  }

  /** The global version moves only with a success. */
  lemma ActCounts(cfg: Config, g: Shared, ph: Phase)
    requires cfg.codec.Sized() && Shaped(g, ph) && g.globalVersion == Successes(g.outcomes)
    requires ph.Bumping? ==> ph.outcome.Wrote? || ph.outcome.Removed?
    ensures Act(cfg, g, ph).0.globalVersion == Successes(Act(cfg, g, ph).0.outcomes)
  {
    hide FileChunks, ChunkUpdates, CorrectionUpdates, Latest, BatchInsert, BatchInsertNew, BatchAdd, BatchUpdate, InsertAll,
         RemoveFile, Lookup, AddFile, Manifest.UpdateFile, Shaped, Truncate, Successes;
    var h := Act(cfg, g, ph).0;
    if h.outcomes != g.outcomes {
      var o := h.outcomes[|g.outcomes|];
      assert h.outcomes == g.outcomes + [o];
      SuccessesSnoc(g.outcomes, o);
    }
  }

  lemma StepKept(cfg: Config, w: World, t: nat)
    requires Lawful(cfg) && WorldInv(cfg, w)
    ensures WorldInv(cfg, Next(cfg, w, Step(t)))
  {
    var g, ph := w.shared, PhaseOf(w, t);
    WorldShaped(cfg, w, t);
    ActKept(cfg, g, ph);
    PhaseDetails(cfg, g, ph);
    hide SharedInv, PhaseInv, Grows, Shaped, Act, DistinctOps, AllBundled, Successes, ThreadsInv;
    var (h, next) := Act(cfg, g, ph);
    ThreadsKept(cfg, w, t, h, next);
    forall at: nat
      ensures Bundles(ph, at) ==> Bundles(next, at) || at in h.batches
      ensures |g.commits| <= at < |h.commits| ==> h.commits[at].entry.deleted || Bundles(next, at)
    {
      ActBundles(cfg, g, ph, at);
    }
    AllBundledKept(cfg, w, t, h, next);
    ActCounts(cfg, g, ph);
  }

  lemma PhaseDetails(cfg: Config, g: Shared, ph: Phase)
    requires cfg.codec.Sized() && PhaseInv(cfg, g, ph)
    ensures ph.Bundling? ==> ph.at < |g.commits|
    ensures ph.Bumping? ==> ph.outcome.Wrote? || ph.outcome.Removed?
  {
    hide JobOk, NoneCorrected, IdsOk, AllIn, ReaderOk, FileChunks, BundleAll, OutcomeOk;
  }

  lemma BeginKept(cfg: Config, w: World, t: nat, request: Request)
    requires Lawful(cfg) && WorldInv(cfg, w)
    ensures WorldInv(cfg, Next(cfg, w, Begin(t, request)))
  {
    var g := w.shared;
    if PhaseOf(w, t).Idle? {
      StartKept(cfg, g, request);
      hide SharedInv, PhaseInv, Grows, DistinctOps, AllBundled, Successes, ThreadsInv;
      var (h, next) := Start(g, request);
      ThreadsKept(cfg, w, t, h, next);
      AllBundledKept(cfg, w, t, h, next);
    }
  }

  /** The state after the given steps. */
  ghost function Run(cfg: Config, labels: seq<Label>): World
    requires cfg.codec.Sized()
    decreases |labels|
  {
    if labels == [] then InitialWorld
    else Next(cfg, Run(cfg, labels[..|labels| - 1]), labels[|labels| - 1])
  }

  /** Every state of every run satisfies the invariant. */
  lemma {:induction false} RunInv(cfg: Config, labels: seq<Label>)
    requires Lawful(cfg)
    ensures WorldInv(cfg, Run(cfg, labels))
    decreases |labels|
  {
    hide WorldInv, Next;
    if labels == [] {
      InitialInv(cfg);
    } else {
      var n := |labels| - 1;
      RunInv(cfg, labels[..n]);
      NextKept(cfg, Run(cfg, labels[..n]), labels[n]);
    }
  }

  /** In every state every thread can take its next step: its positions and lookups are in range. */
  lemma NeverStuck(cfg: Config, labels: seq<Label>, t: nat)
    requires Lawful(cfg)
    ensures Shaped(Run(cfg, labels).shared, PhaseOf(Run(cfg, labels), t))
  {
    hide Run, WorldInv, Shaped;
    RunInv(cfg, labels);
    WorldShaped(cfg, Run(cfg, labels), t);
  }

  lemma NextKept(cfg: Config, w: World, event: Label)
    requires Lawful(cfg) && WorldInv(cfg, w)
    ensures WorldInv(cfg, Next(cfg, w, event))
  {
    hide WorldInv, Next;
    match event
    case Begin(t, request) => BeginKept(cfg, w, t, request);
    case Step(t) => StepKept(cfg, w, t);
  }

  lemma InitialInv(cfg: Config)
    requires cfg.codec.Sized()
    ensures WorldInv(cfg, InitialWorld)
  {
  }
}
