/** Every commit is reported to its caller exactly once, so that what clients were told counts what happened. */
module ProtocolOutcomes {
  import opened Bytes
  import opened Manifest
  import opened Stores
  import opened Protocol
  import opened ProtocolInvariant
  import opened ProtocolSteps
  import opened ProtocolRuns
  import opened ProtocolTheorems

  /** The commit that a success reports. */
  function CommitOf(o: Outcome): Option<nat>
  {
    match o
    case Wrote(_, _, at) => Some(at)
    case Removed(_, at) => Some(at)
    case _ => None
  }

  /** The commit that a thread has made and not reported yet. */
  function Pending(ph: Phase): Option<nat>
  {
    match ph
    case Rooting(_, at, _, _) => Some(at)
    case Bundling(_, at, _, _, _, _, _) => Some(at)
    case Bumping(_, o) => CommitOf(o)
    case _ => None
  }

  /** The reported commits, in the order of the reports. */
  function Reports(outcomes: seq<Outcome>): seq<nat>
    decreases |outcomes|
  {
    if outcomes == [] then []
    else
      var n := |outcomes| - 1;
      var at := CommitOf(outcomes[n]);
      Reports(outcomes[..n]) + if at.Some? then [at.value] else []
  }

  ghost predicate Distinct(ats: seq<nat>)
  {
    forall i, j :: 0 <= i < j < |ats| ==> ats[i] != ats[j]
  }

  /** A commit has been reported once, or one thread is still to report it. */
  ghost predicate ReportedOnce(w: World)
  {
    var reports := Reports(w.shared.outcomes);
    && Distinct(reports) && (forall at :: at in reports ==> at < |w.shared.commits|)
    && (forall at :: 0 <= at < |w.shared.commits| ==> at in reports || exists t :: t in w.threads && Pending(w.threads[t]) == Some(at))
    && (forall t :: t in w.threads && Pending(w.threads[t]).Some? ==>
          Pending(w.threads[t]).value < |w.shared.commits| && Pending(w.threads[t]).value !in reports)
  }

  /** A step commits, reports its thread's commit, or does neither. */
  ghost predicate Reporting(g: Shared, ph: Phase, h: Shared, next: Phase)
  {
    var a, b := Reports(g.outcomes), Reports(h.outcomes);
    || (|h.commits| == |g.commits| + 1 && b == a && Pending(ph).None? && Pending(next) == Some(|g.commits|))
    || (|h.commits| == |g.commits| && b == a && Pending(next) == Pending(ph))
    || (|h.commits| == |g.commits| && Pending(ph).Some? && b == a + [Pending(ph).value] && Pending(next).None?)
  }

  lemma ReportsSnoc(outcomes: seq<Outcome>, o: Outcome)
    ensures Reports(outcomes + [o]) == Reports(outcomes) + if CommitOf(o).Some? then [CommitOf(o).value] else []
  {
    assert (outcomes + [o])[..|outcomes|] == outcomes;
  }

  lemma ActReports(cfg: Config, g: Shared, ph: Phase)
    requires cfg.codec.Sized() && Shaped(g, ph) && (ph.Bumping? ==> ph.outcome.Wrote? || ph.outcome.Removed?)
    ensures Reporting(g, ph, Act(cfg, g, ph).0, Act(cfg, g, ph).1)
  {
    hide FileChunks, ChunkUpdates, CorrectionUpdates, Latest, BatchInsert, BatchInsertNew, BatchAdd, BatchUpdate, InsertAll,
         RemoveFile, Lookup, AddFile, Manifest.UpdateFile, Shaped, Truncate, Reports;
    var h := Act(cfg, g, ph).0;
    if h.outcomes != g.outcomes {
      var o := h.outcomes[|g.outcomes|];
      assert h.outcomes == g.outcomes + [o];
      ReportsSnoc(g.outcomes, o);
    }
  }

  lemma StartReports(g: Shared, request: Request)
    ensures Reporting(g, Idle, Start(g, request).0, Start(g, request).1)
  {
  }

  /** Two threads never have the same commit to report: it belongs to one operation. */
  ghost predicate OwnPending(threads: map<nat, Phase>)
  {
    forall t, u :: t in threads && u in threads && t != u && Pending(threads[t]).Some? ==>
      Pending(threads[t]) != Pending(threads[u])
  }

  lemma PendingOp(cfg: Config, g: Shared, ph: Phase)
    requires cfg.codec.Sized() && PhaseInv(cfg, g, ph) && Pending(ph).Some?
    ensures Pending(ph).value < |g.commits| && OpOf(ph) == Some(g.commits[Pending(ph).value].op)
  {
    hide JobOk, NoneCorrected, IdsOk, AllIn, ReaderOk, FileChunks, BundleAll;
  }

  lemma PendingApart(cfg: Config, w: World)
    requires cfg.codec.Sized() && WorldInv(cfg, w)
    ensures OwnPending(w.threads)
  {
    hide SharedInv, PhaseInv, AllBundled, Successes, Pending;
    forall t, u | t in w.threads && u in w.threads && t != u && Pending(w.threads[t]).Some?
      ensures Pending(w.threads[t]) != Pending(w.threads[u])
    {
      PendingOp(cfg, w.shared, w.threads[t]);
      if Pending(w.threads[u]).Some? {
        PendingOp(cfg, w.shared, w.threads[u]);
      }
    }
  }

  lemma ReportKept(w: World, t: nat, h: Shared, next: Phase)
    requires ReportedOnce(w) && OwnPending(w.threads) && Reporting(w.shared, PhaseOf(w, t), h, next)
    ensures ReportedOnce(World(h, w.threads[t := next]))
  {
    hide Pending, Reports;
    var ph, v := PhaseOf(w, t), World(h, w.threads[t := next]);
    IdlePends();
    var a, b := Reports(w.shared.outcomes), Reports(h.outcomes);
    forall at | 0 <= at < |h.commits| && at !in b
      ensures exists u :: u in v.threads && Pending(v.threads[u]) == Some(at)
    {
      if at < |w.shared.commits| {
        assert at !in a;
        var u :| u in w.threads && Pending(w.threads[u]) == Some(at);
        assert u != t ==> Pending(v.threads[u]) == Some(at);
        assert u == t ==> Pending(v.threads[t]) == Some(at);
      } else {
        assert Pending(v.threads[t]) == Some(at);
      }
    }
  }

  lemma IdlePends()
    ensures Pending(Idle).None?
  {
  }

  lemma NextReports(cfg: Config, w: World, event: Label)
    requires Lawful(cfg) && WorldInv(cfg, w) && ReportedOnce(w)
    ensures ReportedOnce(Next(cfg, w, event))
  {
    hide SharedInv, PhaseInv, WorldInv, ReportedOnce, Reporting, OwnPending, Shaped, Act, Start;
    PendingApart(cfg, w);
    WorldShaped(cfg, w, event.tid);
    var g, ph := w.shared, PhaseOf(w, event.tid);
    PhaseDetails(cfg, g, ph);
    match event
    case Begin(t, request) =>
      if ph.Idle? {
        StartReports(g, request);
        ReportKept(w, t, Start(g, request).0, Start(g, request).1);
      }
    case Step(t) =>
      ActReports(cfg, g, ph);
      ReportKept(w, t, Act(cfg, g, ph).0, Act(cfg, g, ph).1);
  }

  lemma {:induction false} RunReports(cfg: Config, labels: seq<Label>)
    requires Lawful(cfg)
    ensures ReportedOnce(Run(cfg, labels))
    decreases |labels|
  {
    hide WorldInv, Next;
    if labels != [] {
      var n := |labels| - 1;
      RunReports(cfg, labels[..n]);
      RunInv(cfg, labels[..n]);
      NextReports(cfg, Run(cfg, labels[..n]), labels[n]);
    }
  }

  // ---------------------------------------------------------------- counting

  ghost predicate Quiescent(w: World)
  {
    forall t :: t in w.threads ==> w.threads[t].Idle?
  }

  /** The reported commits on a path. */
  function CountAt(commits: seq<Commit>, ats: seq<nat>, path: string): nat
    decreases |ats|
  {
    if ats == [] then 0
    else
      var n := |ats| - 1;
      CountAt(commits, ats[..n], path) + if ats[n] < |commits| && commits[ats[n]].path == path then 1 else 0
  }

  function On(commits: seq<Commit>, ats: seq<nat>, path: string): set<nat>
  {
    set at | at in ats && at < |commits| && commits[at].path == path
  }

  lemma OneMoreOn(commits: seq<Commit>, ats: seq<nat>, path: string)
    requires ats != []
    ensures var n := |ats| - 1;
      On(commits, ats, path)
      == On(commits, ats[..n], path) + if ats[n] < |commits| && commits[ats[n]].path == path then {ats[n]} else {}
  {
    assert ats == ats[..|ats| - 1] + [ats[|ats| - 1]];
  }

  /** Without repetitions, counting along a list counts a set. */
  lemma {:induction false} CountIsSize(commits: seq<Commit>, ats: seq<nat>, path: string)
    requires Distinct(ats)
    ensures CountAt(commits, ats, path) == |On(commits, ats, path)|
    decreases |ats|
  {
    if ats != [] {
      var n := |ats| - 1;
      assert ats[n] !in ats[..n] && Distinct(ats[..n]);
      hide Distinct;
      CountIsSize(commits, ats[..n], path);
      OneMoreOn(commits, ats, path);
    }
  }

  function UpTo(n: nat): (r: seq<nat>)
    ensures |r| == n && forall i :: 0 <= i < n ==> r[i] == i
  {
    seq(n, i => i)
  }

  lemma {:induction false} CountUpTo(commits: seq<Commit>, n: nat, path: string)
    requires n <= |commits|
    ensures CountAt(commits, UpTo(n), path) == CountOn(commits[..n], path)
  {
    if n > 0 {
      CountUpTo(commits, n - 1, path);
      assert UpTo(n)[..n - 1] == UpTo(n - 1) && commits[..n][..n - 1] == commits[..n - 1];
    }
  }

  /** The operations on a path whose callers were told that they succeeded. */
  function SuccessesOn(g: Shared, path: string): nat
  {
    CountAt(g.commits, Reports(g.outcomes), path)
  }

  /** When every thread has come to rest, each commit has been reported once: the successes on a path are its commits. */
  lemma ReportsAreCommits(cfg: Config, labels: seq<Label>, path: string)
    requires Lawful(cfg) && Quiescent(Run(cfg, labels))
    ensures var g := SharedAfter(cfg, labels);
      && Distinct(Reports(g.outcomes)) && (forall at: nat :: at in Reports(g.outcomes) <==> at < |g.commits|)
      && SuccessesOn(g, path) == CountOn(g.commits, path)
  {
    hide Run, Reports, CountAt, CountOn;
    RunReports(cfg, labels);
    var g := SharedAfter(cfg, labels);
    var ats, all := Reports(g.outcomes), UpTo(|g.commits|);
    IdlePends();
    assert forall at: nat :: at in all <==> at < |g.commits| by {
      forall at: nat | at < |g.commits| ensures at in all { assert all[at] == at; }
    }
    CountIsSize(g.commits, ats, path);
    CountIsSize(g.commits, all, path);
    assert On(g.commits, ats, path) == On(g.commits, all, path);
    CountUpTo(g.commits, |g.commits|, path);
    assert g.commits[..|g.commits|] == g.commits;
  }

  /**
   * At rest, a file that was only changed by read-modify-writes holds the update applied once for every operation on
   * it that returned success, the creation excepted.
   */
  lemma EverySuccessCounts(cfg: Config, labels: seq<Label>, path: string) returns (first: nat)
    requires Lawful(cfg) && Quiescent(Run(cfg, labels)) && SuccessesOn(SharedAfter(cfg, labels), path) > 0
    requires OnlyUpdates(SharedAfter(cfg, labels).commits, path)
    ensures var g := SharedAfter(cfg, labels); var k := SuccessesOn(g, path) - 1;
      && first < |g.commits| && g.commits[first].path == path && g.commits[first].entry.version == 0
      && ReadBack(cfg, g, path) == Ok((Iterated(cfg.update, k, g.commits[first].data), k))
  {
    hide *;
    LawfulSized(cfg);
    ReportsAreCommits(cfg, labels, path);
    ChainHolds(cfg, labels);
    LatestCount(cfg, SharedAfter(cfg, labels).commits, path);
    first := NoLostUpdates(cfg, labels, path);
  }
}
