/** The versioned chunk store and correction store: maps updated in batches under one lock. */
module Stores {
  import opened Bytes
  import opened Correction
  import opened Manifest

  datatype VersionedChunk = VersionedChunk(vector: SparseVec, originalSize: nat)

  datatype ChunkState = ChunkState(chunks: map<nat, VersionedChunk>, version: nat)

  datatype CorrectionState = CorrectionState(corrections: map<nat, CorrectionType>, total: nat, version: nat)

  /** The map after inserting the updates in order. */
  function InsertAll<V>(m: map<nat, V>, updates: seq<(nat, V)>): map<nat, V>
    decreases |updates|
  {
    if updates == [] then m
    else
      var (id, v) := updates[|updates| - 1];
      InsertAll(m, updates[..|updates| - 1])[id := v]
  }

  /** The number of updates that find their key absent when their turn comes. */
  function NewKeys<V>(m: map<nat, V>, updates: seq<(nat, V)>): (n: nat)
    ensures n <= |updates|
    decreases |updates|
  {
    if updates == [] then 0
    else
      var before := updates[..|updates| - 1];
      NewKeys(m, before) + if updates[|updates| - 1].0 in InsertAll(m, before) then 0 else 1
  }

  function BatchInsert(s: ChunkState, updates: seq<(nat, VersionedChunk)>, expected: nat): Result<ChunkState, Mismatch>
  {
    if s.version != expected then Err(Mismatch(expected, s.version)) else Ok(BatchInsertNew(s, updates))
  }

  function BatchInsertNew(s: ChunkState, updates: seq<(nat, VersionedChunk)>): ChunkState
  {
    ChunkState(InsertAll(s.chunks, updates), s.version + 1)
  }

  function BatchUpdate(s: CorrectionState, updates: seq<(nat, CorrectionType)>, expected: nat): Result<CorrectionState, Mismatch>
  {
    if s.version != expected then Err(Mismatch(expected, s.version))
    else Ok(CorrectionState(InsertAll(s.corrections, updates), s.total + NewKeys(s.corrections, updates), s.version + 1))
  }

  /** Counts every update, present or not. */
  function BatchAdd(s: CorrectionState, updates: seq<(nat, CorrectionType)>): CorrectionState
  {
    CorrectionState(InsertAll(s.corrections, updates), s.total + |updates|, s.version + 1)
  }

  /** Inserting extends the map, to exactly the updates' keys, each with a value it was given. */
  lemma {:induction false} InsertAllSpec<V>(m: map<nat, V>, updates: seq<(nat, V)>)
    ensures var r := InsertAll(m, updates);
      && m.Keys <= r.Keys
      && (forall i :: 0 <= i < |updates| ==> updates[i].0 in r)
      && (forall id :: id in r ==> (id in m && r[id] == m[id]) || (exists i :: 0 <= i < |updates| && updates[i] == (id, r[id])))
    decreases |updates|
  {
    if updates != [] {
      var n := |updates| - 1;
      var before := updates[..n];
      InsertAllSpec(m, before);
      var r, q := InsertAll(m, updates), InsertAll(m, before);
      forall i | 0 <= i < |updates| ensures updates[i].0 in r {
        if i < n { assert before[i] == updates[i]; }
      }
      forall id | id in r
        ensures (id in m && r[id] == m[id]) || (exists i :: 0 <= i < |updates| && updates[i] == (id, r[id]))
      {
        if id == updates[n].0 {
          assert updates[n] == (id, r[id]);
        } else if !(id in m && q[id] == m[id]) {
          var i :| 0 <= i < |before| && before[i] == (id, q[id]);
          assert updates[i] == (id, r[id]);
        }
      }
    }
  }

  /** The last update of a key wins, over what was there before and over the earlier ones; other keys keep their values. */
  lemma {:induction false} LastUpdateWins<V>(m: map<nat, V>, updates: seq<(nat, V)>, id: nat)
    ensures (forall i :: 0 <= i < |updates| ==> updates[i].0 != id) ==>
      (id in InsertAll(m, updates) <==> id in m) && (id in m ==> InsertAll(m, updates)[id] == m[id])
    ensures forall i :: LastFor(updates, i, id) ==> id in InsertAll(m, updates) && InsertAll(m, updates)[id] == updates[i].1
    decreases |updates|
  {
    if updates != [] {
      var n := |updates| - 1;
      var before := updates[..n];
      LastUpdateWins(m, before, id);
      assert updates == before + [updates[n]];
      if updates[n].0 != id {
        forall i | LastFor(updates, i, id) ensures LastFor(before, i, id) {
          assert forall j :: i < j < n ==> before[j] == updates[j];
        }
      }
    }
  }

  /** The `i`th update is the last of this key. */
  ghost predicate LastFor<V>(updates: seq<(nat, V)>, i: int, id: nat)
  {
    0 <= i < |updates| && updates[i].0 == id && forall j :: i < j < |updates| ==> updates[j].0 != id
  }

  /** The map grows by the number of new keys. */
  lemma {:induction false} InsertAllSize<V>(m: map<nat, V>, updates: seq<(nat, V)>)
    ensures |InsertAll(m, updates)| == |m| + NewKeys(m, updates)
    decreases |updates|
  {
    if updates != [] {
      var n := |updates| - 1;
      InsertAllSize(m, updates[..n]);
      InsertSize(InsertAll(m, updates[..n]), updates[n].0, updates[n].1);
    }
  }

  lemma InsertSize<V>(m: map<nat, V>, id: nat, v: V)
    ensures |m[id := v]| == |m| + if id in m then 0 else 1
  {
    assert m[id := v].Keys == m.Keys + {id};
    assert |m.Keys| == |m| && |m[id := v].Keys| == |m[id := v]|;
  }

  ghost predicate FreshKeys<V>(m: map<nat, V>, updates: seq<(nat, V)>)
  {
    && (forall i :: 0 <= i < |updates| ==> updates[i].0 !in m)
    && (forall i, j :: 0 <= i < j < |updates| ==> updates[i].0 != updates[j].0)
  }

  /** One more update keeps the keys fresh exactly if its key is absent when its turn comes. */
  lemma {:induction false} FreshStep<V>(m: map<nat, V>, before: seq<(nat, V)>, u: (nat, V))
    ensures FreshKeys(m, before + [u]) <==> FreshKeys(m, before) && u.0 !in InsertAll(m, before)
  {
    hide InsertAll;
    InsertAllSpec(m, before);
    var q, all := InsertAll(m, before), before + [u];
    forall i | 0 <= i < |before| ensures all[i] == before[i] {}
    assert all[|before|] == u;
    if u.0 in q && u.0 !in m {
      var i :| 0 <= i < |before| && before[i] == (u.0, q[u.0]);
      assert all[i].0 == u.0;
    }
  }

  /** Every update is new exactly when the keys are distinct and none is present. */
  lemma {:induction false} AllNew<V>(m: map<nat, V>, updates: seq<(nat, V)>)
    ensures NewKeys(m, updates) == |updates| <==> FreshKeys(m, updates)
    decreases |updates|
  {
    hide FreshKeys, InsertAll;
    if updates == [] {
      NoKeys(m);
    } else {
      var n := |updates| - 1;
      AllNew(m, updates[..n]);
      FreshStep(m, updates[..n], updates[n]);
      assert updates[..n] + [updates[n]] == updates;
    }
  }

  lemma NoKeys<V>(m: map<nat, V>)
    ensures FreshKeys(m, [])
  {
  }

  ghost predicate Counted(s: CorrectionState)
  {
    s.total == |s.corrections|
  }

  /** A checked update keeps the counter equal to the number of corrections; an unchecked one does exactly on fresh keys. */
  lemma CounterExact(s: CorrectionState, updates: seq<(nat, CorrectionType)>, expected: nat)
    requires Counted(s)
    ensures BatchUpdate(s, updates, expected).Ok? ==> Counted(BatchUpdate(s, updates, expected).value)
    ensures Counted(BatchAdd(s, updates)) <==> FreshKeys(s.corrections, updates)
  {
    InsertAllSize(s.corrections, updates);
    AllNew(s.corrections, updates);
  }

  class VersionedChunkStore {
    var chunks: map<nat, VersionedChunk>
    var version: nat

    function Snapshot(): ChunkState
      reads this
    {
      ChunkState(chunks, version)
    }

    constructor ()
      ensures Snapshot() == ChunkState(map[], 0)
    {
      chunks, version := map[], 0;
    }

    method Get(id: nat) returns (r: Option<(VersionedChunk, nat)>)
      ensures r == if id in chunks then Some((chunks[id], version)) else None
    {
      r := if id in chunks then Some((chunks[id], version)) else None;
    }

    method InsertBatch(updates: seq<(nat, VersionedChunk)>, expected: nat) returns (r: Result<nat, Mismatch>)
      modifies this
      ensures match BatchInsert(old(Snapshot()), updates, expected)
        case Ok(t) => Snapshot() == t && r == Ok(t.version)
        case Err(e) => Snapshot() == old(Snapshot()) && r == Err(e)
      ensures r == if expected == old(version) then Ok(expected + 1) else Err(Mismatch(expected, old(version)))
    {
      if version != expected {
        return Err(Mismatch(expected, version));
      }
      var v := InsertNewBatch(updates);
      r := Ok(v);
    }

    method InsertNewBatch(updates: seq<(nat, VersionedChunk)>) returns (v: nat)
      modifies this
      ensures Snapshot() == BatchInsertNew(old(Snapshot()), updates) && v == version == old(version) + 1
    {
      for i := 0 to |updates|
        invariant chunks == InsertAll(old(chunks), updates[..i]) && version == old(version)
      {
        assert updates[..i + 1][..i] == updates[..i];
        chunks := chunks[updates[i].0 := updates[i].1];
      }
      assert updates[..|updates|] == updates;
      version := version + 1;
      v := version;
    }
  }

  class VersionedCorrectionStore {
    var corrections: map<nat, CorrectionType>
    var totalChunks: nat
    var version: nat

    function Snapshot(): CorrectionState
      reads this
    {
      CorrectionState(corrections, totalChunks, version)
    }

    constructor ()
      ensures Snapshot() == CorrectionState(map[], 0, 0)
    {
      corrections, totalChunks, version := map[], 0, 0;
    }

    method UpdateBatch(updates: seq<(nat, CorrectionType)>, expected: nat) returns (r: Result<nat, Mismatch>)
      modifies this
      ensures match BatchUpdate(old(Snapshot()), updates, expected)
        case Ok(t) => Snapshot() == t && r == Ok(t.version)
        case Err(e) => Snapshot() == old(Snapshot()) && r == Err(e)
      ensures r == if expected == old(version) then Ok(expected + 1) else Err(Mismatch(expected, old(version)))
    {
      if version != expected {
        return Err(Mismatch(expected, version));
      }
      for i := 0 to |updates|
        invariant corrections == InsertAll(old(corrections), updates[..i]) && version == old(version)
        invariant totalChunks == old(totalChunks) + NewKeys(old(corrections), updates[..i])
      {
        assert updates[..i + 1][..i] == updates[..i];
        if updates[i].0 !in corrections {
          totalChunks := totalChunks + 1;
        }
        corrections := corrections[updates[i].0 := updates[i].1];
      }
      assert updates[..|updates|] == updates;
      version := version + 1;
      r := Ok(version);
    }

    method AddBatch(updates: seq<(nat, CorrectionType)>) returns (v: nat)
      modifies this
      ensures Snapshot() == BatchAdd(old(Snapshot()), updates) && v == version == old(version) + 1
    {
      for i := 0 to |updates|
        invariant corrections == InsertAll(old(corrections), updates[..i]) && version == old(version)
        invariant totalChunks == old(totalChunks) + i
      {
        assert updates[..i + 1][..i] == updates[..i];
        corrections := corrections[updates[i].0 := updates[i].1];
        totalChunks := totalChunks + 1;
      }
      assert updates[..|updates|] == updates;
      version := version + 1;
      v := version;
    }
  }
}
