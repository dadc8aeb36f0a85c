/** Taking a collection's snapshot, restoring it with a tail of mutations, and rolling back. */
module Snapshots {
  import opened Wrappers
  import opened StableSort
  import opened Documents
  import opened Batches
  import opened Effects

  datatype Snapshot = Snapshot(
    snapshotId: string, tenantId: string, namespace: string, baseSeq: nat, docs: seq<Document>)

  datatype Rollback = Rollback(snapshotId: string, targetSeq: nat)

  /** `docs` lists the collection's documents, each once, in whatever order the store iterates. */
  ghost predicate IsScan(storage: Storage, c: string, ids: seq<Bson>, docs: seq<Document>) {
    && |ids| == |docs|
    && (forall i, j | 0 <= i < j < |ids| :: ids[i] != ids[j])
    && (forall i | 0 <= i < |ids| :: Lookup(storage, (c, ids[i])) == Some(docs[i]))
    && (forall key | key in storage && key.0 == c :: key.1 in ids)
  }

  /** Deleting every listed document under the id it carries. */
  function Cleared(storage: Storage, c: string, docs: seq<Document>): Storage {
    if docs == [] then storage
    else
      var rest := Cleared(storage, c, docs[..|docs| - 1]);
      var d := docs[|docs| - 1];
      if ID in d then rest - {(c, d[ID])} else rest
  }

  /** Writing every listed document under the id it carries. */
  function Loaded(storage: Storage, c: string, docs: seq<Document>): Storage {
    if docs == [] then storage
    else
      var rest := Loaded(storage, c, docs[..|docs| - 1]);
      var d := docs[|docs| - 1];
      if ID in d then rest[(c, d[ID]) := d] else rest
  }

  function Restored(storage: Storage, c: string, existing: seq<Document>, docs: seq<Document>): Storage {
    Loaded(Cleared(storage, c, existing), c, docs)
  }

  lemma {:induction false} ClearedAt(storage: Storage, c: string, docs: seq<Document>, key: Key)
    ensures Lookup(Cleared(storage, c, docs), key) ==
            if key.0 == c && (exists d | d in docs :: ID in d && d[ID] == key.1) then None else Lookup(storage, key)
  {
    if docs != [] {
      var init, last := docs[..|docs| - 1], docs[|docs| - 1];
      ClearedAt(storage, c, init, key);
      assert forall d :: d in docs <==> d in init || d == last;
    }
  }

  lemma {:induction false} LoadedElsewhere(storage: Storage, c: string, docs: seq<Document>, key: Key)
    requires key.0 != c || forall d | d in docs :: ID in d ==> d[ID] != key.1
    ensures Lookup(Loaded(storage, c, docs), key) == Lookup(storage, key)
  {
    if docs != [] {
      LoadedElsewhere(storage, c, docs[..|docs| - 1], key);
    }
  }

  /** A document whose id occurs once is found under it after loading. */
  lemma {:induction false} LoadedAt(storage: Storage, c: string, docs: seq<Document>, i: nat)
    requires i < |docs| && ID in docs[i]
    requires forall j | 0 <= j < |docs| && j != i :: ID in docs[j] ==> docs[j][ID] != docs[i][ID]
    ensures Lookup(Loaded(storage, c, docs), (c, docs[i][ID])) == Some(docs[i])
  {
    if i < |docs| - 1 {
      LoadedAt(storage, c, docs[..|docs| - 1], i);
    }
  }

  /** Restoring gives back exactly the snapshot's collection and touches no other. */
  lemma RestoreIsExact(
    source: Storage, c: string, ids: seq<Bson>, docs: seq<Document>,
    current: Storage, currentIds: seq<Bson>, existing: seq<Document>)
    requires WellKeyed(c, source) && IsScan(source, c, ids, docs)
    requires WellKeyed(c, current) && IsScan(current, c, currentIds, existing)
    ensures SameCollection(c, Restored(current, c, existing, docs), source)
    ensures SameElsewhere(c, Restored(current, c, existing, docs), current)
  {
    hide Cleared, Loaded;
    var cleared := Cleared(current, c, existing);
    forall id: Bson ensures Lookup(Loaded(cleared, c, docs), (c, id)) == Lookup(source, (c, id)) {
      ClearedAt(current, c, existing, (c, id));
      if (c, id) in source {
        var i :| 0 <= i < |ids| && ids[i] == id;
        ScanIds(source, c, ids, docs);
        LoadedAt(cleared, c, docs, i);
      } else {
        ScanIds(source, c, ids, docs);
        LoadedElsewhere(cleared, c, docs, (c, id));
        ScanIds(current, c, currentIds, existing);
        if (c, id) in current {
          var i :| 0 <= i < |currentIds| && currentIds[i] == id;
          assert existing[i] in existing;
        }
      }
    }
    forall key: Key | key.0 != c ensures Lookup(Loaded(cleared, c, docs), key) == Lookup(current, key) {
      ClearedAt(current, c, existing, key);
      LoadedElsewhere(cleared, c, docs, key);
    }
  }

  lemma ScanIds(storage: Storage, c: string, ids: seq<Bson>, docs: seq<Document>)
    requires WellKeyed(c, storage) && IsScan(storage, c, ids, docs)
    ensures forall i | 0 <= i < |docs| :: ID in docs[i] && docs[i][ID] == ids[i]
    ensures forall d | d in docs :: ID in d && (c, d[ID]) in storage
    ensures forall i, j | 0 <= i < |docs| && 0 <= j < |docs| && i != j :: docs[i][ID] != docs[j][ID]
  {
    forall i | 0 <= i < |docs| ensures ID in docs[i] && docs[i][ID] == ids[i] && (c, docs[i][ID]) in storage {
      assert Lookup(storage, (c, ids[i])) == Some(docs[i]);
    }
    forall i, j | 0 <= i < |docs| && 0 <= j < |docs| && i != j ensures docs[i][ID] != docs[j][ID] {
      assert if i < j then ids[i] != ids[j] else ids[j] != ids[i];
    }
  }

  /** Applied ids are never forgotten, a restore included. */
  ghost predicate SeenStays(ids: set<string>, before: set<string>, after: set<string>) {
    forall id | id in ids && id in before :: id in after
  }

  /**
   A snapshot restored over any later state and followed by a tail shows what the snapshot's
   own state would have shown after the part of the tail that the engine has not applied yet.
   */
  lemma SnapshotPlusTail(
    node: string, c: string, base: EngineState, ids: seq<Bson>, docs: seq<Document>,
    now: EngineState, nowIds: seq<Bson>, existing: seq<Document>, tail: seq<Mutation>)
    requires WellKeyed(c, base.storage) && IsScan(base.storage, c, ids, docs)
    requires WellKeyed(c, now.storage) && IsScan(now.storage, c, nowIds, existing)
    requires Confined(c, c, tail) && SeenStays(IdSet(tail), base.applied, now.applied)
    ensures var direct := Batch(node, c, base, Unseen(now.applied, tail));
            var restored := Batch(node, c, now.(storage := Restored(now.storage, c, existing, docs)), tail);
            && restored.result == direct.result
            && SameCollection(c, restored.state.storage, direct.state.storage)
            && SameElsewhere(c, restored.state.storage, now.storage)
  {
    hide Restored, CompareMutations, IdSet, Ids, Replay, WellKeyed, IsScan, IsUnseen;
    RestoreIsExact(base.storage, c, ids, docs, now.storage, nowIds, existing);
    var start := now.(storage := Restored(now.storage, c, existing, docs));
    SortConfined(c, tail);
    MutationsPreorder(Elements(tail));
    FilterSort(CompareMutations, IsUnseen(now.applied), tail, Elements(tail));
    ReplayUnseen(node, c, c, now.applied, start, base, Sort(CompareMutations, tail));
  }

  /** With a tail none of which the engine has applied, that is the whole tail. */
  lemma SnapshotPlusNewTail(
    node: string, c: string, base: EngineState, ids: seq<Bson>, docs: seq<Document>,
    now: EngineState, nowIds: seq<Bson>, existing: seq<Document>, tail: seq<Mutation>)
    requires WellKeyed(c, base.storage) && IsScan(base.storage, c, ids, docs)
    requires WellKeyed(c, now.storage) && IsScan(now.storage, c, nowIds, existing)
    requires Confined(c, c, tail) && IdSet(tail) !! base.applied && IdSet(tail) !! now.applied
    ensures var direct := Batch(node, c, base, tail);
            var restored := Batch(node, c, now.(storage := Restored(now.storage, c, existing, docs)), tail);
            restored.result == direct.result && SameCollection(c, restored.state.storage, direct.state.storage)
  {
    hide *;
    assert SeenStays(IdSet(tail), base.applied, now.applied) by {
      NoneSeen(IdSet(tail), base.applied, now.applied);
    }
    UnseenIsAll(now.applied, tail);
    SnapshotPlusTail(node, c, base, ids, docs, now, nowIds, existing, tail);
  }

  lemma NoneSeen(ids: set<string>, before: set<string>, after: set<string>)
    requires ids !! before
    ensures SeenStays(ids, before, after)
  {}

  /**
   A tail that succeeds both ways is applied in full by the restoring engine exactly when it had
   applied none of its ids.
   */
  lemma TailCountsIff(node: string, c: string, base: EngineState, start: EngineState, tail: seq<Mutation>)
    requires Batch(node, c, base, tail).result.Success? && Batch(node, c, start, tail).result.Success?
    requires IdSet(tail) !! base.applied
    ensures Batch(node, c, start, tail).result == Batch(node, c, base, tail).result <==> IdSet(tail) !! start.applied
  {
    hide Batch, IdSet, Drift;
    BatchCounts(node, c, base, tail);
    BatchCounts(node, c, start, tail);
    NewIds(base.applied, IdSet(tail));
    NewIds(start.applied, IdSet(tail));
  }

  lemma NewIds(applied: set<string>, ids: set<string>)
    ensures |applied + ids| <= |applied| + |ids|
    ensures |applied + ids| == |applied| + |ids| <==> ids !! applied
  {
    assert applied + ids == applied + (ids - applied);
    assert |applied + (ids - applied)| == |applied| + |ids - applied|;
    assert ids == (ids - applied) + ids * applied;
    assert |ids| == |ids - applied| + |ids * applied|;
    assert ids * applied == {} <==> ids !! applied;
  }

  lemma RestoredWellKeyed(c: string, restored: Storage, source: Storage)
    requires WellKeyed(c, source) && SameCollection(c, restored, source)
    ensures WellKeyed(c, restored)
  {
    forall key | key in restored && key.0 == c ensures ID in restored[key] && restored[key][ID] == key.1 {
      assert Lookup(restored, (c, key.1)) == Lookup(source, (c, key.1));
    }
  }

  /**
   Restoring the same snapshot with the same window a second time replays nothing: the ids
   survived the restore, every named mutation is skipped, and the bare snapshot is left.
   */
  lemma SecondRollbackIsBare(
    node: string, c: string, source: Storage, ids: seq<Bson>, docs: seq<Document>,
    now: EngineState, nowIds: seq<Bson>, existing: seq<Document>, tail: seq<Mutation>,
    laterIds: seq<Bson>, later: seq<Document>)
    requires WellKeyed(c, source) && IsScan(source, c, ids, docs)
    requires WellKeyed(c, now.storage) && IsScan(now.storage, c, nowIds, existing)
    requires Anonymous(tail) == 0
    requires var first := Batch(node, c, now.(storage := Restored(now.storage, c, existing, docs)), tail);
             first.result.Success? && IsScan(first.state.storage, c, laterIds, later)
    ensures var first := Batch(node, c, now.(storage := Restored(now.storage, c, existing, docs)), tail).state;
            var again := first.(storage := Restored(first.storage, c, later, docs));
            && Batch(node, c, again, tail) == Outcome(again, Success(0), tail != [])
            && SameCollection(c, again.storage, source)
  {
    hide Restored, Replay, WellKeyed, IsScan, SameCollection, SameElsewhere, CompareMutations;
    var start := now.(storage := Restored(now.storage, c, existing, docs));
    var first := Batch(node, c, start, tail).state;
    RestoreIsExact(source, c, ids, docs, now.storage, nowIds, existing);
    RestoredWellKeyed(c, start.storage, source);
    ReplayKeepsKeys(node, c, c, start, Sort(CompareMutations, tail));
    RestoreIsExact(source, c, ids, docs, first.storage, laterIds, later);
    ReapplyIsIdle(node, c, start, first.(storage := Restored(first.storage, c, later, docs)), tail);
  }

  lemma SortConfined(c: string, ms: seq<Mutation>)
    requires Confined(c, c, ms)
    ensures Confined(c, c, Sort(CompareMutations, ms))
    ensures IdSet(Sort(CompareMutations, ms)) == IdSet(ms)
  {
    SortMultiset(CompareMutations, ms);
    SortElements(CompareMutations, ms);
    IdsPermute(Sort(CompareMutations, ms), ms);
  }

  /**
   Recovery from a snapshot converges to the replay, in one batch, of the history up to the
   snapshot and of all of the tail that the recovering engine has not applied.
   */
  lemma RecoveryIsFullReplay(
    node: string, c: string, genesis: EngineState, head: seq<Mutation>, tail: seq<Mutation>,
    ids: seq<Bson>, docs: seq<Document>, now: EngineState, nowIds: seq<Bson>, existing: seq<Document>)
    requires WellKeyed(c, genesis.storage) && Batch(node, c, genesis, head).result.Success?
    requires AllBelow(CompareMutations, head, tail) && Confined(c, c, tail)
    requires IsScan(Batch(node, c, genesis, head).state.storage, c, ids, docs)
    requires WellKeyed(c, now.storage) && IsScan(now.storage, c, nowIds, existing)
    requires SeenStays(IdSet(tail), Batch(node, c, genesis, head).state.applied, now.applied)
    ensures var full := Batch(node, c, genesis, head + Unseen(now.applied, tail));
            var recovered := Batch(node, c, now.(storage := Restored(now.storage, c, existing, docs)), tail);
            && full.result.Success? == recovered.result.Success?
            && (full.result.Success? ==>
                  full.result.value == Batch(node, c, genesis, head).result.value + recovered.result.value)
            && SameCollection(c, recovered.state.storage, full.state.storage)
            && SameElsewhere(c, recovered.state.storage, now.storage)
  {
    hide Restored, CompareMutations, IdSet, Replay, WellKeyed, IsScan, Drift, Sort, IsUnseen;
    FilterElements(IsUnseen(now.applied), tail);
    BatchSplits(node, c, genesis, head, Unseen(now.applied, tail));
    ReplayKeepsKeys(node, c, c, genesis, Sort(CompareMutations, head));
    SnapshotPlusTail(node, c, Batch(node, c, genesis, head).state, ids, docs, now, nowIds, existing, tail);
  }

  /** With a tail that neither the history nor the engine has applied, that is the whole history. */
  lemma RecoveryOfNewTail(
    node: string, c: string, genesis: EngineState, head: seq<Mutation>, tail: seq<Mutation>, now: EngineState)
    requires Batch(node, c, genesis, head).result.Success?
    requires IdSet(tail) !! now.applied && IdSet(tail) !! genesis.applied && IdSet(tail) !! IdSet(head)
    ensures SeenStays(IdSet(tail), Batch(node, c, genesis, head).state.applied, now.applied)
    ensures head + Unseen(now.applied, tail) == head + tail
  {
    hide Batch, IdSet, Drift, Unseen;
    BatchCounts(node, c, genesis, head);
    UnseenIsAll(now.applied, tail);
  }

  /* ---------- rollback ---------- */

  function Bounded(ms: seq<Mutation>, target: nat): seq<Mutation> {
    Filter((m: Mutation) => m.seqNo <= target, ms)
  }

  /** What an accepted rollback does once the snapshot is back. */
  function RolledBack(node: string, c: string, start: EngineState, window: seq<Mutation>, target: nat): Outcome {
    Batch(node, c, start, Bounded(window, target))
  }

  /** Two windows list the same mutations numbered up to the target, in the same order, whatever is in between. */
  ghost predicate AgreeUpTo(a: seq<Mutation>, b: seq<Mutation>, target: nat)
    decreases |a| + |b|
  {
    if a != [] && a[0].seqNo > target then AgreeUpTo(a[1..], b, target)
    else if b != [] && b[0].seqNo > target then AgreeUpTo(a, b[1..], target)
    else if a == [] || b == [] then a == b
    else a[0] == b[0] && AgreeUpTo(a[1..], b[1..], target)
  }

  /** Every mutation is replayed as often as the window has it if its number is up to the target, and never otherwise. */
  lemma {:induction false} BoundedCounts(window: seq<Mutation>, target: nat, m: Mutation)
    ensures multiset(Bounded(window, target))[m] == if m.seqNo <= target then multiset(window)[m] else 0
  {
    if window != [] {
      BoundedCounts(window[1..], target, m);
      assert window == [window[0]] + window[1..];
      assert multiset(window)[m] == multiset{window[0]}[m] + multiset(window[1..])[m];
      if window[0].seqNo <= target {
        assert Bounded(window, target) == [window[0]] + Bounded(window[1..], target);
      }
    }
  }

  /** What is replayed of two windows is the same exactly when they agree up to the target. */
  lemma {:induction false} BoundedAgreeIff(a: seq<Mutation>, b: seq<Mutation>, target: nat)
    ensures Bounded(a, target) == Bounded(b, target) <==> AgreeUpTo(a, b, target)
    decreases |a| + |b|
  {
    if a != [] && a[0].seqNo > target {
      BoundedAgreeIff(a[1..], b, target);
    } else if b != [] && b[0].seqNo > target {
      BoundedAgreeIff(a, b[1..], target);
    } else if a != [] && b != [] {
      BoundedAgreeIff(a[1..], b[1..], target);
      assert Bounded(a, target)[1..] == Bounded(a[1..], target);
      assert Bounded(b, target)[1..] == Bounded(b[1..], target);
    }
  }

  lemma {:induction false} BoundedIsAll(window: seq<Mutation>, target: nat)
    requires forall m | m in window :: m.seqNo <= target
    ensures Bounded(window, target) == window
  {
    if window != [] {
      assert window[0] in window;
      BoundedIsAll(window[1..], target);
    }
  }

  /**
   A rollback depends on the window up to its target only: windows that agree so far roll back to
   the same state and answer, and one with nothing above the target is restored whole.
   */
  lemma RollbackStopsAtTarget(
    node: string, c: string, start: EngineState, a: seq<Mutation>, b: seq<Mutation>, target: nat)
    ensures AgreeUpTo(a, b, target) ==> RolledBack(node, c, start, a, target) == RolledBack(node, c, start, b, target)
    ensures (forall m | m in a :: m.seqNo <= target) ==> RolledBack(node, c, start, a, target) == Batch(node, c, start, a)
  {
    hide Batch;
    BoundedAgreeIff(a, b, target);
    if forall m | m in a :: m.seqNo <= target {
      BoundedIsAll(a, target);
    }
  }

  lemma {:induction false} NamedIds(ms: seq<Mutation>)
    requires forall m | m in ms :: m.writeId != ""
    ensures Anonymous(ms) == 0 && IdSet(ms) == set m | m in ms :: m.writeId
  {
    hide IdSet;
    IdsOfNothing(ms);
    if ms != [] {
      NamedIds(ms[1..]);
      IdSetStep(ms, {});
      assert forall m :: m in ms <==> m == ms[0] || m in ms[1..];
    }
  }

  lemma IdsOfNothing(ms: seq<Mutation>)
    ensures ms == [] ==> IdSet(ms) == {}
  {}

  /** With named and new mutations the answer counts exactly the ids numbered up to the target. */
  lemma RollbackCounts(node: string, c: string, start: EngineState, window: seq<Mutation>, target: nat)
    requires RolledBack(node, c, start, window, target).result.Success?
    requires forall m | m in window :: m.writeId != "" && m.writeId !in start.applied
    ensures RolledBack(node, c, start, window, target).result.value ==
            |set m | m in window && m.seqNo <= target :: m.writeId|
  {
    hide Batch, Drift, IdSet, Bounded, Fresh, CompareMutations, Anonymous;
    var replayed := Bounded(window, target);
    BoundedElements(window, target);
    BatchCounts(node, c, start, replayed);
    NamedIds(replayed);
    NewIds(start.applied, IdSet(replayed));
    assert (set m | m in window && m.seqNo <= target :: m.writeId) == set m | m in replayed :: m.writeId;
  }

  lemma BoundedElements(window: seq<Mutation>, target: nat)
    ensures forall m :: m in Bounded(window, target) <==> m in window && m.seqNo <= target
  {
    FilterElements((m: Mutation) => m.seqNo <= target, window);
  }
}
