/**
 The engine object: storage, local log and applied write ids, changed in place. Every
 method is proved against the function that the replication theorems are about.
 */
module Engine {
  import opened Wrappers
  import opened Orders
  import opened StableSort
  import opened Documents
  import opened Batches
  import LocalWrites
  import Merge
  import Resolution
  import Revisions
  import Snapshots

  /** The loop of `add_conflict` that drops the oldest entries. */
  method DropOldest(whole: seq<Bson>) returns (list: seq<Bson>)
    ensures list == Merge.LastTen(whole)
  {
    list := whole;
    while |list| > 10
      invariant |list| <= |whole| && list == whole[|whole| - |list|..]
      invariant |list| >= 10 || list == whole
    {
      list := list[1..];
    }
  }

  /** `add_conflict`. */
  method AddConflict(loser: Document, winner: Document) returns (updated: Document)
    ensures updated == Merge.AddConflict(loser, winner)
  {
    updated := winner;
    if CONFLICTS !in updated {
      updated := updated[CONFLICTS := Array([])];
    }
    if updated[CONFLICTS].Array? {
      var list := DropOldest(updated[CONFLICTS].items + [Bson.Document(loser)]);
      updated := updated[CONFLICTS := Array(list)];
    }
  }

  /** `apply_update`, operator by operator. */
  method ApplyUpdate(doc: Document, update: seq<(string, Bson)>) returns (r: Result<Document, EngineError>)
    ensures r == LocalWrites.ApplyUpdate(doc, update)
  {
    var current := doc;
    for i := 0 to |update|
      invariant LocalWrites.ApplyUpdate(doc, update) == LocalWrites.ApplyUpdate(current, update[i..])
    {
      var (op, arg) := update[i];
      assert update[i..][1..] == update[i + 1..];
      var fields := if arg.Document? then arg.fields else map[];
      if op == "$set" {
        current := current + fields;
      } else if op == "$unset" {
        current := current - fields.Keys;
      } else if op == "$inc" {
        current := LocalWrites.Increment(current, fields);
      } else {
        return Failure(InvalidOperator);
      }
    }
    r := Success(current);
  }

  class RangoEngine {
    const config: LocalWrites.Config
    var storage: Storage
    var log: seq<Mutation>
    var appliedWriteIds: set<string>
    var driftDetections: nat

    constructor (config: LocalWrites.Config)
      ensures this.config == config
      ensures State() == EngineState(map[], {}) && Local() == LocalWrites.LocalState(map[], [])
      ensures driftDetections == 0
    {
      this.config := config;
      storage, log, appliedWriteIds, driftDetections := map[], [], {}, 0;
    }

    /** What replication sees of the engine. */
    function State(): EngineState
      reads this
    {
      EngineState(storage, appliedWriteIds)
    }

    /** What local writes see of the engine. */
    function Local(): LocalWrites.LocalState
      reads this
    {
      LocalWrites.LocalState(storage, log)
    }

    /** `find_one`: tombstones are not found. */
    method FindOne(collection: string, id: Bson) returns (r: Option<Document>)
      ensures r == (if (collection, id) in storage && !IsDeleted(storage[(collection, id)])
                    then Some(storage[(collection, id)]) else None)
    {
      r := Lookup(storage, (collection, id));
      if r.Some? && IsDeleted(r.value) {
        r := None;
      }
    }

    /** A full scan of a collection, tombstones included, in some order. */
    method Scan(collection: string) returns (docs: seq<Document>, ghost ids: seq<Bson>)
      ensures Snapshots.IsScan(storage, collection, ids, docs)
      ensures forall d :: d in docs <==> exists key | key in storage :: key.0 == collection && storage[key] == d
    {
      var keys := set key | key in storage && key.0 == collection;
      docs, ids := [], [];
      while keys != {}
        invariant forall key | key in keys :: key in storage && key.0 == collection && key.1 !in ids
        invariant |ids| == |docs| && forall i, j | 0 <= i < j < |ids| :: ids[i] != ids[j]
        invariant forall i | 0 <= i < |ids| :: Lookup(storage, (collection, ids[i])) == Some(docs[i])
        invariant forall key | key in storage && key.0 == collection :: key in keys || key.1 in ids
        invariant forall key | key in storage && key.0 == collection && key !in keys :: storage[key] in docs
        invariant forall d | d in docs :: exists key | key in storage :: key.0 == collection && storage[key] == d
      {
        var key :| key in keys;
        docs, ids := docs + [storage[key]], ids + [key.1];
        keys := keys - {key};
      }
    }

    method Store(key: Key, doc: Document)
      modifies this`storage
      ensures storage == old(storage)[key := doc]
    {
      storage := storage[key := doc];
    }

    /** The write has been stored; it is logged unless its metadata is refused. */
    method Log(m: Mutation) returns (logged: bool)
      modifies this`log
      ensures logged == ValidMetadata(m.metadata)
      ensures log == if logged then old(log) + [m] else old(log)
    {
      logged := ValidMetadata(m.metadata);
      if logged {
        log := log + [m];
      }
    }

    method InsertOne(collection: string, doc: Document, stamp: LocalWrites.Stamp) returns (r: Result<Bson, EngineError>)
      modifies this`storage, this`log
      ensures (Local(), r) == LocalWrites.InsertOne(config, old(Local()), collection, doc, stamp)
    {
      var id := if ID in doc then doc[ID] else stamp.freshId;
      if !config.fits(doc) {
        return Failure(DocumentTooLarge);
      }
      var full := LocalWrites.Stamped(config, doc[ID := id], stamp) - {DELETED};
      if !config.fits(full) {
        return Failure(DocumentTooLarge);
      }
      Store((collection, id), full);
      var logged := Log(LocalWrites.LoggedMutation(config, MutationOp.Insert, collection, id, Some(full), stamp));
      r := if logged then Success(id) else Failure(InvalidMetadata);
    }

    method UpdateOne(collection: string, id: Bson, update: seq<(string, Bson)>, stamp: LocalWrites.Stamp)
      returns (r: Result<bool, EngineError>)
      modifies this`storage, this`log
      ensures (Local(), r) == LocalWrites.UpdateOne(config, old(Local()), collection, id, update, stamp)
    {
      var key := (collection, id);
      if key !in storage || IsDeleted(storage[key]) {
        return Success(false);
      }
      var changed := ApplyUpdate(storage[key], update);
      if changed.Failure? {
        return Failure(changed.error);
      }
      var full := LocalWrites.Stamped(config, changed.value, stamp);
      if !config.fits(full) {
        return Failure(DocumentTooLarge);
      }
      Store(key, full);
      var logged := Log(LocalWrites.LoggedMutation(config, MutationOp.Update, collection, id, Some(full), stamp));
      r := if logged then Success(true) else Failure(InvalidMetadata);
    }

    method DeleteOne(collection: string, id: Bson, stamp: LocalWrites.Stamp) returns (r: Result<bool, EngineError>)
      modifies this`storage, this`log
      ensures (Local(), r) == LocalWrites.DeleteOne(config, old(Local()), collection, id, stamp)
    {
      var key := (collection, id);
      if key !in storage {
        return Success(false);
      }
      var full := LocalWrites.Stamped(config, storage[key][DELETED := Boolean(true)], stamp);
      Store(key, full);
      var logged := Log(LocalWrites.LoggedMutation(config, MutationOp.Delete, collection, id, None, stamp));
      r := if logged then Success(true) else Failure(InvalidMetadata);
    }

    /** `gc_deleted`: delete, by the id each carries, every tombstone of a scan. */
    method GcDeleted(collection: string) returns (removed: nat)
      modifies this`storage
      ensures Local() == LocalWrites.CollectGarbage(old(Local()), collection)
      ensures removed == |Tombstones(old(storage), collection)|
    {
      hide IsDeleted, Snapshots.IsScan, LocalWrites.GarbageKeys, NamedBy, DeadKeys, Tombstones;
      var docs, ids := Scan(collection);
      removed := 0;
      ghost var before := storage;
      DistinctIds(before, collection, ids, docs);
      DeadStart(before, collection, ids, docs);
      for i := 0 to |docs|
        invariant storage == before - NamedBy(collection, docs, i)
        invariant removed == |DeadKeys(collection, ids, docs, i)|
      {
        DeadStep(collection, ids, docs, i);
        if IsDeleted(docs[i]) && ID in docs[i] {
          RemoveOneMore(before, NamedBy(collection, docs, i), (collection, docs[i][ID]));
          storage := storage - {(collection, docs[i][ID])};
          removed := removed + 1;
        }
      }
      GarbageListed(before, collection, ids, docs);
    }

    /** `apply_remote_mutation`: last writer wins, the loser goes to the winner's conflicts. */
    method ApplyRemoteMutation(collection: string, doc: Document) returns (r: Result<(), EngineError>)
      modifies this`storage
      ensures var after := ApplyRemote(old(storage), collection, doc);
              if after.Failure? then r == Failure(after.error) && storage == old(storage)
              else r == Success(()) && storage == after.value
    {
      hide Revisions.Valid, Revisions.Parse, Merge.AddConflict;
      if ID !in doc {
        return Failure(DocumentNotFound);
      }
      var key := (collection, doc[ID]);
      var local := Lookup(storage, key);
      if local.Some? && !IsDeleted(local.value) {
        var order := CompareRevisions(doc, local.value);
        if order == Greater {
          var winner := AddConflict(local.value, doc);
          Store(key, winner);
        } else if order == Less {
          var winner := AddConflict(doc, local.value);
          Store(key, winner);
        } else {
          assert storage[key := storage[key]] == storage;
        }
      } else {
        Store(key, doc);
      }
      r := Success(());
    }

    /** The scan of neighbours that looks for a batch out of order. */
    method DetectDrift(ms: seq<Mutation>) returns (drift: bool)
      ensures drift <==> exists i | 0 <= i < |ms| - 1 :: OutOfOrder(ms[i], ms[i + 1])
    {
      hide OutOfOrder;
      drift := false;
      var i := 0;
      while i + 1 < |ms|
        invariant 0 <= i <= |ms|
        invariant forall k | 0 <= k < i && k < |ms| - 1 :: !OutOfOrder(ms[k], ms[k + 1])
      {
        if OutOfOrder(ms[i], ms[i + 1]) {
          return true;
        }
        i := i + 1;
      }
    }

    /**
     `apply_mutations_deterministic`. The code keeps two sets of seen ids, one for the
     batch and one for the engine; the outcome it is proved against has only the second.
     */
    method ApplyMutationsDeterministic(fallback: string, mutations: seq<Mutation>)
      returns (r: Result<nat, EngineError>)
      modifies this`storage, this`appliedWriteIds, this`driftDetections
      ensures var out := Batch(config.node, fallback, old(State()), mutations);
              && State() == out.state && r == out.result
              && driftDetections ==
                 old(driftDetections) + (if r.Success? && Drift(mutations, out) then 1 else 0)
    {
      hide Sort, CompareMutations, OutOfOrder, ValidMetadata, VersionOf, Replay;
      var drift := DetectDrift(mutations);
      var ordered := Sort(CompareMutations, mutations);
      ghost var start, scan, skipped := State(), drift, false;
      var seen: set<string>, applied := {}, 0;
      for i := 0 to |ordered|
        invariant seen <= appliedWriteIds && driftDetections == old(driftDetections)
        invariant drift == (scan || skipped)
        invariant Replay(config.node, fallback, start, ordered) ==
                  Continue(applied, skipped, Replay(config.node, fallback, State(), ordered[i..]))
      {
        var m := ordered[i];
        assert ordered[i..][0] == m && ordered[i..][1..] == ordered[i + 1..];
        ghost var before := State();
        ghost var turn := ReplayOne(config.node, fallback, before, m);
        ReplayTurn(config.node, fallback, before, ordered[i..], applied, skipped);
        if !ValidMetadata(m.metadata) {
          return Failure(InvalidMetadata);
        }
        var duplicate := false;
        if m.writeId != "" {
          duplicate := m.writeId in seen;
          seen := seen + {m.writeId};
          if !duplicate {
            duplicate := m.writeId in appliedWriteIds;
            appliedWriteIds := appliedWriteIds + {m.writeId};
          }
        }
        if duplicate {
          assert turn == Duplicate && State() == before;
          drift, skipped := true, true;
          continue;
        }
        var target := if m.collection == "" then fallback else m.collection;
        var stored := ApplyRemoteMutation(target, VersionOf(config.node, m));
        if stored.Failure? {
          return Failure(stored.error);
        }
        assert turn == Applied(State());
        applied := applied + 1;
      }
      assert ordered[|ordered|..] == [];
      ReplayNothing(config.node, fallback, State());
      if drift {
        driftDetections := driftDetections + 1;
      }
      r := Success(applied);
    }

    /** `create_snapshot`: every document of the collection, tombstones included. */
    method CreateSnapshot(collection: string, tenantId: string, snapshotId: string, baseSeq: nat)
      returns (snapshot: Snapshots.Snapshot, ghost ids: seq<Bson>)
      ensures Snapshots.IsScan(storage, collection, ids, snapshot.docs)
      ensures snapshot == Snapshots.Snapshot(snapshotId, tenantId, collection, baseSeq, snapshot.docs)
    {
      var docs;
      docs, ids := Scan(collection);
      snapshot := Snapshots.Snapshot(snapshotId, tenantId, collection, baseSeq, docs);
    }

    /** `restore_from_snapshot`: empty the collection, load the snapshot, replay. */
    method RestoreFromSnapshot(collection: string, snapshot: Snapshots.Snapshot, replay: seq<Mutation>)
      returns (r: Result<nat, EngineError>, ghost ids: seq<Bson>, ghost existing: seq<Document>)
      modifies this`storage, this`appliedWriteIds, this`driftDetections
      ensures snapshot.namespace != collection ==>
                r == Failure(Conflict) && State() == old(State()) && driftDetections == old(driftDetections)
      ensures snapshot.namespace == collection ==>
                && Snapshots.IsScan(old(storage), collection, ids, existing)
                && var start := old(State()).(
                     storage := Snapshots.Restored(old(storage), collection, existing, snapshot.docs));
                   var out := Batch(config.node, collection, start, replay);
                   State() == out.state && r == out.result
                   && driftDetections == old(driftDetections) + (if r.Success? && Drift(replay, out) then 1 else 0)
    {
      hide Batch, Drift;
      if snapshot.namespace != collection {
        return Failure(Conflict), [], [];
      }
      var found;
      found, ids := Scan(collection);
      existing := found;
      for i := 0 to |found|
        invariant storage == Snapshots.Cleared(old(storage), collection, found[..i])
        invariant appliedWriteIds == old(appliedWriteIds) && driftDetections == old(driftDetections)
      {
        assert found[..i + 1][..i] == found[..i];
        if ID in found[i] {
          storage := storage - {(collection, found[i][ID])};
        }
      }
      assert found[..|found|] == found;
      var docs := snapshot.docs;
      ghost var cleared := storage;
      for i := 0 to |docs|
        invariant storage == Snapshots.Loaded(cleared, collection, docs[..i])
        invariant appliedWriteIds == old(appliedWriteIds) && driftDetections == old(driftDetections)
      {
        assert docs[..i + 1][..i] == docs[..i];
        if ID in docs[i] {
          storage := storage[(collection, docs[i][ID]) := docs[i]];
        }
      }
      assert docs[..|docs|] == docs;
      r := ApplyMutationsDeterministic(collection, replay);
    }

    /** `rollback_to_snapshot`: a refused rollback changes nothing, an accepted one replays up to its target. */
    method RollbackToSnapshot(
      collection: string, snapshot: Snapshots.Snapshot, rollback: Snapshots.Rollback, window: seq<Mutation>)
      returns (r: Result<nat, EngineError>, ghost ids: seq<Bson>, ghost existing: seq<Document>)
      modifies this`storage, this`appliedWriteIds, this`driftDetections
      ensures rollback.snapshotId != snapshot.snapshotId || rollback.targetSeq < snapshot.baseSeq
              || snapshot.namespace != collection ==>
                r == Failure(Conflict) && State() == old(State()) && driftDetections == old(driftDetections)
      ensures rollback.snapshotId == snapshot.snapshotId && rollback.targetSeq >= snapshot.baseSeq
              && snapshot.namespace == collection ==>
                && Snapshots.IsScan(old(storage), collection, ids, existing)
                && var start := old(State()).(
                     storage := Snapshots.Restored(old(storage), collection, existing, snapshot.docs));
                   var out := Snapshots.RolledBack(config.node, collection, start, window, rollback.targetSeq);
                   var replay := Snapshots.Bounded(window, rollback.targetSeq);
                   State() == out.state && r == out.result
                   && driftDetections == old(driftDetections) + (if r.Success? && Drift(replay, out) then 1 else 0)
    {
      hide Batch, Drift;
      if rollback.snapshotId != snapshot.snapshotId
         || rollback.targetSeq < snapshot.baseSeq
         || snapshot.namespace != collection
      {
        return Failure(Conflict), [], [];
      }
      var bounded := Snapshots.Bounded(window, rollback.targetSeq);
      r, ids, existing := RestoreFromSnapshot(collection, snapshot, bounded);
    }

    /** `resolve_conflict`: a version out of the conflict list becomes current. */
    method ResolveConflict(collection: string, id: Bson, chosenRev: string) returns (r: Result<(), EngineError>)
      modifies this`storage
      ensures var key := (collection, id);
              if key !in old(storage) then r == Failure(DocumentNotFound) && storage == old(storage)
              else
                var doc := old(storage)[key];
                var (chosen, kept) := Resolution.Resolve(ConflictList(doc), chosenRev);
                if chosen.None? then r == Failure(Conflict) && storage == old(storage)
                else r == Success(()) && storage == old(storage)[key := Resolution.Resolved(chosen.value, kept)]
    {
      hide Resolution.HasRevision;
      var key := (collection, id);
      if key !in storage {
        return Failure(DocumentNotFound);
      }
      var doc := storage[key];
      if CONFLICTS !in doc || !doc[CONFLICTS].Array? {
        return Failure(Conflict);
      }
      var items := doc[CONFLICTS].items;
      var kept, chosen := [], None;
      for i := 0 to |items|
        invariant (chosen, kept) == Resolution.Resolve(items[..i], chosenRev)
      {
        assert items[..i + 1][..i] == items[..i];
        if items[i].Document? {
          if Resolution.HasRevision(items[i].fields, chosenRev) {
            chosen := Some(items[i].fields);
          } else {
            kept := kept + [items[i]];
          }
        }
      }
      assert items[..|items|] == items;
      if chosen.None? {
        return Failure(Conflict);
      }
      Store(key, Resolution.Resolved(chosen.value, kept));
      r := Success(());
    }
  }

  /** The keys named by the tombstones among the first `n` documents of a scan. */
  ghost function NamedBy(c: string, docs: seq<Document>, n: nat): set<Key>
    requires n <= |docs|
  {
    set k | 0 <= k < n && IsDeleted(docs[k]) && ID in docs[k] :: (c, docs[k][ID])
  }

  /** The keys those tombstones are stored under. */
  ghost function DeadKeys(c: string, ids: seq<Bson>, docs: seq<Document>, n: nat): set<Key>
    requires n <= |docs| == |ids|
  {
    set k | 0 <= k < n && IsDeleted(docs[k]) && ID in docs[k] :: (c, ids[k])
  }

  /** The keys of a collection's tombstones that carry an id. */
  ghost function Tombstones(storage: Storage, c: string): set<Key> {
    set key | key in storage && key.0 == c && IsDeleted(storage[key]) && ID in storage[key]
  }

  lemma DeadStart(storage: Storage, c: string, ids: seq<Bson>, docs: seq<Document>)
    requires |docs| == |ids|
    ensures storage - NamedBy(c, docs, 0) == storage && DeadKeys(c, ids, docs, 0) == {}
  {
    assert NamedBy(c, docs, 0) == {};
  }

  lemma RemoveOneMore(storage: Storage, keys: set<Key>, key: Key)
    ensures storage - keys - {key} == storage - (keys + {key})
  {}

  lemma DistinctIds(storage: Storage, c: string, ids: seq<Bson>, docs: seq<Document>)
    requires Snapshots.IsScan(storage, c, ids, docs)
    ensures |ids| == |docs| && forall i, j | 0 <= i < j < |ids| :: ids[i] != ids[j]
  {}

  lemma DeadStep(c: string, ids: seq<Bson>, docs: seq<Document>, n: nat)
    requires n < |docs| == |ids| && forall i, j | 0 <= i < j < |ids| :: ids[i] != ids[j]
    ensures var dead := IsDeleted(docs[n]) && ID in docs[n];
            && NamedBy(c, docs, n + 1) == NamedBy(c, docs, n) + (if dead then {(c, docs[n][ID])} else {})
            && |DeadKeys(c, ids, docs, n + 1)| == |DeadKeys(c, ids, docs, n)| + (if dead then 1 else 0)
  {
    hide IsDeleted;
    var before, after := DeadKeys(c, ids, docs, n), DeadKeys(c, ids, docs, n + 1);
    if IsDeleted(docs[n]) && ID in docs[n] {
      assert after == before + {(c, ids[n])};
      assert (c, ids[n]) !in before;
    } else {
      assert after == before;
    }
  }

  /** The tombstones of a scan name exactly the keys garbage collection deletes, and are as many as the store's. */
  lemma GarbageListed(storage: Storage, c: string, ids: seq<Bson>, docs: seq<Document>)
    requires Snapshots.IsScan(storage, c, ids, docs)
    ensures NamedBy(c, docs, |docs|) == LocalWrites.GarbageKeys(storage, c)
    ensures DeadKeys(c, ids, docs, |docs|) == Tombstones(storage, c)
  {
    hide IsDeleted;
    forall key | key in storage && key.0 == c
      ensures exists k :: 0 <= k < |docs| && (c, ids[k]) == key && docs[k] == storage[key]
    {
      var k :| 0 <= k < |ids| && ids[k] == key.1;
      assert Lookup(storage, (c, ids[k])) == Some(docs[k]);
    }
    forall k | 0 <= k < |docs| ensures (c, ids[k]) in storage && storage[(c, ids[k])] == docs[k] {
      assert Lookup(storage, (c, ids[k])) == Some(docs[k]);
    }
    forall key | key in NamedBy(c, docs, |docs|) ensures key in LocalWrites.GarbageKeys(storage, c) {
      var k :| 0 <= k < |docs| && IsDeleted(docs[k]) && ID in docs[k] && (c, docs[k][ID]) == key;
      assert (c, ids[k]) in storage;
    }
  }
}
