/**
 Recovering local state from the local log: what a fresh engine shows after replaying
 everything another engine logged, in the canonical order.
 */
module LocalLog {
  import opened Wrappers
  import opened Orders
  import opened StableSort
  import opened Documents
  import opened Merge
  import opened Batches
  import opened Effects
  import opened LocalWrites
  import Revisions
  import Sequences

  /** What a reader sees under a key: nothing for a tombstone, otherwise the content without its conflicts. */
  function ViewOf(d: Option<Document>): Option<Document> {
    if d.None? || IsDeleted(d.value) then None else Some(Bare(d.value))
  }

  function View(storage: Storage, key: Key): Option<Document> {
    ViewOf(Lookup(storage, key))
  }

  /** So a reader sees every field of a live document but its conflicts, and nothing of a tombstone. */
  lemma ViewFields(storage: Storage, key: Key, field: string)
    ensures var seen := View(storage, key);
            && (seen.Some? <==>
                  key in storage && !("_deleted" in storage[key] && storage[key]["_deleted"] == Boolean(true)))
            && (seen.Some? ==>
                  && (field in seen.value <==> field in storage[key] && field != "_conflicts")
                  && (field in seen.value ==> seen.value[field] == storage[key][field]))
  {}

  function LastOf(vs: seq<Document>): Option<Document> {
    if vs == [] then None else Some(vs[|vs| - 1])
  }

  const EMPTY: EngineState := EngineState(map[], {})

  /* ---------- what the log says about the local store ---------- */

  /** The metadata of the write's mutation will be accepted, so that storing is also logging. */
  predicate Loggable(cfg: Config, op: LocalOp) {
    match op
    case Insert(c, doc, stamp) =>
      c != "" && cfg.node != "" && cfg.idText(if ID in doc then doc[ID] else stamp.freshId) != ""
      && stamp.created <= stamp.updated
    case Update(c, id, _, stamp) =>
      c != "" && cfg.node != "" && cfg.idText(id) != "" && stamp.created <= stamp.updated
    case Delete(c, id, stamp) =>
      c != "" && cfg.node != "" && cfg.idText(id) != "" && stamp.created <= stamp.updated
    case Gc(_) => true
  }

  /** A logged mutation names its collection and its document, and both carry its revision. */
  ghost predicate FromWrite(m: Mutation) {
    && ValidMetadata(m.metadata)
    && m.collection != ""
    && (m.patch.Some? ==> ID in m.patch.value && m.patch.value[ID] == m.docId.value
                          && REV in m.patch.value && m.patch.value[REV] == String(m.rev))
  }

  lemma FromWriteApplies(node: string, fallback: string, m: Mutation)
    requires FromWrite(m)
    ensures KeyOf(node, fallback, m) == Some((m.collection, m.docId.value))
    ensures REV in VersionOf(node, m) && VersionOf(node, m)[REV] == String(m.rev)
    ensures m.patch.None? ==> IsDeleted(VersionOf(node, m))
  {}

  /** Every key shows what the last logged version for it shows. */
  ghost predicate Mirrors(node: string, fallback: string, s: LocalState) {
    forall key :: View(s.storage, key) == ViewOf(LastOf(VersionsFor(node, fallback, key, s.log)))
  }

  lemma {:induction false} VersionsAppend(node: string, fallback: string, key: Key, xs: seq<Mutation>, m: Mutation)
    ensures VersionsFor(node, fallback, key, xs + [m]) ==
            VersionsFor(node, fallback, key, xs) +
            if KeyOf(node, fallback, m) == Some(key) then [VersionOf(node, m)] else []
  {
    if xs == [] {
      assert xs + [m] == [m] && [m][1..] == [];
    } else {
      assert (xs + [m])[1..] == xs[1..] + [m];
      VersionsAppend(node, fallback, key, xs[1..], m);
    }
  }

  /** Storing a document and logging a mutation that shows the same keeps the mirror. */
  lemma CommitMirrors(node: string, fallback: string, s: LocalState, doc: Document, m: Mutation)
    requires Mirrors(node, fallback, s) && FromWrite(m)
    requires ViewOf(Some(doc)) == ViewOf(Some(VersionOf(node, m)))
    ensures Mirrors(node, fallback, LocalState(s.storage[(m.collection, m.docId.value) := doc], s.log + [m]))
  {
    hide VersionOf, ValidMetadata, ViewOf, KeyOf;
    FromWriteApplies(node, fallback, m);
    var after := LocalState(s.storage[(m.collection, m.docId.value) := doc], s.log + [m]);
    forall key
      ensures View(after.storage, key) == ViewOf(LastOf(VersionsFor(node, fallback, key, after.log)))
    {
      VersionsAppend(node, fallback, key, s.log, m);
      assert View(s.storage, key) == ViewOf(LastOf(VersionsFor(node, fallback, key, s.log)));
    }
  }

  lemma GcMirrors(node: string, fallback: string, s: LocalState, c: string)
    requires Mirrors(node, fallback, s) && AllWellKeyed(s.storage)
    ensures Mirrors(node, fallback, CollectGarbage(s, c))
  {
    hide VersionsFor, GarbageKeys;
    GcRemovesTombstones(s.storage, c);
    forall key
      ensures View(CollectGarbage(s, c).storage, key) == ViewOf(LastOf(VersionsFor(node, fallback, key, s.log)))
    {
      assert View(s.storage, key) == ViewOf(LastOf(VersionsFor(node, fallback, key, s.log)));
    }
  }

  ghost predicate LogFromWrites(log: seq<Mutation>) {
    forall m | m in log :: FromWrite(m)
  }

  lemma StepMirrors(node: string, fallback: string, cfg: Config, s: LocalState, op: LocalOp)
    requires AllWellKeyed(s.storage) && KeepsIds(op) && Loggable(cfg, op)
    requires Mirrors(node, fallback, s) && LogFromWrites(s.log)
    ensures Mirrors(node, fallback, Step(cfg, s, op)) && LogFromWrites(Step(cfg, s, op).log)
  {
    hide Mirrors, AllWellKeyed;
    match op
    case Insert(c, doc, stamp) =>
      InsertMirrors(node, fallback, cfg, s, c, doc, stamp);
    case Update(c, id, update, stamp) =>
      UpdateMirrors(node, fallback, cfg, s, c, id, update, stamp);
    case Delete(c, id, stamp) =>
      DeleteMirrors(node, fallback, cfg, s, c, id, stamp);
    case Gc(c) =>
      GcMirrors(node, fallback, s, c);
  }

  /** Every operation, refused or not, logs only mutations that name their document. */
  lemma StepLogsWrites(cfg: Config, s: LocalState, op: LocalOp)
    requires AllWellKeyed(s.storage) && KeepsIds(op) && LogFromWrites(s.log)
    ensures LogFromWrites(Step(cfg, s, op).log)
  {
    hide ApplyUpdate, IsDeleted, Touches;
    if op.Update? && (op.collection, op.id) in s.storage {
      var doc := s.storage[(op.collection, op.id)];
      if !IsDeleted(doc) && ApplyUpdate(doc, op.update).Success? {
        UntouchedStays(doc, op.update, ID);
      }
    }
  }

  lemma InsertMirrors(node: string, fallback: string, cfg: Config, s: LocalState, c: string, doc: Document, stamp: Stamp)
    requires Loggable(cfg, LocalOp.Insert(c, doc, stamp))
    requires Mirrors(node, fallback, s) && LogFromWrites(s.log)
    ensures var after := InsertOne(cfg, s, c, doc, stamp).0;
            Mirrors(node, fallback, after) && LogFromWrites(after.log)
  {
    hide Mirrors;
    var id := if ID in doc then doc[ID] else stamp.freshId;
    var full := Stamped(cfg, doc[ID := id], stamp) - {DELETED};
    var m := LoggedMutation(cfg, MutationOp.Insert, c, id, Some(full), stamp);
    assert FromWrite(m);
    CommitMirrors(node, fallback, s, full, m);
  }

  lemma UpdateMirrors(
    node: string, fallback: string, cfg: Config, s: LocalState, c: string, id: Bson,
    update: seq<(string, Bson)>, stamp: Stamp)
    requires AllWellKeyed(s.storage) && !Touches(update, ID) && Loggable(cfg, LocalOp.Update(c, id, update, stamp))
    requires Mirrors(node, fallback, s) && LogFromWrites(s.log)
    ensures var after := UpdateOne(cfg, s, c, id, update, stamp).0;
            Mirrors(node, fallback, after) && LogFromWrites(after.log)
  {
    hide Mirrors, ApplyUpdate, IsDeleted, Touches;
    if (c, id) in s.storage {
      var doc := s.storage[(c, id)];
      if !IsDeleted(doc) && ApplyUpdate(doc, update).Success? {
        UntouchedStays(doc, update, ID);
        var full := Stamped(cfg, ApplyUpdate(doc, update).value, stamp);
        var m := LoggedMutation(cfg, MutationOp.Update, c, id, Some(full), stamp);
        assert FromWrite(m);
        CommitMirrors(node, fallback, s, full, m);
      }
    }
  }

  lemma DeleteMirrors(node: string, fallback: string, cfg: Config, s: LocalState, c: string, id: Bson, stamp: Stamp)
    requires Loggable(cfg, LocalOp.Delete(c, id, stamp))
    requires Mirrors(node, fallback, s) && LogFromWrites(s.log)
    ensures var after := DeleteOne(cfg, s, c, id, stamp).0;
            Mirrors(node, fallback, after) && LogFromWrites(after.log)
  {
    hide Mirrors;
    if (c, id) in s.storage {
      var full := Stamped(cfg, s.storage[(c, id)][DELETED := Boolean(true)], stamp);
      var m := LoggedMutation(cfg, MutationOp.Delete, c, id, None, stamp);
      assert FromWrite(m);
      FromWriteApplies(node, fallback, m);
      CommitMirrors(node, fallback, s, full, m);
    }
  }

  /** What the write would store, if it gets that far: its key and its document. */
  function Intended(cfg: Config, s: LocalState, op: LocalOp): Option<(Key, Document)> {
    match op
    case Insert(c, doc, stamp) =>
      var id := if ID in doc then doc[ID] else stamp.freshId;
      var full := Stamped(cfg, doc[ID := id], stamp) - {DELETED};
      if cfg.fits(doc) && cfg.fits(full) then Some(((c, id), full)) else None
    case Update(c, id, update, stamp) =>
      if View(s.storage, (c, id)).None? || ApplyUpdate(s.storage[(c, id)], update).Failure? then None
      else
        var full := Stamped(cfg, ApplyUpdate(s.storage[(c, id)], update).value, stamp);
        if cfg.fits(full) then Some(((c, id), full)) else None
    case Delete(c, id, stamp) =>
      if (c, id) in s.storage
      then Some(((c, id), Stamped(cfg, s.storage[(c, id)][DELETED := Boolean(true)], stamp)))
      else None
    case Gc(_) => None
  }

  /** The write is stopped before it is stored, or what it stores is what its key already shows. */
  predicate ShowsNothing(cfg: Config, s: LocalState, op: LocalOp) {
    var write := Intended(cfg, s, op);
    write.None? || ViewOf(Some(write.value.1)) == View(s.storage, write.value.0)
  }

  /**
   A write whose metadata is refused is not logged, yet it errs only after it has been stored:
   exactly what was intended is, and nothing when it was stopped before.
   */
  lemma RefusedIsStored(cfg: Config, s: LocalState, op: LocalOp)
    requires !Loggable(cfg, op)
    ensures var after, write := Step(cfg, s, op), Intended(cfg, s, op);
            && after.log == s.log
            && after.storage == if write.None? then s.storage else s.storage[write.value.0 := write.value.1]
    ensures op.Insert? ==> (InsertOne(cfg, s, op.collection, op.doc, op.stamp).1 == Failure(InvalidMetadata)
                            <==> Intended(cfg, s, op).Some?)
    ensures op.Update? ==> (UpdateOne(cfg, s, op.collection, op.id, op.update, op.stamp).1 == Failure(InvalidMetadata)
                            <==> Intended(cfg, s, op).Some?)
    ensures op.Delete? ==> (DeleteOne(cfg, s, op.collection, op.id, op.stamp).1 == Failure(InvalidMetadata)
                            <==> Intended(cfg, s, op).Some?)
  {
    hide ApplyUpdate, IsDeleted;
    if op.Update? && (op.collection, op.id) in s.storage {
      UpdateErrs(s.storage[(op.collection, op.id)], op.update);
    }
  }

  lemma {:induction false} UpdateErrs(doc: Document, update: seq<(string, Bson)>)
    ensures ApplyUpdate(doc, update).Failure? ==> ApplyUpdate(doc, update).error == InvalidOperator
    decreases update
  {
    hide Increment;
    if update != [] {
      var fields := if update[0].1.Document? then update[0].1.fields else map[];
      UpdateErrs(doc + fields, update[1..]);
      UpdateErrs(doc - fields.Keys, update[1..]);
      UpdateErrs(Increment(doc, fields), update[1..]);
    }
  }

  /** So the mirror survives an operation exactly when it is logged or its write shows nothing. */
  lemma StepMirrorsIff(node: string, fallback: string, cfg: Config, s: LocalState, op: LocalOp)
    requires AllWellKeyed(s.storage) && KeepsIds(op)
    requires Mirrors(node, fallback, s) && LogFromWrites(s.log)
    ensures LogFromWrites(Step(cfg, s, op).log)
    ensures Mirrors(node, fallback, Step(cfg, s, op)) <==> Loggable(cfg, op) || ShowsNothing(cfg, s, op)
  {
    hide Step, Loggable, KeepsIds, FromWrite, ViewOf, VersionsFor, Intended;
    if Loggable(cfg, op) {
      StepMirrors(node, fallback, cfg, s, op);
    } else {
      RefusedIsStored(cfg, s, op);
      var after, write := Step(cfg, s, op), Intended(cfg, s, op);
      forall key | write.None? || key != write.value.0
        ensures View(after.storage, key) == ViewOf(LastOf(VersionsFor(node, fallback, key, after.log)))
      {
        assert View(s.storage, key) == ViewOf(LastOf(VersionsFor(node, fallback, key, s.log)));
      }
      if write.Some? {
        var key := write.value.0;
        assert View(after.storage, key) == ViewOf(Some(write.value.1));
        assert View(s.storage, key) == ViewOf(LastOf(VersionsFor(node, fallback, key, s.log)));
      }
    }
  }

  /** No update touches an id, and every write is logged or shows nothing. */
  ghost predicate Traced(cfg: Config, ops: seq<LocalOp>) {
    forall k | 0 <= k < |ops| ::
      KeepsIds(ops[k]) && (Loggable(cfg, ops[k]) || ShowsNothing(cfg, Run(cfg, ops[..k]), ops[k]))
  }

  /** In every such run the local store shows exactly what the log's last version of each key shows. */
  lemma {:induction false} RunMirrors(node: string, fallback: string, cfg: Config, ops: seq<LocalOp>)
    requires Traced(cfg, ops)
    ensures var s := Run(cfg, ops);
            AllWellKeyed(s.storage) && Mirrors(node, fallback, s) && LogFromWrites(s.log)
  {
    hide Step, Loggable, KeepsIds, FromWrite, ShowsNothing;
    if ops != [] {
      var k := |ops| - 1;
      var init := ops[..k];
      forall i | 0 <= i < k
        ensures KeepsIds(init[i]) && (Loggable(cfg, init[i]) || ShowsNothing(cfg, Run(cfg, init[..i]), init[i]))
      {
        assert init[..i] == ops[..i] && init[i] == ops[i];
      }
      RunMirrors(node, fallback, cfg, init);
      StepKeepsKeys(cfg, Run(cfg, init), ops[k]);
      StepMirrorsIff(node, fallback, cfg, Run(cfg, init), ops[k]);
    }
  }

  /** And the store is a mirror of the log all along a run that touches no id exactly when the run is of that kind. */
  lemma {:induction false} TracedIff(node: string, fallback: string, cfg: Config, ops: seq<LocalOp>)
    requires forall op | op in ops :: KeepsIds(op)
    ensures (forall k | 0 <= k <= |ops| :: Mirrors(node, fallback, Run(cfg, ops[..k]))) <==> Traced(cfg, ops)
  {
    hide Run, Mirrors, Loggable, KeepsIds, ShowsNothing;
    if Traced(cfg, ops) {
      forall k | 0 <= k <= |ops| ensures Mirrors(node, fallback, Run(cfg, ops[..k])) {
        TracedPrefix(cfg, ops, k);
        RunMirrors(node, fallback, cfg, ops[..k]);
      }
    } else {
      assert ops[..|ops|] == ops;
      FirstUntraced(node, fallback, cfg, ops, |ops|);
    }
  }

  lemma TracedPrefix(cfg: Config, ops: seq<LocalOp>, k: nat)
    requires Traced(cfg, ops) && k <= |ops|
    ensures Traced(cfg, ops[..k])
  {
    hide Run, Loggable, KeepsIds, ShowsNothing;
    forall i | 0 <= i < k ensures ops[..k][..i] == ops[..i] && ops[..k][i] == ops[i] {}
  }

  /** The first write that is neither logged nor without effect breaks the mirror. */
  lemma {:induction false} FirstUntraced(node: string, fallback: string, cfg: Config, ops: seq<LocalOp>, n: nat)
    requires n <= |ops| && !Traced(cfg, ops[..n]) && forall op | op in ops :: KeepsIds(op)
    ensures exists k | 0 <= k <= |ops| :: !Mirrors(node, fallback, Run(cfg, ops[..k]))
    decreases n
  {
    hide Mirrors, Loggable, KeepsIds, ShowsNothing, Step, FromWrite;
    assert n > 0;
    var init := ops[..n - 1];
    if !Traced(cfg, init) {
      FirstUntraced(node, fallback, cfg, ops, n - 1);
    } else {
      assert ops[..n][..n - 1] == init && ops[..n][n - 1] == ops[n - 1];
      forall i | 0 <= i < n - 1 ensures ops[..n][..i] == init[..i] && ops[..n][i] == init[i] {}
      assert ops[n - 1] in ops;
      RunMirrors(node, fallback, cfg, init);
      StepMirrorsIff(node, fallback, cfg, Run(cfg, init), ops[n - 1]);
      assert Run(cfg, ops[..n]) == Step(cfg, Run(cfg, init), ops[n - 1]);
    }
  }

  /* ---------- one key's versions, logged and replayed ---------- */

  /** Revisions strictly increase along the log. */
  ghost predicate AscendingRevisions(log: seq<Mutation>) {
    && (forall m | m in log :: Revisions.Valid(m.rev))
    && (forall i, j | 0 <= i < j < |log| :: Revisions.Compare(log[i].rev, log[j].rev) == Less)
  }

  ghost predicate AscendingTimestamps(log: seq<Mutation>) {
    forall i, j | 0 <= i < j < |log| :: log[i].timestamp < log[j].timestamp
  }

  ghost predicate Ascending(vs: seq<Document>) {
    forall i, j | 0 <= i < j < |vs| :: CompareRevisions(vs[i], vs[j]) == Less
  }

  lemma {:induction false} VersionsAscend(node: string, fallback: string, key: Key, log: seq<Mutation>)
    requires LogFromWrites(log) && AscendingRevisions(log)
    ensures Ascending(VersionsFor(node, fallback, key, log))
    ensures forall v | v in VersionsFor(node, fallback, key, log) ::
              exists m | m in log :: v == VersionOf(node, m)
  {
    hide Revisions.Valid, Revisions.Compare, FromWrite, KeyOf, VersionOf, CompareRevisions;
    if log != [] {
      var init, m := log[..|log| - 1], log[|log| - 1];
      assert log == init + [m];
      VersionsAscend(node, fallback, key, init);
      VersionsAppend(node, fallback, key, init, m);
      var vs := VersionsFor(node, fallback, key, init);
      forall i | 0 <= i < |vs| ensures CompareRevisions(vs[i], VersionOf(node, m)) == Less {
        assert vs[i] in vs;
        var e :| e in init && vs[i] == VersionOf(node, e);
        var k :| 0 <= k < |init| && init[k] == e;
        assert Revisions.Compare(log[k].rev, log[|log| - 1].rev) == Less;
        LoggedBelow(node, e, m);
      }
    }
  }

  lemma LoggedBelow(node: string, a: Mutation, b: Mutation)
    requires FromWrite(a) && FromWrite(b) && Revisions.Valid(a.rev) && Revisions.Valid(b.rev)
    requires Revisions.Compare(a.rev, b.rev) == Less
    ensures CompareRevisions(VersionOf(node, a), VersionOf(node, b)) == Less
  {
    hide Revisions.Valid, Revisions.Parse, FromWrite;
    LoggedReading(node, a);
    LoggedReading(node, b);
  }

  lemma LoggedReading(node: string, m: Mutation)
    requires FromWrite(m) && Revisions.Valid(m.rev)
    ensures ReadingOf(VersionOf(node, m)) == Revisions.Parse(m.rev)
  {
    hide Revisions.Valid, Revisions.Parse;
    FromWriteApplies(node, "", m);
  }

  lemma AscendingFacts(vs: seq<Document>)
    requires Ascending(vs) && vs != []
    ensures DistinctReadings(vs) && IsMaximum(vs[|vs| - 1], vs)
  {
    hide ReadingOf;
    forall i, j | 0 <= i < j < |vs| ensures ReadingOf(vs[i]) != ReadingOf(vs[j]) {
      assert CompareRevisions(vs[i], vs[j]) == Less;
      Revisions.CompareReadingTotalOrder(ReadingOf(vs[i]), ReadingOf(vs[i]), ReadingOf(vs[i]));
    }
    var m := vs[|vs| - 1];
    forall v | v in vs ensures CompareRevisions(v, m) != Greater {
      var i :| 0 <= i < |vs| && vs[i] == v;
      Revisions.CompareReadingTotalOrder(ReadingOf(m), ReadingOf(m), ReadingOf(m));
    }
  }

  /**
   Replayed in any order, a key shows its last logged version exactly when that version is
   live or every live version is followed by one of greater revision.
   */
  lemma ReplayedKeyAgreesIff(vs: seq<Document>, ws: seq<Document>)
    requires Ascending(vs) && multiset(vs) == multiset(ws)
    ensures ViewOf(MergeAll(None, ws)) == ViewOf(LastOf(vs)) <==>
            (vs != [] && IsDeleted(vs[|vs| - 1]) ==> LiveAreOutlived(ws))
  {
    hide ReadingOf, IsDeleted, CompareRevisions, LiveAreOutlived, Ascending;
    Sequences.SameSize(vs, ws);
    if vs != [] {
      var m := vs[|vs| - 1];
      AscendingFacts(vs);
      PermutationKeeps(vs, ws);
      if IsDeleted(m) {
        EndsDeadIff(ws);
      } else {
        DistinctUnrivalled(m, ws);
        LiveMaximumStays(m, ws);
        BareKeeps(MergeAll(None, ws).value, m);
      }
    }
  }

  /** In log order each live version but the last is followed by the last. */
  lemma LogOrderOutlives(vs: seq<Document>)
    requires Ascending(vs) && vs != [] && IsDeleted(vs[|vs| - 1])
    ensures LiveAreOutlived(vs)
  {
    hide IsDeleted, CompareRevisions;
    forall i | 0 <= i < |vs| && !IsDeleted(vs[i]) ensures Outlived(vs, i) {
      assert CompareRevisions(vs[i], vs[|vs| - 1]) == Less;
    }
  }

  lemma {:induction false} VersionsPermute(node: string, fallback: string, key: Key, xs: seq<Mutation>, ys: seq<Mutation>)
    requires multiset(xs) == multiset(ys)
    ensures multiset(VersionsFor(node, fallback, key, xs)) == multiset(VersionsFor(node, fallback, key, ys))
  {
    hide VersionOf, KeyOf;
    Sequences.SameSize(xs, ys);
    if xs != [] {
      var i := Sequences.FindLast(xs, ys);
      var init, m := xs[..|xs| - 1], xs[|xs| - 1];
      Sequences.SplitLast(xs);
      Sequences.SplitAt(ys, i);
      VersionsPermute(node, fallback, key, init, ys[..i] + ys[i + 1..]);
      VersionsAppend(node, fallback, key, init, m);
      VersionsInsert(node, fallback, key, ys[..i], m, ys[i + 1..]);
    }
  }

  lemma {:induction false} VersionsInsert(
    node: string, fallback: string, key: Key, xs: seq<Mutation>, m: Mutation, ys: seq<Mutation>)
    ensures multiset(VersionsFor(node, fallback, key, xs + ([m] + ys))) ==
            multiset(VersionsFor(node, fallback, key, xs + ys)) +
            if KeyOf(node, fallback, m) == Some(key) then multiset{VersionOf(node, m)} else multiset{}
  {
    hide VersionOf, KeyOf;
    if xs == [] {
      assert xs + ([m] + ys) == [m] + ys && xs + ys == ys && ([m] + ys)[1..] == ys;
    } else {
      assert (xs + ([m] + ys))[1..] == xs[1..] + ([m] + ys) && (xs + ys)[1..] == xs[1..] + ys;
      VersionsInsert(node, fallback, key, xs[1..], m, ys);
    }
  }

  /** With strictly increasing timestamps the canonical order keeps each key's versions in log order. */
  lemma CanonicalKeepsKeyOrder(node: string, fallback: string, key: Key, log: seq<Mutation>)
    requires LogFromWrites(log) && AscendingTimestamps(log)
    ensures VersionsFor(node, fallback, key, Sort(CompareMutations, log)) == VersionsFor(node, fallback, key, log)
  {
    hide VersionOf, KeyOf, FromWrite, CompareString;
    var mine := (m: Mutation) => KeyOf(node, fallback, m) == Some(key);
    MutationsPreorder(Elements(log));
    FilterSort(CompareMutations, mine, log, Elements(log));
    VersionsFilter(node, fallback, key, log, mine);
    VersionsFilter(node, fallback, key, Sort(CompareMutations, log), mine);
    FilterAscends(log, mine);
    FilterElements(mine, log);
    var fs := Filter(mine, log);
    forall i, j | 0 <= i < j < |fs| ensures CompareMutations(fs[i], fs[j]) != Greater {
      assert fs[i] in fs && fs[j] in fs;
      FromWriteApplies(node, fallback, fs[i]);
      FromWriteApplies(node, fallback, fs[j]);
      CompareStringTotalOrder(fs[i].collection, fs[j].collection, key.0);
    }
    SortOfSorted(CompareMutations, fs);
  }

  lemma {:induction false} VersionsFilter(
    node: string, fallback: string, key: Key, ms: seq<Mutation>, mine: Mutation -> bool)
    requires forall m :: mine(m) <==> KeyOf(node, fallback, m) == Some(key)
    ensures VersionsFor(node, fallback, key, Filter(mine, ms)) == VersionsFor(node, fallback, key, ms)
  {
    hide VersionOf, KeyOf;
    if ms != [] {
      VersionsFilter(node, fallback, key, ms[1..], mine);
      if mine(ms[0]) {
        assert ([ms[0]] + Filter(mine, ms[1..]))[1..] == Filter(mine, ms[1..]);
      }
    }
  }

  lemma {:induction false} FilterAscends(log: seq<Mutation>, mine: Mutation -> bool)
    requires AscendingTimestamps(log)
    ensures AscendingTimestamps(Filter(mine, log))
  {
    if log != [] {
      FilterAscends(log[1..], mine);
      FilterElements(mine, log[1..]);
      var fs := Filter(mine, log[1..]);
      forall m | m in fs ensures log[0].timestamp < m.timestamp {
        assert m in log[1..];
      }
    }
  }

  /* ---------- the main results ---------- */

  /** A key last deleted has each of its live versions followed, in canonical order, by one of greater revision. */
  ghost predicate StaysDeleted(node: string, fallback: string, key: Key, log: seq<Mutation>) {
    var vs := VersionsFor(node, fallback, key, log);
    vs != [] && IsDeleted(vs[|vs| - 1]) ==>
      LiveAreOutlived(VersionsFor(node, fallback, key, Sort(CompareMutations, log)))
  }

  /**
   The log of any run that touches no id, refused writes or not, replays completely on a fresh
   engine, whatever its node and default collection. A key then shows what was logged last for
   it exactly when a deletion that the log ends with is not outrun by an older live version;
   that is its local view unless a refused write showed.
   */
  lemma ReplayRebuilds(node: string, fallback: string, cfg: Config, ops: seq<LocalOp>)
    requires forall op | op in ops :: KeepsIds(op)
    requires Fresh(Run(cfg, ops).log, {}) && AscendingRevisions(Run(cfg, ops).log)
    ensures var s := Run(cfg, ops);
            var out := Batch(node, fallback, EMPTY, s.log);
            && out.result == Success(|s.log|)
            && (forall key ::
                  View(out.state.storage, key) == ViewOf(LastOf(VersionsFor(node, fallback, key, s.log))) <==>
                  StaysDeleted(node, fallback, key, s.log))
            && (Traced(cfg, ops) ==>
                  forall key :: View(out.state.storage, key) == View(s.storage, key) <==>
                                StaysDeleted(node, fallback, key, s.log))
  {
    hide Run, Traced, FromWrite, AscendingRevisions, Fresh, CompareMutations, KeyOf, VersionOf,
         ValidMetadata, LiveAreOutlived, IsDeleted, KeepsIds;
    var s := Run(cfg, ops);
    var sorted := Sort(CompareMutations, s.log);
    RunLogsWrites(cfg, ops);
    LogReplays(node, fallback, s.log);
    var out := Batch(node, fallback, EMPTY, s.log);
    forall key
      ensures View(out.state.storage, key) == ViewOf(LastOf(VersionsFor(node, fallback, key, s.log))) <==>
              StaysDeleted(node, fallback, key, s.log)
    {
      SortMultiset(CompareMutations, s.log);
      VersionsPermute(node, fallback, key, sorted, s.log);
      VersionsAscend(node, fallback, key, s.log);
      ReplayedKeyAgreesIff(VersionsFor(node, fallback, key, s.log), VersionsFor(node, fallback, key, sorted));
    }
    if Traced(cfg, ops) {
      RunMirrors(node, fallback, cfg, ops);
    }
  }

  lemma {:induction false} RunLogsWrites(cfg: Config, ops: seq<LocalOp>)
    requires forall op | op in ops :: KeepsIds(op)
    ensures AllWellKeyed(Run(cfg, ops).storage) && LogFromWrites(Run(cfg, ops).log)
  {
    hide Step, KeepsIds, FromWrite;
    if ops != [] {
      var init, last := ops[..|ops| - 1], ops[|ops| - 1];
      assert last in ops;
      RunLogsWrites(cfg, init);
      StepKeepsKeys(cfg, Run(cfg, init), last);
      StepLogsWrites(cfg, Run(cfg, init), last);
    }
  }

  /** A log of writes replays without error and merges, key by key, its versions in canonical order. */
  lemma LogReplays(node: string, fallback: string, log: seq<Mutation>)
    requires LogFromWrites(log) && Fresh(log, {})
    ensures var out := Batch(node, fallback, EMPTY, log);
            && out.result == Success(|log|)
            && forall key :: Lookup(out.state.storage, key) ==
                 MergeAll(None, VersionsFor(node, fallback, key, Sort(CompareMutations, log)))
  {
    hide VersionOf, KeyOf, CompareMutations;
    var sorted := Sort(CompareMutations, log);
    SortElements(CompareMutations, log);
    SortMultiset(CompareMutations, log);
    IdsPermute(sorted, log);
    forall m | m in sorted ensures ValidMetadata(m.metadata) && KeyOf(node, fallback, m).Some? {
      FromWriteApplies(node, fallback, m);
    }
    ReplayMerges(node, fallback, EMPTY, sorted);
  }

  /**
   When timestamps also increase along the log, what the log says is rebuilt for every key, and
   the store exactly when it mirrors the log.
   */
  lemma TimedReplayRebuilds(node: string, fallback: string, cfg: Config, ops: seq<LocalOp>)
    requires forall op | op in ops :: KeepsIds(op)
    requires Fresh(Run(cfg, ops).log, {}) && AscendingRevisions(Run(cfg, ops).log)
    requires AscendingTimestamps(Run(cfg, ops).log)
    ensures var s := Run(cfg, ops);
            var out := Batch(node, fallback, EMPTY, s.log).state.storage;
            && (forall key :: View(out, key) == ViewOf(LastOf(VersionsFor(node, fallback, key, s.log))))
            && ((forall key :: View(out, key) == View(s.storage, key)) <==> Mirrors(node, fallback, s))
            && (Traced(cfg, ops) ==> Mirrors(node, fallback, s))
  {
    hide Run, Traced, Fresh, AscendingRevisions, FromWrite, Batch, CompareMutations, KeyOf, VersionOf,
         KeepsIds, LiveAreOutlived;
    ReplayRebuilds(node, fallback, cfg, ops);
    RunLogsWrites(cfg, ops);
    if Traced(cfg, ops) {
      RunMirrors(node, fallback, cfg, ops);
    }
    var log := Run(cfg, ops).log;
    forall key ensures StaysDeleted(node, fallback, key, log) {
      CanonicalKeepsKeyOrder(node, fallback, key, log);
      VersionsAscend(node, fallback, key, log);
      var vs := VersionsFor(node, fallback, key, log);
      if vs != [] && IsDeleted(vs[|vs| - 1]) {
        LogOrderOutlives(vs);
      }
    }
  }

  lemma InsertThenDelete(cfg: Config, c: string, doc: Document, put: Stamp, del: Stamp)
    requires c != "" && cfg.node != "" && ID in doc && cfg.idText(doc[ID]) != ""
    requires put.created <= put.updated && del.created <= del.updated
    requires cfg.fits(doc) && cfg.fits(Stamped(cfg, doc, put) - {DELETED})
    ensures var full := Stamped(cfg, doc, put) - {DELETED};
            var a := LoggedMutation(cfg, MutationOp.Insert, c, doc[ID], Some(full), put);
            var b := LoggedMutation(cfg, MutationOp.Delete, c, doc[ID], None, del);
            var s := Run(cfg, [LocalOp.Insert(c, doc, put), LocalOp.Delete(c, doc[ID], del)]);
            s.log == [a, b] && View(s.storage, (c, doc[ID])) == None && FromWrite(a) && FromWrite(b)
            && !IsDeleted(full)
  {
    var first := LocalOp.Insert(c, doc, put);
    var second := LocalOp.Delete(c, doc[ID], del);
    assert doc[ID := doc[ID]] == doc;
    assert [first][..0] == [] && [first, second][..1] == [first];
    var s1 := Step(cfg, LocalState(map[], []), first);
    assert Run(cfg, [first]) == Step(cfg, Run(cfg, []), first) == s1;
    assert Run(cfg, [first, second]) == Step(cfg, s1, second);
  }

  lemma TwoIdsFresh(a: Mutation, b: Mutation)
    requires a.writeId != "" ==> a.writeId != b.writeId
    ensures Fresh([a, b], {})
  {
    assert [a, b][1..] == [b] && [b][1..] == [];
    assert Ids([]) == multiset{};
    assert Ids([b]) == if b.writeId == "" then multiset{} else multiset{b.writeId};
    assert Ids([a, b]) == (if a.writeId == "" then multiset{} else multiset{a.writeId}) + Ids([b]);
  }

  lemma TiedOrder(a: Mutation, b: Mutation)
    requires a.collection == b.collection && a.timestamp == b.timestamp && a.seqNo == b.seqNo
    requires a.docId == b.docId && CompareString(a.writeId, b.writeId) == Greater
    ensures Sort(CompareMutations, [a, b]) == [b, a]
  {
    CompareStringTotalOrder(a.collection, a.collection, a.collection);
    CompareStringTotalOrder(a.docId.text, a.docId.text, a.docId.text);
    hide CompareString;
    assert [a, b][1..] == [b] && [b][1..] == [];
    assert Sort(CompareMutations, []) == [];
    assert Sort(CompareMutations, [b]) == [b];
    assert StableSort.Insert(CompareMutations, a, []) == [a];
    assert StableSort.Insert(CompareMutations, a, [b]) == [b] + StableSort.Insert(CompareMutations, a, [b][1..]);
  }

  lemma TwoVersions(node: string, fallback: string, key: Key, a: Mutation, b: Mutation)
    requires KeyOf(node, fallback, a) == KeyOf(node, fallback, b) == Some(key)
    ensures VersionsFor(node, fallback, key, [a, b]) == [VersionOf(node, a), VersionOf(node, b)]
  {
    hide KeyOf, VersionOf;
    assert [a, b][1..] == [b] && [b][1..] == [];
    assert VersionsFor(node, fallback, key, []) == [];
    assert VersionsFor(node, fallback, key, [b]) == [VersionOf(node, b)];
  }

  lemma TiedViews(node: string, fallback: string, a: Mutation, b: Mutation)
    requires FromWrite(a) && FromWrite(b) && a.collection == b.collection && a.docId == b.docId
    requires a.timestamp == b.timestamp && a.seqNo == b.seqNo
    requires Revisions.Valid(a.rev) && Revisions.Valid(b.rev) && Revisions.Compare(a.rev, b.rev) == Less
    requires CompareString(a.writeId, b.writeId) == Greater
    requires !IsDeleted(VersionOf(node, a)) && IsDeleted(VersionOf(node, b))
    ensures View(Batch(node, fallback, EMPTY, [a, b]).state.storage, (a.collection, a.docId.value)) != None
  {
    hide Revisions.Valid, Revisions.Parse, CompareString, VersionOf, FromWrite, IsDeleted;
    var key := (a.collection, a.docId.value);
    CompareStringTotalOrder(a.writeId, b.writeId, b.writeId);
    TwoIdsFresh(a, b);
    LogReplays(node, fallback, [a, b]);
    TiedOrder(a, b);
    FromWriteApplies(node, fallback, a);
    FromWriteApplies(node, fallback, b);
    TwoVersions(node, fallback, key, b, a);
    LoggedReading(node, a);
    LoggedReading(node, b);
    LiveBeatsLost(VersionOf(node, a), VersionOf(node, b));
  }

  lemma LiveBeatsLost(v: Document, t: Document)
    requires CompareRevisions(v, t) == Less && !IsDeleted(v) && IsDeleted(t)
    ensures ViewOf(MergeAll(None, [t, v])) != None
  {
    hide CompareRevisions;
    assert [t, v][..1] == [t] && [t][..0] == [];
    assert MergeAll(None, []) == None;
    assert MergeAll(None, [t]) == Some(t);
    assert MergeAll(None, [t, v]) == Some(MergeVersion(Some(t), v));
  }

  /**
   Timestamps alone are needed: a document inserted and deleted within one clock reading
   comes back to life when the delete's write id sorts first.
   */
  lemma TiedDeleteIsUndone(
    node: string, fallback: string, cfg: Config, c: string, doc: Document, put: Stamp, del: Stamp)
    requires c != "" && cfg.node != "" && ID in doc && cfg.idText(doc[ID]) != ""
    requires put.created <= put.updated && del.created <= del.updated
    requires cfg.fits(doc) && cfg.fits(Stamped(cfg, doc, put) - {DELETED})
    requires Revisions.Valid(put.rev) && Revisions.Valid(del.rev) && Revisions.Compare(put.rev, del.rev) == Less
    requires put.timestamp == del.timestamp && del.writeId != "" && CompareString(del.writeId, put.writeId) == Less
    ensures var key := (c, doc[ID]);
            var s := Run(cfg, [LocalOp.Insert(c, doc, put), LocalOp.Delete(c, doc[ID], del)]);
            && View(s.storage, key) == None
            && View(Batch(node, fallback, EMPTY, s.log).state.storage, key) != None
  {
    hide Revisions.Valid, Revisions.Parse, CompareString, FromWrite, Batch, Run, IsDeleted, View;
    var id := doc[ID];
    var full := Stamped(cfg, doc, put) - {DELETED};
    var a := LoggedMutation(cfg, MutationOp.Insert, c, id, Some(full), put);
    var b := LoggedMutation(cfg, MutationOp.Delete, c, id, None, del);
    InsertThenDelete(cfg, c, doc, put, del);
    CompareStringTotalOrder(del.writeId, put.writeId, put.writeId);
    FromWriteApplies(node, fallback, b);
    TiedViews(node, fallback, a, b);
  }
}
