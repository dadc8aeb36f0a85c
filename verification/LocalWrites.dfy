/**
 Local inserts, updates, deletes and garbage collection. Each write stores a document
 and logs a mutation that carries it; a delete logs a mutation without a patch.
 */
module LocalWrites {
  import opened Wrappers
  import opened Documents
  import opened Batches

  /**
   What an engine is opened with: its node name, the size limit as a test on documents,
   and the printed form of an id value.
   */
  datatype Config = Config(node: string, fits: Document -> bool, idText: Bson -> string)

  /** What a write draws from outside: clock readings, a revision, a write id, an id for a new document. */
  datatype Stamp = Stamp(
    freshId: Bson, rev: string, writeId: string, updatedAt: int, timestamp: int, created: int, updated: int)

  datatype LocalState = LocalState(storage: Storage, log: seq<Mutation>)

  const WRAP32: int := 0x1_0000_0000
  const WRAP64: int := 0x1_0000_0000_0000_0000

  /** Two's complement reduction to `width` values, as `+` does on machine integers. */
  function Wrap(n: int, width: int): int
    requires width > 0
  {
    (n + width / 2) % width - width / 2
  }

  /* ---------- update operators ---------- */

  function IncrementValue(value: Bson, amount: Bson): Bson {
    match (value, amount)
    case (Int32(a), Int32(b)) => Int32(Wrap(a + b, WRAP32))
    case (Int64(a), Int64(b)) => Int64(Wrap(a + b, WRAP64))
    case (Double(Number(a)), Double(Number(b))) => Double(Number(a + b))
    case (Double(_), Double(_)) => Double(NaN)
    case _ => value
  }

  function Increment(doc: Document, amounts: Document): Document {
    map k | k in doc :: if k in amounts then IncrementValue(doc[k], amounts[k]) else doc[k]
  }

  /** `apply_update`: operators in their order, the first unknown one is an error. */
  function ApplyUpdate(doc: Document, update: seq<(string, Bson)>): Result<Document, EngineError>
    decreases update
  {
    if update == [] then Success(doc)
    else
      var (op, arg) := update[0];
      var fields := if arg.Document? then arg.fields else map[];
      if op == "$set" then ApplyUpdate(doc + fields, update[1..])
      else if op == "$unset" then ApplyUpdate(doc - fields.Keys, update[1..])
      else if op == "$inc" then ApplyUpdate(Increment(doc, fields), update[1..])
      else Failure(InvalidOperator)
  }

  predicate Touches(update: seq<(string, Bson)>, key: string) {
    exists u | u in update :: u.1.Document? && key in u.1.fields
  }

  lemma {:induction false} UntouchedStays(doc: Document, update: seq<(string, Bson)>, key: string)
    requires !Touches(update, key) && ApplyUpdate(doc, update).Success?
    ensures (key in ApplyUpdate(doc, update).value <==> key in doc)
    ensures key in doc ==> ApplyUpdate(doc, update).value[key] == doc[key]
    decreases update
  {
    if update != [] {
      var (op, arg) := update[0];
      var fields := if arg.Document? then arg.fields else map[];
      assert update[0] in update && key !in fields;
      assert forall u | u in update[1..] :: u in update;
      var next := if op == "$set" then doc + fields
                  else if op == "$unset" then doc - fields.Keys
                  else Increment(doc, fields);
      UntouchedStays(next, update[1..], key);
    }
  }

  /* ---------- writes ---------- */

  function Stamped(cfg: Config, doc: Document, stamp: Stamp): Document {
    doc[REV := String(stamp.rev)][UPDATED_AT := DateTime(stamp.updatedAt)][SOURCE_NODE := String(cfg.node)]
  }

  function LoggedMutation(
    cfg: Config, op: MutationOp, collection: string, id: Bson, patch: Option<Document>, stamp: Stamp): Mutation
  {
    Mutation(
      op, collection, DocumentId(id, cfg.idText(id)), patch, 0, stamp.timestamp, stamp.rev, stamp.writeId,
      Metadata(collection, "default", "state", cfg.node, cfg.node, cfg.idText(id), 1, Number(1.0),
               stamp.created, stamp.updated))
  }

  /** The shared end of every write: store, then log unless the mutation's metadata is refused. */
  function Commit<R>(s: LocalState, key: Key, doc: Document, m: Mutation, answer: R)
    : (LocalState, Result<R, EngineError>)
  {
    var stored := s.storage[key := doc];
    if ValidMetadata(m.metadata) then (LocalState(stored, s.log + [m]), Success(answer))
    else (LocalState(stored, s.log), Failure(InvalidMetadata))
  }

  function InsertOne(cfg: Config, s: LocalState, collection: string, doc: Document, stamp: Stamp)
    : (LocalState, Result<Bson, EngineError>)
  {
    var id := if ID in doc then doc[ID] else stamp.freshId;
    if !cfg.fits(doc) then (s, Failure(DocumentTooLarge))
    else
      var full := Stamped(cfg, doc[ID := id], stamp) - {DELETED};
      if !cfg.fits(full) then (s, Failure(DocumentTooLarge))
      else
        Commit(s, (collection, id), full, LoggedMutation(cfg, MutationOp.Insert, collection, id, Some(full), stamp), id)
  }

  function UpdateOne(cfg: Config, s: LocalState, collection: string, id: Bson, update: seq<(string, Bson)>, stamp: Stamp)
    : (LocalState, Result<bool, EngineError>)
  {
    var key := (collection, id);
    if key !in s.storage || IsDeleted(s.storage[key]) then (s, Success(false))
    else
      match ApplyUpdate(s.storage[key], update)
      case Failure(e) => (s, Failure(e))
      case Success(changed) =>
        var full := Stamped(cfg, changed, stamp);
        if !cfg.fits(full) then (s, Failure(DocumentTooLarge))
        else Commit(s, key, full, LoggedMutation(cfg, MutationOp.Update, collection, id, Some(full), stamp), true)
  }

  /** A tombstone may be deleted again; there is no size check. */
  function DeleteOne(cfg: Config, s: LocalState, collection: string, id: Bson, stamp: Stamp)
    : (LocalState, Result<bool, EngineError>)
  {
    var key := (collection, id);
    if key !in s.storage then (s, Success(false))
    else
      var full := Stamped(cfg, s.storage[key][DELETED := Boolean(true)], stamp);
      Commit(s, key, full, LoggedMutation(cfg, MutationOp.Delete, collection, id, None, stamp), true)
  }

  /** The keys a garbage collection deletes: those named by the tombstones it scans. */
  function GarbageKeys(storage: Storage, collection: string): set<Key> {
    set key | key in storage && key.0 == collection && IsDeleted(storage[key]) && ID in storage[key] ::
      (collection, storage[key][ID])
  }

  function CollectGarbage(s: LocalState, collection: string): LocalState {
    s.(storage := s.storage - GarbageKeys(s.storage, collection))
  }

  datatype LocalOp =
    | Insert(collection: string, doc: Document, stamp: Stamp)
    | Update(collection: string, id: Bson, update: seq<(string, Bson)>, stamp: Stamp)
    | Delete(collection: string, id: Bson, stamp: Stamp)
    | Gc(collection: string)

  function Step(cfg: Config, s: LocalState, op: LocalOp): LocalState {
    match op
    case Insert(c, doc, stamp) => InsertOne(cfg, s, c, doc, stamp).0
    case Update(c, id, update, stamp) => UpdateOne(cfg, s, c, id, update, stamp).0
    case Delete(c, id, stamp) => DeleteOne(cfg, s, c, id, stamp).0
    case Gc(c) => CollectGarbage(s, c)
  }

  function Run(cfg: Config, ops: seq<LocalOp>): LocalState {
    if ops == [] then LocalState(map[], []) else Step(cfg, Run(cfg, ops[..|ops| - 1]), ops[|ops| - 1])
  }

  /* ---------- what every step keeps ---------- */

  /** Every document is stored under the id it carries. */
  ghost predicate AllWellKeyed(storage: Storage) {
    forall key | key in storage :: ID in storage[key] && storage[key][ID] == key.1
  }

  ghost predicate KeepsIds(op: LocalOp) {
    op.Update? ==> !Touches(op.update, ID)
  }

  lemma CommitKeepsKeys<R>(s: LocalState, key: Key, doc: Document, m: Mutation, answer: R)
    requires AllWellKeyed(s.storage) && ID in doc && doc[ID] == key.1
    ensures AllWellKeyed(Commit(s, key, doc, m, answer).0.storage)
  {
    hide ValidMetadata;
  }

  lemma StampKeepsId(cfg: Config, doc: Document, stamp: Stamp, id: Bson)
    requires ID in doc && doc[ID] == id
    ensures ID in Stamped(cfg, doc, stamp) && Stamped(cfg, doc, stamp)[ID] == id
  {}

  lemma StepKeepsKeys(cfg: Config, s: LocalState, op: LocalOp)
    requires AllWellKeyed(s.storage) && KeepsIds(op)
    ensures AllWellKeyed(Step(cfg, s, op).storage)
  {
    hide IsDeleted, ApplyUpdate, Touches, LoggedMutation, Commit, Stamped;
    match op
    case Insert(c, doc, stamp) =>
      var id := if ID in doc then doc[ID] else stamp.freshId;
      StampKeepsId(cfg, doc[ID := id], stamp, id);
      var full := Stamped(cfg, doc[ID := id], stamp) - {DELETED};
      CommitKeepsKeys(s, (c, id), full, LoggedMutation(cfg, MutationOp.Insert, c, id, Some(full), stamp), id);
    case Update(c, id, update, stamp) =>
      if (c, id) in s.storage && ApplyUpdate(s.storage[(c, id)], update).Success? {
        UntouchedStays(s.storage[(c, id)], update, ID);
        var changed := ApplyUpdate(s.storage[(c, id)], update).value;
        StampKeepsId(cfg, changed, stamp, id);
        var full := Stamped(cfg, changed, stamp);
        CommitKeepsKeys(s, (c, id), full, LoggedMutation(cfg, MutationOp.Update, c, id, Some(full), stamp), true);
      }
    case Delete(c, id, stamp) =>
      if (c, id) in s.storage {
        var dead := s.storage[(c, id)][DELETED := Boolean(true)];
        StampKeepsId(cfg, dead, stamp, id);
        var full := Stamped(cfg, dead, stamp);
        CommitKeepsKeys(s, (c, id), full, LoggedMutation(cfg, MutationOp.Delete, c, id, None, stamp), true);
      }
    case Gc(_) =>
  }

  /** On a well-keyed store garbage collection removes the collection's tombstones and nothing else. */
  lemma GcRemovesTombstones(storage: Storage, c: string)
    requires AllWellKeyed(storage)
    ensures GarbageKeys(storage, c) == set key | key in storage && key.0 == c && IsDeleted(storage[key])
  {
    hide IsDeleted;
    forall key | key in storage && key.0 == c && IsDeleted(storage[key])
      ensures key in GarbageKeys(storage, c)
    {
      assert (c, storage[key][ID]) == key;
    }
    forall key | key in GarbageKeys(storage, c)
      ensures key in storage && key.0 == c && IsDeleted(storage[key])
    {
      var k :| k in storage && k.0 == c && IsDeleted(storage[k]) && ID in storage[k] && (c, storage[k][ID]) == key;
      assert k == key;
    }
  }
}
