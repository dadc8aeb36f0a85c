/** What readers find after a local write: which fields changed, how, and what the log tells others. */
module LocalEffects {
  import opened Wrappers
  import opened Documents
  import opened Batches
  import opened LocalWrites

  /** `find_one`: the document under a key unless it is a tombstone. */
  function Seen(storage: Storage, key: Key): Option<Document> {
    if key in storage && !IsDeleted(storage[key]) then Some(storage[key]) else None
  }

  function FieldOf(doc: Document, key: string): Option<Bson> {
    if key in doc then Some(doc[key]) else None
  }

  /* ---------- update operators, field by field ---------- */

  type Operator = (string, Bson)

  predicate Known(u: Operator) {
    u.0 == "$set" || u.0 == "$unset" || u.0 == "$inc"
  }

  predicate Names(u: Operator, key: string) {
    u.1.Document? && key in u.1.fields
  }

  /** `n` is the sum as a machine integer of `width` values gives it. */
  predicate WrapsTo(n: int, sum: int, width: int)
    requires width > 0
  {
    -width <= 2 * n < width && (n - sum) % width == 0
  }

  /** An amount of the value's own kind is added; any other changes nothing. */
  predicate Increments(value: Bson, amount: Bson, after: Bson) {
    if value.Int32? && amount.Int32? then after.Int32? && WrapsTo(after.int32, value.int32 + amount.int32, 0x1_0000_0000)
    else if value.Int64? && amount.Int64? then
      after.Int64? && WrapsTo(after.int64, value.int64 + amount.int64, 0x1_0000_0000_0000_0000)
    else if value.Double? && amount.Double? then
      after == Double(if value.double.NaN? || amount.double.NaN? then NaN
                      else Number(value.double.value + amount.double.value))
    else after == value
  }

  /** What an operator that names a field makes of it. */
  predicate Operates(u: Operator, key: string, before: Option<Bson>, after: Option<Bson>)
    requires Names(u, key)
  {
    if u.0 == "$set" then after == Some(u.1.fields[key])
    else if u.0 == "$unset" then after == None
    else
      u.0 == "$inc" && after.Some? == before.Some?
      && (before.Some? ==> Increments(before.value, u.1.fields[key], after.value))
  }

  ghost predicate LastNaming(update: seq<Operator>, key: string, i: nat) {
    && i < |update| && Names(update[i], key)
    && forall j | i < j < |update| :: !Names(update[j], key)
  }

  lemma WrapsIn32(sum: int)
    ensures WrapsTo(Wrap(sum, WRAP32), sum, 0x1_0000_0000)
  {}

  lemma WrapsIn64(sum: int)
    ensures WrapsTo(Wrap(sum, WRAP64), sum, 0x1_0000_0000_0000_0000)
  {}

  lemma IncrementAdds(value: Bson, amount: Bson)
    ensures Increments(value, amount, IncrementValue(value, amount))
  {
    hide WrapsTo, Wrap;
    if value.Int32? && amount.Int32? {
      WrapsIn32(value.int32 + amount.int32);
    }
    if value.Int64? && amount.Int64? {
      WrapsIn64(value.int64 + amount.int64);
    }
  }

  lemma OneOperator(doc: Document, u: Operator)
    ensures ApplyUpdate(doc, [u]).Success? <==> Known(u)
    ensures Known(u) ==>
              forall key ::
                if Names(u, key) then Operates(u, key, FieldOf(doc, key), FieldOf(ApplyUpdate(doc, [u]).value, key))
                else FieldOf(ApplyUpdate(doc, [u]).value, key) == FieldOf(doc, key)
  {
    hide Increments, IncrementValue;
    assert [u][1..] == [];
    forall value, amount ensures Increments(value, amount, IncrementValue(value, amount)) {
      IncrementAdds(value, amount);
    }
  }

  lemma {:induction false} UpdateSplits(doc: Document, xs: seq<Operator>, ys: seq<Operator>)
    ensures ApplyUpdate(doc, xs + ys) ==
            match ApplyUpdate(doc, xs)
            case Success(between) => ApplyUpdate(between, ys)
            case Failure(e) => Failure(e)
    decreases xs
  {
    hide Increment;
    if xs == [] {
      assert xs + ys == ys;
    } else {
      assert (xs + ys)[1..] == xs[1..] + ys && (xs + ys)[0] == xs[0];
      var fields := if xs[0].1.Document? then xs[0].1.fields else map[];
      UpdateSplits(doc + fields, xs[1..], ys);
      UpdateSplits(doc - fields.Keys, xs[1..], ys);
      UpdateSplits(Increment(doc, fields), xs[1..], ys);
    }
  }

  /** An update errs exactly when one of its operators is unknown. */
  lemma {:induction false} UpdateErrsIff(doc: Document, update: seq<Operator>)
    ensures ApplyUpdate(doc, update).Failure? <==> exists u | u in update :: !Known(u)
    ensures ApplyUpdate(doc, update).Failure? ==> ApplyUpdate(doc, update).error == InvalidOperator
    decreases update
  {
    hide Increment;
    if update != [] {
      var fields := if update[0].1.Document? then update[0].1.fields else map[];
      UpdateErrsIff(doc + fields, update[1..]);
      UpdateErrsIff(doc - fields.Keys, update[1..]);
      UpdateErrsIff(Increment(doc, fields), update[1..]);
      assert forall u :: u in update <==> u == update[0] || u in update[1..];
      if !Known(update[0]) {
        assert update[0] in update;
      }
    }
  }

  /** The last operator that names a field decides it, from what the operators before left there. */
  lemma LastOperatorDecides(doc: Document, update: seq<Operator>, key: string, i: nat)
    requires ApplyUpdate(doc, update).Success? && LastNaming(update, key, i)
    ensures ApplyUpdate(doc, update[..i]).Success?
    ensures Operates(update[i], key, FieldOf(ApplyUpdate(doc, update[..i]).value, key),
                     FieldOf(ApplyUpdate(doc, update).value, key))
  {
    hide ApplyUpdate, Operates;
    var before, u, rest := update[..i], update[i], update[i + 1..];
    assert update == before + ([u] + rest);
    UpdateSplits(doc, before, [u] + rest);
    var between := ApplyUpdate(doc, before).value;
    UpdateSplits(between, [u], rest);
    OneOperator(between, u);
    UntouchedStays(ApplyUpdate(between, [u]).value, rest, key);
  }

  /** What a field holds after an update of `doc`. */
  ghost predicate FieldAfter(doc: Document, update: seq<Operator>, key: string, after: Option<Bson>) {
    if Touches(update, key) then
      exists i: nat ::
        && LastNaming(update, key, i) && ApplyUpdate(doc, update[..i]).Success?
        && Operates(update[i], key, FieldOf(ApplyUpdate(doc, update[..i]).value, key), after)
    else after == FieldOf(doc, key)
  }

  lemma {:induction false} LastNamingExists(update: seq<Operator>, key: string) returns (i: nat)
    requires Touches(update, key)
    ensures LastNaming(update, key, i)
  {
    var k := |update| - 1;
    if Names(update[k], key) {
      i := k;
    } else {
      var u :| u in update && u.1.Document? && key in u.1.fields;
      assert u in update[..k];
      i := LastNamingExists(update[..k], key);
    }
  }

  lemma EveryField(doc: Document, update: seq<Operator>)
    requires ApplyUpdate(doc, update).Success?
    ensures forall key :: FieldAfter(doc, update, key, FieldOf(ApplyUpdate(doc, update).value, key))
  {
    hide ApplyUpdate, Operates;
    forall key ensures FieldAfter(doc, update, key, FieldOf(ApplyUpdate(doc, update).value, key)) {
      if Touches(update, key) {
        var i := LastNamingExists(update, key);
        LastOperatorDecides(doc, update, key, i);
      } else {
        UntouchedStays(doc, update, key);
      }
    }
  }

  /* ---------- what the three writes do ---------- */

  /** The fields every write sets. */
  predicate IsStamp(key: string) {
    key == "_rev" || key == "_updated_at" || key == "_source_node"
  }

  predicate CarriesStamp(doc: Document, cfg: Config, stamp: Stamp) {
    && FieldOf(doc, "_rev") == Some(String(stamp.rev))
    && FieldOf(doc, "_updated_at") == Some(DateTime(stamp.updatedAt))
    && FieldOf(doc, "_source_node") == Some(String(cfg.node))
  }

  /** What the log tells other engines about a write. */
  predicate Tells(
    m: Mutation, cfg: Config, op: MutationOp, c: string, id: Bson, patch: Option<Document>, stamp: Stamp)
  {
    && m.op == op && m.collection == c && m.docId == DocumentId(id, cfg.idText(id)) && m.patch == patch
    && m.seqNo == 0 && m.timestamp == stamp.timestamp && m.rev == stamp.rev && m.writeId == stamp.writeId
    && m.metadata.namespace == c && m.metadata.tenantId == "default" && m.metadata.kind == "state"
    && m.metadata.source == m.metadata.actor == cfg.node && m.metadata.lineage == m.docId.text
    && m.metadata.schemaVersion == 1 && m.metadata.trustScore == Number(1.0)
    && m.metadata.createdAt == stamp.created && m.metadata.updatedAt == stamp.updated
  }

  /** Everything a write's mutation is checked for that could be wrong. */
  predicate Accountable(cfg: Config, c: string, id: Bson, stamp: Stamp) {
    c != "" && cfg.node != "" && cfg.idText(id) != "" && stamp.created <= stamp.updated
  }

  /** A write stored `full`, and logged it unless it cannot be accounted for. */
  ghost predicate Committed<R>(
    cfg: Config, s: LocalState, t: LocalState, r: Result<R, EngineError>,
    op: MutationOp, c: string, id: Bson, full: Document, patch: Option<Document>, stamp: Stamp, answer: R)
  {
    && t.storage == s.storage[(c, id) := full]
    && CarriesStamp(full, cfg, stamp)
    && if Accountable(cfg, c, id, stamp) then
         && r == Success(answer)
         && |t.log| == |s.log| + 1 && t.log[..|s.log|] == s.log && Tells(t.log[|s.log|], cfg, op, c, id, patch, stamp)
       else r == Failure(InvalidMetadata) && t.log == s.log
  }

  lemma CommitCommits<R>(
    cfg: Config, s: LocalState, op: MutationOp, c: string, id: Bson, full: Document, patch: Option<Document>,
    stamp: Stamp, answer: R)
    requires CarriesStamp(full, cfg, stamp)
    ensures var (t, r) := Commit(s, (c, id), full, LoggedMutation(cfg, op, c, id, patch, stamp), answer);
            Committed(cfg, s, t, r, op, c, id, full, patch, stamp, answer)
  {
    hide CarriesStamp;
  }

  /**
   An insert that fits stores the document under its own id or a fresh one: stamped, never as a
   tombstone, and otherwise as it was given. The log carries exactly what was stored.
   */
  lemma InsertShows(cfg: Config, s: LocalState, c: string, doc: Document, stamp: Stamp)
    ensures var (t, r) := InsertOne(cfg, s, c, doc, stamp);
            var id := if "_id" in doc then doc["_id"] else stamp.freshId;
            if r == Failure(DocumentTooLarge) then t == s
            else
              exists full: Document ::
                && cfg.fits(doc) && cfg.fits(full)
                && Committed(cfg, s, t, r, MutationOp.Insert, c, id, full, Some(full), stamp, id)
                && Seen(t.storage, (c, id)) == Some(full)
                && FieldOf(full, "_id") == Some(id) && "_deleted" !in full
                && forall key | !IsStamp(key) && key != "_id" && key != "_deleted" :: FieldOf(full, key) == FieldOf(doc, key)
    ensures cfg.fits(doc) && cfg.fits(Stamped(cfg, doc[ID := if ID in doc then doc[ID] else stamp.freshId], stamp) - {DELETED})
            <==> InsertOne(cfg, s, c, doc, stamp).1 != Failure(DocumentTooLarge)
  {
    hide Committed;
    var id := if ID in doc then doc[ID] else stamp.freshId;
    var full := Stamped(cfg, doc[ID := id], stamp) - {DELETED};
    CommitCommits(cfg, s, MutationOp.Insert, c, id, full, Some(full), stamp, id);
    if InsertOne(cfg, s, c, doc, stamp).1 != Failure(DocumentTooLarge) {
      StoredUnder(cfg, s, InsertOne(cfg, s, c, doc, stamp).0, InsertOne(cfg, s, c, doc, stamp).1,
                  MutationOp.Insert, c, id, full, Some(full), stamp, id);
    }
  }

  lemma StoredUnder<R>(
    cfg: Config, s: LocalState, t: LocalState, r: Result<R, EngineError>,
    op: MutationOp, c: string, id: Bson, full: Document, patch: Option<Document>, stamp: Stamp, answer: R)
    requires Committed(cfg, s, t, r, op, c, id, full, patch, stamp, answer)
    ensures Seen(t.storage, (c, id)) == if IsDeleted(full) then None else Some(full)
  {}

  /** A write that is stopped leaves the engine as it was. */
  ghost predicate Stopped<R>(s: LocalState, t: LocalState, r: Result<R, EngineError>, with: Result<R, EngineError>) {
    t == s && r == with
  }

  /** Every field but the stamp is as the last operator that names it leaves it, or as it was. */
  ghost predicate FollowsUpdate(doc: Document, update: seq<Operator>, full: Document) {
    forall key | !IsStamp(key) :: FieldAfter(doc, update, key, FieldOf(full, key))
  }

  lemma StampedFollows(cfg: Config, doc: Document, update: seq<Operator>, stamp: Stamp)
    requires ApplyUpdate(doc, update).Success?
    ensures var full := Stamped(cfg, ApplyUpdate(doc, update).value, stamp);
            CarriesStamp(full, cfg, stamp) && FollowsUpdate(doc, update, full)
  {
    hide ApplyUpdate, FieldAfter;
    EveryField(doc, update);
    var changed := ApplyUpdate(doc, update).value;
    forall key | !IsStamp(key) ensures FieldOf(Stamped(cfg, changed, stamp), key) == FieldOf(changed, key) {}
  }

  /**
   An update of what a reader would not find answers false; one with an unknown operator errs; one
   that makes the document too large is refused; none of them changes anything. Any other stores
   the document with every field as its last operator leaves it, stamped, and logs exactly that.
   */
  lemma UpdateShows(cfg: Config, s: LocalState, c: string, id: Bson, update: seq<Operator>, stamp: Stamp)
    ensures var (t, r) := UpdateOne(cfg, s, c, id, update, stamp);
            var live := Seen(s.storage, (c, id));
            if live.None? then Stopped(s, t, r, Success(false))
            else if exists u | u in update :: !Known(u) then Stopped(s, t, r, Failure(InvalidOperator))
            else
              exists full ::
                && CarriesStamp(full, cfg, stamp) && FollowsUpdate(live.value, update, full)
                && if !cfg.fits(full) then Stopped(s, t, r, Failure(DocumentTooLarge))
                   else
                     && Committed(cfg, s, t, r, MutationOp.Update, c, id, full, Some(full), stamp, true)
                     && Seen(t.storage, (c, id)) == if IsDeleted(full) then None else Some(full)
  {
    hide ApplyUpdate, FollowsUpdate, CarriesStamp, Known, Committed, IsDeleted, Stamped;
    if Seen(s.storage, (c, id)).Some? {
      var doc := s.storage[(c, id)];
      UpdateErrsIff(doc, update);
      if ApplyUpdate(doc, update).Success? {
        StampedFollows(cfg, doc, update, stamp);
        var full := Stamped(cfg, ApplyUpdate(doc, update).value, stamp);
        CommitCommits(cfg, s, MutationOp.Update, c, id, full, Some(full), stamp, true);
        if cfg.fits(full) {
          StoredUnder(cfg, s, UpdateOne(cfg, s, c, id, update, stamp).0, UpdateOne(cfg, s, c, id, update, stamp).1,
                      MutationOp.Update, c, id, full, Some(full), stamp, true);
        }
      }
    }
  }

  /** A delete hides the document from readers, keeps its other fields, and logs no patch; a tombstone may be deleted again. */
  lemma DeleteShows(cfg: Config, s: LocalState, c: string, id: Bson, stamp: Stamp)
    ensures var (t, r) := DeleteOne(cfg, s, c, id, stamp);
            if (c, id) !in s.storage then Stopped(s, t, r, Success(false))
            else
              exists full: Document ::
                && Committed(cfg, s, t, r, MutationOp.Delete, c, id, full, None, stamp, true)
                && Seen(t.storage, (c, id)) == None
                && FieldOf(full, "_deleted") == Some(Boolean(true))
                && forall key | !IsStamp(key) && key != "_deleted" :: FieldOf(full, key) == FieldOf(s.storage[(c, id)], key)
  {
    hide Committed;
    if (c, id) in s.storage {
      var full := Stamped(cfg, s.storage[(c, id)][DELETED := Boolean(true)], stamp);
      CommitCommits(cfg, s, MutationOp.Delete, c, id, full, None, stamp, true);
      StoredUnder(cfg, s, DeleteOne(cfg, s, c, id, stamp).0, DeleteOne(cfg, s, c, id, stamp).1,
                  MutationOp.Delete, c, id, full, None, stamp, true);
    }
  }
}
