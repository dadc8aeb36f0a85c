/**
 One merge and one turn of a replay, case by case, in terms of the fields the documents carry;
 and the canonical order in terms of the mutations' parts.
 */
module ReplayCases {
  import opened Wrappers
  import opened Orders
  import opened StableSort
  import opened Documents
  import opened Merge
  import opened Batches
  import opened Effects
  import Revisions

  /* ---------- one merge ---------- */

  /** A later clock reading, then a higher counter, then the greater node part. */
  ghost predicate Newer(a: Revisions.Reading, b: Revisions.Reading) {
    || a.timestamp > b.timestamp
    || (a.timestamp == b.timestamp && a.counter > b.counter)
    || (a.timestamp == b.timestamp && a.counter == b.counter && TextBelow(b.node, a.node))
  }

  /** A document without a revision that parses counts as of the first revision of the empty node. */
  ghost predicate Reads(d: Document, r: Revisions.Reading) {
    if "_rev" in d && d["_rev"].String? && Revisions.Valid(d["_rev"].text) then r == Revisions.Parse(d["_rev"].text)
    else r == Revisions.Reading(0, 0, "3040")
  }

  lemma ReadingIs(d: Document)
    ensures Reads(d, ReadingOf(d))
  {
    InitialValid();
    hide Revisions.Valid, Revisions.Parse;
  }

  lemma NewerIsGreater(a: Revisions.Reading, b: Revisions.Reading)
    ensures Newer(a, b) <==> Revisions.CompareReading(a, b) == Greater
  {
    CompareStringMeaning(a.node, b.node);
    Revisions.CompareReadingTotalOrder(a, b, a);
    hide CompareString, TextBelow;
  }

  /** The winner in full, with the loser as the newest of at most ten recorded conflicts. */
  predicate Beats(winner: Document, loser: Document, merged: Document) {
    if "_conflicts" in winner && !winner["_conflicts"].Array? then merged == winner
    else
      && merged - {"_conflicts"} == winner - {"_conflicts"}
      && "_conflicts" in merged && merged["_conflicts"].Array?
      && var before := if "_conflicts" in winner then winner["_conflicts"].items else [];
         var list := merged["_conflicts"].items;
         && |list| == (if |before| < 10 then |before| + 1 else 10)
         && list[|list| - 1] == Bson.Document(loser)
         && forall i | 0 <= i < |list| - 1 :: list[i] == before[|before| + 1 - |list| + i]
  }

  lemma AddConflictBeats(loser: Document, winner: Document)
    ensures Beats(winner, loser, AddConflict(loser, winner))
  {
    var before := ConflictList(winner);
    var merged := AddConflict(loser, winner);
    LastTenIs(before, Bson.Document(loser));
    if merged != winner {
      assert merged[CONFLICTS] == Array(LastTen(before + [Bson.Document(loser)]));
    }
    hide LastTen;
  }

  lemma LastTenIs(before: seq<Bson>, last: Bson)
    ensures var list := LastTen(before + [last]);
            && |list| == (if |before| < 10 then |before| + 1 else 10)
            && list[|list| - 1] == last
            && forall i | 0 <= i < |list| - 1 :: list[i] == before[|before| + 1 - |list| + i]
  {
    var whole := before + [last];
    if |before| < 10 {
      assert LastTen(whole) == whole;
    } else {
      var cut := |before| - 9;
      assert LastTen(whole) == whole[cut..];
      forall i | 0 <= i < 9 ensures whole[cut..][i] == before[cut + i] {
        assert whole[cut + i] == before[cut + i];
      }
    }
    hide LastTen;
  }

  /** A tombstone gives way to whatever comes; otherwise the newer version beats the other, and of a tie the first stays. */
  lemma MergeCases(current: Document, incoming: Document)
    ensures var merged := MergeVersion(Some(current), incoming);
            if "_deleted" in current && current["_deleted"] == Boolean(true) then merged == incoming
            else
              exists r, s ::
                && Reads(current, r) && Reads(incoming, s)
                && if Newer(s, r) then Beats(incoming, current, merged)
                   else if Newer(r, s) then Beats(current, incoming, merged)
                   else merged == current
    ensures MergeVersion(None, incoming) == incoming
  {
    hide ReadingOf, AddConflict, Beats, Newer, Reads;
    var r, s := ReadingOf(current), ReadingOf(incoming);
    ReadingIs(current);
    ReadingIs(incoming);
    NewerIsGreater(s, r);
    NewerIsGreater(r, s);
    Revisions.CompareReadingTotalOrder(r, s, r);
    AddConflictBeats(incoming, current);
    AddConflictBeats(current, incoming);
  }

  /* ---------- one turn of a replay ---------- */

  /** The ways metadata is refused. */
  predicate Unfit(m: Metadata) {
    || m.namespace == "" || m.tenantId == "" || m.kind == ""
    || m.source == "" || m.actor == "" || m.lineage == ""
    || m.schemaVersion < 1
    || m.trustScore.NaN? || m.trustScore.value < 0.0 || m.trustScore.value > 1.0
    || m.updatedAt < m.createdAt
  }

  /** Where a mutation goes. */
  predicate GoesTo(m: Mutation, fallback: string, key: Key) {
    && key.0 == (if m.collection == "" then fallback else m.collection)
    && (match m.patch
        case Some(patch) => "_id" in patch && key.1 == patch["_id"]
        case None => key.1 == m.docId.value)
  }

  /** What it brings: its patch, or a tombstone of its revision and time stamped by the engine's node. */
  predicate Brings(m: Mutation, node: string, d: Document) {
    match m.patch
    case Some(patch) => d == patch
    case None =>
      && d.Keys == {"_id", "_deleted", "_rev", "_updated_at", "_source_node"}
      && d["_id"] == m.docId.value && d["_deleted"] == Boolean(true) && d["_rev"] == String(m.rev)
      && d["_updated_at"] == DateTime(m.timestamp) && d["_source_node"] == String(node)
  }

  /** The key of a mutation, by cases. */
  lemma KeyCases(node: string, fallback: string, m: Mutation)
    ensures forall key :: KeyOf(node, fallback, m) == Some(key) <==> GoesTo(m, fallback, key)
    ensures KeyOf(node, fallback, m) == None <==> m.patch.Some? && "_id" !in m.patch.value
    ensures Brings(m, node, VersionOf(node, m))
  {}

  /**
   Replaying one mutation: unfit metadata is refused with nothing recorded; an applied write id is
   skipped; a patch without an id is refused after its write id was recorded; anything else is
   merged into its key, and into no other.
   */
  lemma TurnCases(node: string, fallback: string, st: EngineState, m: Mutation)
    ensures var out := Replay(node, fallback, st, [m]);
            if Unfit(m.metadata) then out == Outcome(st, Failure(InvalidMetadata), false)
            else if m.writeId != "" && m.writeId in st.applied then out == Outcome(st, Success(0), true)
            else
              && out.state.applied == st.applied + (if m.writeId == "" then {} else {m.writeId})
              && !out.skipped
              && if m.patch.Some? && "_id" !in m.patch.value then
                   out.result == Failure(DocumentNotFound) && out.state.storage == st.storage
                 else
                   && out.result == Success(1)
                   && exists key, d ::
                        && GoesTo(m, fallback, key) && Brings(m, node, d)
                        && out.state.storage == st.storage[key := MergeVersion(Lookup(st.storage, key), d)]
  {
    hide MergeVersion, GoesTo, Brings, VersionOf, KeyOf;
    FitIsValid(m.metadata);
    hide ValidMetadata, Unfit;
    assert [m][1..] == [];
    KeyCases(node, fallback, m);
    var d := VersionOf(node, m);
    KeyIs(node, fallback, m);
    if ID in d {
      var key := (TargetCollection(fallback, m), d[ID]);
      assert GoesTo(m, fallback, key) && Brings(m, node, d);
    }
  }

  lemma FitIsValid(m: Metadata)
    ensures ValidMetadata(m) <==> !Unfit(m)
  {}

  lemma KeyIs(node: string, fallback: string, m: Mutation)
    ensures var d := VersionOf(node, m);
            KeyOf(node, fallback, m) == if ID in d then Some((TargetCollection(fallback, m), d[ID])) else None
  {
    hide VersionOf;
  }

  /* ---------- the canonical order ---------- */

  ghost predicate TextAtMost(a: string, b: string) {
    a == b || TextBelow(a, b)
  }

  /** By collection, then time, then number, then document, then write id. */
  ghost predicate InOrder(a: Mutation, b: Mutation) {
    || TextBelow(a.collection, b.collection)
    || (a.collection == b.collection
        && (a.timestamp < b.timestamp
            || (a.timestamp == b.timestamp
                && (a.seqNo < b.seqNo
                    || (a.seqNo == b.seqNo
                        && (TextBelow(a.docId.text, b.docId.text)
                            || (a.docId.text == b.docId.text && TextAtMost(a.writeId, b.writeId))))))))
  }

  lemma OrderMeaning(a: Mutation, b: Mutation)
    ensures CompareMutations(a, b) != Greater <==> InOrder(a, b)
  {
    TextOrder(a.collection, b.collection);
    TextOrder(a.docId.text, b.docId.text);
    TextOrder(a.writeId, b.writeId);
    hide CompareString, TextBelow;
  }

  lemma TextOrder(a: string, b: string)
    ensures CompareString(a, b) == Less <==> TextBelow(a, b)
    ensures CompareString(a, b) == Equal <==> a == b
  {
    hide CompareString, TextBelow;
    CompareStringMeaning(a, b);
    CompareStringTotalOrder(a, b, b);
  }

  ghost function SameKey(m: Mutation): Mutation -> bool {
    n => InOrder(m, n) && InOrder(n, m)
  }

  lemma SameKeyTies(m: Mutation, ms: seq<Mutation>)
    ensures Ties(CompareMutations, m, ms) == Filter(SameKey(m), ms)
  {
    hide CompareMutations, InOrder, Filter, Ties;
    forall n ensures SameKey(m)(n) <==> CompareMutations(m, n) == Equal {
      OrderMeaning(m, n);
      OrderMeaning(n, m);
      MutationsReverse(m, n);
    }
    TiesFilter(CompareMutations, m, ms, SameKey(m));
  }

  /** A batch is replayed in canonical order; mutations that agree in every part of the key keep the order they came in. */
  lemma BatchIsCanonical(node: string, fallback: string, st: EngineState, ms: seq<Mutation>)
    ensures exists ns: seq<Mutation> ::
              && multiset(ns) == multiset(ms)
              && (forall i, j | 0 <= i < j < |ns| :: InOrder(ns[i], ns[j]))
              && (forall m | m in ms :: Filter(SameKey(m), ns) == Filter(SameKey(m), ms))
              && Batch(node, fallback, st, ms) == Replay(node, fallback, st, ns)
  {
    hide CompareMutations, InOrder, Replay, Filter, Ties, SameKey, Sort;
    var ns := Sort(CompareMutations, ms);
    MutationsPreorder(Elements(ms));
    SortMultiset(CompareMutations, ms);
    SortSorted(CompareMutations, ms, Elements(ms));
    forall i, j | 0 <= i < j < |ns| ensures InOrder(ns[i], ns[j]) {
      OrderMeaning(ns[i], ns[j]);
    }
    forall m | m in ms ensures Filter(SameKey(m), ns) == Filter(SameKey(m), ms) {
      SortStable(CompareMutations, m, ms, Elements(ms));
      SameKeyTies(m, ns);
      SameKeyTies(m, ms);
    }
  }
}
