/**
 What a replay does to one key and to one collection: the view of `Replay` that
 snapshots and local-log recovery reason with.
 */
module Effects {
  import opened Wrappers
  import opened StableSort
  import opened Documents
  import opened Merge
  import opened Batches

  /** The key a mutation's document goes to, if it names one. */
  function KeyOf(node: string, fallback: string, m: Mutation): Option<Key> {
    var d := VersionOf(node, m);
    if ID in d then Some((TargetCollection(fallback, m), d[ID])) else None
  }

  /** The documents a run brings for one key, in order. */
  function VersionsFor(node: string, fallback: string, key: Key, ms: seq<Mutation>): seq<Document> {
    if ms == [] then []
    else
      (if KeyOf(node, fallback, ms[0]) == Some(key) then [VersionOf(node, ms[0])] else [])
      + VersionsFor(node, fallback, key, ms[1..])
  }

  ghost predicate AllApplicable(node: string, fallback: string, ms: seq<Mutation>) {
    forall m | m in ms :: ValidMetadata(m.metadata) && KeyOf(node, fallback, m).Some?
  }

  /** A run of fresh, applicable mutations merges into every key exactly the versions meant for it. */
  lemma {:induction false} ReplayMerges(node: string, fallback: string, st: EngineState, ms: seq<Mutation>)
    requires AllApplicable(node, fallback, ms) && Fresh(ms, st.applied)
    ensures Replay(node, fallback, st, ms).result == Success(|ms|)
    ensures forall key :: Lookup(Replay(node, fallback, st, ms).state.storage, key) ==
                          MergeAll(Lookup(st.storage, key), VersionsFor(node, fallback, key, ms))
    decreases ms
  {
    hide MergeVersion, ValidMetadata, Fresh;
    if ms != [] {
      var m := ms[0];
      FreshHead(ms, st.applied);
      var after := ReplayOne(node, fallback, st, m).after;
      ReplayMerges(node, fallback, after, ms[1..]);
      forall key
        ensures Lookup(Replay(node, fallback, st, ms).state.storage, key) ==
                MergeAll(Lookup(st.storage, key), VersionsFor(node, fallback, key, ms))
      {
        MergeOne(node, fallback, st.storage, key, m, VersionsFor(node, fallback, key, ms[1..]));
      }
    }
  }

  lemma FreshHead(ms: seq<Mutation>, applied: set<string>)
    requires ms != [] && Fresh(ms, applied)
    ensures ms[0].writeId != "" ==> ms[0].writeId !in applied
    ensures Fresh(ms[1..], if ms[0].writeId == "" then applied else applied + {ms[0].writeId})
  {
    if ms[0].writeId != "" {
      assert ms[0].writeId in Ids(ms);
    }
    FreshStep(ms, applied);
  }

  lemma MergeOne(node: string, fallback: string, storage: Storage, key: Key, m: Mutation, rest: seq<Document>)
    requires KeyOf(node, fallback, m).Some?
    ensures var after := ApplyRemote(storage, TargetCollection(fallback, m), VersionOf(node, m));
            && after.Success?
            && MergeAll(Lookup(after.value, key), rest) ==
               MergeAll(Lookup(storage, key),
                        (if KeyOf(node, fallback, m) == Some(key) then [VersionOf(node, m)] else []) + rest)
  {
    hide MergeVersion, VersionOf;
    var v := VersionOf(node, m);
    assert [v][..0] == [];
    MergeAllAppend(Lookup(storage, key), [v], rest);
    assert [] + rest == rest;
  }

  /* ---------- one collection ---------- */

  ghost predicate SameCollection(c: string, s: Storage, t: Storage) {
    forall id: Bson :: Lookup(s, (c, id)) == Lookup(t, (c, id))
  }

  ghost predicate SameElsewhere(c: string, s: Storage, t: Storage) {
    forall key: Key | key.0 != c :: Lookup(s, key) == Lookup(t, key)
  }

  ghost predicate Confined(c: string, fallback: string, ms: seq<Mutation>) {
    forall m | m in ms :: TargetCollection(fallback, m) == c
  }

  ghost predicate SameSeen(ids: set<string>, s: set<string>, t: set<string>) {
    forall id | id in ids :: id in s <==> id in t
  }

  /** A replay confined to a collection depends only on that collection and on which of its ids were seen. */
  lemma {:induction false} ReplayCongruent(
    node: string, fallback: string, c: string, s: EngineState, t: EngineState, ms: seq<Mutation>)
    requires Confined(c, fallback, ms)
    requires SameCollection(c, s.storage, t.storage) && SameSeen(IdSet(ms), s.applied, t.applied)
    ensures var (p, q) := (Replay(node, fallback, s, ms), Replay(node, fallback, t, ms));
            && p.result == q.result && p.skipped == q.skipped
            && SameCollection(c, p.state.storage, q.state.storage)
            && SameElsewhere(c, p.state.storage, s.storage)
    decreases ms
  {
    hide ReplayOne, SameCollection, SameElsewhere, IdSet;
    if ms == [] {
      Untouched(c, s.storage);
    } else {
      IdSetStep(ms, {});
      TurnCongruent(node, fallback, c, s, t, ms[0]);
      match (ReplayOne(node, fallback, s, ms[0]), ReplayOne(node, fallback, t, ms[0]))
      case (Duplicate, _) =>
        ReplayCongruent(node, fallback, c, s, t, ms[1..]);
      case (Applied(s1), Applied(t1)) =>
        ReplayCongruent(node, fallback, c, s1, t1, ms[1..]);
        ElsewhereTransitive(c, Replay(node, fallback, s, ms).state.storage, s1.storage, s.storage);
      case _ =>
    }
  }

  /** What a replay on an engine that has applied these ids has left to do. */
  function Unseen(applied: set<string>, ms: seq<Mutation>): seq<Mutation> {
    Filter(IsUnseen(applied), ms)
  }

  function IsUnseen(applied: set<string>): Mutation -> bool {
    (m: Mutation) => !(ValidMetadata(m.metadata) && m.writeId != "" && m.writeId in applied)
  }

  lemma UnseenStep(applied: set<string>, ms: seq<Mutation>)
    requires ms != []
    ensures Unseen(applied, ms) ==
            (if IsUnseen(applied)(ms[0]) then [ms[0]] else []) + Unseen(applied, ms[1..])
  {
    hide ValidMetadata;
  }

  lemma {:induction false} UnseenIsAll(applied: set<string>, ms: seq<Mutation>)
    requires IdSet(ms) !! applied
    ensures Unseen(applied, ms) == ms
  {
    hide ValidMetadata;
    if ms != [] {
      IdSetStep(ms, applied);
      UnseenIsAll(applied, ms[1..]);
      UnseenStep(applied, ms);
    }
  }

  /**
   A confined replay on an engine that has seen some of its ids does to its collection what the
   rest of it does on an engine that shows the same and has not seen them.
   */
  lemma {:induction false} ReplayUnseen(
    node: string, fallback: string, c: string, applied: set<string>, s: EngineState, t: EngineState, ms: seq<Mutation>)
    requires Confined(c, fallback, ms) && SameCollection(c, s.storage, t.storage) && applied <= s.applied
    requires SameSeen(IdSet(ms) - applied, s.applied, t.applied)
    ensures var (p, q) := (Replay(node, fallback, s, ms), Replay(node, fallback, t, Unseen(applied, ms)));
            && p.result.Success? == q.result.Success? && p.result == q.result
            && SameCollection(c, p.state.storage, q.state.storage)
            && SameElsewhere(c, p.state.storage, s.storage)
    decreases ms
  {
    hide SameCollection, SameElsewhere, IdSet, ApplyRemote, VersionOf, ValidMetadata, Unseen;
    if ms == [] {
      Untouched(c, s.storage);
      NothingUnseen(applied);
    } else {
      var m, rest := ms[0], ms[1..];
      IdSetStep(ms, {});
      UnseenStep(applied, ms);
      if !ValidMetadata(m.metadata) {
        Untouched(c, s.storage);
      } else if !IsUnseen(applied)(m) {
        ReplayUnseen(node, fallback, c, applied, s, t, rest);
        assert [] + Unseen(applied, rest) == Unseen(applied, rest);
      } else {
        assert Unseen(applied, ms)[1..] == Unseen(applied, rest);
        TurnCongruent(node, fallback, c, s, t, m);
        match (ReplayOne(node, fallback, s, m), ReplayOne(node, fallback, t, m))
        case (Duplicate, _) =>
          ReplayUnseen(node, fallback, c, applied, s, t, rest);
        case (Applied(s1), Applied(t1)) =>
          ReplayUnseen(node, fallback, c, applied, s1, t1, rest);
          ElsewhereTransitive(c, Replay(node, fallback, s, ms).state.storage, s1.storage, s.storage);
        case _ =>
      }
    }
  }

  lemma NothingUnseen(applied: set<string>)
    ensures Unseen(applied, []) == []
  {}

  lemma Untouched(c: string, s: Storage)
    ensures SameElsewhere(c, s, s)
  {}

  lemma ElsewhereTransitive(c: string, r: Storage, s: Storage, t: Storage)
    requires SameElsewhere(c, r, s) && SameElsewhere(c, s, t)
    ensures SameElsewhere(c, r, t)
  {
    forall key: Key | key.0 != c ensures Lookup(r, key) == Lookup(t, key) {
      assert Lookup(r, key) == Lookup(s, key) == Lookup(t, key);
    }
  }

  /** One turn of the loop, from two states that agree on all it may look at. */
  lemma TurnCongruent(node: string, fallback: string, c: string, s: EngineState, t: EngineState, m: Mutation)
    requires TargetCollection(fallback, m) == c && SameCollection(c, s.storage, t.storage)
    requires m.writeId != "" ==> (m.writeId in s.applied <==> m.writeId in t.applied)
    ensures var (p, q) := (ReplayOne(node, fallback, s, m), ReplayOne(node, fallback, t, m));
            && p.Refused? == q.Refused? && p.Duplicate? == q.Duplicate?
            && (p.Refused? ==> p.error == q.error)
            && (!p.Duplicate? ==>
                  && SameCollection(c, p.after.storage, q.after.storage)
                  && SameElsewhere(c, p.after.storage, s.storage)
                  && forall id | id in s.applied <==> id in t.applied ::
                       id in p.after.applied <==> id in q.after.applied)
  {
    hide VersionOf, ValidMetadata, MergeVersion;
    var doc := VersionOf(node, m);
    if ID in doc {
      assert Lookup(s.storage, (c, doc[ID])) == Lookup(t.storage, (c, doc[ID]));
      ApplyCongruent(c, s.storage, t.storage, doc);
    }
  }

  lemma ApplyCongruent(c: string, s: Storage, t: Storage, doc: Document)
    requires SameCollection(c, s, t) && ID in doc
    ensures SameCollection(c, ApplyRemote(s, c, doc).value, ApplyRemote(t, c, doc).value)
    ensures SameElsewhere(c, ApplyRemote(s, c, doc).value, s)
  {
    hide MergeVersion;
    assert Lookup(s, (c, doc[ID])) == Lookup(t, (c, doc[ID]));
    forall id: Bson
      ensures Lookup(ApplyRemote(s, c, doc).value, (c, id)) == Lookup(ApplyRemote(t, c, doc).value, (c, id))
    {
      assert Lookup(s, (c, id)) == Lookup(t, (c, id));
    }
  }

  /* ---------- well-keyed stores ---------- */

  /** Each document of the collection carries the id it is stored under. */
  ghost predicate WellKeyed(c: string, storage: Storage) {
    forall key | key in storage && key.0 == c :: ID in storage[key] && storage[key][ID] == key.1
  }

  lemma MergeKeepsId(current: Option<Document>, incoming: Document, id: Bson)
    requires ID in incoming && incoming[ID] == id
    requires current.Some? ==> ID in current.value && current.value[ID] == id
    ensures var d := MergeVersion(current, incoming); ID in d && d[ID] == id
  {
    hide CompareRevisions;
  }

  lemma {:induction false} ReplayKeepsKeys(node: string, fallback: string, c: string, st: EngineState, ms: seq<Mutation>)
    requires WellKeyed(c, st.storage)
    ensures WellKeyed(c, Replay(node, fallback, st, ms).state.storage)
    decreases ms
  {
    hide VersionOf, ValidMetadata, MergeVersion;
    if ms != [] {
      var m := ms[0];
      match ReplayOne(node, fallback, st, m)
      case Refused(_, _) =>
      case Duplicate => ReplayKeepsKeys(node, fallback, c, st, ms[1..]);
      case Applied(after) =>
        var doc := VersionOf(node, m);
        if TargetCollection(fallback, m) == c {
          MergeKeepsId(Lookup(st.storage, (c, doc[ID])), doc, doc[ID]);
        }
        ReplayKeepsKeys(node, fallback, c, after, ms[1..]);
    }
  }
}
