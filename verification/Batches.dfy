/**
 Replaying a batch of remote mutations: one canonical order, every non-empty write id
 applied at most once, and the first invalid mutation ends the batch where it stands.
 */
module Batches {
  import opened Wrappers
  import opened Orders
  import opened StableSort
  import opened Documents
  import opened Merge
  import Sequences

  type Key = (string, Bson)
  type Storage = map<Key, Document>

  datatype EngineError =
    | DocumentNotFound
    | InvalidMetadata
    | DocumentTooLarge
    | InvalidOperator
    | Conflict

  datatype EngineState = EngineState(storage: Storage, applied: set<string>)

  /** What a replay leaves, what it answers, and whether it skipped a duplicate on the way. */
  datatype Outcome = Outcome(state: EngineState, result: Result<nat, EngineError>, skipped: bool)

  /** `(collection, timestamp, seq, doc_id, write_id)`, the key of the canonical order. */
  function CompareMutations(a: Mutation, b: Mutation): Ordering {
    CompareString(a.collection, b.collection)
      .Then(CompareInt(a.timestamp, b.timestamp))
      .Then(CompareInt(a.seqNo, b.seqNo))
      .Then(CompareString(a.docId.text, b.docId.text))
      .Then(CompareString(a.writeId, b.writeId))
  }

  predicate Above(a: string, b: string) {
    CompareString(a, b) == Greater
  }

  /** The five-way test of the drift scan on two neighbours. */
  predicate OutOfOrder(a: Mutation, b: Mutation) {
    || Above(a.collection, b.collection)
    || (a.collection == b.collection && a.timestamp > b.timestamp)
    || (a.collection == b.collection && a.timestamp == b.timestamp && a.seqNo > b.seqNo)
    || (a.collection == b.collection && a.timestamp == b.timestamp && a.seqNo == b.seqNo
        && Above(a.docId.text, b.docId.text))
    || (a.collection == b.collection && a.timestamp == b.timestamp && a.seqNo == b.seqNo
        && a.docId.text == b.docId.text && Above(a.writeId, b.writeId))
  }

  function Lookup(storage: Storage, key: Key): Option<Document> {
    if key in storage then Some(storage[key]) else None
  }

  /** `apply_remote_mutation`: the document names its own key. */
  function ApplyRemote(storage: Storage, collection: string, doc: Document): Result<Storage, EngineError> {
    if ID !in doc then Failure(DocumentNotFound)
    else
      var key := (collection, doc[ID]);
      Success(storage[key := MergeVersion(Lookup(storage, key), doc)])
  }

  function TargetCollection(fallback: string, m: Mutation): string {
    if m.collection == "" then fallback else m.collection
  }

  /** The document a mutation brings: its patch, or a tombstone made from the mutation. */
  function VersionOf(node: string, m: Mutation): Document {
    match m.patch
    case Some(doc) => doc
    case None =>
      map[ID := m.docId.value, DELETED := Boolean(true), REV := String(m.rev),
          UPDATED_AT := DateTime(m.timestamp), SOURCE_NODE := String(node)]
  }

  function Continue(applied: nat, skipped: bool, rest: Outcome): Outcome {
    Outcome(
      rest.state,
      if rest.result.Success? then Success(applied + rest.result.value) else rest.result,
      skipped || rest.skipped)
  }

  /** What one turn of the replay loop does. */
  datatype Turn =
    | Refused(error: EngineError, after: EngineState)
    | Duplicate
    | Applied(after: EngineState)

  function ReplayOne(node: string, fallback: string, st: EngineState, m: Mutation): Turn {
    if !ValidMetadata(m.metadata) then Refused(InvalidMetadata, st)
    else if m.writeId != "" && m.writeId in st.applied then Duplicate
    else
      var st1 := if m.writeId == "" then st else st.(applied := st.applied + {m.writeId});
      match ApplyRemote(st1.storage, TargetCollection(fallback, m), VersionOf(node, m))
      case Failure(e) => Refused(e, st1)
      case Success(storage) => Applied(st1.(storage := storage))
  }

  /** The replay loop, on mutations already in their order. */
  function Replay(node: string, fallback: string, st: EngineState, ms: seq<Mutation>): Outcome
    decreases ms
  {
    if ms == [] then Outcome(st, Success(0), false)
    else
      match ReplayOne(node, fallback, st, ms[0])
      case Refused(e, after) => Outcome(after, Failure(e), false)
      case Duplicate => Continue(0, true, Replay(node, fallback, st, ms[1..]))
      case Applied(after) => Continue(1, false, Replay(node, fallback, after, ms[1..]))
  }

  /** `apply_mutations_deterministic`. */
  function Batch(node: string, fallback: string, st: EngineState, ms: seq<Mutation>): Outcome {
    Replay(node, fallback, st, Sort(CompareMutations, ms))
  }

  /** The flag that makes the drift metric move. */
  ghost predicate Drift(ms: seq<Mutation>, out: Outcome) {
    out.skipped || exists i | 0 <= i < |ms| - 1 :: OutOfOrder(ms[i], ms[i + 1])
  }

  /* ---------- the canonical order ---------- */

  lemma MutationsPreorder(ms: iset<Mutation>)
    ensures PreorderOn(CompareMutations, ms)
  {
    forall a: Mutation, b: Mutation ensures CompareMutations(b, a) == CompareMutations(a, b).Reverse() {
      MutationsReverse(a, b);
    }
    forall a: Mutation ensures CompareMutations(a, a) == Equal {
      MutationsReverse(a, a);
    }
    forall a: Mutation, b: Mutation, c: Mutation
      | CompareMutations(a, b) != Greater && CompareMutations(b, c) != Greater
      ensures CompareMutations(a, c) != Greater
    {
      MutationsTransitive(a, b, c);
    }
  }

  lemma MutationsReverse(a: Mutation, b: Mutation)
    ensures CompareMutations(b, a) == CompareMutations(a, b).Reverse()
    ensures OutOfOrder(a, b) <==> CompareMutations(a, b) == Greater
  {
    hide CompareString;
    CompareStringTotalOrder(a.collection, b.collection, b.collection);
    CompareStringTotalOrder(a.docId.text, b.docId.text, b.docId.text);
    CompareStringTotalOrder(a.writeId, b.writeId, b.writeId);
  }

  lemma MutationsTransitive(a: Mutation, b: Mutation, c: Mutation)
    requires CompareMutations(a, b) != Greater && CompareMutations(b, c) != Greater
    ensures CompareMutations(a, c) != Greater
  {
    hide CompareString;
    CompareStringTotalOrder(a.collection, b.collection, c.collection);
    CompareStringTotalOrder(b.collection, c.collection, a.collection);
    CompareStringTotalOrder(a.docId.text, b.docId.text, c.docId.text);
    CompareStringTotalOrder(b.docId.text, c.docId.text, a.docId.text);
    CompareStringTotalOrder(a.writeId, b.writeId, c.writeId);
  }

  /** The scan of neighbours finds something exactly when the batch is not sorted as a whole. */
  lemma ScanDecidesOrder(ms: seq<Mutation>)
    ensures (exists i | 0 <= i < |ms| - 1 :: OutOfOrder(ms[i], ms[i + 1])) <==> !Sorted(CompareMutations, ms)
  {
    hide CompareMutations, OutOfOrder;
    MutationsPreorder(Elements(ms));
    AdjacentSorted(CompareMutations, ms, Elements(ms));
    forall i | 0 <= i < |ms| - 1
      ensures OutOfOrder(ms[i], ms[i + 1]) <==> CompareMutations(ms[i], ms[i + 1]) == Greater
    {
      MutationsReverse(ms[i], ms[i + 1]);
    }
  }

  /** Mutations that tie on the whole key being equal, the order of arrival is forgotten. */
  lemma BatchForgetsOrder(node: string, fallback: string, st: EngineState, ms: seq<Mutation>, ns: seq<Mutation>)
    requires multiset(ms) == multiset(ns) && TiesEqual(CompareMutations, ms)
    ensures Batch(node, fallback, st, ms) == Batch(node, fallback, st, ns)
  {
    MutationsPreorder(Elements(ms));
    SortForgetsOrder(CompareMutations, ms, ns, Elements(ms));
  }

  /* ---------- composition ---------- */

  lemma {:induction false} ReplayAppend(
    node: string, fallback: string, st: EngineState, xs: seq<Mutation>, ys: seq<Mutation>)
    ensures var first := Replay(node, fallback, st, xs);
            Replay(node, fallback, st, xs + ys) ==
            if first.result.Failure? then first
            else Continue(first.result.value, first.skipped, Replay(node, fallback, first.state, ys))
    decreases xs
  {
    hide ReplayOne;
    if xs == [] {
      assert xs + ys == ys;
    } else {
      assert (xs + ys)[1..] == xs[1..] + ys;
      match ReplayOne(node, fallback, st, xs[0])
      case Refused(_, _) =>
      case Duplicate => ReplayAppend(node, fallback, st, xs[1..], ys);
      case Applied(after) => ReplayAppend(node, fallback, after, xs[1..], ys);
    }
  }

  lemma ReplayNothing(node: string, fallback: string, st: EngineState)
    ensures Replay(node, fallback, st, []) == Outcome(st, Success(0), false)
  {}

  /** What one more turn does to a replay that has already come some way. */
  lemma ReplayTurn(node: string, fallback: string, st: EngineState, ms: seq<Mutation>, applied: nat, skipped: bool)
    requires ms != []
    ensures Continue(applied, skipped, Replay(node, fallback, st, ms)) ==
            match ReplayOne(node, fallback, st, ms[0])
            case Refused(e, after) => Outcome(after, Failure(e), skipped)
            case Duplicate => Continue(applied, true, Replay(node, fallback, st, ms[1..]))
            case Applied(after) => Continue(applied + 1, skipped, Replay(node, fallback, after, ms[1..]))
  {
    hide ReplayOne;
  }

  /** A batch whose first part is canonically below its second is the two parts one after the other. */
  lemma BatchSplits(node: string, fallback: string, st: EngineState, xs: seq<Mutation>, ys: seq<Mutation>)
    requires AllBelow(CompareMutations, xs, ys)
    ensures var first := Batch(node, fallback, st, xs);
            Batch(node, fallback, st, xs + ys) ==
            if first.result.Failure? then first
            else Continue(first.result.value, first.skipped, Batch(node, fallback, first.state, ys))
  {
    MutationsPreorder(Elements(xs + ys));
    SortSplit(CompareMutations, xs, ys, Elements(xs + ys));
    ReplayAppend(node, fallback, st, Sort(CompareMutations, xs), Sort(CompareMutations, ys));
  }

  /* ---------- exactly once ---------- */

  /** The non-empty write ids of a batch, with their repetitions. */
  function Ids(ms: seq<Mutation>): multiset<string> {
    if ms == [] then multiset{}
    else (if ms[0].writeId == "" then multiset{} else multiset{ms[0].writeId}) + Ids(ms[1..])
  }

  function Anonymous(ms: seq<Mutation>): nat {
    if ms == [] then 0 else (if ms[0].writeId == "" then 1 else 0) + Anonymous(ms[1..])
  }

  ghost function IdSet(ms: seq<Mutation>): set<string> {
    set id | id in Ids(ms)
  }

  /** Each non-empty write id occurs at most once, and not at all once applied. */
  ghost predicate Fresh(ms: seq<Mutation>, applied: set<string>) {
    forall id | id in Ids(ms) :: Ids(ms)[id] <= 1 && id !in applied
  }

  lemma {:induction false} IdsAppend(xs: seq<Mutation>, ys: seq<Mutation>)
    ensures Ids(xs + ys) == Ids(xs) + Ids(ys)
    ensures Anonymous(xs + ys) == Anonymous(xs) + Anonymous(ys)
  {
    if xs == [] {
      assert xs + ys == ys;
    } else {
      assert (xs + ys)[1..] == xs[1..] + ys;
      IdsAppend(xs[1..], ys);
    }
  }

  lemma {:induction false} IdsPermute(xs: seq<Mutation>, ys: seq<Mutation>)
    requires multiset(xs) == multiset(ys)
    ensures Ids(xs) == Ids(ys) && Anonymous(xs) == Anonymous(ys)
  {
    Sequences.SameSize(xs, ys);
    if xs != [] {
      var i := Sequences.FindLast(xs, ys);
      Sequences.SplitLast(xs);
      Sequences.SplitAt(ys, i);
      var init, last := xs[..|xs| - 1], xs[|xs| - 1];
      IdsPermute(init, ys[..i] + ys[i + 1..]);
      IdsAppend(init, [last]);
      IdsAppend(ys[..i], ys[i + 1..]);
      IdsAppend(ys[..i], [last] + ys[i + 1..]);
      IdsAppend([last], ys[i + 1..]);
    }
  }

  /** What a successful replay counts and remembers; it skips something exactly when the ids were not fresh. */
  lemma {:induction false} ReplayCounts(node: string, fallback: string, st: EngineState, ms: seq<Mutation>)
    requires Replay(node, fallback, st, ms).result.Success?
    ensures var out := Replay(node, fallback, st, ms);
            && out.state.applied == st.applied + IdSet(ms)
            && out.result.value + |st.applied| == |out.state.applied| + Anonymous(ms)
            && (out.skipped <==> !Fresh(ms, st.applied))
    decreases ms
  {
    hide ApplyRemote, VersionOf, ValidMetadata, Ids, IdSet, Fresh;
    if ms == [] {
      NoIds(st.applied);
    } else {
      IdSetStep(ms, st.applied);
      match ReplayOne(node, fallback, st, ms[0])
      case Refused(_, _) =>
      case Duplicate => ReplayCounts(node, fallback, st, ms[1..]);
      case Applied(after) =>
        ReplayCounts(node, fallback, after, ms[1..]);
        FreshStep(ms, st.applied);
    }
  }

  lemma NoIds(applied: set<string>)
    ensures IdSet([]) == {} && Fresh([], applied)
  {}

  lemma IdSetStep(ms: seq<Mutation>, applied: set<string>)
    requires ms != []
    ensures IdSet(ms) == IdSet(ms[1..]) + if ms[0].writeId == "" then {} else {ms[0].writeId}
    ensures ms[0].writeId != "" && ms[0].writeId in applied ==> !Fresh(ms, applied)
  {}

  lemma FreshStep(ms: seq<Mutation>, applied: set<string>)
    requires ms != [] && (ms[0].writeId != "" ==> ms[0].writeId !in applied)
    ensures ms[0].writeId == "" ==> (Fresh(ms, applied) <==> Fresh(ms[1..], applied))
    ensures ms[0].writeId != "" ==> (Fresh(ms, applied) <==> Fresh(ms[1..], applied + {ms[0].writeId}))
  {
    if ms[0].writeId != "" {
      assert forall id | id in Ids(ms[1..]) :: id in Ids(ms);
      assert forall id | id != ms[0].writeId :: Ids(ms)[id] == Ids(ms[1..])[id];
      assert Ids(ms)[ms[0].writeId] == 1 + Ids(ms[1..])[ms[0].writeId];
      if Fresh(ms[1..], applied + {ms[0].writeId}) {
        assert ms[0].writeId !in Ids(ms[1..]);
        forall id | id in Ids(ms) ensures Ids(ms)[id] <= 1 && id !in applied {
          assert id == ms[0].writeId || id in Ids(ms[1..]);
        }
      }
    } else {
      assert Ids(ms) == Ids(ms[1..]);
    }
  }

  /** The same for a batch in any order of arrival, together with the exact meaning of the drift flag. */
  lemma BatchCounts(node: string, fallback: string, st: EngineState, ms: seq<Mutation>)
    requires Batch(node, fallback, st, ms).result.Success?
    ensures var out := Batch(node, fallback, st, ms);
            && out.state.applied == st.applied + IdSet(ms)
            && out.result.value + |st.applied| == |out.state.applied| + Anonymous(ms)
            && (Drift(ms, out) <==> !Sorted(CompareMutations, ms) || !Fresh(ms, st.applied))
  {
    hide CompareMutations, OutOfOrder, Replay;
    SortMultiset(CompareMutations, ms);
    IdsPermute(Sort(CompareMutations, ms), ms);
    ReplayCounts(node, fallback, st, Sort(CompareMutations, ms));
    ScanDecidesOrder(ms);
  }

  /** A run of batches; `None` once one of them fails. */
  function RunBatches(node: string, fallback: string, st: EngineState, batches: seq<seq<Mutation>>)
    : Option<(EngineState, nat)>
  {
    if batches == [] then Some((st, 0))
    else
      match RunBatches(node, fallback, st, batches[..|batches| - 1])
      case None => None
      case Some((st1, total)) =>
        var out := Batch(node, fallback, st1, batches[|batches| - 1]);
        if out.result.Success? then Some((out.state, total + out.result.value)) else None
  }

  function Concatenated(batches: seq<seq<Mutation>>): seq<Mutation> {
    if batches == [] then [] else Concatenated(batches[..|batches| - 1]) + batches[|batches| - 1]
  }

  /**
   Exactly once over a whole run: the total is the number of distinct non-empty write ids
   not applied before, plus the number of mutations that carry none.
   */
  lemma {:induction false} RunCountsOnce(node: string, fallback: string, st: EngineState, batches: seq<seq<Mutation>>)
    requires RunBatches(node, fallback, st, batches).Some?
    ensures var (final, total) := RunBatches(node, fallback, st, batches).value;
            && final.applied == st.applied + IdSet(Concatenated(batches))
            && total == |IdSet(Concatenated(batches)) - st.applied| + Anonymous(Concatenated(batches))
  {
    hide Batch;
    var all := Concatenated(batches);
    RunCounts(node, fallback, st, batches);
    var final := RunBatches(node, fallback, st, batches).value.0;
    assert final.applied == st.applied + (IdSet(all) - st.applied);
    assert |final.applied| == |st.applied| + |IdSet(all) - st.applied|;
  }

  lemma {:induction false} RunCounts(node: string, fallback: string, st: EngineState, batches: seq<seq<Mutation>>)
    requires RunBatches(node, fallback, st, batches).Some?
    ensures var (final, total) := RunBatches(node, fallback, st, batches).value;
            && final.applied == st.applied + IdSet(Concatenated(batches))
            && total + |st.applied| == |final.applied| + Anonymous(Concatenated(batches))
  {
    hide Batch, Drift;
    if batches != [] {
      var init, last := batches[..|batches| - 1], batches[|batches| - 1];
      RunCounts(node, fallback, st, init);
      BatchCounts(node, fallback, RunBatches(node, fallback, st, init).value.0, last);
      IdsAppend(Concatenated(init), last);
      assert IdSet(Concatenated(batches)) == IdSet(Concatenated(init)) + IdSet(last);
    }
  }

  /** Sending a successful batch of named mutations again, at any later time, changes nothing and counts nothing. */
  lemma ReapplyIsIdle(node: string, fallback: string, st: EngineState, later: EngineState, ms: seq<Mutation>)
    requires Batch(node, fallback, st, ms).result.Success?
    requires Anonymous(ms) == 0 && Batch(node, fallback, st, ms).state.applied <= later.applied
    ensures Batch(node, fallback, later, ms) == Outcome(later, Success(0), ms != [])
  {
    var sorted := Sort(CompareMutations, ms);
    SortMultiset(CompareMutations, ms);
    IdsPermute(sorted, ms);
    ReplayCounts(node, fallback, st, sorted);
    ReplayIdle(node, fallback, st, later, sorted);
    Sequences.SameSize(sorted, ms);
  }

  lemma {:induction false} ReplayIdle(node: string, fallback: string, st: EngineState, later: EngineState, ms: seq<Mutation>)
    requires Replay(node, fallback, st, ms).result.Success?
    requires Anonymous(ms) == 0 && IdSet(ms) <= later.applied
    ensures Replay(node, fallback, later, ms) == Outcome(later, Success(0), ms != [])
    decreases ms
  {
    hide ApplyRemote, VersionOf, ValidMetadata;
    if ms != [] {
      var m := ms[0];
      assert m.writeId in Ids(ms) && (forall id | id in Ids(ms[1..]) :: id in Ids(ms));
      match ReplayOne(node, fallback, st, m)
      case Refused(_, _) =>
      case Duplicate => ReplayIdle(node, fallback, st, later, ms[1..]);
      case Applied(after) => ReplayIdle(node, fallback, after, later, ms[1..]);
    }
  }
}
