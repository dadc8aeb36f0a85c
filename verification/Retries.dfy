/**
 Batches that fail. A mutation's write id is recorded before the mutation is applied, so one
 that is then refused for want of an `_id` is taken for applied ever after.
 */
module Retries {
  import opened Wrappers
  import opened StableSort
  import opened Documents
  import opened Batches

  /** The mutation brings a document without an `_id`: a tombstone always has one. */
  predicate Headless(m: Mutation) {
    m.patch.Some? && ID !in m.patch.value
  }

  predicate Named(m: Mutation) {
    m.writeId != ""
  }

  /** Recorded without being applied. */
  predicate Loses(m: Mutation) {
    ValidMetadata(m.metadata) && Named(m) && Headless(m)
  }

  /** The first mutation the replay refuses, which the store has no say in. */
  function FirstRefused(applied: set<string>, ms: seq<Mutation>): Option<Mutation>
    decreases ms
  {
    if ms == [] then None
    else
      var m := ms[0];
      if !ValidMetadata(m.metadata) then Some(m)
      else if Named(m) && m.writeId in applied then FirstRefused(applied, ms[1..])
      else if Headless(m) then Some(m)
      else FirstRefused(if Named(m) then applied + {m.writeId} else applied, ms[1..])
  }

  /** The write ids whose mutations the replay merged. */
  function MergedIds(node: string, fallback: string, st: EngineState, ms: seq<Mutation>): set<string>
    decreases ms
  {
    if ms == [] then {}
    else
      match ReplayOne(node, fallback, st, ms[0])
      case Refused(_, _) => {}
      case Duplicate => MergedIds(node, fallback, st, ms[1..])
      case Applied(after) =>
        (if Named(ms[0]) then {ms[0].writeId} else {}) + MergedIds(node, fallback, after, ms[1..])
  }

  /** The write id of the mutation that ended the replay without being merged but was recorded. */
  function LostIds(applied: set<string>, ms: seq<Mutation>): set<string> {
    var stop := FirstRefused(applied, ms);
    if stop.Some? && Loses(stop.value) then {stop.value.writeId} else {}
  }

  /**
   What any replay records, whether it succeeds or fails: the ids it merged and the one it
   lost, none of them seen before. It fails exactly at the first refused mutation.
   */
  lemma {:induction false} ReplayRecords(node: string, fallback: string, st: EngineState, ms: seq<Mutation>)
    ensures var out := Replay(node, fallback, st, ms);
            var merged, lost := MergedIds(node, fallback, st, ms), LostIds(st.applied, ms);
            var stop := FirstRefused(st.applied, ms);
            && out.state.applied == st.applied + merged + lost
            && merged !! st.applied && lost !! st.applied && lost !! merged
            && (out.result.Success? <==> stop.None?)
            && (stop.Some? ==>
                  out.result == Failure(if ValidMetadata(stop.value.metadata) then DocumentNotFound else InvalidMetadata))
    decreases ms
  {
    hide ValidMetadata;
    if ms != [] {
      match ReplayOne(node, fallback, st, ms[0])
      case Refused(_, _) =>
      case Duplicate => ReplayRecords(node, fallback, st, ms[1..]);
      case Applied(after) => ReplayRecords(node, fallback, after, ms[1..]);
    }
  }

  /* ---------- sending a mutation again ---------- */

  /**
   One mutation fails and succeeds when sent again exactly when it has valid metadata, a new
   write id, and a document without an `_id`; nothing has then been stored.
   */
  lemma FailureIsNotRetried(node: string, fallback: string, st: EngineState, m: Mutation)
    ensures var first := Batch(node, fallback, st, [m]);
            var again := Batch(node, fallback, first.state, [m]);
            && (first.result.Failure? && again.result.Success? <==> Loses(m) && m.writeId !in st.applied)
            && (first.result.Failure? && again.result.Success? ==>
                  again == Outcome(first.state, Success(0), true) && first.state.storage == st.storage)
  {
    hide ValidMetadata;
    assert [m][1..] == [];
    assert Sort(CompareMutations, [m]) == [m];
    var first := Replay(node, fallback, st, [m]);
    ReplayNothing(node, fallback, first.state);
    ReplayRecords(node, fallback, st, [m]);
    assert Replay(node, fallback, st, []) == Outcome(st, Success(0), false);
  }

  /** A refusal that records nothing is met again by every later replay of the same mutations. */
  lemma {:induction false} RefusalStays(applied: set<string>, later: set<string>, ms: seq<Mutation>)
    requires applied <= later && FirstRefused(applied, ms).Some? && FirstRefused(later, ms).None?
    ensures var m := FirstRefused(applied, ms).value; m in ms && Loses(m) && m.writeId in later
    decreases ms
  {
    hide ValidMetadata;
    var m := ms[0];
    if ValidMetadata(m.metadata) && !Headless(m) {
      var a := if Named(m) then applied + {m.writeId} else applied;
      var l := if Named(m) then later + {m.writeId} else later;
      RefusalAdvances(applied, ms);
      RefusalAdvances(later, ms);
      if Named(m) && m.writeId in later {
        assert l == later;
      }
      if Named(m) && m.writeId in applied {
        assert a == applied;
      }
      RefusalStays(a, l, ms[1..]);
      if Named(m) && FirstRefused(applied, ms).value.writeId == m.writeId {
        FirstRefusedIsNew(a, ms[1..]);
      }
    } else if Named(m) && m.writeId in applied {
      RefusalStays(applied, later, ms[1..]);
    }
  }

  lemma RefusalAdvances(applied: set<string>, ms: seq<Mutation>)
    requires ms != [] && ValidMetadata(ms[0].metadata) && !Headless(ms[0])
    ensures FirstRefused(applied, ms) ==
            FirstRefused(if Named(ms[0]) then applied + {ms[0].writeId} else applied, ms[1..])
  {
    hide ValidMetadata;
    if Named(ms[0]) && ms[0].writeId in applied {
      assert applied + {ms[0].writeId} == applied;
    }
  }

  /** A headless mutation is refused only while its id is new. */
  lemma {:induction false} FirstRefusedIsNew(applied: set<string>, ms: seq<Mutation>)
    ensures var stop := FirstRefused(applied, ms);
            stop.Some? && Loses(stop.value) ==> stop.value in ms && stop.value.writeId !in applied
    decreases ms
  {
    hide ValidMetadata;
    if ms != [] {
      var m := ms[0];
      FirstRefusedIsNew(applied, ms[1..]);
      FirstRefusedIsNew(applied + {m.writeId}, ms[1..]);
    }
  }

  /**
   A whole batch that failed and, sent again at any later time, succeeds has lost a mutation:
   the one it stopped at, whose id no replay will ever merge.
   */
  lemma RetriedBatchLost(node: string, fallback: string, st: EngineState, later: EngineState, ms: seq<Mutation>)
    requires Batch(node, fallback, st, ms).result.Failure?
    requires Batch(node, fallback, st, ms).state.applied <= later.applied
    requires Batch(node, fallback, later, ms).result.Success?
    ensures var sorted := Sort(CompareMutations, ms);
            var stop := FirstRefused(st.applied, sorted);
            && stop.Some? && stop.value in ms && Loses(stop.value)
            && LostIds(st.applied, sorted) == {stop.value.writeId}
            && stop.value.writeId !in MergedIds(node, fallback, st, sorted)
            && stop.value.writeId !in MergedIds(node, fallback, later, sorted)
  {
    hide Replay, FirstRefused, MergedIds, ValidMetadata;
    var sorted := Sort(CompareMutations, ms);
    ReplayRecords(node, fallback, st, sorted);
    ReplayRecords(node, fallback, later, sorted);
    RefusalStays(st.applied, later.applied, sorted);
    SortElements(CompareMutations, ms);
  }

  /* ---------- sending a batch until it succeeds ---------- */

  /** Nothing in the batch is refused for ever: its metadata is valid, and what lacks an `_id` has a write id. */
  predicate Replayable(ms: seq<Mutation>) {
    forall m | m in ms :: ValidMetadata(m.metadata) && (Headless(m) ==> Named(m))
  }

  /** The new write ids that first occur, in this order, on a mutation without an `_id`. */
  function Orphans(applied: set<string>, ms: seq<Mutation>): set<string>
    decreases ms
  {
    if ms == [] then {}
    else if Named(ms[0]) && ms[0].writeId !in applied then
      (if Headless(ms[0]) then {ms[0].writeId} else {}) + Orphans(applied + {ms[0].writeId}, ms[1..])
    else Orphans(applied, ms[1..])
  }

  /** Ids recorded meanwhile are orphans no more, and no others. */
  lemma {:induction false} OrphansLess(applied: set<string>, more: set<string>, ms: seq<Mutation>)
    ensures Orphans(applied + more, ms) == Orphans(applied, ms) - more
    ensures Orphans(applied, ms) !! applied
    decreases ms
  {
    hide Headless;
    if ms != [] {
      var m, rest := ms[0], ms[1..];
      OrphansLess(applied, more, rest);
      if Named(m) && m.writeId !in applied {
        OrphansLess(applied + {m.writeId}, more, rest);
        if m.writeId in more {
          assert applied + {m.writeId} + more == applied + more;
        } else {
          assert applied + {m.writeId} + more == applied + more + {m.writeId};
        }
      }
    }
  }

  lemma {:induction false} RefusesNoneIff(applied: set<string>, ms: seq<Mutation>)
    ensures FirstRefused(applied, ms).None? <==> Replayable(ms) && Orphans(applied, ms) == {}
    decreases ms
  {
    hide ValidMetadata, Headless;
    if ms != [] {
      var m, rest := ms[0], ms[1..];
      assert ms == [m] + rest;
      RefusesNoneIff(applied, rest);
      RefusesNoneIff(applied + {m.writeId}, rest);
    }
  }

  lemma {:induction false} MergedAreNoOrphans(node: string, fallback: string, st: EngineState, ms: seq<Mutation>)
    ensures MergedIds(node, fallback, st, ms) !! Orphans(st.applied, ms)
    ensures LostIds(st.applied, ms) <= Orphans(st.applied, ms)
    decreases ms
  {
    hide ValidMetadata, ApplyRemote;
    if ms != [] {
      var m, rest := ms[0], ms[1..];
      OrphansLess(st.applied, {}, ms);
      AppliesWithId(node, fallback, st, m);
      match ReplayOne(node, fallback, st, m)
      case Refused(_, _) =>
      case Duplicate => MergedAreNoOrphans(node, fallback, st, rest);
      case Applied(after) =>
        MergedAreNoOrphans(node, fallback, after, rest);
        OrphansLess(after.applied, {}, rest);
        ReplayRecords(node, fallback, after, rest);
    }
  }

  /** What is applied brings its `_id` and records its write id; nothing else is applied. */
  lemma AppliesWithId(node: string, fallback: string, st: EngineState, m: Mutation)
    ensures var turn := ReplayOne(node, fallback, st, m);
            && (turn.Applied? <==>
                  ValidMetadata(m.metadata) && !Headless(m) && !(Named(m) && m.writeId in st.applied))
            && (turn.Applied? ==> turn.after.applied == if Named(m) then st.applied + {m.writeId} else st.applied)
  {
    hide ValidMetadata;
  }

  /** One sending of a replayable batch leaves one orphan fewer, if there was one. */
  lemma OrphansAfter(node: string, fallback: string, st: EngineState, ms: seq<Mutation>)
    requires Replayable(ms)
    ensures var after := Replay(node, fallback, st, ms).state;
            |Orphans(after.applied, ms)| == if Orphans(st.applied, ms) == {} then 0 else |Orphans(st.applied, ms)| - 1
  {
    hide Replay, ValidMetadata, MergedIds, Orphans, Headless;
    var merged, lost := MergedIds(node, fallback, st, ms), LostIds(st.applied, ms);
    ReplayRecords(node, fallback, st, ms);
    MergedAreNoOrphans(node, fallback, st, ms);
    RefusesNoneIff(st.applied, ms);
    OrphansLess(st.applied, merged + lost, ms);
    assert st.applied + merged + lost == st.applied + (merged + lost);
    assert Orphans(st.applied, ms) - (merged + lost) == Orphans(st.applied, ms) - lost;
    if Orphans(st.applied, ms) != {} {
      FirstRefusedOccurs(st.applied, ms);
      var id := FirstRefused(st.applied, ms).value.writeId;
      assert lost == {id};
    }
  }

  lemma {:induction false} FirstRefusedOccurs(applied: set<string>, ms: seq<Mutation>)
    ensures var stop := FirstRefused(applied, ms);
            stop.Some? ==> stop.value in ms && (!ValidMetadata(stop.value.metadata) || Headless(stop.value))
    decreases ms
  {
    hide ValidMetadata, Headless;
    if ms != [] {
      FirstRefusedOccurs(applied, ms[1..]);
      FirstRefusedOccurs(applied + {ms[0].writeId}, ms[1..]);
    }
  }

  /** The engine after a batch was sent a number of times. */
  function Resent(node: string, fallback: string, st: EngineState, ms: seq<Mutation>, n: nat): EngineState {
    if n == 0 then st else Batch(node, fallback, Resent(node, fallback, st, ms, n - 1), ms).state
  }

  lemma {:induction false} OrphansLeft(node: string, fallback: string, st: EngineState, ms: seq<Mutation>, n: nat)
    requires Replayable(Sort(CompareMutations, ms))
    ensures var sorted := Sort(CompareMutations, ms);
            var all := |Orphans(st.applied, sorted)|;
            |Orphans(Resent(node, fallback, st, ms, n).applied, sorted)| == if n < all then all - n else 0
  {
    hide Replay, Replayable, Orphans, CompareMutations, Sort;
    if n > 0 {
      OrphansLeft(node, fallback, st, ms, n - 1);
      OrphansAfter(node, fallback, Resent(node, fallback, st, ms, n - 1), Sort(CompareMutations, ms));
    }
  }

  /**
   How often a batch fails when it is sent over and over: exactly once for each of its orphans,
   each time losing one of them, and for ever if it is not replayable.
   */
  lemma ResendSucceedsIff(node: string, fallback: string, st: EngineState, ms: seq<Mutation>, n: nat)
    ensures Batch(node, fallback, Resent(node, fallback, st, ms, n), ms).result.Success? <==>
            Replayable(ms) && n >= |Orphans(st.applied, Sort(CompareMutations, ms))|
  {
    hide Replay, FirstRefused, Replayable, Orphans, MergedIds, CompareMutations;
    var sorted := Sort(CompareMutations, ms);
    var now := Resent(node, fallback, st, ms, n);
    ReplayableSorts(ms);
    ReplayRecords(node, fallback, now, sorted);
    RefusesNoneIff(now.applied, sorted);
    if Replayable(sorted) {
      OrphansLeft(node, fallback, st, ms, n);
      assert |Orphans(now.applied, sorted)| == 0 <==> Orphans(now.applied, sorted) == {};
    }
  }

  lemma ReplayableSorts(ms: seq<Mutation>)
    ensures Replayable(Sort(CompareMutations, ms)) <==> Replayable(ms)
  {
    hide CompareMutations, ValidMetadata, Headless;
    SortElements(CompareMutations, ms);
  }

  /** So a batch fails and then succeeds when sent again at once exactly when it is replayable and has one orphan. */
  lemma RetriedBatchIff(node: string, fallback: string, st: EngineState, ms: seq<Mutation>)
    ensures var first := Batch(node, fallback, st, ms);
            var again := Batch(node, fallback, first.state, ms);
            first.result.Failure? && again.result.Success? <==>
            Replayable(ms) && |Orphans(st.applied, Sort(CompareMutations, ms))| == 1
  {
    hide Batch, Replayable, Orphans;
    ResendSucceedsIff(node, fallback, st, ms, 0);
    ResendSucceedsIff(node, fallback, st, ms, 1);
    assert Resent(node, fallback, st, ms, 1) == Batch(node, fallback, Resent(node, fallback, st, ms, 0), ms).state;
  }

  /* ---------- runs in which batches fail ---------- */

  /** The engine after a run of batches, each sent whatever became of those before. */
  function RunAll(node: string, fallback: string, st: EngineState, batches: seq<seq<Mutation>>): EngineState {
    if batches == [] then st
    else Batch(node, fallback, RunAll(node, fallback, st, batches[..|batches| - 1]), batches[|batches| - 1]).state
  }

  function RunMerged(node: string, fallback: string, st: EngineState, batches: seq<seq<Mutation>>): set<string> {
    if batches == [] then {}
    else
      var k := |batches| - 1;
      RunMerged(node, fallback, st, batches[..k])
      + MergedIds(node, fallback, RunAll(node, fallback, st, batches[..k]), Sort(CompareMutations, batches[k]))
  }

  function RunLost(node: string, fallback: string, st: EngineState, batches: seq<seq<Mutation>>): set<string> {
    if batches == [] then {}
    else
      var k := |batches| - 1;
      RunLost(node, fallback, st, batches[..k])
      + LostIds(RunAll(node, fallback, st, batches[..k]).applied, Sort(CompareMutations, batches[k]))
  }

  /**
   Over every run, failed batches included, the ids recorded are those merged and those lost,
   and no id is both: once lost, no later batch brings its mutation in.
   */
  lemma {:induction false} RunRecords(node: string, fallback: string, st: EngineState, batches: seq<seq<Mutation>>)
    ensures var merged, lost := RunMerged(node, fallback, st, batches), RunLost(node, fallback, st, batches);
            && RunAll(node, fallback, st, batches).applied == st.applied + merged + lost
            && merged !! st.applied && lost !! st.applied && lost !! merged
  {
    hide Replay, MergedIds, LostIds, CompareMutations;
    if batches != [] {
      var k := |batches| - 1;
      RunRecords(node, fallback, st, batches[..k]);
      ReplayRecords(node, fallback, RunAll(node, fallback, st, batches[..k]), Sort(CompareMutations, batches[k]));
    }
  }

  /** A batch that stops at a mutation it records. */
  ghost predicate StopsLosing(node: string, fallback: string, st: EngineState, batches: seq<seq<Mutation>>, k: nat)
    requires k < |batches|
  {
    var stop := FirstRefused(RunAll(node, fallback, st, batches[..k]).applied, Sort(CompareMutations, batches[k]));
    stop.Some? && Loses(stop.value)
  }

  /**
   So every write id recorded in a run belongs to a merged mutation exactly when no batch of
   the run stopped at a named mutation without an `_id`.
   */
  lemma {:induction false} RecordedIsMergedIff(
    node: string, fallback: string, st: EngineState, batches: seq<seq<Mutation>>)
    ensures RunAll(node, fallback, st, batches).applied == st.applied + RunMerged(node, fallback, st, batches) <==>
            forall k | 0 <= k < |batches| :: !StopsLosing(node, fallback, st, batches, k)
  {
    hide MergedIds, FirstRefused, Batch, CompareMutations, ValidMetadata;
    RunRecords(node, fallback, st, batches);
    LostMeaning(node, fallback, st, batches);
    if RunLost(node, fallback, st, batches) != {} {
      var id :| id in RunLost(node, fallback, st, batches);
      assert id in RunAll(node, fallback, st, batches).applied;
    }
  }

  lemma {:induction false} LostMeaning(node: string, fallback: string, st: EngineState, batches: seq<seq<Mutation>>)
    ensures RunLost(node, fallback, st, batches) == {} <==>
            forall k | 0 <= k < |batches| :: !StopsLosing(node, fallback, st, batches, k)
  {
    hide RunAll, FirstRefused, CompareMutations, ValidMetadata;
    if batches != [] {
      var n := |batches| - 1;
      var init := batches[..n];
      LostMeaning(node, fallback, st, init);
      forall k | 0 <= k < n
        ensures StopsLosing(node, fallback, st, init, k) == StopsLosing(node, fallback, st, batches, k)
      {
        assert init[..k] == batches[..k] && init[k] == batches[k];
      }
      var lost := LostIds(RunAll(node, fallback, st, init).applied, Sort(CompareMutations, batches[n]));
      assert RunLost(node, fallback, st, batches) == RunLost(node, fallback, st, init) + lost;
      assert lost == {} <==> !StopsLosing(node, fallback, st, batches, n);
    }
  }

  /** In particular none is lost when every named mutation with valid metadata brings its `_id`. */
  lemma {:induction false} NothingLost(node: string, fallback: string, st: EngineState, batches: seq<seq<Mutation>>)
    requires forall batch, m | batch in batches && m in batch :: !Loses(m)
    ensures RunLost(node, fallback, st, batches) == {}
  {
    hide FirstRefused, CompareMutations, ValidMetadata, Loses, RunAll;
    if batches != [] {
      var k := |batches| - 1;
      var applied, sorted := RunAll(node, fallback, st, batches[..k]).applied, Sort(CompareMutations, batches[k]);
      assert batches[k] in batches;
      NothingLost(node, fallback, st, batches[..k]);
      FirstRefusedIsNew(applied, sorted);
      SortElements(CompareMutations, batches[k]);
    }
  }
}
