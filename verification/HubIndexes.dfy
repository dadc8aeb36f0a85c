/**
 The hub's two indexes: what they mean, that they always equal what a restart would
 rebuild from the log, and the idempotence that rests on them.
 */
module HubIndexes {
  import opened Wrappers
  import opened Documents
  import opened Oplog
  import opened Hub
  import opened HubShape

  /* ---------- what a restart rebuilds ---------- */

  function CheckpointsOver(log: seq<Entry>): map<Scope, nat> {
    if log == [] then map[]
    else IndexCheckpoint(CheckpointsOver(log[..|log| - 1]), log[|log| - 1].seqNo, log[|log| - 1].mutation)
  }

  function WriteIdsOver(log: seq<Entry>): map<WriteKey, nat> {
    if log == [] then map[]
    else IndexWriteId(WriteIdsOver(log[..|log| - 1]), log[|log| - 1].seqNo, log[|log| - 1].mutation)
  }

  /** Numbers strictly increase from one on and none is above the latest. */
  ghost predicate WellNumbered(log: seq<Entry>, latest: nat) {
    && Increasing(log)
    && forall e | e in log :: 1 <= e.seqNo <= latest
  }

  /** `build_scoped_indexes`: read everything from number one, with a page of latest plus one. */
  function Rebuilt(log: seq<Entry>, latest: nat): (map<Scope, nat>, map<WriteKey, nat>) {
    if latest == 0 then (map[], map[])
    else
      var entries := ReadLog(log, 1, latest + 1);
      (CheckpointsOver(entries), WriteIdsOver(entries))
  }

  lemma {:induction false} NumbersBoundLength(log: seq<Entry>, latest: nat)
    requires WellNumbered(log, latest)
    ensures |log| <= latest
    ensures log != [] ==> |log| <= log[|log| - 1].seqNo
  {
    if log != [] {
      var init, last := log[..|log| - 1], log[|log| - 1];
      assert last in log;
      forall e | e in init ensures 1 <= e.seqNo <= last.seqNo - 1 {
        assert e in log;
        var i :| 0 <= i < |init| && log[i] == e;
        assert log[i].seqNo < log[|log| - 1].seqNo;
      }
      assert Increasing(init);
      NumbersBoundLength(init, last.seqNo - 1);
    }
  }

  /** Strictly increasing numbers make that one page the whole log. */
  lemma RebuildReadsAll(log: seq<Entry>, latest: nat)
    requires WellNumbered(log, latest)
    ensures Rebuilt(log, latest) == (CheckpointsOver(log), WriteIdsOver(log))
  {
    NumbersBoundLength(log, latest);
    forall i | 0 <= i < |log| ensures log[i].seqNo >= 1 {
      assert log[i] in log;
    }
    SinceIsTail(log, 1, 0);
  }

  /** The checkpoint of a scope is the greatest number of its non-audit entries. */
  ghost predicate IsCheckpoint(log: seq<Entry>, scope: Scope, n: nat) {
    && (exists e | e in log :: UserEntry(e) && ScopeOf(e.mutation) == scope && e.seqNo == n)
    && forall e | e in log && UserEntry(e) && ScopeOf(e.mutation) == scope :: e.seqNo <= n
  }

  predicate UserEntry(e: Entry) {
    e.mutation.collection != AUDIT
  }

  lemma {:induction false} CheckpointMeaning(log: seq<Entry>, scope: Scope)
    ensures scope in CheckpointsOver(log) <==> exists e | e in log :: UserEntry(e) && ScopeOf(e.mutation) == scope
    ensures scope in CheckpointsOver(log) ==> IsCheckpoint(log, scope, CheckpointsOver(log)[scope])
  {
    hide ScopeOf;
    if log != [] {
      var init, last := log[..|log| - 1], log[|log| - 1];
      CheckpointMeaning(init, scope);
      assert forall e :: e in log <==> e in init || e == last;
      if UserEntry(last) && ScopeOf(last.mutation) == scope && scope in CheckpointsOver(init) {
        assert IsCheckpoint(init, scope, CheckpointsOver(init)[scope]);
        var n := CheckpointsOver(log)[scope];
        if n == last.seqNo {
          assert last in log;
        } else {
          var e :| e in init && UserEntry(e) && ScopeOf(e.mutation) == scope && e.seqNo == n;
          assert e in log;
        }
      }
    }
  }

  /** The index knows a write exactly when the log holds it, under a number the log gave it. */
  lemma {:induction false} WriteIdMeaning(log: seq<Entry>, key: WriteKey)
    ensures key in WriteIdsOver(log) <==> exists e | e in log :: UserEntry(e) && WriteKeyOf(e.mutation) == key
    ensures key in WriteIdsOver(log) ==>
              exists e | e in log :: UserEntry(e) && WriteKeyOf(e.mutation) == key && e.seqNo == WriteIdsOver(log)[key]
  {
    hide WriteKeyOf;
    if log != [] {
      var init, last := log[..|log| - 1], log[|log| - 1];
      WriteIdMeaning(init, key);
      assert forall e :: e in log <==> e in init || e == last;
    }
  }

  /* ---------- the serial invariant ---------- */

  /** No two non-audit entries are the same write. */
  ghost predicate NoDuplicates(log: seq<Entry>) {
    forall i, j | 0 <= i < j < |log| && UserEntry(log[i]) && UserEntry(log[j]) ::
      WriteKeyOf(log[i].mutation) != WriteKeyOf(log[j].mutation)
  }

  ghost predicate Indexed(s: HubState) {
    && WellNumbered(s.log, s.latest)
    && s.checkpoints == CheckpointsOver(s.log)
    && s.writeIds == WriteIdsOver(s.log)
  }

  /** What one attempt may do to the log: append audit entries, and at most one write that was not there. */
  ghost predicate Grows(s: HubState, t: HubState) {
    && s.latest <= t.latest && |s.log| <= |t.log| && t.log[..|s.log|] == s.log
    && (Indexed(s) ==> Indexed(t))
    && (Indexed(s) && NoDuplicates(s.log) ==> NoDuplicates(t.log))
    && NumbersStay(s, t) && CheckpointsRise(s, t)
  }

  /** A write keeps the number it was first given. */
  ghost predicate NumbersStay(s: HubState, t: HubState) {
    forall key | key in s.writeIds :: key in t.writeIds && t.writeIds[key] == s.writeIds[key]
  }

  ghost predicate CheckpointsRise(s: HubState, t: HubState) {
    forall scope :: Checkpoint(s, scope) <= Checkpoint(t, scope)
  }

  lemma GrowsTransitive(s: HubState, t: HubState, u: HubState)
    requires Grows(s, t) && Grows(t, u)
    ensures Grows(s, u)
  {
    hide Indexed, NoDuplicates, Checkpoint;
    assert u.log[..|s.log|] == u.log[..|t.log|][..|s.log|];
    forall scope ensures Checkpoint(s, scope) <= Checkpoint(u, scope) {
      assert Checkpoint(s, scope) <= Checkpoint(t, scope) <= Checkpoint(u, scope);
    }
  }

  lemma GrowsSame(s: HubState, t: HubState)
    requires t.log == s.log && t.latest == s.latest && t.checkpoints == s.checkpoints && t.writeIds == s.writeIds
    ensures Grows(s, t)
  {
    assert t.log[..|s.log|] == s.log;
  }

  lemma AppendGrows(env: Env, s: HubState, m: Mutation, origin: Origin, applied: bool)
    requires m.collection == AUDIT || WriteKeyOf(m) !in s.writeIds
    ensures Grows(s, AppendIndexed(env, s, m, origin, applied).0)
  {
    hide Indexed, NoDuplicates, NumbersStay, CheckpointsRise;
    var t := AppendIndexed(env, s, m, origin, applied).0;
    assert t.log[..|s.log|] == s.log;
    AppendMovesIndexes(env, s, m, origin, applied);
    if Indexed(s) {
      AppendKeepsIndexed(env, s, m, origin, applied);
      if NoDuplicates(s.log) {
        AppendKeepsDistinct(env, s, m, origin, applied);
      }
    }
  }

  lemma AppendMovesIndexes(env: Env, s: HubState, m: Mutation, origin: Origin, applied: bool)
    requires m.collection == AUDIT || WriteKeyOf(m) !in s.writeIds
    ensures NumbersStay(s, AppendIndexed(env, s, m, origin, applied).0)
    ensures CheckpointsRise(s, AppendIndexed(env, s, m, origin, applied).0)
  {
    hide WriteKeyOf, ScopeOf;
  }

  lemma AppendKeepsNumbering(env: Env, s: HubState, m: Mutation, origin: Origin, applied: bool)
    requires WellNumbered(s.log, s.latest)
    ensures var t := AppendIndexed(env, s, m, origin, applied).0; WellNumbered(t.log, t.latest)
  {
    hide IndexCheckpoint, IndexWriteId;
    var t := AppendIndexed(env, s, m, origin, applied).0;
    forall i, j | 0 <= i < j < |t.log| ensures t.log[i].seqNo < t.log[j].seqNo {
      assert t.log[i] in s.log;
    }
  }

  lemma AppendKeepsIndexed(env: Env, s: HubState, m: Mutation, origin: Origin, applied: bool)
    requires Indexed(s)
    ensures Indexed(AppendIndexed(env, s, m, origin, applied).0)
  {
    hide IndexCheckpoint, IndexWriteId, WellNumbered;
    AppendKeepsNumbering(env, s, m, origin, applied);
    var t := AppendIndexed(env, s, m, origin, applied).0;
    assert t.log[..|t.log| - 1] == s.log;
  }

  lemma AppendKeepsDistinct(env: Env, s: HubState, m: Mutation, origin: Origin, applied: bool)
    requires Indexed(s) && NoDuplicates(s.log) && (m.collection == AUDIT || WriteKeyOf(m) !in s.writeIds)
    ensures NoDuplicates(AppendIndexed(env, s, m, origin, applied).0.log)
  {
    hide IndexCheckpoint, IndexWriteId, WriteKeyOf, WellNumbered, CheckpointsOver, WriteIdsOver;
    WriteIdMeaning(s.log, WriteKeyOf(m));
    forall i | 0 <= i < |s.log| && UserEntry(s.log[i]) && m.collection != AUDIT
      ensures WriteKeyOf(s.log[i].mutation) != WriteKeyOf(m)
    {
      assert s.log[i] in s.log;
    }
  }

  lemma AuditGrows(env: Env, s: HubState, stage: string, scope: Scope, writeId: Option<string>, d: Decision)
    ensures Grows(s, Audit(env, s, stage, scope, writeId, d))
    ensures Audit(env, s, stage, scope, writeId, d).checkpoints == s.checkpoints
    ensures Audit(env, s, stage, scope, writeId, d).writeIds == s.writeIds
    ensures Users(Audit(env, s, stage, scope, writeId, d).log) == Users(s.log)
    ensures Audit(env, s, stage, scope, writeId, d).latest >= s.latest
  {
    hide ValidMetadata, Grows;
    var n := s.audits + 1;
    var m := AuditMutation(env, n, stage, scope, writeId, d);
    assert m.collection == AUDIT;
    var s1 := s.(audits := n);
    GrowsSame(s, s1);
    AppendGrows(env, s1, m, Origin.Local, true);
    GrowsTransitive(s, s1, AppendIndexed(env, s1, m, Origin.Local, true).0);
    var t := AppendIndexed(env, s1, m, Origin.Local, true).0;
    assert t.log[..|s.log|] == s.log;
  }

  /** The non-audit entries of a log, in order. */
  function Users(log: seq<Entry>): seq<Entry> {
    if log == [] then []
    else Users(log[..|log| - 1]) + if UserEntry(log[|log| - 1]) then [log[|log| - 1]] else []
  }

  lemma RecordedGrows(env: Env, s: HubState, stage: string, scope: Scope, writeId: Option<string>, d: Decision)
    ensures var t := Recorded(env, s, stage, scope, writeId, d);
            && Grows(s, t) && t.checkpoints == s.checkpoints && t.writeIds == s.writeIds
            && Users(t.log) == Users(s.log) && s.latest <= t.latest
  {
    hide Grows, Audit, Users;
    AuditGrows(env, s, stage, scope, writeId, d);
    var a := Audit(env, s, stage, scope, writeId, d);
    GrowsSame(a, Observe(env, a, scope, d));
    GrowsTransitive(s, a, Observe(env, a, scope, d));
  }

  lemma GateGrows(env: Env, s: HubState, scope: Scope)
    ensures var t := Gate(env, s, scope).0;
            Grows(s, t) && t.checkpoints == s.checkpoints && t.writeIds == s.writeIds && t.log == s.log
            && t.latest == s.latest
  {
    hide Grows;
    GrowsSame(s, Gate(env, s, scope).0);
  }

  lemma AcceptedGrows(env: Env, s: HubState, m: Mutation, scope: Scope)
    requires ValidMetadata(m.metadata) && ScopeOf(m) == scope
    ensures Grows(s, Accepted(env, s, m, scope).0)
  {
    hide Grows, ValidMetadata;
    if WriteKeyOf(m) in s.writeIds {
      GrowsSame(s, s);
    } else {
      AppendGrows(env, s, m, Origin.Remote, false);
    }
  }

  /** Some counters move and a decision is recorded. */
  lemma RecordedAfterGrows(
    env: Env, s: HubState, before: HubState, stage: string, scope: Scope, writeId: Option<string>, d: Decision)
    requires before.log == s.log && before.latest == s.latest
    requires before.checkpoints == s.checkpoints && before.writeIds == s.writeIds
    ensures Grows(s, Recorded(env, before, stage, scope, writeId, d))
  {
    hide Grows, Recorded, Users;
    GrowsSame(s, before);
    RecordedGrows(env, before, stage, scope, writeId, d);
    GrowsTransitive(s, before, Recorded(env, before, stage, scope, writeId, d));
  }

  /** What every attempt does to the log and the indexes. */
  lemma StepGrows(env: Env, s: HubState, a: Attempt)
    ensures Grows(s, Step(env, s, a).0)
  {
    hide Grows, Step, Recorded, Gate, Accepted, ValidMetadata, ScopeOf;
    var before := StepShape(env, s, a);
    var (t, answer) := Step(env, s, a);
    GateGrows(env, s, AttemptScope(a));
    RecordedAfterGrows(env, s, before, StageOf(a), AttemptScope(a), WriteIdOf(a), answer.decision);
    if answer.accepted.Some? {
      var recorded := Recorded(env, before, StageOf(a), AttemptScope(a), WriteIdOf(a), answer.decision);
      AcceptedGrows(env, recorded, Brought(a).value, AttemptScope(a));
      GrowsTransitive(s, recorded, t);
    }
  }

  lemma PushGrows(env: Env, s: HubState, scope: Scope, m: Mutation)
    ensures Grows(s, PushStep(env, s, scope, m).0)
  {
    hide Grows, PushStep;
    StepGrows(env, s, PushOne(scope, m));
  }

  /**
   In every run from a well-indexed hub the log only grows, both indexes equal what a
   restart rebuilds, no checkpoint falls, every write keeps its number, and a log that
   started without duplicate writes never gets one.
   */
  lemma {:induction false} RunKeepsIndexes(env: Env, s: HubState, attempts: seq<Attempt>)
    requires Indexed(s)
    ensures var t := Run(env, s, attempts);
            && |s.log| <= |t.log| && t.log[..|s.log|] == s.log
            && (t.checkpoints, t.writeIds) == Rebuilt(t.log, t.latest)
            && (NoDuplicates(s.log) ==> NoDuplicates(t.log))
            && (forall scope :: Checkpoint(s, scope) <= Checkpoint(t, scope))
            && (forall key | key in s.writeIds :: key in t.writeIds && t.writeIds[key] == s.writeIds[key])
  {
    hide Indexed, NoDuplicates, Rebuilt, Step;
    RunGrows(env, s, attempts);
    var t := Run(env, s, attempts);
    assert t.checkpoints == CheckpointsOver(t.log) && t.writeIds == WriteIdsOver(t.log) && WellNumbered(t.log, t.latest) by {
      IndexedParts(t);
    }
    RebuildReadsAll(t.log, t.latest);
  }

  lemma IndexedParts(t: HubState)
    requires Indexed(t)
    ensures t.checkpoints == CheckpointsOver(t.log) && t.writeIds == WriteIdsOver(t.log) && WellNumbered(t.log, t.latest)
  {}

  lemma {:induction false} RunGrows(env: Env, s: HubState, attempts: seq<Attempt>)
    ensures Grows(s, Run(env, s, attempts))
  {
    hide Grows, Step;
    if attempts == [] {
      GrowsSame(s, s);
    } else {
      RunGrows(env, s, attempts[..|attempts| - 1]);
      var t := Run(env, s, attempts[..|attempts| - 1]);
      StepGrows(env, t, attempts[|attempts| - 1]);
      GrowsTransitive(s, t, Step(env, t, attempts[|attempts| - 1]).0);
    }
  }
}
