/** Pushing the same writes again: when a push is accepted, and what a second push of it does. */
module HubIdempotence {
  import opened Wrappers
  import opened Documents
  import opened Oplog
  import opened Hub
  import opened HubIndexes
  import opened HubShape

  ghost predicate GateOpen(env: Env, s: HubState, scope: Scope) {
    Gate(env, s, scope).1 == None
  }

  /** What the checks after the gate ask of a mutation; none of it depends on the hub's state. */
  predicate Acceptable(env: Env, scope: Scope, m: Mutation) {
    && ValidMetadata(m.metadata) && ScopeOf(m) == scope
    && NormalizeWriteDecision(env.writePolicy(scope, m)).verdict != Reject
  }

  /** Neither index moves, and no write joins the log. */
  ghost predicate NoWrite(s: HubState, t: HubState) {
    t.checkpoints == s.checkpoints && t.writeIds == s.writeIds && Users(t.log) == Users(s.log)
  }

  /**
   What the write `m` does when it is accepted under number `n`: a known one nothing, a new one
   joins the log as it was brought, under the latest number, and outside the audit collection
   both indexes learn of it.
   */
  ghost predicate Lands(s: HubState, t: HubState, m: Mutation, n: nat) {
    if WriteKeyOf(m) in s.writeIds then n == s.writeIds[WriteKeyOf(m)] && NoWrite(s, t)
    else
      && n == t.latest > s.latest && t.log != []
      && var last := t.log[|t.log| - 1];
         && last.seqNo == n && last.mutation == m && last.origin == Origin.Remote && !last.applied
         && if m.collection == AUDIT then NoWrite(s, t)
            else
              && Users(t.log) == Users(s.log) + [last]
              && t.writeIds == s.writeIds[WriteKeyOf(m) := n]
              && Checkpoint(t, ScopeOf(m)) == Max(Checkpoint(s, ScopeOf(m)), n)
  }

  /** A push of one mutation, in full: when it is accepted, what number it gets, and what moves. */
  lemma PushOutcome(env: Env, s: HubState, scope: Scope, m: Mutation)
    ensures var (t, answer) := PushStep(env, s, scope, m);
            && (answer.accepted.Some? <==> GateOpen(env, s, scope) && Acceptable(env, scope, m))
            && (answer.accepted.Some? ==> GateOpen(env, t, scope) && Lands(s, t, m, answer.accepted.value))
            && (answer.accepted.None? ==> NoWrite(s, t))
  {
    hide Recorded, Gate, ValidMetadata, ScopeOf, WriteKeyOf, Users, NormalizeWriteDecision, Grows, Lands;
    var (s1, contained) := Gate(env, s, scope);
    GateGrows(env, s, scope);
    if contained.Some? {
      GateRejects(env, s, scope);
      RecordedGrows(env, s1, "write", scope, Some(m.writeId), contained.value);
    } else if !ValidMetadata(m.metadata) {
      RecordedGrows(env, s1, "write", scope, Some(m.writeId), Decision(Reject, "invalid_metadata"));
    } else if ScopeOf(m) != scope {
      RecordedGrows(env, s1.(crossTenant := s1.crossTenant + 1), "write", scope, Some(m.writeId),
                    Decision(Reject, "cross_tenant_or_namespace_mutation"));
    } else {
      var d := NormalizeWriteDecision(env.writePolicy(scope, m));
      RecordedGrows(env, s1, "write", scope, Some(m.writeId), d);
      if d.verdict != Reject {
        var s2 := Recorded(env, s1, "write", scope, Some(m.writeId), d);
        RecordedOpens(env, s1, "write", scope, Some(m.writeId), d);
        GateAfterAccept(env, s2, m, scope);
        AcceptedLands(env, s2, m, scope);
        LandsFrom(s, s2, PushStep(env, s, scope, m).0, m, PushStep(env, s, scope, m).1.accepted.value);
      }
    }
  }

  lemma AcceptedLands(env: Env, s: HubState, m: Mutation, scope: Scope)
    requires ValidMetadata(m.metadata) && ScopeOf(m) == scope
    ensures var (t, n) := Accepted(env, s, m, scope); Lands(s, t, m, n)
  {
    hide ValidMetadata, WriteKeyOf, ScopeOf;
    var t := Accepted(env, s, m, scope).0;
    if WriteKeyOf(m) !in s.writeIds {
      assert t.log[..|t.log| - 1] == s.log;
    }
  }

  /** `append_mutation` alone: unfit or foreign mutations are refused and change nothing, any other lands. */
  lemma AppendOutcome(env: Env, s: HubState, m: Mutation, scope: Scope)
    ensures var (t, r) := Hub.AppendMutation(env, s, m, scope);
            match r
            case Failure(_) => (!ValidMetadata(m.metadata) || ScopeOf(m) != scope) && t == s
            case Success(n) => ValidMetadata(m.metadata) && ScopeOf(m) == scope && Lands(s, t, m, n)
  {
    hide ValidMetadata, ScopeOf, Lands;
    if ValidMetadata(m.metadata) && ScopeOf(m) == scope {
      AcceptedLands(env, s, m, scope);
    }
  }

  /** Recording the decision before comes between without moving anything that counts. */
  lemma LandsFrom(s: HubState, u: HubState, t: HubState, m: Mutation, n: nat)
    requires Lands(u, t, m, n) && NoWrite(s, u) && s.latest <= u.latest
    ensures Lands(s, t, m, n)
  {
    hide WriteKeyOf, ScopeOf, Users;
  }

  /** After a decision that is no rejection the scope is back to normal, and its gate open. */
  lemma RecordedOpens(env: Env, s: HubState, stage: string, scope: Scope, writeId: Option<string>, d: Decision)
    requires d.verdict != Reject
    ensures var t := Recorded(env, s, stage, scope, writeId, d);
            scope in t.containment && t.containment[scope].mode == Normal
  {
    hide Audit;
  }

  lemma GateAfterAccept(env: Env, s: HubState, m: Mutation, scope: Scope)
    requires ValidMetadata(m.metadata) && ScopeOf(m) == scope
    requires scope in s.containment && s.containment[scope].mode == Normal
    ensures GateOpen(env, Accepted(env, s, m, scope).0, scope)
  {
    hide ValidMetadata, ScopeOf, WriteKeyOf;
  }

  ghost predicate AllAccepted(env: Env, s: HubState, scope: Scope, ms: seq<Mutation>) {
    |AcceptedSeqs(PushAll(env, s, scope, ms).1)| == |ms|
  }

  lemma {:induction false} AcceptedAtMost(env: Env, s: HubState, scope: Scope, ms: seq<Mutation>)
    ensures |PushAll(env, s, scope, ms).1| == |ms|
    ensures |AcceptedSeqs(PushAll(env, s, scope, ms).1)| <= |ms|
  {
    hide PushStep;
    if ms != [] {
      AcceptedAtMost(env, s, scope, ms[..|ms| - 1]);
      SplitAnswers(env, s, scope, ms);
    }
  }

  lemma SplitAnswers(env: Env, s: HubState, scope: Scope, ms: seq<Mutation>)
    requires ms != []
    ensures var (s1, answers) := PushAll(env, s, scope, ms[..|ms| - 1]);
            var (s2, answer) := PushStep(env, s1, scope, ms[|ms| - 1]);
            && PushAll(env, s, scope, ms) == (s2, answers + [answer])
            && AcceptedSeqs(PushAll(env, s, scope, ms).1) ==
               AcceptedSeqs(answers) + (match answer.accepted case Some(n) => [n] case None => [])
  {
    hide PushStep;
    var answers := PushAll(env, s, scope, ms[..|ms| - 1]).1;
    var answer := PushStep(env, PushAll(env, s, scope, ms[..|ms| - 1]).0, scope, ms[|ms| - 1]).1;
    assert (answers + [answer])[..|answers|] == answers;
  }

  /** A batch is accepted as a whole exactly when the gate is open at its start and every mutation is acceptable. */
  lemma {:induction false} AllAcceptedIff(env: Env, s: HubState, scope: Scope, ms: seq<Mutation>)
    requires ms != []
    ensures AllAccepted(env, s, scope, ms) <==>
            GateOpen(env, s, scope) && forall m | m in ms :: Acceptable(env, scope, m)
    ensures AllAccepted(env, s, scope, ms) ==> GateOpen(env, PushAll(env, s, scope, ms).0, scope)
  {
    hide PushStep, Gate, Acceptable, AllAccepted, PushAll;
    var init, last := ms[..|ms| - 1], ms[|ms| - 1];
    var s1 := PushAll(env, s, scope, init).0;
    assert ms == init + [last];
    assert forall m :: m in ms <==> m in init || m == last;
    AllAcceptedStep(env, s, scope, ms);
    PushOutcome(env, s1, scope, last);
    if init == [] {
      PushNothing(env, s, scope);
    } else {
      AllAcceptedIff(env, s, scope, init);
    }
  }

  lemma AllAcceptedStep(env: Env, s: HubState, scope: Scope, ms: seq<Mutation>)
    requires ms != []
    ensures var init, last := ms[..|ms| - 1], ms[|ms| - 1];
            var (s2, answer) := PushStep(env, PushAll(env, s, scope, init).0, scope, last);
            && PushAll(env, s, scope, ms).0 == s2
            && (AllAccepted(env, s, scope, ms) <==> AllAccepted(env, s, scope, init) && answer.accepted.Some?)
  {
    hide PushStep, AcceptedSeqs, PushAll;
    var init, last := ms[..|ms| - 1], ms[|ms| - 1];
    AcceptedAtMost(env, s, scope, init);
    SplitAnswers(env, s, scope, ms);
    var (s1, answers) := PushAll(env, s, scope, init);
    var answer := PushStep(env, s1, scope, last).1;
    assert |AcceptedSeqs(PushAll(env, s, scope, ms).1)| ==
           |AcceptedSeqs(answers)| + if answer.accepted.Some? then 1 else 0;
  }

  lemma PushNothing(env: Env, s: HubState, scope: Scope)
    ensures PushAll(env, s, scope, []) == (s, []) && AcceptedSeqs([]) == [] && AllAccepted(env, s, scope, [])
  {}

  lemma {:induction false} PushAllGrows(env: Env, s: HubState, scope: Scope, ms: seq<Mutation>)
    ensures Grows(s, PushAll(env, s, scope, ms).0)
  {
    hide PushStep, Grows;
    if ms == [] {
      GrowsSame(s, s);
    } else {
      PushAllGrows(env, s, scope, ms[..|ms| - 1]);
      var s1 := PushAll(env, s, scope, ms[..|ms| - 1]).0;
      PushGrows(env, s1, scope, ms[|ms| - 1]);
      GrowsTransitive(s, s1, PushStep(env, s1, scope, ms[|ms| - 1]).0);
    }
  }

  /** The numbers of an accepted batch are those the write id index has for it afterwards. */
  lemma {:induction false} AcceptedAreIndexed(env: Env, s: HubState, scope: Scope, ms: seq<Mutation>)
    requires AllAccepted(env, s, scope, ms) && forall m | m in ms :: m.collection != AUDIT
    ensures var (t, answers) := PushAll(env, s, scope, ms);
            forall i | 0 <= i < |ms| ::
              WriteKeyOf(ms[i]) in t.writeIds && t.writeIds[WriteKeyOf(ms[i])] == AcceptedSeqs(answers)[i]
  {
    hide PushStep, WriteKeyOf, AcceptedSeqs, PushAll;
    if ms != [] {
      var init, last := ms[..|ms| - 1], ms[|ms| - 1];
      AcceptedAtMost(env, s, scope, init);
      SplitAnswers(env, s, scope, ms);
      AcceptedAreIndexed(env, s, scope, init);
      var s1 := PushAll(env, s, scope, init).0;
      PushOutcome(env, s1, scope, last);
      StepKeepsNumbers(env, s1, scope, last);
      assert last in ms;
      forall i | 0 <= i < |init|
        ensures var (t, answers) := PushAll(env, s, scope, ms);
                WriteKeyOf(ms[i]) in t.writeIds && t.writeIds[WriteKeyOf(ms[i])] == AcceptedSeqs(answers)[i]
      {
        assert ms[i] == init[i];
      }
    }
  }

  lemma StepKeepsNumbers(env: Env, s: HubState, scope: Scope, m: Mutation)
    ensures NumbersStay(s, PushStep(env, s, scope, m).0)
  {
    hide PushStep, Indexed, NoDuplicates;
    PushGrows(env, s, scope, m);
  }

  /** A whole batch of writes the index already knows is answered from the index and adds no user entry. */
  lemma {:induction false} KnownBatch(env: Env, s: HubState, scope: Scope, ms: seq<Mutation>)
    requires AllAccepted(env, s, scope, ms) && forall m | m in ms :: WriteKeyOf(m) in s.writeIds
    ensures var (t, answers) := PushAll(env, s, scope, ms);
            && Users(t.log) == Users(s.log)
            && forall i | 0 <= i < |ms| :: AcceptedSeqs(answers)[i] == s.writeIds[WriteKeyOf(ms[i])]
  {
    hide PushStep, WriteKeyOf, AcceptedSeqs, Users, PushAll;
    if ms == [] {
      PushNothing(env, s, scope);
    } else {
      var init, last := ms[..|ms| - 1], ms[|ms| - 1];
      AcceptedAtMost(env, s, scope, init);
      SplitAnswers(env, s, scope, ms);
      KnownBatch(env, s, scope, init);
      var s1 := PushAll(env, s, scope, init).0;
      PushAllKeepsNumbers(env, s, scope, init);
      assert last in ms;
      PushOutcome(env, s1, scope, last);
      assert WriteKeyOf(last) in s.writeIds && WriteKeyOf(last) in s1.writeIds;
      AllAcceptedStep(env, s, scope, ms);
      assert Users(PushAll(env, s, scope, ms).0.log) == Users(s1.log);
      forall i | 0 <= i < |ms|
        ensures AcceptedSeqs(PushAll(env, s, scope, ms).1)[i] == s.writeIds[WriteKeyOf(ms[i])]
      {
        assert i < |init| ==> ms[i] == init[i];
      }
    }
  }

  lemma PushAllKeepsNumbers(env: Env, s: HubState, scope: Scope, ms: seq<Mutation>)
    ensures NumbersStay(s, PushAll(env, s, scope, ms).0)
  {
    hide PushAll, Indexed, NoDuplicates;
    PushAllGrows(env, s, scope, ms);
  }

  /**
   Re-pushing an accepted batch, after any run, while the scope's gate is open, returns
   the same numbers and adds nothing but audit entries.
   */
  lemma RepushIsIdempotent(env: Env, s: HubState, scope: Scope, ms: seq<Mutation>, attempts: seq<Attempt>)
    requires AllAccepted(env, s, scope, ms) && forall m | m in ms :: m.collection != AUDIT
    requires GateOpen(env, Run(env, PushAll(env, s, scope, ms).0, attempts), scope)
    ensures var (t, first) := PushAll(env, s, scope, ms);
            var later := Run(env, t, attempts);
            var (u, second) := PushAll(env, later, scope, ms);
            AcceptedSeqs(second) == AcceptedSeqs(first) && Users(u.log) == Users(later.log)
  {
    hide PushAll, Acceptable, Gate, WriteKeyOf, AcceptedSeqs, Users, Run;
    var (t, first) := PushAll(env, s, scope, ms);
    var later := Run(env, t, attempts);
    RunKeepsNumbers(env, t, attempts);
    AcceptedAreIndexed(env, s, scope, ms);
    if ms == [] {
      PushNothing(env, s, scope);
      PushNothing(env, later, scope);
    } else {
      AllAcceptedIff(env, s, scope, ms);
      AllAcceptedIff(env, later, scope, ms);
      forall m | m in ms ensures WriteKeyOf(m) in later.writeIds {
        var i :| 0 <= i < |ms| && ms[i] == m;
      }
      KnownBatch(env, later, scope, ms);
      assert AcceptedSeqs(PushAll(env, later, scope, ms).1) == AcceptedSeqs(first);
    }
  }

  lemma RunKeepsNumbers(env: Env, s: HubState, attempts: seq<Attempt>)
    ensures NumbersStay(s, Run(env, s, attempts))
  {
    hide Run, Indexed, NoDuplicates;
    RunGrows(env, s, attempts);
  }

  /** The exception: a new write pushed twice in a row gets one number exactly when it is not in the audit collection. */
  lemma RepeatedWriteIff(env: Env, s: HubState, scope: Scope, m: Mutation)
    requires WriteKeyOf(m) !in s.writeIds && GateOpen(env, s, scope) && Acceptable(env, scope, m)
    ensures var (t, first) := PushStep(env, s, scope, m);
            var (_, second) := PushStep(env, t, scope, m);
            && first.accepted.Some? && second.accepted.Some?
            && (first.accepted == second.accepted <==> m.collection != AUDIT)
  {
    hide PushStep, Gate, Acceptable, WriteKeyOf;
    PushOutcome(env, s, scope, m);
    var (t, first) := PushStep(env, s, scope, m);
    PushOutcome(env, t, scope, m);
    if m.collection == AUDIT {
      SecondAppendIsHigher(env, t, scope, m);
    }
  }

  lemma SecondAppendIsHigher(env: Env, s: HubState, scope: Scope, m: Mutation)
    requires WriteKeyOf(m) !in s.writeIds && PushStep(env, s, scope, m).1.accepted.Some?
    ensures PushStep(env, s, scope, m).0.latest > s.latest
  {
    hide ValidMetadata, NormalizeWriteDecision, WriteKeyOf, ScopeOf, AuditMutation, IndexCheckpoint, IndexWriteId;
    RecordedGrows(env, Gate(env, s, scope).0, "write", scope, Some(m.writeId),
                  NormalizeWriteDecision(env.writePolicy(scope, m)));
  }

  /* ---------- checkpoints ---------- */

  /** Only an accepted write moves a checkpoint, and only that of its own scope. */
  lemma StepMovesOwnCheckpoint(env: Env, s: HubState, a: Attempt)
    ensures var (t, answer) := Step(env, s, a);
            && (answer.accepted.None? ==> t.checkpoints == s.checkpoints && Users(t.log) == Users(s.log))
            && forall scope | scope != AttemptScope(a) :: Checkpoint(t, scope) == Checkpoint(s, scope)
  {
    hide Step, Recorded, Gate, ValidMetadata, ScopeOf, Users, Grows, Accepted;
    var before := StepShape(env, s, a);
    var answer := Step(env, s, a).1;
    GateGrows(env, s, AttemptScope(a));
    RecordedGrows(env, before, StageOf(a), AttemptScope(a), WriteIdOf(a), answer.decision);
    if answer.accepted.Some? {
      var recorded := Recorded(env, before, StageOf(a), AttemptScope(a), WriteIdOf(a), answer.decision);
      AcceptMovesOwnCheckpoint(env, recorded, Brought(a).value, AttemptScope(a));
    }
  }

  lemma AcceptMovesOwnCheckpoint(env: Env, s: HubState, m: Mutation, scope: Scope)
    requires ValidMetadata(m.metadata) && ScopeOf(m) == scope
    ensures var t := Accepted(env, s, m, scope).0;
            forall other | other != scope :: Checkpoint(t, other) == Checkpoint(s, other)
  {
    hide ValidMetadata, WriteKeyOf, ScopeOf, IndexWriteId;
  }
}
