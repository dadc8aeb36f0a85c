/** The timed containment automaton of a scope, over whole runs of pushes, pulls and promotions. */
module HubContainment {
  import opened Wrappers
  import opened Documents
  import opened Oplog
  import opened Hub
  import opened HubIndexes
  import opened HubShape
  import opened HubIdempotence

  /** The mode says how many rejections there were since the last reset. */
  predicate Consistent(c: Containment) {
    c.mode == if c.rejects < 3 then Normal else if c.rejects < 5 then Throttle else Rejecting
  }

  ghost predicate AllConsistent(s: HubState) {
    forall scope | scope in s.containment :: Consistent(s.containment[scope])
  }

  ghost predicate Contained(s: HubState, scope: Scope) {
    scope in s.containment && s.containment[scope].mode != Normal
  }

  /** A gate check taken now would come less than half a second after the last event. */
  ghost predicate Warm(env: Env, s: HubState, scope: Scope)
    requires scope in s.containment
  {
    env.clock(s.ticks) < s.containment[scope].lastEvent + 500
  }

  /** The gate of a scope opens exactly when the scope is not contained or has cooled down; a closed one says which. */
  lemma GateOpensIff(env: Env, s: HubState, scope: Scope)
    ensures GateOpen(env, s, scope) <==> !Contained(s, scope) || !Warm(env, s, scope)
    ensures Contained(s, scope) && Warm(env, s, scope) ==>
              Gate(env, s, scope).1 ==
              Some(Decision(Reject, if s.containment[scope].mode == Throttle then "containment_throttle"
                                    else "containment_reject"))
  {}

  /* ---------- mode and count ---------- */

  /** How many rejections a scope counts; one never heard of counts none. */
  function Rejects(s: HubState, scope: Scope): nat {
    if scope in s.containment then s.containment[scope].rejects else 0
  }

  /** A gate check keeps the count of a warm scope and clears any other; its last event stays, and a new scope's is now. */
  lemma GateCounts(env: Env, s: HubState, scope: Scope)
    ensures var t := Gate(env, s, scope).0;
            && scope in t.containment
            && Rejects(t, scope) == (if scope in s.containment && Warm(env, s, scope) then Rejects(s, scope) else 0)
            && t.containment[scope].lastEvent ==
               (if scope in s.containment then s.containment[scope].lastEvent else env.clock(s.ticks))
  {}

  /** A recorded decision is the scope's last event; a rejection counts one more, anything else clears the count. */
  lemma RecordedCounts(env: Env, s: HubState, stage: string, scope: Scope, writeId: Option<string>, d: Decision)
    ensures var t := Recorded(env, s, stage, scope, writeId, d);
            && scope in t.containment && t.ticks > s.ticks
            && t.containment[scope].lastEvent == env.clock(t.ticks - 1)
            && Rejects(t, scope) == (if d.verdict == Reject then Rejects(s, scope) + 1 else 0)
  {
    AuditLeavesContainment(env, s, stage, scope, writeId, d);
    hide Audit;
  }

  lemma GateKeepsConsistent(env: Env, s: HubState, scope: Scope)
    requires AllConsistent(s)
    ensures AllConsistent(Gate(env, s, scope).0)
  {}

  lemma RecordedKeepsConsistent(
    env: Env, s: HubState, stage: string, scope: Scope, writeId: Option<string>, d: Decision)
    requires AllConsistent(s)
    ensures AllConsistent(Recorded(env, s, stage, scope, writeId, d))
  {
    AuditLeavesContainment(env, s, stage, scope, writeId, d);
    hide Audit;
  }

  lemma AuditLeavesContainment(env: Env, s: HubState, stage: string, scope: Scope, writeId: Option<string>, d: Decision)
    ensures var t := Audit(env, s, stage, scope, writeId, d);
            t.containment == s.containment && t.ticks == s.ticks
  {
    hide ValidMetadata;
  }

  lemma AcceptLeavesContainment(env: Env, s: HubState, m: Mutation, scope: Scope)
    requires ValidMetadata(m.metadata) && ScopeOf(m) == scope
    ensures Accepted(env, s, m, scope).0.containment == s.containment
  {
    hide ValidMetadata, ScopeOf;
  }

  lemma StepKeepsConsistent(env: Env, s: HubState, a: Attempt)
    requires AllConsistent(s)
    ensures AllConsistent(Step(env, s, a).0)
  {
    hide Step, Recorded, Gate, ValidMetadata, ScopeOf, Accepted;
    var before := StepShape(env, s, a);
    var answer := Step(env, s, a).1;
    GateKeepsConsistent(env, s, AttemptScope(a));
    RecordedKeepsConsistent(env, before, StageOf(a), AttemptScope(a), WriteIdOf(a), answer.decision);
    if answer.accepted.Some? {
      var recorded := Recorded(env, before, StageOf(a), AttemptScope(a), WriteIdOf(a), answer.decision);
      AcceptLeavesContainment(env, recorded, Brought(a).value, AttemptScope(a));
    }
  }

  /** In every run from a fresh hub the mode of every scope is the one its count of rejections calls for. */
  lemma {:induction false} RunKeepsConsistent(env: Env, s: HubState, attempts: seq<Attempt>)
    requires AllConsistent(s)
    ensures AllConsistent(Run(env, s, attempts))
  {
    hide AllConsistent, Step;
    if attempts != [] {
      RunKeepsConsistent(env, s, attempts[..|attempts| - 1]);
      StepKeepsConsistent(env, Run(env, s, attempts[..|attempts| - 1]), attempts[|attempts| - 1]);
    }
  }

  /* ---------- what containment keeps out ---------- */

  /** A rejection in a scope: one more is counted and the timer starts again. */
  ghost predicate OneMoreReject(env: Env, s: HubState, t: HubState, scope: Scope)
    requires scope in s.containment
  {
    && scope in t.containment
    && t.containment[scope].rejects == s.containment[scope].rejects + 1
    && t.ticks > s.ticks && t.containment[scope].lastEvent == env.clock(t.ticks - 1)
  }

  lemma RecordedRejects(env: Env, s: HubState, stage: string, scope: Scope, writeId: Option<string>, d: Decision)
    requires scope in s.containment && d.verdict == Reject
    ensures OneMoreReject(env, s, Recorded(env, s, stage, scope, writeId, d), scope)
  {
    AuditLeavesContainment(env, s, stage, scope, writeId, d);
    hide Audit;
  }

  lemma WarmGate(env: Env, s: HubState, scope: Scope)
    requires Contained(s, scope) && Warm(env, s, scope)
    ensures var (s1, contained) := Gate(env, s, scope);
            && contained.Some? && contained.value.verdict == Reject
            && s1.containment == s.containment && s1.ticks == s.ticks + 1
  {
    assert s.containment[scope := s.containment[scope]] == s.containment;
  }

  /**
   An attempt in a contained scope that has not cooled down gets nothing in and nothing
   out. It counts as one more rejection and restarts the timer.
   */
  lemma ContainedAttempt(env: Env, s: HubState, a: Attempt)
    requires Contained(s, AttemptScope(a)) && (ConsultsGate(a) ==> Warm(env, s, AttemptScope(a)))
    ensures var (t, answer) := Step(env, s, a);
            && answer.accepted == None && answer.mutations == [] && answer.decision.verdict == Reject
            && OneMoreReject(env, s, t, AttemptScope(a))
  {
    hide Step, Recorded, Gate, Accepted, ValidMetadata, ScopeOf, ConsultsGate;
    var before := StepShape(env, s, a);
    if ConsultsGate(a) {
      WarmGate(env, s, AttemptScope(a));
    }
    RecordedRejects(env, before, StageOf(a), AttemptScope(a), WriteIdOf(a), Step(env, s, a).1.decision);
  }

  /** The non-audit entries of one scope. */
  function UsersIn(log: seq<Entry>, scope: Scope): seq<Entry> {
    if log == [] then []
    else
      UsersIn(log[..|log| - 1], scope) +
      if UserEntry(log[|log| - 1]) && ScopeOf(log[|log| - 1].mutation) == scope then [log[|log| - 1]] else []
  }

  lemma {:induction false} UsersInUsers(log: seq<Entry>, scope: Scope)
    ensures UsersIn(log, scope) == UsersIn(Users(log), scope)
  {
    hide ScopeOf;
    if log != [] {
      var init, last := log[..|log| - 1], log[|log| - 1];
      UsersInUsers(init, scope);
      if UserEntry(last) {
        assert (Users(init) + [last])[..|Users(init)|] == Users(init);
      } else {
        assert Users(init) + [] == Users(init);
      }
    }
  }

  /** The part of two states that belongs to one scope is the same. */
  ghost predicate SameFor(s: HubState, t: HubState, scope: Scope) {
    && (scope in t.containment <==> scope in s.containment)
    && (scope in s.containment ==> t.containment[scope] == s.containment[scope])
    && UsersIn(t.log, scope) == UsersIn(s.log, scope)
  }

  lemma GateElsewhere(env: Env, s: HubState, own: Scope, scope: Scope)
    requires scope != own
    ensures SameFor(s, Gate(env, s, own).0, scope)
  {
    hide UsersIn;
  }

  lemma RecordedElsewhere(
    env: Env, s: HubState, stage: string, own: Scope, writeId: Option<string>, d: Decision, scope: Scope)
    requires scope != own
    ensures SameFor(s, Recorded(env, s, stage, own, writeId, d), scope)
  {
    AuditLeavesContainment(env, s, stage, own, writeId, d);
    RecordedGrows(env, s, stage, own, writeId, d);
    UsersInUsers(s.log, scope);
    UsersInUsers(Recorded(env, s, stage, own, writeId, d).log, scope);
    hide Audit, UsersIn, Users, Grows;
  }

  lemma AcceptElsewhere(env: Env, s: HubState, m: Mutation, own: Scope, scope: Scope)
    requires ValidMetadata(m.metadata) && ScopeOf(m) == own && scope != own
    ensures SameFor(s, Accepted(env, s, m, own).0, scope)
  {
    hide ValidMetadata, ScopeOf, WriteKeyOf;
    var t := Accepted(env, s, m, own).0;
    if WriteKeyOf(m) !in s.writeIds {
      assert t.log[..|s.log|] == s.log;
    }
  }

  /** What an attempt does to a scope that is not its own: nothing. */
  lemma AttemptElsewhere(env: Env, s: HubState, a: Attempt, scope: Scope)
    requires scope != AttemptScope(a)
    ensures SameFor(s, Step(env, s, a).0, scope)
  {
    hide Step, Recorded, Gate, Accepted, ValidMetadata, ScopeOf, ConsultsGate, UsersIn;
    var before := StepShape(env, s, a);
    var answer := Step(env, s, a).1;
    GateElsewhere(env, s, AttemptScope(a), scope);
    RecordedElsewhere(env, before, StageOf(a), AttemptScope(a), WriteIdOf(a), answer.decision, scope);
    if answer.accepted.Some? {
      var recorded := Recorded(env, before, StageOf(a), AttemptScope(a), WriteIdOf(a), answer.decision);
      AcceptElsewhere(env, recorded, Brought(a).value, AttemptScope(a), scope);
    }
  }

  /* ---------- whole runs ---------- */

  /** No attempt on the scope checks its gate after the cooldown. */
  ghost predicate StaysWarm(env: Env, s: HubState, scope: Scope, attempts: seq<Attempt>) {
    forall k | 0 <= k < |attempts| && AttemptScope(attempts[k]) == scope && ConsultsGate(attempts[k]) ::
      var t := Run(env, s, attempts[..k]);
      scope in t.containment && Warm(env, t, scope)
  }

  function AttemptsOn(scope: Scope, attempts: seq<Attempt>): nat {
    if attempts == [] then 0
    else AttemptsOn(scope, attempts[..|attempts| - 1]) + if AttemptScope(attempts[|attempts| - 1]) == scope then 1 else 0
  }

  /**
   Once a scope is contained, then as long as no gate check on it comes after the cooldown,
   nothing is appended to it and nothing read from it, whatever else the hub does; it stays
   contained, and every attempt on it adds one to its count.
   */
  lemma {:induction false} ContainmentHolds(env: Env, s: HubState, scope: Scope, attempts: seq<Attempt>)
    requires AllConsistent(s) && Contained(s, scope) && StaysWarm(env, s, scope, attempts)
    ensures var t := Run(env, s, attempts);
            && Contained(t, scope)
            && t.containment[scope].rejects == s.containment[scope].rejects + AttemptsOn(scope, attempts)
            && UsersIn(t.log, scope) == UsersIn(s.log, scope)
    ensures forall k | 0 <= k < |attempts| && AttemptScope(attempts[k]) == scope ::
              var answer := Step(env, Run(env, s, attempts[..k]), attempts[k]).1;
              answer.accepted == None && answer.mutations == []
  {
    hide Step, UsersIn, Users, Grows, ConsultsGate, Warm;
    if attempts != [] {
      var init, last := attempts[..|attempts| - 1], attempts[|attempts| - 1];
      var t := Run(env, s, init);
      forall k | 0 <= k < |init| && AttemptScope(init[k]) == scope && ConsultsGate(init[k])
        ensures var u := Run(env, s, init[..k]); scope in u.containment && Warm(env, u, scope)
      {
        assert init[..k] == attempts[..k] && attempts[k] == init[k];
      }
      ContainmentHolds(env, s, scope, init);
      RunKeepsConsistent(env, s, init);
      LastAttempt(env, s, scope, attempts);
      forall k | 0 <= k < |attempts| && AttemptScope(attempts[k]) == scope
        ensures var answer := Step(env, Run(env, s, attempts[..k]), attempts[k]).1;
                answer.accepted == None && answer.mutations == []
      {
        if k < |init| {
          assert init[..k] == attempts[..k] && attempts[k] == init[k];
        }
      }
    }
  }

  lemma LastAttempt(env: Env, s: HubState, scope: Scope, attempts: seq<Attempt>)
    requires attempts != [] && StaysWarm(env, s, scope, attempts)
    requires var t := Run(env, s, attempts[..|attempts| - 1]); AllConsistent(t) && Contained(t, scope)
    ensures var t := Run(env, s, attempts[..|attempts| - 1]);
            var (u, answer) := Step(env, t, attempts[|attempts| - 1]);
            var own := AttemptScope(attempts[|attempts| - 1]) == scope;
            && Contained(u, scope)
            && u.containment[scope].rejects == t.containment[scope].rejects + (if own then 1 else 0)
            && UsersIn(u.log, scope) == UsersIn(t.log, scope)
            && (own ==> answer.accepted == None && answer.mutations == [])
  {
    hide Step, UsersIn, Users, Grows, ConsultsGate, Warm;
    var k := |attempts| - 1;
    var t := Run(env, s, attempts[..k]);
    var a := attempts[k];
    var (u, answer) := Step(env, t, a);
    if AttemptScope(a) == scope {
      assert ConsultsGate(a) ==> Warm(env, t, scope);
      ContainedAttempt(env, t, a);
      StepKeepsConsistent(env, t, a);
      StepMovesOwnCheckpoint(env, t, a);
      UsersInUsers(t.log, scope);
      UsersInUsers(u.log, scope);
    } else {
      AttemptElsewhere(env, t, a, scope);
    }
  }

  /* ---------- the same by the clock ---------- */

  lemma RecordedTicks(env: Env, s: HubState, stage: string, scope: Scope, writeId: Option<string>, d: Decision)
    ensures Recorded(env, s, stage, scope, writeId, d).ticks > s.ticks
  {
    AuditLeavesContainment(env, s, stage, scope, writeId, d);
    hide Audit;
  }

  lemma AcceptTicks(env: Env, s: HubState, m: Mutation, scope: Scope)
    requires ValidMetadata(m.metadata) && ScopeOf(m) == scope
    ensures Accepted(env, s, m, scope).0.ticks == s.ticks
  {
    hide ValidMetadata, ScopeOf;
  }

  lemma StepTicks(env: Env, s: HubState, a: Attempt)
    ensures Step(env, s, a).0.ticks > s.ticks
  {
    hide Step, Recorded, Accepted, ValidMetadata, ScopeOf, ConsultsGate;
    var before := StepShape(env, s, a);
    var answer := Step(env, s, a).1;
    RecordedTicks(env, before, StageOf(a), AttemptScope(a), WriteIdOf(a), answer.decision);
    if answer.accepted.Some? {
      var recorded := Recorded(env, before, StageOf(a), AttemptScope(a), WriteIdOf(a), answer.decision);
      AcceptTicks(env, recorded, Brought(a).value, AttemptScope(a));
    }
  }

  /** The scope's last event is no later than the clock would now read. */
  ghost predicate EventIsPast(env: Env, s: HubState, scope: Scope)
    requires scope in s.containment
  {
    s.containment[scope].lastEvent <= env.clock(s.ticks)
  }

  /**
   On a clock that never goes back, a scope contained less than half a second ago stays
   contained for the rest of that half second - and for longer, since every attempt on it
   moves its last event on.
   */
  lemma {:induction false} HalfSecondHolds(env: Env, s: HubState, scope: Scope, attempts: seq<Attempt>)
    requires Monotonic(env) && AllConsistent(s) && Contained(s, scope) && EventIsPast(env, s, scope)
    requires env.clock(Run(env, s, attempts).ticks) < s.containment[scope].lastEvent + 500
    ensures StaysWarm(env, s, scope, attempts)
    ensures var t := Run(env, s, attempts);
            && t.ticks >= s.ticks && Contained(t, scope) && EventIsPast(env, t, scope)
            && t.containment[scope].lastEvent >= s.containment[scope].lastEvent
            && UsersIn(t.log, scope) == UsersIn(s.log, scope)
  {
    hide Step, UsersIn, ConsultsGate, AllConsistent;
    if attempts != [] {
      var k := |attempts| - 1;
      var init, last := attempts[..k], attempts[k];
      var t := Run(env, s, init);
      StepTicks(env, t, last);
      assert env.clock(t.ticks) <= env.clock(Run(env, s, attempts).ticks);
      HalfSecondHolds(env, s, scope, init);
      assert Warm(env, t, scope);
      forall j | 0 <= j < |attempts| && AttemptScope(attempts[j]) == scope && ConsultsGate(attempts[j])
        ensures var u := Run(env, s, attempts[..j]); scope in u.containment && Warm(env, u, scope)
      {
        if j < k {
          assert init[..j] == attempts[..j] && attempts[j] == init[j];
        }
      }
      ContainmentHolds(env, s, scope, attempts);
      if AttemptScope(last) == scope {
        ContainedAttempt(env, t, last);
      } else {
        AttemptElsewhere(env, t, last, scope);
      }
    }
  }
}
