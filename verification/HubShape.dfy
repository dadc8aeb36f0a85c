/**
 The one shape every attempt on the hub has: at most a gate check, then a recorded decision,
 then at most one accepted mutation. What holds of those three parts holds of every attempt.
 */
module HubShape {
  import opened Wrappers
  import opened Documents
  import opened Hub

  function AttemptScope(a: Attempt): Scope {
    match a
    case Mismatch(_, scope, _, _, _) => scope
    case PushOne(scope, _) => scope
    case Pull(req) => req.scope
    case Promote(req) => req.scope
  }

  /** Under which stage the attempt's decision is evidenced. */
  function StageOf(a: Attempt): string {
    match a
    case Mismatch(stage, _, _, _, _) => stage
    case PushOne(_, _) => "write"
    case Pull(_) => "read"
    case Promote(_) => "promotion"
  }

  function WriteIdOf(a: Attempt): Option<string> {
    match a
    case Mismatch(_, _, writeId, _, _) => writeId
    case PushOne(_, m) => Some(m.writeId)
    case Pull(_) => None
    case Promote(req) => Some(req.mutation.writeId)
  }

  /** The attempt asks the gate; the others are refused before they would. */
  predicate ConsultsGate(a: Attempt) {
    match a
    case Mismatch(_, _, _, _, _) => false
    case PushOne(_, _) => true
    case Pull(_) => true
    case Promote(req) =>
      ValidMetadata(req.mutation.metadata) && ScopeOf(req.mutation) == req.scope
      && req.from == Episodic && req.to == Semantic
  }

  /** The mutation a client brings. */
  function Brought(a: Attempt): Option<Mutation> {
    match a
    case PushOne(_, m) => Some(m)
    case Promote(req) => Some(req.mutation)
    case _ => None
  }

  /** The same but for the counts of turned-away requests. */
  predicate Resembles(x: HubState, y: HubState) {
    x == y.(nonOwner := x.nonOwner, crossTenant := x.crossTenant)
  }

  /** The attempt's decision is recorded on `before`, and whatever it accepts is accepted after that. */
  ghost predicate HasShape(env: Env, s: HubState, a: Attempt, before: HubState) {
    var scope := AttemptScope(a);
    var (t, answer) := Step(env, s, a);
    var recorded := Recorded(env, before, StageOf(a), scope, WriteIdOf(a), answer.decision);
    && Resembles(before, if ConsultsGate(a) then Gate(env, s, scope).0 else s)
    && (if ConsultsGate(a) then Gate(env, s, scope).1.Some? ==> answer.decision == Gate(env, s, scope).1.value
        else answer.decision.verdict == Reject)
    && (answer.decision.verdict == Reject ==> answer.accepted.None? && answer.mutations == [])
    && match answer.accepted
       case None => t == recorded
       case Some(n) =>
         Brought(a).Some? &&
         var m := Brought(a).value;
         ValidMetadata(m.metadata) && ScopeOf(m) == scope && (t, n) == Accepted(env, recorded, m, scope)
  }

  lemma PushShape(env: Env, s: HubState, scope: Scope, m: Mutation) returns (before: HubState)
    ensures HasShape(env, s, PushOne(scope, m), before)
  {
    GateRejects(env, s, scope);
    hide Recorded, Gate, Accepted, ValidMetadata, ScopeOf, NormalizeWriteDecision;
    var s1 := Gate(env, s, scope).0;
    before := s1;
    if Gate(env, s, scope).1.None? && ValidMetadata(m.metadata) && ScopeOf(m) != scope {
      before := s1.(crossTenant := s1.crossTenant + 1);
    }
  }

  lemma PromoteShape(env: Env, s: HubState, req: PromoteRequest) returns (before: HubState)
    ensures HasShape(env, s, Promote(req), before)
  {
    GateRejects(env, s, req.scope);
    hide Recorded, Gate, Accepted, ValidMetadata, ScopeOf;
    var m, scope := req.mutation, req.scope;
    if ConsultsGate(Promote(req)) {
      before := Gate(env, s, scope).0;
    } else if ValidMetadata(m.metadata) && ScopeOf(m) != scope {
      before := s.(crossTenant := s.crossTenant + 1);
    } else {
      before := s;
    }
  }

  lemma GateRejects(env: Env, s: HubState, scope: Scope)
    ensures Gate(env, s, scope).1.Some? ==> Gate(env, s, scope).1.value.verdict == Reject
  {}

  lemma MismatchShape(
    env: Env, s: HubState, stage: string, scope: Scope, writeId: Option<string>, foreignTenant: bool, foreignNode: bool)
    returns (before: HubState)
    ensures HasShape(env, s, Mismatch(stage, scope, writeId, foreignTenant, foreignNode), before)
  {
    hide Recorded, Gate, Accepted;
    before := s.(crossTenant := s.crossTenant + if foreignTenant then 1 else 0,
                 nonOwner := s.nonOwner + if foreignNode then 1 else 0);
  }

  lemma PullShape(env: Env, s: HubState, req: PullRequest) returns (before: HubState)
    ensures HasShape(env, s, Pull(req), before)
  {
    hide Recorded, Gate, Accepted, Selected, ReadPath, Candidates, ScopedEntries, ReadLog;
    before := Gate(env, s, req.scope).0;
  }

  /** Every attempt has the shape. */
  lemma StepShape(env: Env, s: HubState, a: Attempt) returns (before: HubState)
    ensures HasShape(env, s, a, before)
  {
    hide HasShape;
    match a
    case Mismatch(stage, scope, writeId, foreignTenant, foreignNode) =>
      before := MismatchShape(env, s, stage, scope, writeId, foreignTenant, foreignNode);
    case PushOne(scope, m) =>
      before := PushShape(env, s, scope, m);
    case Pull(req) =>
      before := PullShape(env, s, req);
    case Promote(req) =>
      before := PromoteShape(env, s, req);
  }
}
