/** The hub as it runs: one object whose fields the request handlers update in place. */
module HubServer {
  import opened Wrappers
  import opened Documents
  import opened Oplog
  import opened Hub
  import HubIndexes

  /** `build_scoped_indexes`. */
  method BuildScopedIndexes(log: seq<Entry>, latest: nat)
    returns (checkpoints: map<Scope, nat>, writeIds: map<WriteKey, nat>)
    ensures (checkpoints, writeIds) == HubIndexes.Rebuilt(log, latest)
  {
    checkpoints, writeIds := map[], map[];
    if latest == 0 {
      return;
    }
    var entries := ReadLog(log, 1, latest + 1);
    for i := 0 to |entries|
      invariant checkpoints == HubIndexes.CheckpointsOver(entries[..i])
      invariant writeIds == HubIndexes.WriteIdsOver(entries[..i])
    {
      var m := entries[i].mutation;
      assert entries[..i + 1][..i] == entries[..i];
      if m.collection == AUDIT {
        continue;
      }
      var scope := ScopeOf(m);
      if scope in checkpoints {
        checkpoints := checkpoints[scope := Max(checkpoints[scope], entries[i].seqNo)];
      } else {
        checkpoints := checkpoints[scope := entries[i].seqNo];
      }
      writeIds := writeIds[WriteKeyOf(m) := entries[i].seqNo];
    }
    assert entries[..|entries|] == entries;
  }

  /** How often each candidate identity came back. */
  method CountIdentities(candidates: seq<Document>) returns (counts: map<Identity, nat>)
    ensures counts == IdentityCounts(candidates)
  {
    counts := map[];
    for i := 0 to |candidates|
      invariant counts == IdentityCounts(candidates[..i])
    {
      var key := IdentityOf(candidates[i]);
      assert candidates[..i + 1][..i] == candidates[..i];
      if key.None? {
        continue;
      }
      counts := counts[key.value := (if key.value in counts then counts[key.value] else 0) + 1];
    }
    assert candidates[..|candidates|] == candidates;
  }

  /** The selection loop, which uses the counts up as it goes. */
  method SelectMutations(scoped: seq<Entry>, counts: map<Identity, nat>, tier: Tier) returns (mutations: seq<Mutation>)
    ensures mutations == Selected(scoped, counts, tier)
  {
    mutations := [];
    var left := counts;
    for i := 0 to |scoped|
      invariant mutations + Selected(scoped[i..], left, tier) == Selected(scoped, counts, tier)
    {
      var entry := scoped[i];
      assert scoped[i..][1..] == scoped[i + 1..];
      if entry.mutation.patch.None? {
        continue;
      }
      var key := (entry.seqNo, entry.mutation.writeId);
      if key !in left {
        continue;
      }
      if left[key] > 0 {
        mutations := mutations + [Annotated(entry.mutation, tier)];
        left := left[key := left[key] - 1];
      }
    }
    assert mutations + [] == mutations;
  }

  class ServerState {
    var log: seq<Entry>
    var latest: nat
    var checkpoints: map<Scope, nat>
    var writeIds: map<WriteKey, nat>
    var containment: map<Scope, Containment>
    var audits: nat
    var ticks: nat
    var nonOwner: nat
    var crossTenant: nat

    /** The value this object holds. */
    function State(): HubState
      reads this
    {
      HubState(log, latest, checkpoints, writeIds, containment, audits, ticks, nonOwner, crossTenant)
    }

    /** A server started over an existing log: the indexes come from the log, everything else is new. */
    constructor (log: seq<Entry>, latest: nat, ticks: nat)
      requires HubIndexes.WellNumbered(log, latest)
      ensures State() == HubState(log, latest, HubIndexes.CheckpointsOver(log), HubIndexes.WriteIdsOver(log),
                                  map[], 0, ticks, 0, 0)
      ensures HubIndexes.Indexed(State())
    {
      var marks, keys := BuildScopedIndexes(log, latest);
      HubIndexes.RebuildReadsAll(log, latest);
      this.log, this.latest := log, latest;
      checkpoints, writeIds, containment := marks, keys, map[];
      audits, this.ticks, nonOwner, crossTenant := 0, ticks, 0, 0;
    }

    method ContainmentGate(env: Env, scope: Scope) returns (decision: Option<Decision>)
      modifies this`containment, this`ticks
      ensures (State(), decision) == Gate(env, old(State()), scope)
    {
      if scope !in containment {
        containment := containment[scope := Containment(Normal, 0, env.clock(ticks))];
        ticks := ticks + 1;
      }
      var state := containment[scope];
      if env.clock(ticks) >= state.lastEvent + COOLDOWN {
        state := state.(mode := Normal, rejects := 0);
      }
      containment := containment[scope := state];
      ticks := ticks + 1;
      match state.mode
      case Normal => decision := None;
      case Throttle => decision := Some(Decision(Reject, "containment_throttle"));
      case Rejecting => decision := Some(Decision(Reject, "containment_reject"));
    }

    method RegisterDecisionOutcome(env: Env, scope: Scope, decision: Decision)
      modifies this`containment, this`ticks
      ensures State() == Observe(env, old(State()), scope, decision)
    {
      if scope !in containment {
        containment := containment[scope := Containment(Normal, 0, env.clock(ticks))];
        ticks := ticks + 1;
      }
      var state := containment[scope].(lastEvent := env.clock(ticks));
      if decision.verdict == Reject {
        state := state.(rejects := state.rejects + 1);
        if state.rejects >= REJECT_THRESHOLD {
          state := state.(mode := Rejecting);
        } else if state.rejects >= THROTTLE_THRESHOLD {
          state := state.(mode := Throttle);
        }
      } else {
        state := state.(mode := Normal, rejects := 0);
      }
      containment := containment[scope := state];
      ticks := ticks + 1;
    }

    method IndexMutation(seqNo: nat, m: Mutation)
      modifies this`checkpoints, this`writeIds
      ensures checkpoints == IndexCheckpoint(old(checkpoints), seqNo, m)
      ensures writeIds == IndexWriteId(old(writeIds), seqNo, m)
    {
      if m.collection == AUDIT {
        return;
      }
      var scope := ScopeOf(m);
      if scope in checkpoints {
        checkpoints := checkpoints[scope := Max(checkpoints[scope], seqNo)];
      } else {
        checkpoints := checkpoints[scope := seqNo];
      }
      writeIds := writeIds[WriteKeyOf(m) := seqNo];
    }

    method Append(env: Env, m: Mutation, origin: Origin, applied: bool) returns (seqNo: nat)
      modifies this`log, this`latest, this`checkpoints, this`writeIds
      ensures (State(), seqNo) == AppendIndexed(env, old(State()), m, origin, applied)
    {
      latest := latest + 1;
      seqNo := latest;
      log := log + [Entry(seqNo, env.appendedAt(seqNo), m, origin, applied)];
      IndexMutation(seqNo, m);
    }

    method PersistAuditEvidence(env: Env, stage: string, scope: Scope, writeId: Option<string>, decision: Decision)
      modifies this`log, this`latest, this`checkpoints, this`writeIds, this`audits
      ensures State() == Audit(env, old(State()), stage, scope, writeId, decision)
    {
      hide ValidMetadata;
      audits := audits + 1;
      var m := AuditMutation(env, audits, stage, scope, writeId, decision);
      if ValidMetadata(m.metadata) {
        var seqNo := Append(env, m, Origin.Local, true);
      }
    }

    /** The audit entry and the containment outcome of a decision. */
    method Record(env: Env, stage: string, scope: Scope, writeId: Option<string>, decision: Decision)
      modifies this`log, this`latest, this`checkpoints, this`writeIds, this`audits, this`containment, this`ticks
      ensures State() == Recorded(env, old(State()), stage, scope, writeId, decision)
    {
      hide Audit, Observe;
      PersistAuditEvidence(env, stage, scope, writeId, decision);
      RegisterDecisionOutcome(env, scope, decision);
    }

    method AppendMutation(env: Env, m: Mutation, scope: Scope) returns (r: Result<nat, string>)
      modifies this`log, this`latest, this`checkpoints, this`writeIds
      ensures (State(), r) == Hub.AppendMutation(env, old(State()), m, scope)
    {
      hide ValidMetadata;
      if !ValidMetadata(m.metadata) {
        return Failure("invalid_metadata");
      }
      if ScopeOf(m) != scope {
        return Failure("mutation tenant/namespace does not match request scope");
      }
      if WriteKeyOf(m) in writeIds {
        return Success(writeIds[WriteKeyOf(m)]);
      }
      var seqNo := Append(env, m, Origin.Remote, false);
      r := Success(seqNo);
    }

    /** One mutation of a push. */
    method PushOne(env: Env, scope: Scope, m: Mutation) returns (answer: Answer)
      modifies this
      ensures (State(), answer) == PushStep(env, old(State()), scope, m)
    {
      hide ValidMetadata, Gate, Recorded, Hub.AppendMutation, ScopeOf, NormalizeWriteDecision;
      var writeId := Some(m.writeId);
      var contained := ContainmentGate(env, scope);
      if contained.Some? {
        Record(env, "write", scope, writeId, contained.value);
        return Answer(None, [], contained.value, false);
      }
      if !ValidMetadata(m.metadata) {
        var decision := Decision(Reject, "invalid_metadata");
        Record(env, "write", scope, writeId, decision);
        return Answer(None, [], decision, false);
      }
      if ScopeOf(m) != scope {
        crossTenant := crossTenant + 1;
        var decision := Decision(Reject, "cross_tenant_or_namespace_mutation");
        Record(env, "write", scope, writeId, decision);
        return Answer(None, [], decision, true);
      }
      var decision := NormalizeWriteDecision(env.writePolicy(scope, m));
      Record(env, "write", scope, writeId, decision);
      if decision.verdict == Reject {
        return Answer(None, [], decision, false);
      }
      ghost var before := State();
      var r := AppendMutation(env, m, scope);
      AppendSucceeds(env, before, m, scope);
      answer := Answer(Some(r.value), [], decision, false);
    }

    method Mismatched(env: Env, stage: string, scope: Scope, writeId: Option<string>, foreignTenant: bool, foreignNode: bool)
      returns (decision: Decision)
      modifies this
      ensures var (t, answer) := Step(env, old(State()), Mismatch(stage, scope, writeId, foreignTenant, foreignNode));
              State() == t && decision == answer.decision
    {
      hide Recorded;
      if foreignTenant {
        crossTenant := crossTenant + 1;
      }
      if foreignNode {
        nonOwner := nonOwner + 1;
      }
      decision := Decision(Reject, if foreignTenant then "tenant_mismatch" else "node_mismatch");
      Record(env, stage, scope, writeId, decision);
    }

    /** The loop over the mutations of a push. */
    method PushEach(env: Env, scope: Scope, mutations: seq<Mutation>)
      returns (accepted: seq<nat>, foreign: nat, audit: seq<Decision>)
      modifies this
      ensures var (t, answers) := PushAll(env, old(State()), scope, mutations);
              State() == t && accepted == AcceptedSeqs(answers) && foreign == ForeignCount(answers)
              && audit == Decisions(answers)
    {
      hide PushStep;
      accepted, foreign, audit := [], 0, [];
      for i := 0 to |mutations|
        invariant var (t, answers) := PushAll(env, old(State()), scope, mutations[..i]);
                  State() == t && accepted == AcceptedSeqs(answers) && foreign == ForeignCount(answers)
                  && audit == Decisions(answers)
      {
        ghost var answers := PushAll(env, old(State()), scope, mutations[..i]).1;
        assert mutations[..i + 1][..i] == mutations[..i];
        var answer := PushOne(env, scope, mutations[i]);
        assert (answers + [answer])[..|answers|] == answers;
        if answer.foreign {
          foreign := foreign + 1;
        }
        if answer.accepted.Some? {
          accepted := accepted + [answer.accepted.value];
        }
        audit := audit + [answer.decision];
      }
      assert mutations[..|mutations|] == mutations;
    }

    method ProcessPush(env: Env, req: PushRequest, principal: Principal) returns (response: PushResponse)
      modifies this
      ensures (State(), response) == Push(env, old(State()), req, principal)
    {
      hide PushAll, Step, AcceptedSeqs, ForeignCount, Decisions;
      if req.nodeId != principal.nodeId {
        var decision := Mismatched(env, "write", req.scope, None, false, true);
        return PushResponse([], Checkpoint(State(), req.scope), 1, 0, [decision]);
      }
      if req.scope.0 != principal.tenantId {
        var decision := Mismatched(env, "write", req.scope, None, true, false);
        return PushResponse([], Checkpoint(State(), req.scope), 0, 1, [decision]);
      }
      var accepted, foreign, audit := PushEach(env, req.scope, req.mutations);
      response := PushResponse(accepted, Checkpoint(State(), req.scope), 0, foreign, audit);
    }

    method ProcessPull(env: Env, req: PullRequest, nodeId: string, principal: Principal) returns (response: PullResponse)
      modifies this
      ensures (State(), response) == PullRequested(env, old(State()), req, nodeId, principal)
    {
      hide Gate, Recorded, ReadPath, Selected, IdentityCounts, Candidates, ScopedEntries, ReadLog;
      if principal.nodeId != nodeId || principal.tenantId != req.scope.0 {
        var decision := Mismatched(env, "read", req.scope, None, principal.tenantId != req.scope.0, false);
        return PullResponse([], Checkpoint(State(), req.scope), [decision]);
      }
      var scoped := ScopedEntries(ReadLog(log, req.since + 1, PAGE), req.scope, req.tier);
      var (policy, filtered) := ReadPath(env, req.scope, req.tier, Candidates(scoped));
      var contained := ContainmentGate(env, req.scope);
      var decision := if contained.Some? then contained.value else policy;
      Record(env, "read", req.scope, None, decision);
      if decision.verdict == Reject {
        return PullResponse([], Checkpoint(State(), req.scope), [decision]);
      }
      var counts := CountIdentities(filtered);
      var mutations := SelectMutations(scoped, counts, req.tier);
      response := PullResponse(mutations, Checkpoint(State(), req.scope), [decision]);
    }

    method ProcessPromote(env: Env, req: PromoteRequest, nodeId: string, principal: Principal)
      returns (response: PromoteResponse)
      modifies this
      ensures (State(), response) == PromoteRequested(env, old(State()), req, nodeId, principal)
    {
      hide Gate, Recorded, ValidMetadata, ScopeOf, Hub.AppendMutation;
      var m, scope, writeId := req.mutation, req.scope, Some(req.mutation.writeId);
      var decision: Decision;
      if nodeId != principal.nodeId {
        decision := Mismatched(env, "promotion", scope, writeId, false, true);
        return PromoteResponse([], Checkpoint(State(), scope), 1, [decision]);
      }
      if scope.0 != principal.tenantId {
        decision := Mismatched(env, "promotion", scope, writeId, true, false);
        return PromoteResponse([], Checkpoint(State(), scope), 1, [decision]);
      }
      if !ValidMetadata(m.metadata) {
        decision := Decision(Reject, "invalid_metadata");
        Record(env, "promotion", scope, writeId, decision);
        return PromoteResponse([], Checkpoint(State(), scope), 1, [decision]);
      }
      if ScopeOf(m) != scope {
        crossTenant := crossTenant + 1;
        decision := Decision(Reject, "cross_tenant_or_namespace_mutation");
        Record(env, "promotion", scope, writeId, decision);
        return PromoteResponse([], Checkpoint(State(), scope), 1, [decision]);
      }
      if !(req.from == Episodic && req.to == Semantic) {
        decision := Decision(Reject, "semantic_promotion_requires_episodic_to_semantic");
        Record(env, "promotion", scope, writeId, decision);
        return PromoteResponse([], Checkpoint(State(), scope), 1, [decision]);
      }
      var contained := ContainmentGate(env, scope);
      decision := if contained.Some? then contained.value else env.promotionPolicy(scope, req.candidate, m);
      Record(env, "promotion", scope, writeId, decision);
      if decision.verdict != Allow {
        return PromoteResponse([], Checkpoint(State(), scope), 1, [decision]);
      }
      ghost var before := State();
      var r := AppendMutation(env, m, scope);
      AppendSucceeds(env, before, m, scope);
      response := PromoteResponse([r.value], Checkpoint(State(), scope), 0, [decision]);
    }
  }

  lemma AppendSucceeds(env: Env, s: HubState, m: Mutation, scope: Scope)
    requires ValidMetadata(m.metadata) && ScopeOf(m) == scope
    ensures Hub.AppendMutation(env, s, m, scope).1.Success?
  {
    hide ValidMetadata, ScopeOf;
  }
}
