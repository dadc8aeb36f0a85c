/** What whole requests are answered: the ones turned away at the door, pushes write by write, and promotions. */
module HubRequests {
  import opened Wrappers
  import opened Documents
  import opened Oplog
  import opened StableSort
  import opened Hub
  import opened HubShape
  import opened HubIndexes
  import opened HubIdempotence
  import opened HubContainment
  import opened HubPull
  import Revisions

  /* ---------- evidence ---------- */

  /** The audit entry that tells of a decision. */
  predicate TellsOf(e: Entry, stage: string, scope: Scope, writeId: Option<string>, d: Decision) {
    && e.mutation.op == MutationOp.Insert && e.mutation.collection == "__governance_audit"
    && e.mutation.metadata.kind == "governance_audit" && ScopeOf(e.mutation) == scope
    && e.mutation.metadata.source == "server.runtime" && e.mutation.metadata.actor == "governance"
    && e.mutation.metadata.lineage == e.mutation.docId.text && e.mutation.seqNo == 0
    && e.origin == Origin.Local && e.applied && e.mutation.patch.Some?
    && var patch := e.mutation.patch.value;
       && Holds(patch, "stage", stage) && Holds(patch, "reason", d.reason)
       && Holds(patch, "decision", match d.verdict case Allow => "allow" case Sanitize => "sanitize" case Reject => "reject")
       && Holds(patch, "tenant_id", scope.0) && Holds(patch, "namespace", scope.1)
       && Holds(patch, "write_id", if writeId.Some? then writeId.value else "none")
  }

  predicate Holds(patch: Document, field: string, text: string) {
    field in patch && patch[field] == String(text)
  }

  /** The `n`th audit entry: a fresh id and revision, and a write id no other has. */
  predicate IsEvidence(env: Env, e: Entry, n: nat, stage: string, scope: Scope, writeId: Option<string>, d: Decision) {
    && TellsOf(e, stage, scope, writeId, d)
    && e.mutation.docId == env.freshId(n) && e.mutation.rev == env.freshRev(n)
    && e.mutation.writeId ==
       "governance-audit:" + scope.0 + ":" + scope.1 + ":" + stage + ":"
       + (if writeId.Some? then writeId.value else "none") + ":" + Revisions.Decimal(n)
  }

  /** The log has grown by the evidence of one decision and by nothing else; a scope with an empty part leaves none. */
  ghost predicate Evidenced(
    env: Env, s: HubState, t: HubState, stage: string, scope: Scope, writeId: Option<string>, d: Decision)
  {
    if scope.0 == "" || scope.1 == "" || env.freshId(s.audits + 1).text == "" then t.log == s.log
    else
      && |t.log| == |s.log| + 1 && t.log[..|s.log|] == s.log
      && t.log[|s.log|].seqNo == s.latest + 1
      && IsEvidence(env, t.log[|s.log|], s.audits + 1, stage, scope, writeId, d)
  }

  lemma RecordedEvidence(env: Env, s: HubState, stage: string, scope: Scope, writeId: Option<string>, d: Decision)
    ensures Evidenced(env, s, Recorded(env, s, stage, scope, writeId, d), stage, scope, writeId, d)
    ensures Recorded(env, s, stage, scope, writeId, d).audits == s.audits + 1
  {
    hide AuditMutation, ValidMetadata, IsEvidence, Observed, IndexCheckpoint, IndexWriteId;
    var n := s.audits + 1;
    AuditValidIff(env, n, stage, scope, writeId, d);
    AuditTells(env, n, s.latest + 1, stage, scope, writeId, d);
  }

  lemma AuditValidIff(env: Env, n: nat, stage: string, scope: Scope, writeId: Option<string>, d: Decision)
    ensures ValidMetadata(AuditMutation(env, n, stage, scope, writeId, d).metadata) <==>
            scope.0 != "" && scope.1 != "" && env.freshId(n).text != ""
  {}

  lemma AuditTells(env: Env, n: nat, seqNo: nat, stage: string, scope: Scope, writeId: Option<string>, d: Decision)
    ensures IsEvidence(env, Entry(seqNo, env.appendedAt(seqNo), AuditMutation(env, n, stage, scope, writeId, d), Origin.Local, true),
                       n, stage, scope, writeId, d)
  {}

  /**
   Whatever an attempt is answered, its decision is evidenced first, before any write it brings,
   and is the last event of its scope: a rejection counts one more, anything else clears the count.
   */
  lemma StepEvidence(env: Env, s: HubState, a: Attempt)
    ensures var (t, answer) := Step(env, s, a);
            var scope := AttemptScope(a);
            && (exists u: HubState ::
                  && Evidenced(env, s, u, StageOf(a), scope, WriteIdOf(a), answer.decision)
                  && u.log <= t.log && |t.log| <= |u.log| + (if answer.accepted.Some? then 1 else 0))
            && t.audits == s.audits + 1
            && scope in t.containment && t.ticks > s.ticks
            && t.containment[scope].lastEvent == env.clock(t.ticks - 1)
            && (if answer.decision.verdict != Reject then Rejects(t, scope) == 0
                else if ConsultsGate(a) && !(scope in s.containment && Warm(env, s, scope)) then Rejects(t, scope) == 1
                else Rejects(t, scope) == Rejects(s, scope) + 1)
  {
    hide Step, Recorded, Gate, Accepted, ValidMetadata, ScopeOf, ConsultsGate, IsEvidence, Warm;
    var scope := AttemptScope(a);
    var before := StepShape(env, s, a);
    var (t, answer) := Step(env, s, a);
    GateGrows(env, s, scope);
    GateCounts(env, s, scope);
    GateLeavesAudits(env, s, scope);
    RecordedEvidence(env, before, StageOf(a), scope, WriteIdOf(a), answer.decision);
    RecordedCounts(env, before, StageOf(a), scope, WriteIdOf(a), answer.decision);
    var u := Recorded(env, before, StageOf(a), scope, WriteIdOf(a), answer.decision);
    assert Evidenced(env, s, u, StageOf(a), scope, WriteIdOf(a), answer.decision);
    if answer.accepted.Some? {
      AcceptAppendsOne(env, u, Brought(a).value, scope);
    }
  }

  lemma GateLeavesAudits(env: Env, s: HubState, scope: Scope)
    ensures Gate(env, s, scope).0.audits == s.audits && Gate(env, s, scope).0.ticks > s.ticks
  {}

  lemma AcceptAppendsOne(env: Env, s: HubState, m: Mutation, scope: Scope)
    requires ValidMetadata(m.metadata) && ScopeOf(m) == scope
    ensures var t := Accepted(env, s, m, scope).0;
            && s.log <= t.log && |t.log| <= |s.log| + 1
            && t.containment == s.containment && t.ticks == s.ticks && t.audits == s.audits
  {
    hide ValidMetadata, ScopeOf, WriteKeyOf;
  }

  /* ---------- requests turned away at the door ---------- */

  /** Nothing is written, the decision is evidenced, and the scope counts one more rejection. */
  ghost predicate TurnedAway(
    env: Env, s: HubState, t: HubState, stage: string, scope: Scope, writeId: Option<string>, d: Decision)
  {
    && d.verdict == Reject
    && NoWrite(s, t) && Evidenced(env, s, t, stage, scope, writeId, d)
    && Rejects(t, scope) == Rejects(s, scope) + 1
  }

  ghost predicate Counted(s: HubState, t: HubState, nonOwner: nat, crossTenant: nat) {
    t.nonOwner == s.nonOwner + nonOwner && t.crossTenant == s.crossTenant + crossTenant
  }

  lemma RecordedTurnsAway(
    env: Env, s: HubState, nonOwner: nat, crossTenant: nat,
    stage: string, scope: Scope, writeId: Option<string>, d: Decision)
    requires d.verdict == Reject
    ensures var before := s.(nonOwner := s.nonOwner + nonOwner, crossTenant := s.crossTenant + crossTenant);
            var t := Recorded(env, before, stage, scope, writeId, d);
            TurnedAway(env, s, t, stage, scope, writeId, d) && Counted(s, t, nonOwner, crossTenant)
  {
    hide Recorded, IsEvidence, Users, Grows;
    var before := s.(nonOwner := s.nonOwner + nonOwner, crossTenant := s.crossTenant + crossTenant);
    RecordedGrows(env, before, stage, scope, writeId, d);
    RecordedEvidence(env, before, stage, scope, writeId, d);
    RecordedCounts(env, before, stage, scope, writeId, d);
    RecordedLeavesCounters(env, before, stage, scope, writeId, d);
  }

  lemma RecordedLeavesCounters(env: Env, s: HubState, stage: string, scope: Scope, writeId: Option<string>, d: Decision)
    ensures Counted(s, Recorded(env, s, stage, scope, writeId, d), 0, 0)
  {
    hide ValidMetadata, AuditMutation;
  }

  /**
   A push under another node or tenant than the token's: nothing is accepted, whatever it brings.
   The node is looked at first; one counter moves, by one.
   */
  lemma PushRefused(env: Env, s: HubState, req: PushRequest, principal: Principal)
    requires req.nodeId != principal.nodeId || req.scope.0 != principal.tenantId
    ensures var (t, response) := Push(env, s, req, principal);
            var foreignNode := req.nodeId != principal.nodeId;
            var d := Decision(Reject, if foreignNode then "node_mismatch" else "tenant_mismatch");
            && TurnedAway(env, s, t, "write", req.scope, None, d)
            && Counted(s, t, if foreignNode then 1 else 0, if foreignNode then 0 else 1)
            && response == PushResponse(
                 [], Checkpoint(s, req.scope), if foreignNode then 1 else 0, if foreignNode then 0 else 1, [d])
  {
    hide Recorded, PushAll;
    var foreignNode := req.nodeId != principal.nodeId;
    RecordedTurnsAway(env, s, if foreignNode then 1 else 0, if foreignNode then 0 else 1, "write", req.scope, None,
                      Decision(Reject, if foreignNode then "node_mismatch" else "tenant_mismatch"));
  }

  /** A pull under another tenant or node reads nothing. The tenant is looked at first, and only it is counted. */
  lemma PullRefused(env: Env, s: HubState, req: PullRequest, nodeId: string, principal: Principal)
    requires nodeId != principal.nodeId || req.scope.0 != principal.tenantId
    ensures var (t, response) := PullRequested(env, s, req, nodeId, principal);
            var foreignTenant := req.scope.0 != principal.tenantId;
            var d := Decision(Reject, if foreignTenant then "tenant_mismatch" else "node_mismatch");
            && TurnedAway(env, s, t, "read", req.scope, None, d)
            && Counted(s, t, 0, if foreignTenant then 1 else 0)
            && response == PullResponse([], Checkpoint(s, req.scope), [d])
  {
    hide Recorded, PullStep, PushStep, PromoteStep;
    var foreignTenant := req.scope.0 != principal.tenantId;
    RecordedTurnsAway(env, s, 0, if foreignTenant then 1 else 0, "read", req.scope, None,
                      Decision(Reject, if foreignTenant then "tenant_mismatch" else "node_mismatch"));
  }

  /** A promotion under another node or tenant promotes nothing and is answered as one rejection. */
  lemma PromoteRefused(env: Env, s: HubState, req: PromoteRequest, nodeId: string, principal: Principal)
    requires nodeId != principal.nodeId || req.scope.0 != principal.tenantId
    ensures var (t, response) := PromoteRequested(env, s, req, nodeId, principal);
            var foreignNode := nodeId != principal.nodeId;
            var d := Decision(Reject, if foreignNode then "node_mismatch" else "tenant_mismatch");
            && TurnedAway(env, s, t, "promotion", req.scope, Some(req.mutation.writeId), d)
            && Counted(s, t, if foreignNode then 1 else 0, if foreignNode then 0 else 1)
            && response == PromoteResponse([], Checkpoint(s, req.scope), 1, [d])
  {
    hide Recorded, PullStep, PushStep, PromoteStep;
    var foreignNode := nodeId != principal.nodeId;
    RecordedTurnsAway(env, s, if foreignNode then 1 else 0, if foreignNode then 0 else 1, "promotion", req.scope,
                      Some(req.mutation.writeId),
                      Decision(Reject, if foreignNode then "node_mismatch" else "tenant_mismatch"));
  }

  /* ---------- pushes ---------- */

  const STRANGER: string := "cross_tenant_or_namespace_mutation"

  /** The decision a closed gate gives. */
  predicate IsContainment(u: HubState, scope: Scope, d: Decision) {
    && scope in u.containment && d.verdict == Reject
    && d.reason == match u.containment[scope].mode
                   case Throttle => "containment_throttle"
                   case _ => "containment_reject"
  }

  /** What is decided about one mutation of a push that reaches the hub in the state `u`. */
  ghost predicate Decides(env: Env, u: HubState, scope: Scope, m: Mutation, d: Decision) {
    if !GateOpen(env, u, scope) then IsContainment(u, scope, d)
    else if !ValidMetadata(m.metadata) then d == Decision(Reject, "invalid_metadata")
    else if ScopeOf(m) != scope then d == Decision(Reject, STRANGER)
    else
      var policy := env.writePolicy(scope, m);
      && d.verdict == policy.verdict
      && d.reason == if policy.verdict == Reject && "trust_score_below_threshold" <= policy.reason
                     then "poisoning_low_trust:" + policy.reason else policy.reason
  }

  /** The mutation is turned away for belonging to another scope; no other reason reads like this one there. */
  predicate Stranger(scope: Scope, m: Mutation, d: Decision) {
    ScopeOf(m) != scope && d.reason == STRANGER
  }

  lemma PushDecides(env: Env, s: HubState, scope: Scope, m: Mutation)
    ensures var (t, answer) := PushStep(env, s, scope, m);
            && Decides(env, s, scope, m, answer.decision)
            && (answer.accepted.Some? <==> answer.decision.verdict != Reject)
            && (answer.foreign <==> Stranger(scope, m, answer.decision))
            && Counted(s, t, 0, if answer.foreign then 1 else 0)
  {
    hide Recorded, Audit, Gate, ValidMetadata, ScopeOf, Hub.AppendMutation;
    GateReasons(env, s, scope);
    var s1 := Gate(env, s, scope).0;
    forall d: Decision, u: HubState ensures Counted(u, Recorded(env, u, "write", scope, Some(m.writeId), d), 0, 0) {
      RecordedLeavesCounters(env, u, "write", scope, Some(m.writeId), d);
    }
    if ValidMetadata(m.metadata) && ScopeOf(m) == scope {
      var d := NormalizeWriteDecision(env.writePolicy(scope, m));
      AcceptedLeavesCounters(env, Recorded(env, s1, "write", scope, Some(m.writeId), d), m, scope);
    }
  }

  lemma GateReasons(env: Env, s: HubState, scope: Scope)
    ensures var (t, contained) := Gate(env, s, scope);
            && Counted(s, t, 0, 0)
            && (contained.Some? ==> IsContainment(s, scope, contained.value) && contained.value.reason != STRANGER)
  {}

  lemma AcceptedLeavesCounters(env: Env, s: HubState, m: Mutation, scope: Scope)
    requires ValidMetadata(m.metadata) && ScopeOf(m) == scope
    ensures Counted(s, Accepted(env, s, m, scope).0, 0, 0)
  {
    hide ValidMetadata, ScopeOf, WriteKeyOf;
  }

  /** The mutations of a push that were not rejected, in order. */
  function Passed(ms: seq<Mutation>, audit: seq<Decision>): seq<Mutation>
    requires |audit| == |ms|
  {
    if ms == [] then []
    else
      var k := |ms| - 1;
      Passed(ms[..k], audit[..k]) + if audit[k].verdict != Reject then [ms[k]] else []
  }

  /** The user writes among `ms` that were not known before, each the first time only. */
  function NewWrites(known: set<WriteKey>, ms: seq<Mutation>): seq<Mutation> {
    if ms == [] then []
    else
      var rest, last := ms[..|ms| - 1], ms[|ms| - 1];
      NewWrites(known, rest) +
      if last.collection != AUDIT && WriteKeyOf(last) !in known + UserKeys(rest) then [last] else []
  }

  /** The user writes of a batch. */
  function UserKeys(ms: seq<Mutation>): set<WriteKey> {
    set m | m in ms && m.collection != AUDIT :: WriteKeyOf(m)
  }

  /** The log holds the write `m` under number `n`. */
  ghost predicate Logged(log: seq<Entry>, m: Mutation, n: nat) {
    exists e | e in log :: e.seqNo == n && WriteKeyOf(e.mutation) == WriteKeyOf(m)
  }

  /** The mutations of the log past its first `n` entries that are no audit collection's, all remote and unapplied. */
  ghost predicate Joined(users: seq<Entry>, before: seq<Entry>, ms: seq<Mutation>) {
    && |users| == |before| + |ms| && users[..|before|] == before
    && var joined := users[|before|..];
       forall k | 0 <= k < |ms| ::
         joined[k].mutation == ms[k] && joined[k].origin == Origin.Remote && !joined[k].applied
  }

  ghost function Strangers(scope: Scope, ms: seq<Mutation>, audit: seq<Decision>): set<nat>
    requires |audit| == |ms|
  {
    set i: nat | i < |ms| && Stranger(scope, ms[i], audit[i])
  }

  lemma AnswersSplit(answers: seq<Answer>, answer: Answer)
    ensures Decisions(answers + [answer]) == Decisions(answers) + [answer.decision]
    ensures ForeignCount(answers + [answer]) == ForeignCount(answers) + if answer.foreign then 1 else 0
    ensures AcceptedSeqs(answers + [answer]) ==
            AcceptedSeqs(answers) + (match answer.accepted case Some(n) => [n] case None => [])
  {
    assert (answers + [answer])[..|answers|] == answers;
  }

  /** One decision per mutation, in order; the strangers among them are counted. */
  lemma {:induction false} PushAllDecides(env: Env, s: HubState, scope: Scope, ms: seq<Mutation>)
    ensures var (t, answers) := PushAll(env, s, scope, ms);
            var audit := Decisions(answers);
            && |audit| == |ms|
            && (forall i | 0 <= i < |ms| :: Decides(env, PushAll(env, s, scope, ms[..i]).0, scope, ms[i], audit[i]))
            && ForeignCount(answers) == |Strangers(scope, ms, audit)|
            && Counted(s, t, 0, ForeignCount(answers))
  {
    hide PushStep, Decides, Stranger;
    var (t, answers) := PushAll(env, s, scope, ms);
    if ms == [] {
      assert Strangers(scope, ms, Decisions(answers)) == {};
    } else {
      hide Decisions, ForeignCount, Strangers;
      var k := |ms| - 1;
      var init := ms[..k];
      PushAllDecides(env, s, scope, init);
      var (s1, before) := PushAll(env, s, scope, init);
      var answer := PushStep(env, s1, scope, ms[k]).1;
      AnswersSplit(before, answer);
      PushDecides(env, s1, scope, ms[k]);
      StrangersStep(scope, ms, Decisions(answers));
      forall i | 0 <= i < |ms|
        ensures Decides(env, PushAll(env, s, scope, ms[..i]).0, scope, ms[i], Decisions(answers)[i])
      {
        if i < k {
          assert init[..i] == ms[..i] && init[i] == ms[i];
        }
      }
    }
  }

  lemma StrangersStep(scope: Scope, ms: seq<Mutation>, audit: seq<Decision>)
    requires |audit| == |ms| && ms != []
    ensures var k := |ms| - 1;
            |Strangers(scope, ms, audit)| ==
            |Strangers(scope, ms[..k], audit[..k])| + if Stranger(scope, ms[k], audit[k]) then 1 else 0
  {
    hide Stranger;
    var k := |ms| - 1;
    var before := Strangers(scope, ms[..k], audit[..k]);
    assert k !in before;
    assert Strangers(scope, ms, audit) == before + if Stranger(scope, ms[k], audit[k]) then {k} else {};
  }

  /** Between `s` and `t` the writes `ms` were accepted under `numbers`: the new ones are all that joined the log. */
  ghost predicate Written(s: HubState, t: HubState, ms: seq<Mutation>, numbers: seq<nat>) {
    && |numbers| == |ms|
    && (forall k | 0 <= k < |ms| :: Logged(t.log, ms[k], numbers[k]))
    && t.writeIds.Keys == s.writeIds.Keys + UserKeys(ms)
    && Joined(Users(t.log), Users(s.log), NewWrites(s.writeIds.Keys, ms))
  }

  lemma WrittenNothing(s: HubState)
    ensures Written(s, s, [], [])
  {}

  lemma WrittenSame(s: HubState, u: HubState, t: HubState, ms: seq<Mutation>, numbers: seq<nat>)
    requires Written(s, u, ms, numbers) && NoWrite(u, t) && u.log <= t.log
    ensures Written(s, t, ms, numbers)
  {
    hide Users, WriteKeyOf, NewWrites, UserKeys, Joined;
    forall k | 0 <= k < |ms| ensures Logged(t.log, ms[k], numbers[k]) {
      LoggedStays(u.log, t.log, ms[k], numbers[k]);
    }
  }

  lemma LoggedStays(log: seq<Entry>, longer: seq<Entry>, m: Mutation, n: nat)
    requires Logged(log, m, n) && log <= longer
    ensures Logged(longer, m, n)
  {
    var e :| e in log && e.seqNo == n && WriteKeyOf(e.mutation) == WriteKeyOf(m);
    assert e in longer;
  }

  lemma UserKeysStep(ms: seq<Mutation>, m: Mutation)
    ensures UserKeys(ms + [m]) == UserKeys(ms) + if m.collection != AUDIT then {WriteKeyOf(m)} else {}
  {
    hide WriteKeyOf;
    assert forall x :: x in ms + [m] <==> x in ms || x == m;
  }

  lemma NewWritesStep(known: set<WriteKey>, ms: seq<Mutation>, m: Mutation)
    ensures NewWrites(known, ms + [m]) ==
            NewWrites(known, ms) +
            if m.collection != AUDIT && WriteKeyOf(m) !in known + UserKeys(ms) then [m] else []
  {
    hide WriteKeyOf, UserKeys;
    assert (ms + [m])[..|ms|] == ms;
  }

  lemma LandedIsLogged(u: HubState, t: HubState, m: Mutation, n: nat)
    requires Indexed(u) && Lands(u, t, m, n) && u.log <= t.log
    ensures Logged(t.log, m, n)
  {
    hide WriteKeyOf, Users, WellNumbered;
    if WriteKeyOf(m) in u.writeIds {
      WriteIdMeaning(u.log, WriteKeyOf(m));
      var e :| e in u.log && UserEntry(e) && WriteKeyOf(e.mutation) == WriteKeyOf(m) && e.seqNo == n;
      assert e in t.log;
    } else {
      assert t.log[|t.log| - 1] in t.log;
    }
  }

  lemma JoinedMore(users: seq<Entry>, before: seq<Entry>, ms: seq<Mutation>, e: Entry, m: Mutation)
    requires Joined(users, before, ms) && e.mutation == m && e.origin == Origin.Remote && !e.applied
    ensures Joined(users + [e], before, ms + [m])
  {
    assert (users + [e])[..|before|] == users[..|before|];
    assert (users + [e])[|before|..] == users[|before|..] + [e];
  }

  lemma WrittenMore(s: HubState, u: HubState, t: HubState, ms: seq<Mutation>, numbers: seq<nat>, m: Mutation, n: nat)
    requires Indexed(u) && Written(s, u, ms, numbers) && Lands(u, t, m, n) && u.log <= t.log
    ensures Written(s, t, ms + [m], numbers + [n])
  {
    hide Users, WriteKeyOf, NewWrites, UserKeys, Indexed;
    UserKeysStep(ms, m);
    NewWritesStep(s.writeIds.Keys, ms, m);
    LandedIsLogged(u, t, m, n);
    forall k | 0 <= k < |ms| ensures Logged(t.log, ms[k], numbers[k]) {
      LoggedStays(u.log, t.log, ms[k], numbers[k]);
    }
    hide Logged, Joined;
    var news := NewWrites(s.writeIds.Keys, ms);
    assert news + [] == news;
    if Users(t.log) != Users(u.log) {
      JoinedMore(Users(u.log), Users(s.log), news, t.log[|t.log| - 1], m);
    }
  }

  lemma WrittenStep(
    env: Env, s: HubState, u: HubState, scope: Scope, ms: seq<Mutation>, numbers: seq<nat>, m: Mutation)
    requires Indexed(u) && Written(s, u, ms, numbers)
    ensures var (t, answer) := PushStep(env, u, scope, m);
            match answer.accepted
            case None => Written(s, t, ms, numbers)
            case Some(n) => Written(s, t, ms + [m], numbers + [n])
  {
    hide PushStep, Written, Lands, NoWrite, Indexed;
    var (t, answer) := PushStep(env, u, scope, m);
    PushOutcome(env, u, scope, m);
    PushGrows(env, u, scope, m);
    GrownLog(u, t);
    match answer.accepted
    case None => WrittenSame(s, u, t, ms, numbers);
    case Some(n) => WrittenMore(s, u, t, ms, numbers, m, n);
  }

  lemma GrownLog(s: HubState, t: HubState)
    requires Grows(s, t)
    ensures s.log <= t.log
    ensures Indexed(s) ==> Indexed(t)
  {
    assert t.log[..|s.log|] == s.log;
  }

  /** The writes that passed are in the log under the numbers answered, and the new ones are all that joined it. */
  lemma {:induction false} PushAllWrites(env: Env, s: HubState, scope: Scope, ms: seq<Mutation>)
    requires Indexed(s)
    ensures var (t, answers) := PushAll(env, s, scope, ms);
            |Decisions(answers)| == |ms| && Written(s, t, Passed(ms, Decisions(answers)), AcceptedSeqs(answers))
  {
    hide PushStep, Written, Indexed;
    var (t, answers) := PushAll(env, s, scope, ms);
    if ms == [] {
      WrittenNothing(s);
    } else {
      var k := |ms| - 1;
      PushAllWrites(env, s, scope, ms[..k]);
      var (s1, before) := PushAll(env, s, scope, ms[..k]);
      var answer := PushStep(env, s1, scope, ms[k]).1;
      AnswersSplit(before, answer);
      PushAllGrows(env, s, scope, ms[..k]);
      GrownLog(s, s1);
      PushDecides(env, s1, scope, ms[k]);
      WrittenStep(env, s, s1, scope, Passed(ms[..k], Decisions(before)), AcceptedSeqs(before), ms[k]);
      assert Decisions(answers)[..k] == Decisions(before);
      var passed := Passed(ms[..k], Decisions(before));
      assert passed + [] == passed && AcceptedSeqs(before) + [] == AcceptedSeqs(before);
    }
  }

  /** The checkpoint answered: the greatest number of the scope's writes in the log, zero when it has none. */
  ghost predicate IsLatest(log: seq<Entry>, scope: Scope, n: nat) {
    if exists e | e in log :: UserEntry(e) && ScopeOf(e.mutation) == scope then IsCheckpoint(log, scope, n) else n == 0
  }

  lemma CheckpointIsLatest(s: HubState, scope: Scope)
    requires Indexed(s)
    ensures IsLatest(s.log, scope, Checkpoint(s, scope))
  {
    hide WellNumbered, IsCheckpoint, ScopeOf;
    CheckpointMeaning(s.log, scope);
  }

  /**
   A push under the token's own node and tenant: one decision per mutation, in order, by the gate
   it meets, its metadata, its scope and the write policy. The numbers answered are those under
   which the log holds the mutations that were not rejected; of these exactly the new user writes
   joined it, as they were brought. The checkpoint is the scope's greatest number.
   */
  lemma PushAnswered(env: Env, s: HubState, req: PushRequest, principal: Principal)
    requires req.nodeId == principal.nodeId && req.scope.0 == principal.tenantId && Indexed(s)
    ensures var (t, response) := Push(env, s, req, principal);
            && |response.audit| == |req.mutations|
            && (forall i | 0 <= i < |req.mutations| ::
                  Decides(env, PushAll(env, s, req.scope, req.mutations[..i]).0, req.scope, req.mutations[i],
                          response.audit[i]))
            && Written(s, t, Passed(req.mutations, response.audit), response.accepted)
            && IsLatest(t.log, req.scope, response.checkpoint)
            && response.rejectedNonOwner == 0
            && response.rejectedCrossTenant == |Strangers(req.scope, req.mutations, response.audit)|
            && Counted(s, t, 0, response.rejectedCrossTenant)
  {
    hide PushAll, Indexed, Decides, Written, Decisions, AcceptedSeqs, ForeignCount, IsLatest, Step;
    PushAllDecides(env, s, req.scope, req.mutations);
    PushAllWrites(env, s, req.scope, req.mutations);
    PushAllGrows(env, s, req.scope, req.mutations);
    var t := PushAll(env, s, req.scope, req.mutations).0;
    GrownLog(s, t);
    CheckpointIsLatest(t, req.scope);
  }

  /* ---------- promotions ---------- */

  /** What a promotion needs: everything that is asked of it before the gate, an open gate, and the policy's full consent. */
  ghost predicate Promotable(env: Env, s: HubState, req: PromoteRequest) {
    && ValidMetadata(req.mutation.metadata) && ScopeOf(req.mutation) == req.scope
    && req.from == Episodic && req.to == Semantic
    && GateOpen(env, s, req.scope)
    && env.promotionPolicy(req.scope, req.candidate, req.mutation).verdict == Allow
  }

  /** What is decided about a promotion. */
  ghost predicate PromotionDecision(env: Env, s: HubState, req: PromoteRequest, d: Decision) {
    if !ValidMetadata(req.mutation.metadata) then d == Decision(Reject, "invalid_metadata")
    else if ScopeOf(req.mutation) != req.scope then d == Decision(Reject, STRANGER)
    else if req.from != Episodic || req.to != Semantic then
      d == Decision(Reject, "semantic_promotion_requires_episodic_to_semantic")
    else if !GateOpen(env, s, req.scope) then IsContainment(s, req.scope, d)
    else d == env.promotionPolicy(req.scope, req.candidate, req.mutation)
  }

  /**
   A promotion under the token's own node and tenant is accepted exactly when it is promotable. It
   then lands in the log like a write that is pushed, and is answered with its number; otherwise
   nothing is written and one rejection is answered. A foreign mutation is counted as such.
   */
  lemma PromoteAnswered(env: Env, s: HubState, req: PromoteRequest, nodeId: string, principal: Principal)
    requires nodeId == principal.nodeId && req.scope.0 == principal.tenantId && Indexed(s)
    ensures var (t, response) := PromoteRequested(env, s, req, nodeId, principal);
            && |response.audit| == 1 && PromotionDecision(env, s, req, response.audit[0])
            && (if Promotable(env, s, req) then
                  && |response.accepted| == 1 && response.rejected == 0
                  && Lands(s, t, req.mutation, response.accepted[0])
                  && Logged(t.log, req.mutation, response.accepted[0])
                else response.accepted == [] && response.rejected == 1 && NoWrite(s, t))
            && IsLatest(t.log, req.scope, response.checkpoint)
            && Counted(s, t, 0, if ValidMetadata(req.mutation.metadata) && ScopeOf(req.mutation) != req.scope then 1 else 0)
  {
    hide Recorded, Gate, ValidMetadata, ScopeOf, Hub.AppendMutation, Lands, NoWrite, Indexed, IsLatest, Grows, Logged,
         PushStep, PullStep, Checkpoint;
    PromoteOutcome(env, s, req);
    StepGrows(env, s, Promote(req));
    var t := PromoteStep(env, s, req).0;
    GrownLog(s, t);
    CheckpointIsLatest(t, req.scope);
    if Promotable(env, s, req) {
      LandedIsLogged(s, t, req.mutation, PromoteStep(env, s, req).1.accepted.value);
    }
  }

  lemma PromoteOutcome(env: Env, s: HubState, req: PromoteRequest)
    ensures var (t, answer) := PromoteStep(env, s, req);
            && PromotionDecision(env, s, req, answer.decision)
            && (answer.accepted.Some? <==> Promotable(env, s, req))
            && (match answer.accepted
                case Some(n) => Lands(s, t, req.mutation, n)
                case None => NoWrite(s, t))
            && Counted(s, t, 0, if ValidMetadata(req.mutation.metadata) && ScopeOf(req.mutation) != req.scope then 1 else 0)
  {
    hide Recorded, Gate, ValidMetadata, ScopeOf, Users, Lands, Grows, Hub.AppendMutation;
    var m, scope := req.mutation, req.scope;
    var (s1, contained) := Gate(env, s, scope);
    GateReasons(env, s, scope);
    GateGrows(env, s, scope);
    var (t, answer) := PromoteStep(env, s, req);
    var d := answer.decision;
    var asked := ValidMetadata(m.metadata) && ScopeOf(m) == scope && req.from == Episodic && req.to == Semantic;
    var before := if asked then s1
                  else if ValidMetadata(m.metadata) && ScopeOf(m) != scope then s.(crossTenant := s.crossTenant + 1)
                  else s;
    RecordedGrows(env, before, "promotion", scope, Some(m.writeId), d);
    RecordedLeavesCounters(env, before, "promotion", scope, Some(m.writeId), d);
    if answer.accepted.Some? {
      var s2 := Recorded(env, before, "promotion", scope, Some(m.writeId), d);
      AcceptedLeavesCounters(env, s2, m, scope);
      AcceptedLands(env, s2, m, scope);
      LandsFrom(s, s2, t, m, answer.accepted.value);
    }
  }

  /* ---------- pulls ---------- */

  /** What a pull of a tier may return: semantic projections on the semantic tier, anything else on the others. */
  ghost predicate Due(e: Entry, req: PullRequest, handed: seq<Document>) {
    && e.mutation.metadata.tenantId == req.scope.0 && e.mutation.metadata.namespace == req.scope.1
    && e.mutation.metadata.kind != "governance_audit"
    && (e.mutation.metadata.kind == "semantic_projection" <==> req.tier == Semantic)
    && e.mutation.patch.Some? && LetThrough(e, handed)
  }

  /** The mutation as a client gets it: on the semantic tier its patch is marked, and nothing else ever changes. */
  predicate SentAs(m: Mutation, tier: Tier, sent: Mutation)
    requires m.patch.Some?
  {
    if tier != Semantic then sent == m
    else
      && sent.patch.Some? && sent.(patch := m.patch) == m
      && var fields := sent.patch.value;
         && fields - {"derived", "canonical"} == m.patch.value - {"derived", "canonical"}
         && "derived" in fields && fields["derived"] == Boolean(true)
         && "canonical" in fields && fields["canonical"] == Boolean(false)
  }

  /** What is decided about a pull. */
  ghost predicate PullDecision(env: Env, s: HubState, req: PullRequest, d: Decision) {
    if !GateOpen(env, s, req.scope) then IsContainment(s, req.scope, d)
    else if req.scope.0 == "" then d == Decision(Reject, "invalid_read_request:empty_tenant_id")
    else if req.scope.1 == "" then d == Decision(Reject, "invalid_read_request:empty_namespace")
    else d == env.retrievalGate(req.scope, req.tier)
  }

  /** The entries an answer that is no rejection is made of. */
  ghost predicate AreDue(env: Env, s: HubState, req: PullRequest, due: seq<Entry>) {
    && Increasing(due)
    && (forall e :: e in due <==> e in Page(s.log, req.since) && Due(e, req, Handed(env, s.log, req)))
  }

  ghost predicate AllSent(due: seq<Entry>, tier: Tier, sent: seq<Mutation>) {
    && |sent| == |due|
    && forall k | 0 <= k < |due| :: due[k].mutation.patch.Some? && SentAs(due[k].mutation, tier, sent[k])
  }

  /**
   A pull under the token's own node and tenant: unless it is rejected it is answered with what is
   due among the thousand log entries past its checkpoint, in log order; it writes nothing, and its
   checkpoint is the scope's greatest number.
   */
  lemma PullAnswered(env: Env, s: HubState, req: PullRequest, nodeId: string, principal: Principal)
    requires nodeId == principal.nodeId && req.scope.0 == principal.tenantId && Indexed(s)
    ensures var (t, response) := PullRequested(env, s, req, nodeId, principal);
            && |response.audit| == 1 && PullDecision(env, s, req, response.audit[0])
            && (response.audit[0].verdict == Reject ==> response.mutations == [])
            && (response.audit[0].verdict != Reject ==>
                  exists due :: AreDue(env, s, req, due) && AllSent(due, req.tier, response.mutations))
            && NoWrite(s, t) && Counted(s, t, 0, 0)
            && IsLatest(t.log, req.scope, response.checkpoint)
  {
    hide PullStep, PushStep, PromoteStep, Grows, Indexed, IsLatest, Checkpoint, NoWrite, AreDue, AllSent, PullDecision;
    var (t, answer) := PullStep(env, s, req);
    PullOutcome(env, s, req);
    StepGrows(env, s, Pull(req));
    GrownLog(s, t);
    CheckpointIsLatest(t, req.scope);
    if answer.decision.verdict != Reject {
      IndexedParts(s);
      var due := PullSends(env, s, req);
    }
  }

  lemma PullSends(env: Env, s: HubState, req: PullRequest) returns (due: seq<Entry>)
    requires WellNumbered(s.log, s.latest) && PullStep(env, s, req).1.decision.verdict != Reject
    ensures AreDue(env, s, req, due) && AllSent(due, req.tier, PullStep(env, s, req).1.mutations)
  {
    hide PullStep, Page, Handed, LetThrough, Increasing, SentAs, Due, Passes;
    PullReturns(env, s, req);
    PageMembers(s.log, req.since);
    var page, handed := Page(s.log, req.since), Handed(env, s.log, req);
    var passes := Passes(req.scope, req.tier, handed);
    due := Filter(passes, page);
    FilterKeeps(page, passes);
    FilterIncreasing(page, passes);
    forall e ensures passes(e) == Due(e, req, handed) && (Due(e, req, handed) ==> e.mutation.patch.Some?) {
      PassesIsDue(e, req, handed);
    }
    forall k | 0 <= k < |due| ensures due[k].mutation.patch.Some? {
      assert due[k] in due;
    }
    ImagesSent(due, req.tier);
  }

  lemma PassesIsDue(e: Entry, req: PullRequest, handed: seq<Document>)
    ensures Passes(req.scope, req.tier, handed)(e) == Due(e, req, handed)
    ensures Due(e, req, handed) ==> e.mutation.patch.Some?
  {
    hide LetThrough;
  }

  lemma {:induction false} ImagesSent(due: seq<Entry>, tier: Tier)
    requires forall k | 0 <= k < |due| :: due[k].mutation.patch.Some?
    ensures |Images(due, tier)| == |due|
    ensures forall k | 0 <= k < |due| :: SentAs(due[k].mutation, tier, Images(due, tier)[k])
  {
    if due != [] {
      ImagesSent(due[1..], tier);
      MarkedSent(due[0].mutation, tier);
    }
    hide SentAs, Annotated;
  }

  lemma MarkedSent(m: Mutation, tier: Tier)
    requires m.patch.Some?
    ensures SentAs(m, tier, Annotated(m, tier))
  {}

  lemma PullOutcome(env: Env, s: HubState, req: PullRequest)
    ensures var (t, answer) := PullStep(env, s, req);
            && PullDecision(env, s, req, answer.decision) && NoWrite(s, t) && Counted(s, t, 0, 0)
            && (answer.decision.verdict == Reject ==> answer.mutations == [])
  {
    hide Recorded, Gate, Users, Grows, Selected, Candidates, ScopedEntries, ReadLog;
    var s1 := Gate(env, s, req.scope).0;
    var d := PullStep(env, s, req).1.decision;
    GateReasons(env, s, req.scope);
    GateGrows(env, s, req.scope);
    RecordedGrows(env, s1, "read", req.scope, None, d);
    RecordedLeavesCounters(env, s1, "read", req.scope, None, d);
  }
}
