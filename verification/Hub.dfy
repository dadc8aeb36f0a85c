/**
 The sync hub as a state machine: an append-only log, two indexes over it, and a timed
 containment state for every (tenant, namespace) scope. Policies are arbitrary functions.
 */
module Hub {
  import opened Wrappers
  import opened Documents
  import opened Oplog
  import Revisions

  type Scope = (string, string)
  type WriteKey = (string, string, string)

  datatype Verdict = Allow | Sanitize | Reject
  datatype Decision = Decision(verdict: Verdict, reason: string)

  datatype Tier = StateTier | Episodic | Semantic | Artifact

  datatype Mode = Normal | Throttle | Rejecting
  datatype Containment = Containment(mode: Mode, rejects: nat, lastEvent: nat)

  const AUDIT: string := "__governance_audit"
  const AUDIT_KIND: string := "governance_audit"
  const THROTTLE_THRESHOLD: nat := 3
  const REJECT_THRESHOLD: nat := 5
  const COOLDOWN: nat := 500
  const PAGE: nat := 1000

  /** What the hub is given from outside: the policies, the clocks, fresh ids and revisions. */
  datatype Env = Env(
    writePolicy: (Scope, Mutation) -> Decision,
    retrievalGate: (Scope, Tier) -> Decision,
    boundedContext: (Scope, Tier, seq<Document>) -> seq<Document>,
    promotionPolicy: (Scope, string, Mutation) -> Decision,
    clock: nat -> nat,
    appendedAt: nat -> int,
    auditedAt: nat -> int,
    freshId: nat -> DocumentId,
    freshRev: nat -> string)

  /** Clock readings, numbered in the order they are taken, never go back. */
  ghost predicate Monotonic(env: Env) {
    forall i: nat, j: nat | i <= j :: env.clock(i) <= env.clock(j)
  }

  datatype HubState = HubState(
    log: seq<Entry>, latest: nat,
    checkpoints: map<Scope, nat>, writeIds: map<WriteKey, nat>,
    containment: map<Scope, Containment>,
    audits: nat, ticks: nat, nonOwner: nat, crossTenant: nat)

  function ScopeOf(m: Mutation): Scope {
    (m.metadata.tenantId, m.metadata.namespace)
  }

  function WriteKeyOf(m: Mutation): WriteKey {
    (m.metadata.tenantId, m.metadata.namespace, m.writeId)
  }

  /* ---------- containment ---------- */

  /** `entry(key).or_default()`: a new scope starts now. */
  function Entered(env: Env, s: HubState, scope: Scope): HubState {
    if scope in s.containment then s
    else s.(containment := s.containment[scope := Containment(Normal, 0, env.clock(s.ticks))], ticks := s.ticks + 1)
  }

  function Cooled(c: Containment, now: nat): Containment {
    if now >= c.lastEvent + COOLDOWN then c.(mode := Normal, rejects := 0) else c
  }

  function ContainmentDecision(mode: Mode): Option<Decision> {
    match mode
    case Normal => None
    case Throttle => Some(Decision(Reject, "containment_throttle"))
    case Rejecting => Some(Decision(Reject, "containment_reject"))
  }

  /** `containment_gate`. */
  function Gate(env: Env, s: HubState, scope: Scope): (HubState, Option<Decision>) {
    var s1 := Entered(env, s, scope);
    var c := Cooled(s1.containment[scope], env.clock(s1.ticks));
    (s1.(containment := s1.containment[scope := c], ticks := s1.ticks + 1), ContainmentDecision(c.mode))
  }

  function Observed(c: Containment, d: Decision, now: nat): Containment {
    if d.verdict == Reject then
      var n := c.rejects + 1;
      Containment(if n >= REJECT_THRESHOLD then Rejecting else if n >= THROTTLE_THRESHOLD then Throttle else c.mode,
                  n, now)
    else Containment(Normal, 0, now)
  }

  /** `register_decision_outcome`. */
  function Observe(env: Env, s: HubState, scope: Scope, d: Decision): HubState {
    var s1 := Entered(env, s, scope);
    s1.(containment := s1.containment[scope := Observed(s1.containment[scope], d, env.clock(s1.ticks))],
        ticks := s1.ticks + 1)
  }

  /* ---------- the log and its indexes ---------- */

  function Max(a: nat, b: nat): nat {
    if a < b then b else a
  }

  function IndexCheckpoint(idx: map<Scope, nat>, seqNo: nat, m: Mutation): map<Scope, nat> {
    if m.collection == AUDIT then idx
    else idx[ScopeOf(m) := if ScopeOf(m) in idx then Max(idx[ScopeOf(m)], seqNo) else seqNo]
  }

  function IndexWriteId(idx: map<WriteKey, nat>, seqNo: nat, m: Mutation): map<WriteKey, nat> {
    if m.collection == AUDIT then idx else idx[WriteKeyOf(m) := seqNo]
  }

  /** Appending to the log and then `index_mutation`, as one step. */
  function AppendIndexed(env: Env, s: HubState, m: Mutation, origin: Origin, applied: bool): (HubState, nat) {
    var seqNo := s.latest + 1;
    (s.(log := s.log + [Entry(seqNo, env.appendedAt(seqNo), m, origin, applied)], latest := seqNo,
        checkpoints := IndexCheckpoint(s.checkpoints, seqNo, m),
        writeIds := IndexWriteId(s.writeIds, seqNo, m)),
     seqNo)
  }

  function VerdictLabel(v: Verdict): string {
    match v
    case Allow => "allow"
    case Sanitize => "sanitize"
    case Reject => "reject"
  }

  function AuditMutation(env: Env, n: nat, stage: string, scope: Scope, writeId: Option<string>, d: Decision): Mutation {
    var id := if writeId.Some? then writeId.value else "none";
    var doc := env.freshId(n);
    var now := env.auditedAt(n);
    Mutation(
      MutationOp.Insert, AUDIT, doc,
      Some(map["stage" := String(stage), "decision" := String(VerdictLabel(d.verdict)),
               "reason" := String(d.reason), "tenant_id" := String(scope.0), "namespace" := String(scope.1),
               "write_id" := String(id), "recorded_at" := DateTime(now)]),
      0, now, env.freshRev(n),
      "governance-audit:" + scope.0 + ":" + scope.1 + ":" + stage + ":" + id + ":" + Revisions.Decimal(n),
      Metadata(scope.1, scope.0, AUDIT_KIND, "server.runtime", "governance", doc.text, 1, Number(1.0), now, now))
  }

  /** `persist_audit_evidence`, whose failure every caller ignores: a scope with an empty part leaves no entry. */
  function Audit(env: Env, s: HubState, stage: string, scope: Scope, writeId: Option<string>, d: Decision): HubState {
    var n := s.audits + 1;
    var m := AuditMutation(env, n, stage, scope, writeId, d);
    var s1 := s.(audits := n);
    if ValidMetadata(m.metadata) then AppendIndexed(env, s1, m, Origin.Local, true).0 else s1
  }

  /** An audited and observed decision, the end of every request path that answers with one. */
  function Recorded(env: Env, s: HubState, stage: string, scope: Scope, writeId: Option<string>, d: Decision): HubState {
    Observe(env, Audit(env, s, stage, scope, writeId, d), scope, d)
  }

  function Checkpoint(s: HubState, scope: Scope): nat {
    if scope in s.checkpoints then s.checkpoints[scope] else 0
  }

  /** `append_mutation`: the write id index makes a second append of the same write answer the first number. */
  function AppendMutation(env: Env, s: HubState, m: Mutation, scope: Scope): (HubState, Result<nat, string>) {
    if !ValidMetadata(m.metadata) then (s, Failure("invalid_metadata"))
    else if ScopeOf(m) != scope then (s, Failure("mutation tenant/namespace does not match request scope"))
    else if WriteKeyOf(m) in s.writeIds then (s, Success(s.writeIds[WriteKeyOf(m)]))
    else
      var (s1, seqNo) := AppendIndexed(env, s, m, Origin.Remote, false);
      (s1, Success(seqNo))
  }

  /* ---------- attempts: what a request does, one decision at a time ---------- */

  datatype PullRequest = PullRequest(scope: Scope, since: nat, tier: Tier)

  datatype PromoteRequest = PromoteRequest(scope: Scope, mutation: Mutation, from: Tier, to: Tier, candidate: string)

  datatype Attempt =
    | Mismatch(stage: string, scope: Scope, writeId: Option<string>, foreignTenant: bool, foreignNode: bool)
    | PushOne(scope: Scope, mutation: Mutation)
    | Pull(pull: PullRequest)
    | Promote(promote: PromoteRequest)

  /**
   What an attempt answers: the number an accepted mutation got, the mutations read, the
   decision, and whether the mutation was turned away for belonging to another scope.
   */
  datatype Answer = Answer(accepted: Option<nat>, mutations: seq<Mutation>, decision: Decision, foreign: bool)

  function Refusal(env: Env, s: HubState, stage: string, scope: Scope, writeId: Option<string>, reason: string)
    : (HubState, Answer)
  {
    var d := Decision(Reject, reason);
    (Recorded(env, s, stage, scope, writeId, d), Answer(None, [], d, false))
  }

  function StartsWith(s: string, prefix: string): bool {
    prefix <= s
  }

  function NormalizeWriteDecision(d: Decision): Decision {
    if d.verdict == Reject && StartsWith(d.reason, "trust_score_below_threshold")
    then d.(reason := "poisoning_low_trust:" + d.reason) else d
  }

  /** The state an accepted mutation leaves and its number: refusing here is excluded by the checks before. */
  function Accepted(env: Env, s: HubState, m: Mutation, scope: Scope): (HubState, nat)
    requires ValidMetadata(m.metadata) && ScopeOf(m) == scope
  {
    var (s1, r) := AppendMutation(env, s, m, scope);
    (s1, r.value)
  }

  /** One turn of the loop in `process_push`. */
  function PushStep(env: Env, s: HubState, scope: Scope, m: Mutation): (HubState, Answer) {
    var (s1, contained) := Gate(env, s, scope);
    if contained.Some? then
      (Recorded(env, s1, "write", scope, Some(m.writeId), contained.value), Answer(None, [], contained.value, false))
    else if !ValidMetadata(m.metadata) then
      Refusal(env, s1, "write", scope, Some(m.writeId), "invalid_metadata")
    else if ScopeOf(m) != scope then
      var (s2, answer) := Refusal(env, s1.(crossTenant := s1.crossTenant + 1), "write", scope, Some(m.writeId),
                                  "cross_tenant_or_namespace_mutation");
      (s2, answer.(foreign := true))
    else
      var d := NormalizeWriteDecision(env.writePolicy(scope, m));
      var s2 := Recorded(env, s1, "write", scope, Some(m.writeId), d);
      if d.verdict == Reject then (s2, Answer(None, [], d, false))
      else
        var (s3, seqNo) := Accepted(env, s2, m, scope);
        (s3, Answer(Some(seqNo), [], d, false))
  }

  /** `process_promote` for a request whose node and tenant match. */
  function PromoteStep(env: Env, s: HubState, req: PromoteRequest): (HubState, Answer) {
    var m, scope := req.mutation, req.scope;
    if !ValidMetadata(m.metadata) then
      Refusal(env, s, "promotion", scope, Some(m.writeId), "invalid_metadata")
    else if ScopeOf(m) != scope then
      Refusal(env, s.(crossTenant := s.crossTenant + 1), "promotion", scope, Some(m.writeId),
              "cross_tenant_or_namespace_mutation")
    else if !(req.from == Episodic && req.to == Semantic) then
      Refusal(env, s, "promotion", scope, Some(m.writeId), "semantic_promotion_requires_episodic_to_semantic")
    else
      var (s1, contained) := Gate(env, s, scope);
      var d := if contained.Some? then contained.value else env.promotionPolicy(scope, req.candidate, m);
      var s2 := Recorded(env, s1, "promotion", scope, Some(m.writeId), d);
      if d.verdict != Allow then (s2, Answer(None, [], d, false))
      else
        var (s3, seqNo) := Accepted(env, s2, m, scope);
        (s3, Answer(Some(seqNo), [], d, false))
  }

  /* ---------- pulling ---------- */

  /** `read_since` on the hub's log. */
  function ReadLog(log: seq<Entry>, seqNo: nat, limit: nat): seq<Entry> {
    Take(Since(log, seqNo), if limit == 0 then 1 else limit)
  }

  predicate VisibleForTier(m: Mutation, tier: Tier) {
    if tier == Semantic then m.metadata.kind == "semantic_projection" else m.metadata.kind != "semantic_projection"
  }

  predicate InView(e: Entry, scope: Scope, tier: Tier) {
    && ScopeOf(e.mutation) == scope
    && e.mutation.metadata.kind != AUDIT_KIND
    && VisibleForTier(e.mutation, tier)
  }

  function ScopedEntries(entries: seq<Entry>, scope: Scope, tier: Tier): seq<Entry> {
    if entries == [] then []
    else (if InView(entries[0], scope, tier) then [entries[0]] else []) + ScopedEntries(entries[1..], scope, tier)
  }

  const IDENTITY_SEQ: string := "__rango_candidate_seq"
  const IDENTITY_WRITE_ID: string := "__rango_candidate_write_id"
  const U63: int := 0x8000_0000_0000_0000

  /** `as i64` and back `as u64`. */
  function AsSigned(n: nat): int {
    (n + U63) % (2 * U63) - U63
  }

  function AsUnsigned(i: int): nat {
    i % (2 * U63)
  }

  function WithIdentity(e: Entry, patch: Document): Document {
    patch[IDENTITY_SEQ := Int64(AsSigned(e.seqNo))][IDENTITY_WRITE_ID := String(e.mutation.writeId)]
  }

  function Candidates(entries: seq<Entry>): seq<Document> {
    if entries == [] then []
    else
      (match entries[0].mutation.patch
       case Some(patch) => [WithIdentity(entries[0], patch)]
       case None => []) + Candidates(entries[1..])
  }

  type Identity = (nat, string)

  function IdentityOf(candidate: Document): Option<Identity> {
    if IDENTITY_SEQ in candidate && candidate[IDENTITY_SEQ].Int64?
       && IDENTITY_WRITE_ID in candidate && candidate[IDENTITY_WRITE_ID].String?
    then Some((AsUnsigned(candidate[IDENTITY_SEQ].int64), candidate[IDENTITY_WRITE_ID].text))
    else None
  }

  /** How often each identity came back from the filter. */
  function IdentityCounts(candidates: seq<Document>): map<Identity, nat> {
    if candidates == [] then map[]
    else
      var rest := IdentityCounts(candidates[..|candidates| - 1]);
      match IdentityOf(candidates[|candidates| - 1])
      case None => rest
      case Some(key) => rest[key := (if key in rest then rest[key] else 0) + 1]
  }

  function Annotated(m: Mutation, tier: Tier): Mutation {
    if tier == Semantic && m.patch.Some?
    then m.(patch := Some(m.patch.value["derived" := Boolean(true)]["canonical" := Boolean(false)]))
    else m
  }

  /** The loop that lets an entry through while its identity has something left. */
  function Selected(entries: seq<Entry>, left: map<Identity, nat>, tier: Tier): seq<Mutation> {
    if entries == [] then []
    else
      var e := entries[0];
      var key := (e.seqNo, e.mutation.writeId);
      if e.mutation.patch.Some? && key in left && left[key] > 0 then
        [Annotated(e.mutation, tier)] + Selected(entries[1..], left[key := left[key] - 1], tier)
      else Selected(entries[1..], left, tier)
  }

  /** `ControlPlane::read_path` with its default page limit. */
  function ReadPath(env: Env, scope: Scope, tier: Tier, candidates: seq<Document>): (Decision, seq<Document>) {
    if scope.0 == "" then (Decision(Reject, "invalid_read_request:empty_tenant_id"), [])
    else if scope.1 == "" then (Decision(Reject, "invalid_read_request:empty_namespace"), [])
    else
      var d := env.retrievalGate(scope, tier);
      if d.verdict == Reject then (d, []) else (d, Take(env.boundedContext(scope, tier, candidates), PAGE))
  }

  /** `process_pull` for a request whose node and tenant match. */
  function PullStep(env: Env, s: HubState, req: PullRequest): (HubState, Answer) {
    var scoped := ScopedEntries(ReadLog(s.log, req.since + 1, PAGE), req.scope, req.tier);
    var (policy, filtered) := ReadPath(env, req.scope, req.tier, Candidates(scoped));
    var (s1, contained) := Gate(env, s, req.scope);
    var d := if contained.Some? then contained.value else policy;
    var s2 := Recorded(env, s1, "read", req.scope, None, d);
    if d.verdict == Reject then (s2, Answer(None, [], d, false))
    else (s2, Answer(None, Selected(scoped, IdentityCounts(filtered), req.tier), d, false))
  }

  /* ---------- runs ---------- */

  function Step(env: Env, s: HubState, a: Attempt): (HubState, Answer) {
    match a
    case Mismatch(stage, scope, writeId, foreignTenant, foreignNode) =>
      var s1 := s.(crossTenant := s.crossTenant + if foreignTenant then 1 else 0,
                   nonOwner := s.nonOwner + if foreignNode then 1 else 0);
      Refusal(env, s1, stage, scope, writeId, if foreignTenant then "tenant_mismatch" else "node_mismatch")
    case PushOne(scope, m) => PushStep(env, s, scope, m)
    case Pull(req) => PullStep(env, s, req)
    case Promote(req) => PromoteStep(env, s, req)
  }

  function Run(env: Env, s: HubState, attempts: seq<Attempt>): HubState {
    if attempts == [] then s
    else Step(env, Run(env, s, attempts[..|attempts| - 1]), attempts[|attempts| - 1]).0
  }

  /* ---------- requests ---------- */

  datatype PushRequest = PushRequest(nodeId: string, scope: Scope, mutations: seq<Mutation>)
  datatype Principal = Principal(nodeId: string, tenantId: string)

  datatype PushResponse = PushResponse(
    accepted: seq<nat>, checkpoint: nat, rejectedNonOwner: nat, rejectedCrossTenant: nat, audit: seq<Decision>)

  /** The push loop, mutation by mutation. */
  function PushAll(env: Env, s: HubState, scope: Scope, ms: seq<Mutation>): (HubState, seq<Answer>) {
    if ms == [] then (s, [])
    else
      var (s1, answers) := PushAll(env, s, scope, ms[..|ms| - 1]);
      var (s2, answer) := PushStep(env, s1, scope, ms[|ms| - 1]);
      (s2, answers + [answer])
  }

  function AcceptedSeqs(answers: seq<Answer>): seq<nat> {
    if answers == [] then []
    else
      AcceptedSeqs(answers[..|answers| - 1]) +
      (match answers[|answers| - 1].accepted case Some(n) => [n] case None => [])
  }

  function ForeignCount(answers: seq<Answer>): nat {
    if answers == [] then 0
    else ForeignCount(answers[..|answers| - 1]) + if answers[|answers| - 1].foreign then 1 else 0
  }

  function Decisions(answers: seq<Answer>): seq<Decision> {
    if answers == [] then [] else Decisions(answers[..|answers| - 1]) + [answers[|answers| - 1].decision]
  }

  /** `process_push`. */
  function Push(env: Env, s: HubState, req: PushRequest, principal: Principal): (HubState, PushResponse) {
    if req.nodeId != principal.nodeId then
      var (s1, answer) := Step(env, s, Mismatch("write", req.scope, None, false, true));
      (s1, PushResponse([], Checkpoint(s1, req.scope), 1, 0, [answer.decision]))
    else if req.scope.0 != principal.tenantId then
      var (s1, answer) := Step(env, s, Mismatch("write", req.scope, None, true, false));
      (s1, PushResponse([], Checkpoint(s1, req.scope), 0, 1, [answer.decision]))
    else
      var (s1, answers) := PushAll(env, s, req.scope, req.mutations);
      (s1, PushResponse(AcceptedSeqs(answers), Checkpoint(s1, req.scope), 0, ForeignCount(answers), Decisions(answers)))
  }

  datatype PullResponse = PullResponse(mutations: seq<Mutation>, checkpoint: nat, audit: seq<Decision>)

  datatype PromoteResponse = PromoteResponse(accepted: seq<nat>, checkpoint: nat, rejected: nat, audit: seq<Decision>)

  /** `process_pull`: a foreign tenant is named before a foreign node, and only it is counted. */
  function PullRequested(env: Env, s: HubState, req: PullRequest, nodeId: string, principal: Principal)
    : (HubState, PullResponse)
  {
    var attempt :=
      if principal.tenantId != req.scope.0 then Mismatch("read", req.scope, None, true, false)
      else if principal.nodeId != nodeId then Mismatch("read", req.scope, None, false, false)
      else Pull(req);
    var (t, answer) := Step(env, s, attempt);
    (t, PullResponse(answer.mutations, Checkpoint(t, req.scope), [answer.decision]))
  }

  /** `process_promote`: a foreign node is named before a foreign tenant, and both are counted. */
  function PromoteRequested(env: Env, s: HubState, req: PromoteRequest, nodeId: string, principal: Principal)
    : (HubState, PromoteResponse)
  {
    var writeId := Some(req.mutation.writeId);
    var attempt :=
      if nodeId != principal.nodeId then Mismatch("promotion", req.scope, writeId, false, true)
      else if req.scope.0 != principal.tenantId then Mismatch("promotion", req.scope, writeId, true, false)
      else Promote(req);
    var (t, answer) := Step(env, s, attempt);
    (t, PromoteResponse(if answer.accepted.Some? then [answer.accepted.value] else [], Checkpoint(t, req.scope),
                        if answer.accepted.Some? then 0 else 1, [answer.decision]))
  }
}
