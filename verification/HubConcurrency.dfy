/**
 Appending to the hub's log from many handlers at once. The log, the checkpoint index and the
 write id index sit behind three separate locks, so looking a write up, appending it and
 entering it into either index are four steps between which other handlers may run.
 */
module HubConcurrency {
  import opened Documents
  import opened Oplog
  import opened Hub
  import opened HubIndexes

  /** Where a handler stands: about to look its write up, append it, raise the checkpoint, enter the write id. */
  datatype Pc =
    | Looking(mutation: Mutation)
    | Appending(mutation: Mutation, evidence: bool)
    | Marking(mutation: Mutation, seqNo: nat)
    | Keying(mutation: Mutation, seqNo: nat)
    | Done(seqNo: nat)

  datatype Shared = Shared(
    log: seq<Entry>, latest: nat,
    checkpoints: map<Scope, nat>, writeIds: map<WriteKey, nat>, handlers: map<nat, Pc>)

  datatype Event =
    | BeginWrite(handler: nat, mutation: Mutation)
    | BeginEvidence(handler: nat, mutation: Mutation)
    | Advance(handler: nat, now: int)

  predicate Idle(s: Shared, h: nat) {
    h in s.handlers ==> s.handlers[h].Done?
  }

  /** One step of one handler; a step that is not enabled changes nothing. */
  function Act(s: Shared, event: Event): Shared {
    match event
    case BeginWrite(h, m) => if Idle(s, h) then s.(handlers := s.handlers[h := Looking(m)]) else s
    case BeginEvidence(h, m) =>
      if Idle(s, h) && m.collection == AUDIT then s.(handlers := s.handlers[h := Appending(m, true)]) else s
    case Advance(h, now) => if h in s.handlers then AdvanceOne(s, h, now) else s
  }

  function AdvanceOne(s: Shared, h: nat, now: int): Shared
    requires h in s.handlers
  {
    match s.handlers[h]
    case Looking(m) =>
      if WriteKeyOf(m) in s.writeIds then s.(handlers := s.handlers[h := Done(s.writeIds[WriteKeyOf(m)])])
      else s.(handlers := s.handlers[h := Appending(m, false)])
    case Appending(m, evidence) =>
      var n := s.latest + 1;
      s.(log := s.log + [Entry(n, now, m, if evidence then Origin.Local else Origin.Remote, evidence)], latest := n,
         handlers := s.handlers[h := if m.collection == AUDIT then Done(n) else Marking(m, n)])
    case Marking(m, n) =>
      s.(checkpoints := IndexCheckpoint(s.checkpoints, n, m), handlers := s.handlers[h := Keying(m, n)])
    case Keying(m, n) =>
      s.(writeIds := IndexWriteId(s.writeIds, n, m), handlers := s.handlers[h := Done(n)])
    case Done(_) => s
  }

  /** Every interleaving is some list of events. */
  function Execute(s: Shared, events: seq<Event>): Shared {
    if events == [] then s else Act(Execute(s, events[..|events| - 1]), events[|events| - 1])
  }

  function CheckpointAt(s: Shared, scope: Scope): nat {
    if scope in s.checkpoints then s.checkpoints[scope] else 0
  }

  /* ---------- the checkpoint half ---------- */

  /** Some handler has appended this entry but not yet raised the checkpoint for it. */
  ghost predicate MarkPending(s: Shared, e: Entry) {
    exists h | h in s.handlers :: s.handlers[h] == Marking(e.mutation, e.seqNo)
  }

  predicate IndexStepOf(pc: Pc, e: Entry) {
    pc == Marking(e.mutation, e.seqNo) || pc == Keying(e.mutation, e.seqNo)
  }

  ghost predicate KeyPending(s: Shared, e: Entry) {
    exists h | h in s.handlers :: IndexStepOf(s.handlers[h], e)
  }

  ghost predicate Holds(log: seq<Entry>, m: Mutation, n: nat) {
    exists e | e in log :: UserEntry(e) && e.mutation == m && e.seqNo == n
  }

  /** A pending index step is about an entry of the log. */
  ghost predicate StepsAreLogged(s: Shared) {
    forall h | h in s.handlers && (s.handlers[h].Marking? || s.handlers[h].Keying?) ::
      Holds(s.log, s.handlers[h].mutation, s.handlers[h].seqNo)
  }

  ghost predicate MarksAreReal(s: Shared) {
    forall scope | scope in s.checkpoints ::
      exists e | e in s.log :: UserEntry(e) && ScopeOf(e.mutation) == scope && e.seqNo == s.checkpoints[scope]
  }

  ghost predicate MarksCover(s: Shared) {
    forall e | e in s.log && UserEntry(e) :: e.seqNo <= CheckpointAt(s, ScopeOf(e.mutation)) || MarkPending(s, e)
  }

  ghost predicate KeysAreReal(s: Shared) {
    forall key | key in s.writeIds ::
      exists e | e in s.log :: UserEntry(e) && WriteKeyOf(e.mutation) == key && e.seqNo == s.writeIds[key]
  }

  ghost predicate KeysCover(s: Shared) {
    forall e | e in s.log && UserEntry(e) :: WriteKeyOf(e.mutation) in s.writeIds || KeyPending(s, e)
  }

  /** What every interleaving keeps. */
  ghost predicate Sound(s: Shared) {
    && WellNumbered(s.log, s.latest)
    && StepsAreLogged(s) && MarksAreReal(s) && MarksCover(s) && KeysAreReal(s) && KeysCover(s)
  }

  /** The handler is not between its append and the end of its index steps. */
  predicate OffIndex(s: Shared, h: nat) {
    h in s.handlers ==> !s.handlers[h].Marking? && !s.handlers[h].Keying?
  }

  lemma PendingStays(s: Shared, t: Shared, h: nat)
    requires OffIndex(s, h) && h in t.handlers && t.handlers == s.handlers[h := t.handlers[h]]
    ensures forall e :: MarkPending(s, e) ==> MarkPending(t, e)
    ensures forall e :: KeyPending(s, e) ==> KeyPending(t, e)
  {
    forall e | MarkPending(s, e) ensures MarkPending(t, e) {
      var k :| k in s.handlers && s.handlers[k] == Marking(e.mutation, e.seqNo);
      assert k in t.handlers;
    }
    forall e | KeyPending(s, e) ensures KeyPending(t, e) {
      var k :| k in s.handlers && IndexStepOf(s.handlers[k], e);
      assert k in t.handlers;
    }
  }

  lemma MoveKeepsSound(s: Shared, h: nat, pc: Pc)
    requires Sound(s) && OffIndex(s, h) && !pc.Marking? && !pc.Keying?
    ensures Sound(s.(handlers := s.handlers[h := pc]))
  {
    hide WellNumbered, ScopeOf, WriteKeyOf, MarkPending, KeyPending;
    PendingStays(s, s.(handlers := s.handlers[h := pc]), h);
  }

  /** The log is longer by one entry, whose index steps are pending, and no other step is less pending than before. */
  ghost predicate Lengthened(s: Shared, t: Shared) {
    && t.checkpoints == s.checkpoints && t.writeIds == s.writeIds
    && |t.log| == |s.log| + 1 && t.log[..|s.log|] == s.log
    && (forall e | MarkPending(s, e) :: MarkPending(t, e)) && (forall e | KeyPending(s, e) :: KeyPending(t, e))
    && var added := t.log[|s.log|];
       UserEntry(added) ==> MarkPending(t, added) && KeyPending(t, added)
  }

  lemma AppendLengthens(s: Shared, h: nat, now: int)
    requires h in s.handlers && s.handlers[h].Appending?
    ensures Lengthened(s, AdvanceOne(s, h, now))
  {
    var t := AdvanceOne(s, h, now);
    PendingStays(s, t, h);
    assert h in t.handlers;
    assert t.log[..|s.log|] == s.log;
  }

  lemma LengthenedCovers(s: Shared, t: Shared)
    requires Lengthened(s, t) && MarksAreReal(s) && MarksCover(s) && KeysAreReal(s) && KeysCover(s)
    ensures MarksAreReal(t) && MarksCover(t) && KeysAreReal(t) && KeysCover(t)
  {
    hide ScopeOf, WriteKeyOf, MarkPending, KeyPending;
    var added := t.log[|s.log|];
    assert t.log == s.log + [added];
    assert forall e :: e in t.log <==> e in s.log || e == added;
  }

  lemma AppendKeepsSteps(s: Shared, h: nat, now: int)
    requires StepsAreLogged(s) && h in s.handlers && s.handlers[h].Appending?
    ensures StepsAreLogged(AdvanceOne(s, h, now))
  {
    var t := AdvanceOne(s, h, now);
    var added := t.log[|s.log|];
    assert added in t.log;
    forall m, n | Holds(s.log, m, n) ensures Holds(t.log, m, n) {
      var e :| e in s.log && UserEntry(e) && e.mutation == m && e.seqNo == n;
      assert e in t.log;
    }
    if added.mutation.collection != AUDIT {
      assert Holds(t.log, added.mutation, added.seqNo);
    }
  }

  lemma AppendKeepsSound(s: Shared, h: nat, now: int)
    requires Sound(s) && h in s.handlers && s.handlers[h].Appending?
    ensures Sound(AdvanceOne(s, h, now))
  {
    hide WellNumbered, StepsAreLogged, MarksAreReal, MarksCover, KeysAreReal, KeysCover, Lengthened;
    var t := AdvanceOne(s, h, now);
    AppendNumbered(s.log, s.latest, t.log[|s.log|]);
    AppendLengthens(s, h, now);
    LengthenedCovers(s, t);
    AppendKeepsSteps(s, h, now);
  }

  lemma AppendNumbered(log: seq<Entry>, latest: nat, e: Entry)
    requires WellNumbered(log, latest) && e.seqNo == latest + 1
    ensures WellNumbered(log + [e], latest + 1)
  {
    var longer := log + [e];
    forall i, j | 0 <= i < j < |longer| ensures longer[i].seqNo < longer[j].seqNo {
      assert longer[i] in log;
    }
  }

  lemma MarkKeepsMarks(s: Shared, h: nat, now: int)
    requires Sound(s) && h in s.handlers && s.handlers[h].Marking?
    ensures MarksAreReal(AdvanceOne(s, h, now)) && MarksCover(AdvanceOne(s, h, now))
  {
    hide WellNumbered, ScopeOf, WriteKeyOf, KeysAreReal, KeysCover;
    var t := AdvanceOne(s, h, now);
    var m, n := s.handlers[h].mutation, s.handlers[h].seqNo;
    assert Holds(s.log, m, n);
    assert CheckpointAt(t, ScopeOf(m)) >= n;
    forall e | e in s.log && UserEntry(e)
      ensures e.seqNo <= CheckpointAt(t, ScopeOf(e.mutation)) || MarkPending(t, e)
    {
      if e.seqNo > CheckpointAt(s, ScopeOf(e.mutation)) && !(e.mutation == m && e.seqNo == n) {
        var k :| k in s.handlers && s.handlers[k] == Marking(e.mutation, e.seqNo);
        assert k in t.handlers;
      }
    }
  }

  lemma MarkKeepsKeys(s: Shared, h: nat, now: int)
    requires Sound(s) && h in s.handlers && s.handlers[h].Marking?
    ensures var t := AdvanceOne(s, h, now); StepsAreLogged(t) && KeysAreReal(t) && KeysCover(t)
  {
    hide WellNumbered, ScopeOf, WriteKeyOf, MarksAreReal, MarksCover, IndexCheckpoint;
    var t := AdvanceOne(s, h, now);
    assert Holds(s.log, s.handlers[h].mutation, s.handlers[h].seqNo);
    forall e | e in s.log && KeyPending(s, e) ensures KeyPending(t, e) {
      var k :| k in s.handlers && IndexStepOf(s.handlers[k], e);
      assert k in t.handlers;
    }
  }

  lemma MarkKeepsSound(s: Shared, h: nat, now: int)
    requires Sound(s) && h in s.handlers && s.handlers[h].Marking?
    ensures Sound(AdvanceOne(s, h, now))
  {
    hide WellNumbered, MarksAreReal, MarksCover, StepsAreLogged, KeysAreReal, KeysCover, IndexCheckpoint;
    MarkKeepsMarks(s, h, now);
    MarkKeepsKeys(s, h, now);
  }

  lemma KeyKeepsMarks(s: Shared, h: nat, now: int)
    requires Sound(s) && h in s.handlers && s.handlers[h].Keying?
    ensures var t := AdvanceOne(s, h, now); StepsAreLogged(t) && MarksAreReal(t) && MarksCover(t)
  {
    hide WellNumbered, ScopeOf, WriteKeyOf, KeysAreReal, KeysCover, IndexWriteId;
    var t := AdvanceOne(s, h, now);
    forall e | e in s.log && MarkPending(s, e) ensures MarkPending(t, e) {
      var k :| k in s.handlers && s.handlers[k] == Marking(e.mutation, e.seqNo);
      assert k in t.handlers;
    }
  }

  lemma KeyKeepsKeys(s: Shared, h: nat, now: int)
    requires Sound(s) && h in s.handlers && s.handlers[h].Keying?
    ensures var t := AdvanceOne(s, h, now); KeysAreReal(t) && KeysCover(t)
  {
    hide WellNumbered, ScopeOf, WriteKeyOf, MarksAreReal, MarksCover;
    var t := AdvanceOne(s, h, now);
    var m, n := s.handlers[h].mutation, s.handlers[h].seqNo;
    assert Holds(s.log, m, n);
    forall e | e in s.log && UserEntry(e) ensures WriteKeyOf(e.mutation) in t.writeIds || KeyPending(t, e) {
      if WriteKeyOf(e.mutation) !in s.writeIds && e.mutation != m {
        var k :| k in s.handlers && IndexStepOf(s.handlers[k], e);
        assert k in t.handlers;
      }
    }
  }

  lemma KeyKeepsSound(s: Shared, h: nat, now: int)
    requires Sound(s) && h in s.handlers && s.handlers[h].Keying?
    ensures Sound(AdvanceOne(s, h, now))
  {
    hide WellNumbered, MarksAreReal, MarksCover, StepsAreLogged, KeysAreReal, KeysCover, IndexWriteId;
    KeyKeepsMarks(s, h, now);
    KeyKeepsKeys(s, h, now);
  }

  lemma ActKeepsSound(s: Shared, event: Event)
    requires Sound(s)
    ensures Sound(Act(s, event))
  {
    hide Sound;
    match event
    case BeginWrite(h, m) =>
      if Idle(s, h) { MoveKeepsSound(s, h, Looking(m)); }
    case BeginEvidence(h, m) =>
      if Idle(s, h) && m.collection == AUDIT { MoveKeepsSound(s, h, Appending(m, true)); }
    case Advance(h, now) =>
      if h in s.handlers {
        match s.handlers[h]
        case Looking(m) =>
          MoveKeepsSound(s, h, Act(s, event).handlers[h]);
        case Appending(_, _) => AppendKeepsSound(s, h, now);
        case Marking(_, _) => MarkKeepsSound(s, h, now);
        case Keying(_, _) => KeyKeepsSound(s, h, now);
        case Done(_) =>
      }
  }

  /** One step never lowers a checkpoint, and only ever appends to the log. */
  lemma ActRaises(s: Shared, event: Event)
    requires Sound(s)
    ensures forall scope :: CheckpointAt(s, scope) <= CheckpointAt(Act(s, event), scope)
    ensures s.log <= Act(s, event).log
  {
    hide Sound, ScopeOf, WriteKeyOf;
  }

  /**
   In every interleaving, however many handlers there are and however late their index steps
   run: no scope's checkpoint ever falls or passes the log's latest number, and the checkpoint
   is exactly what a restart would rebuild if and only if no pending index step of that scope
   holds a greater number. With no index step pending the whole index is the rebuilt one.
   */
  lemma {:induction false} CheckpointsSurviveInterleaving(s: Shared, events: seq<Event>, scope: Scope)
    requires Sound(s)
    ensures var t := Execute(s, events);
            && Sound(t) && s.log <= t.log
            && CheckpointAt(s, scope) <= CheckpointAt(t, scope) <= t.latest
            && (CheckpointAt(t, scope) == (if scope in CheckpointsOver(t.log) then CheckpointsOver(t.log)[scope] else 0)
                <==> forall h | h in t.handlers && t.handlers[h].Marking? && ScopeOf(t.handlers[h].mutation) == scope ::
                       t.handlers[h].seqNo <= CheckpointAt(t, scope))
  {
    hide Sound, ScopeOf, CheckpointsOver, CheckpointAt;
    if events != [] {
      var u := Execute(s, events[..|events| - 1]);
      CheckpointsSurviveInterleaving(s, events[..|events| - 1], scope);
      ActKeepsSound(u, events[|events| - 1]);
      ActRaises(u, events[|events| - 1]);
    }
    CheckpointExactIff(Execute(s, events), scope);
  }

  lemma CheckpointExactIff(t: Shared, scope: Scope)
    requires Sound(t)
    ensures CheckpointAt(t, scope) <= t.latest
    ensures CheckpointAt(t, scope) == (if scope in CheckpointsOver(t.log) then CheckpointsOver(t.log)[scope] else 0)
            <==> forall h | h in t.handlers && t.handlers[h].Marking? && ScopeOf(t.handlers[h].mutation) == scope ::
                   t.handlers[h].seqNo <= CheckpointAt(t, scope)
  {
    hide ScopeOf, CheckpointsOver, KeysAreReal, KeysCover;
    CheckpointMeaning(t.log, scope);
    if scope in t.checkpoints {
      var e :| e in t.log && UserEntry(e) && ScopeOf(e.mutation) == scope && e.seqNo == t.checkpoints[scope];
    }
    forall h | h in t.handlers && t.handlers[h].Marking? && ScopeOf(t.handlers[h].mutation) == scope
      ensures scope in CheckpointsOver(t.log) && t.handlers[h].seqNo <= CheckpointsOver(t.log)[scope]
    {
      assert Holds(t.log, t.handlers[h].mutation, t.handlers[h].seqNo);
    }
    if scope in CheckpointsOver(t.log) {
      var top :| top in t.log && UserEntry(top) && ScopeOf(top.mutation) == scope && top.seqNo == CheckpointsOver(t.log)[scope];
      assert top.seqNo <= CheckpointAt(t, scope) || MarkPending(t, top);
    }
  }

  ghost predicate Quiet(s: Shared) {
    forall h | h in s.handlers :: s.handlers[h].Looking? || s.handlers[h].Appending? || s.handlers[h].Done?
  }

  lemma QuietCheckpoints(t: Shared)
    requires Sound(t) && Quiet(t)
    ensures t.checkpoints == CheckpointsOver(t.log)
  {
    hide ScopeOf, CheckpointsOver, KeysAreReal, KeysCover;
    forall scope
      ensures scope in t.checkpoints <==> scope in CheckpointsOver(t.log)
      ensures scope in t.checkpoints ==> t.checkpoints[scope] == CheckpointsOver(t.log)[scope]
    {
      CheckpointMeaning(t.log, scope);
      CheckpointExactIff(t, scope);
      if scope in CheckpointsOver(t.log) {
        var e :| e in t.log && UserEntry(e) && ScopeOf(e.mutation) == scope && e.seqNo == CheckpointsOver(t.log)[scope];
        assert e.seqNo <= CheckpointAt(t, scope);
        assert 1 <= e.seqNo;
      }
    }
  }

  /* ---------- the write id half ---------- */

  /** Past a lookup that found nothing, and not yet in the write id index. */
  predicate Committed(s: Shared, h: nat) {
    && h in s.handlers && !s.handlers[h].Looking? && !s.handlers[h].Done?
    && s.handlers[h].mutation.collection != AUDIT
  }

  /** No two handlers are past the lookup of the same write. */
  ghost predicate Exclusive(s: Shared) {
    forall h, k | Committed(s, h) && Committed(s, k) && h != k ::
      WriteKeyOf(s.handlers[h].mutation) != WriteKeyOf(s.handlers[k].mutation)
  }

  ghost predicate ExclusiveThroughout(s: Shared, events: seq<Event>) {
    forall i | 0 <= i <= |events| :: Exclusive(Execute(s, events[..i]))
  }

  /** A handler about to append a write finds it neither in the index nor in the log. */
  ghost predicate AppendsAreNew(s: Shared) {
    forall h, e | Committed(s, h) && s.handlers[h].Appending? && e in s.log && UserEntry(e) ::
      WriteKeyOf(e.mutation) != WriteKeyOf(s.handlers[h].mutation)
  }

  lemma {:induction false} ExclusiveRuns(s: Shared, events: seq<Event>)
    requires Sound(s) && NoDuplicates(s.log) && AppendsAreNew(s) && ExclusiveThroughout(s, events)
    ensures var t := Execute(s, events); Sound(t) && NoDuplicates(t.log) && AppendsAreNew(t)
  {
    hide Sound, NoDuplicates, AppendsAreNew, Exclusive;
    if events != [] {
      var init := events[..|events| - 1];
      forall i | 0 <= i <= |init| ensures Exclusive(Execute(s, init[..i])) {
        assert init[..i] == events[..i];
      }
      ExclusiveRuns(s, init);
      assert events[..|events|] == events;
      ActKeepsSound(Execute(s, init), events[|events| - 1]);
      ActKeepsNew(Execute(s, init), events[|events| - 1]);
    }
  }

  lemma ActKeepsNew(s: Shared, event: Event)
    requires Sound(s) && NoDuplicates(s.log) && AppendsAreNew(s)
    requires Exclusive(s) && Exclusive(Act(s, event))
    ensures NoDuplicates(Act(s, event).log) && AppendsAreNew(Act(s, event))
  {
    hide WriteKeyOf, ScopeOf, Sound, NoDuplicates, IndexCheckpoint, IndexWriteId;
    if event.Advance? && event.handler in s.handlers {
      var h, now := event.handler, event.now;
      match s.handlers[h]
      case Looking(m) =>
        LookupIsSound(s, h, now);
      case Appending(m, evidence) =>
        AppendKeepsNew(s, h, now);
      case Marking(m, n) =>
      case Keying(m, n) =>
      case Done(n) =>
    }
  }

  /** A lookup that finds nothing, with no rival past its own, means the write is not in the log. */
  lemma LookupIsSound(s: Shared, h: nat, now: int)
    requires Sound(s) && AppendsAreNew(s) && h in s.handlers && s.handlers[h].Looking?
    requires Exclusive(AdvanceOne(s, h, now))
    ensures AppendsAreNew(AdvanceOne(s, h, now))
  {
    hide WriteKeyOf, ScopeOf, WellNumbered, MarksAreReal, MarksCover, KeysAreReal, StepsAreLogged;
    var t, m := AdvanceOne(s, h, now), s.handlers[h].mutation;
    assert forall k | Committed(s, k) :: k != h && Committed(t, k) && t.handlers[k] == s.handlers[k];
    forall e | e in t.log && UserEntry(e) && Committed(t, h)
      ensures WriteKeyOf(e.mutation) != WriteKeyOf(m)
    {
      assert WriteKeyOf(e.mutation) in s.writeIds || KeyPending(s, e);
    }
  }

  lemma AppendKeepsNew(s: Shared, h: nat, now: int)
    requires NoDuplicates(s.log) && AppendsAreNew(s) && Exclusive(s)
    requires h in s.handlers && s.handlers[h].Appending?
    ensures NoDuplicates(AdvanceOne(s, h, now).log) && AppendsAreNew(AdvanceOne(s, h, now))
  {
    hide WriteKeyOf;
    var t, m := AdvanceOne(s, h, now), s.handlers[h].mutation;
    forall i | 0 <= i < |s.log| && UserEntry(s.log[i]) && m.collection != AUDIT
      ensures WriteKeyOf(s.log[i].mutation) != WriteKeyOf(m)
    {
      assert Committed(s, h) && s.log[i] in s.log;
    }
    forall k, e | Committed(t, k) && t.handlers[k].Appending? && e in t.log && UserEntry(e)
      ensures WriteKeyOf(e.mutation) != WriteKeyOf(t.handlers[k].mutation)
    {
      assert k != h && Committed(s, k);
      if e !in s.log {
        assert e == t.log[|s.log|] && e.mutation == m;
        assert Committed(s, h);
      }
    }
  }

  lemma DistinctWriteId(log: seq<Entry>, e: Entry)
    requires NoDuplicates(log) && e in log && UserEntry(e)
    ensures WriteKeyOf(e.mutation) in WriteIdsOver(log) && WriteIdsOver(log)[WriteKeyOf(e.mutation)] == e.seqNo
  {
    hide WriteKeyOf, WriteIdsOver;
    var key := WriteKeyOf(e.mutation);
    WriteIdMeaning(log, key);
    var f :| f in log && UserEntry(f) && WriteKeyOf(f.mutation) == key && f.seqNo == WriteIdsOver(log)[key];
    var i :| 0 <= i < |log| && log[i] == e;
    var j :| 0 <= j < |log| && log[j] == f;
    assert i == j;
  }

  /**
   When no two handlers were ever past the lookup of the same write, no write is logged twice
   and, once the index steps are done, the write id index is the one a restart rebuilds.
   */
  lemma WriteIdsSurviveExclusion(s: Shared, events: seq<Event>)
    requires Sound(s) && NoDuplicates(s.log) && AppendsAreNew(s) && ExclusiveThroughout(s, events)
    requires Quiet(Execute(s, events))
    ensures var t := Execute(s, events); NoDuplicates(t.log) && t.writeIds == WriteIdsOver(t.log)
  {
    hide WriteKeyOf, WriteIdsOver, NoDuplicates, AppendsAreNew, ExclusiveThroughout, Execute, MarksAreReal,
         MarksCover, WellNumbered;
    ExclusiveRuns(s, events);
    var t := Execute(s, events);
    forall key
      ensures key in t.writeIds <==> key in WriteIdsOver(t.log)
      ensures key in t.writeIds ==> t.writeIds[key] == WriteIdsOver(t.log)[key]
    {
      WriteIdMeaning(t.log, key);
      if key in WriteIdsOver(t.log) {
        var e :| e in t.log && UserEntry(e) && WriteKeyOf(e.mutation) == key && e.seqNo == WriteIdsOver(t.log)[key];
        assert !KeyPending(t, e);
        assert key in t.writeIds;
      }
      if key in t.writeIds {
        var e :| e in t.log && UserEntry(e) && WriteKeyOf(e.mutation) == key && e.seqNo == t.writeIds[key];
        DistinctWriteId(t.log, e);
      }
    }
  }

  /* ---------- what breaking exclusion leads to ---------- */

  lemma {:induction false} ExecuteAppend(s: Shared, xs: seq<Event>, ys: seq<Event>)
    ensures Execute(s, xs + ys) == Execute(Execute(s, xs), ys)
  {
    hide Act;
    if ys == [] {
      assert xs + ys == xs;
    } else {
      assert (xs + ys)[..|xs + ys| - 1] == xs + ys[..|ys| - 1];
      ExecuteAppend(s, xs, ys[..|ys| - 1]);
    }
  }

  lemma ExecuteOne(s: Shared, event: Event)
    ensures Execute(s, [event]) == Act(s, event)
  {
    hide Act;
    assert [event][..0] == [];
  }

  lemma ExecuteTwo(s: Shared, first: Event, second: Event)
    ensures Execute(s, [first, second]) == Act(Act(s, first), second)
  {
    hide Act;
    assert [first, second] == [first] + [second];
    ExecuteAppend(s, [first], [second]);
    ExecuteOne(s, first);
    ExecuteOne(Act(s, first), second);
  }

  /** The last two steps of a handler, one after the other. */
  lemma IndexSteps(s: Shared, h: nat, now: int)
    requires h in s.handlers && s.handlers[h].Marking?
    ensures var m, n := s.handlers[h].mutation, s.handlers[h].seqNo;
            Execute(s, [Advance(h, now), Advance(h, now)]) ==
            s.(checkpoints := IndexCheckpoint(s.checkpoints, n, m), writeIds := IndexWriteId(s.writeIds, n, m),
               handlers := s.handlers[h := Done(n)])
  {
    hide IndexCheckpoint, IndexWriteId, Execute, ScopeOf, WriteKeyOf;
    var m, n := s.handlers[h].mutation, s.handlers[h].seqNo;
    ExecuteTwo(s, Advance(h, now), Advance(h, now));
    assert s.handlers[h := Keying(m, n)][h := Done(n)] == s.handlers[h := Done(n)];
  }

  /** The last three. */
  lemma AppendSteps(s: Shared, h: nat, now: int)
    requires Committed(s, h) && s.handlers[h].Appending?
    ensures var m, n, evidence := s.handlers[h].mutation, s.latest + 1, s.handlers[h].evidence;
            Execute(s, [Advance(h, now)] + [Advance(h, now), Advance(h, now)]) ==
            Shared(s.log + [Entry(n, now, m, if evidence then Origin.Local else Origin.Remote, evidence)], n,
                   IndexCheckpoint(s.checkpoints, n, m), IndexWriteId(s.writeIds, n, m), s.handlers[h := Done(n)])
  {
    hide IndexCheckpoint, IndexWriteId, Execute, ScopeOf, WriteKeyOf;
    var m, n := s.handlers[h].mutation, s.latest + 1;
    var step := Advance(h, now);
    ExecuteAppend(s, [step], [step, step]);
    ExecuteOne(s, step);
    var s1 := Act(s, step);
    assert s1.handlers == s.handlers[h := Marking(m, n)];
    IndexSteps(s1, h, now);
    assert s1.handlers[h := Done(n)] == s.handlers[h := Done(n)];
  }

  /** The write is in the log twice, and the index has a lower number for it than a restart rebuilds. */
  ghost predicate Diverged(s: Shared, key: WriteKey) {
    && !NoDuplicates(s.log)
    && key in s.writeIds && key in WriteIdsOver(s.log) && s.writeIds[key] < WriteIdsOver(s.log)[key]
  }

  /** The schedule of a race: the rival appends if it has not, the handler does all it has left, the rival the rest. */
  function Race(s: Shared, h: nat, k: nat, now: int): seq<Event>
    requires k in s.handlers
  {
    var mine, rival := Advance(h, now), Advance(k, now);
    var late := [mine] + [mine, mine] + if s.handlers[k].Keying? then [rival] else [rival, rival];
    if s.handlers[k].Appending? then [rival] + late else late
  }

  /** The rival's index steps come after a later append of the same write. */
  lemma LateIndexDiverges(s: Shared, h: nat, k: nat, now: int)
    requires Sound(s) && h != k && Committed(s, h) && s.handlers[h].Appending?
    requires k in s.handlers && (s.handlers[k].Marking? || s.handlers[k].Keying?)
    requires WriteKeyOf(s.handlers[h].mutation) == WriteKeyOf(s.handlers[k].mutation)
    ensures Diverged(Execute(s, Race(s, h, k, now)), WriteKeyOf(s.handlers[h].mutation))
  {
    hide WriteKeyOf, ScopeOf, IndexCheckpoint, MarksAreReal, MarksCover, KeysAreReal, KeysCover, Execute;
    var mine, rival := Advance(h, now), Advance(k, now);
    var m, n := s.handlers[h].mutation, s.handlers[k].seqNo;
    var key := WriteKeyOf(m);
    assert Holds(s.log, s.handlers[k].mutation, n);
    var earlier :| earlier in s.log && UserEntry(earlier) && earlier.mutation == s.handlers[k].mutation && earlier.seqNo == n;
    AppendSteps(s, h, now);
    var s1 := Execute(s, [mine] + [mine, mine]);
    assert s1.handlers[k] == s.handlers[k];
    var rest := if s.handlers[k].Keying? then [rival] else [rival, rival];
    ExecuteAppend(s, [mine] + [mine, mine], rest);
    var t := Execute(s1, rest);
    if s.handlers[k].Keying? {
      ExecuteOne(s1, rival);
    } else {
      IndexSteps(s1, k, now);
    }
    assert t.log == s1.log && t.writeIds == IndexWriteId(s1.writeIds, n, s.handlers[k].mutation);
    TwiceLogged(s.log, earlier, s1.log[|s.log|]);
    assert t.log[..|t.log| - 1] == s.log;
  }

  lemma TwiceLogged(log: seq<Entry>, e: Entry, f: Entry)
    requires e in log && UserEntry(e) && UserEntry(f) && WriteKeyOf(e.mutation) == WriteKeyOf(f.mutation)
    ensures !NoDuplicates(log + [f])
  {
    hide WriteKeyOf;
    var i :| 0 <= i < |log| && log[i] == e;
    assert (log + [f])[i] == e && (log + [f])[|log|] == f;
  }

  /**
   And exclusion is what it takes: from any sound state in which one handler is about to append
   a write that another is past the lookup of, at whatever stage, letting the two finish in some
   order logs the write twice and leaves the index on a number that a restart would not rebuild.
   */
  lemma RaceDiverges(s: Shared, h: nat, k: nat, now: int)
    requires Sound(s) && h != k && Committed(s, h) && Committed(s, k) && s.handlers[h].Appending?
    requires WriteKeyOf(s.handlers[h].mutation) == WriteKeyOf(s.handlers[k].mutation)
    ensures Diverged(Execute(s, Race(s, h, k, now)), WriteKeyOf(s.handlers[h].mutation))
    ensures Finishing(s, Race(s, h, k, now))
  {
    hide WriteKeyOf, ScopeOf, IndexCheckpoint, Sound, Execute, Diverged;
    if s.handlers[k].Appending? {
      var rival := Advance(k, now);
      var s1 := Act(s, rival);
      ActKeepsSound(s, rival);
      LateIndexDiverges(s1, h, k, now);
      ExecuteAppend(s, [rival], Race(s1, h, k, now));
      ExecuteOne(s, rival);
    } else {
      LateIndexDiverges(s, h, k, now);
    }
  }

  /** Only handlers that are past their lookup move, and none begins. */
  ghost predicate Finishing(s: Shared, events: seq<Event>) {
    forall e | e in events :: e.Advance? && (e.handler in s.handlers ==> !s.handlers[e.handler].Looking?)
  }

  /** A step that breaks exclusion is a lookup: its handler is now about to append what a rival has in hand. */
  lemma BreakerIsAppending(s: Shared, event: Event)
    requires Exclusive(s) && !Exclusive(Act(s, event))
    ensures event.Advance? && event.handler in s.handlers && s.handlers[event.handler].Looking?
    ensures var t := Act(s, event);
            && Committed(t, event.handler) && t.handlers[event.handler].Appending?
            && exists k | Committed(t, k) ::
                 k != event.handler && WriteKeyOf(t.handlers[k].mutation) == WriteKeyOf(t.handlers[event.handler].mutation)
  {
    hide Act, WriteKeyOf;
    var t := Act(s, event);
    var h, k :| Committed(t, h) && Committed(t, k) && h != k
                && WriteKeyOf(t.handlers[h].mutation) == WriteKeyOf(t.handlers[k].mutation);
    CommitsByLookup(s, event, h);
    CommitsByLookup(s, event, k);
  }

  /** A handler is past its lookup with the mutation it had, unless it has just looked it up. */
  lemma CommitsByLookup(s: Shared, event: Event, h: nat)
    requires Committed(Act(s, event), h)
    ensures (Committed(s, h) && Act(s, event).handlers[h].mutation == s.handlers[h].mutation)
            || (event.Advance? && event.handler == h && h in s.handlers && s.handlers[h].Looking?
                && Act(s, event).handlers[h].Appending?)
  {
    hide WriteKeyOf, ScopeOf, IndexCheckpoint, IndexWriteId;
  }

  lemma {:induction false} FinishingKeepsExclusive(s: Shared, events: seq<Event>)
    requires Exclusive(s) && Finishing(s, events)
    ensures ExclusiveThroughout(s, events)
    ensures forall h | h in Execute(s, events).handlers && Execute(s, events).handlers[h].Looking? ::
              h in s.handlers && s.handlers[h].Looking?
  {
    hide Exclusive, WriteKeyOf, ScopeOf, IndexCheckpoint, IndexWriteId;
    if events != [] {
      var n := |events| - 1;
      var last := events[n];
      assert last in events && forall e | e in events[..n] :: e in events;
      FinishingKeepsExclusive(s, events[..n]);
      var u := Execute(s, events[..n]);
      assert events[..n][..n] == events[..n];
      assert Exclusive(u);
      if !Exclusive(Act(u, last)) {
        BreakerIsAppending(u, last);
      }
      forall i | 0 <= i <= |events| ensures Exclusive(Execute(s, events[..i])) {
        if i <= n {
          assert events[..n][..i] == events[..i];
        } else {
          assert events[..i] == events;
        }
      }
    } else {
      assert events[..0] == events;
    }
  }

  /** The log has no write twice, and once nothing is pending the index is the rebuilt one. */
  ghost predicate WriteIdsExact(s: Shared) {
    NoDuplicates(s.log) && (Quiet(s) ==> s.writeIds == WriteIdsOver(s.log))
  }

  /** However the handlers past their lookup at any point of the run are let finish, the write ids come out exact. */
  ghost predicate FinishesExact(s: Shared, events: seq<Event>) {
    forall i, more | 0 <= i <= |events| && Finishing(Execute(s, events[..i]), more) ::
      WriteIdsExact(Execute(Execute(s, events[..i]), more))
  }

  /**
   The exact condition of the write id half: whatever way a run is cut short and its committed
   handlers finish, no write is logged twice and the index is the rebuilt one, if and only if no
   two handlers were ever past the lookup of the same write.
   */
  lemma WriteIdsExactIff(s: Shared, events: seq<Event>)
    requires Sound(s) && NoDuplicates(s.log) && AppendsAreNew(s) && Exclusive(s)
    ensures FinishesExact(s, events) <==> ExclusiveThroughout(s, events)
  {
    hide Sound, NoDuplicates, AppendsAreNew, Exclusive, Execute, Finishing, WriteIdsExact;
    if ExclusiveThroughout(s, events) {
      forall i, more | 0 <= i <= |events| && Finishing(Execute(s, events[..i]), more)
        ensures WriteIdsExact(Execute(Execute(s, events[..i]), more))
      {
        ExclusiveFinishesExact(s, events, i, more);
      }
    } else {
      var i :| 0 <= i <= |events| && !Exclusive(Execute(s, events[..i]));
      BrokenDiverges(s, events, i);
    }
  }

  lemma ExclusiveFinishesExact(s: Shared, events: seq<Event>, i: nat, more: seq<Event>)
    requires Sound(s) && NoDuplicates(s.log) && AppendsAreNew(s) && ExclusiveThroughout(s, events)
    requires i <= |events| && Finishing(Execute(s, events[..i]), more)
    ensures WriteIdsExact(Execute(Execute(s, events[..i]), more))
  {
    hide Sound, NoDuplicates, AppendsAreNew, Exclusive, Execute, Finishing, WriteIdsOver, Quiet;
    var cut := events[..i];
    forall j | 0 <= j <= |cut| ensures Exclusive(Execute(s, cut[..j])) {
      assert cut[..j] == events[..j];
    }
    ExclusiveRuns(s, cut);
    var u := Execute(s, cut);
    assert cut[..i] == cut;
    FinishingKeepsExclusive(u, more);
    ExclusiveRuns(u, more);
    if Quiet(Execute(u, more)) {
      WriteIdsSurviveExclusion(u, more);
    }
  }

  lemma {:induction false} BrokenDiverges(s: Shared, events: seq<Event>, i: nat)
    requires Sound(s) && Exclusive(s)
    requires i <= |events| && !Exclusive(Execute(s, events[..i]))
    ensures !FinishesExact(s, events)
    decreases i
  {
    hide Sound, NoDuplicates, Exclusive, Finishing, Act, WriteKeyOf, Race;
    assert i > 0 by {
      assert events[..0] == [];
    }
    var u := Execute(s, events[..i - 1]);
    assert events[..i][..i - 1] == events[..i - 1];
    assert Execute(s, events[..i]) == Act(u, events[i - 1]);
    if !Exclusive(u) {
      BrokenDiverges(s, events, i - 1);
    } else {
      var t := Execute(s, events[..i]);
      SoundRuns(s, events[..i]);
      BreakerIsAppending(u, events[i - 1]);
      var h := events[i - 1].handler;
      var k :| Committed(t, k) && k != h && WriteKeyOf(t.handlers[k].mutation) == WriteKeyOf(t.handlers[h].mutation);
      RaceDiverges(t, h, k, 0);
      assert !WriteIdsExact(Execute(t, Race(t, h, k, 0)));
    }
  }

  lemma {:induction false} SoundRuns(s: Shared, events: seq<Event>)
    requires Sound(s)
    ensures Sound(Execute(s, events))
  {
    hide Sound, Act;
    if events != [] {
      SoundRuns(s, events[..|events| - 1]);
      ActKeepsSound(Execute(s, events[..|events| - 1]), events[|events| - 1]);
    }
  }

  /* ---------- the steps are those of the serial hub ---------- */

  function SharedOf(hub: HubState, handlers: map<nat, Pc>): Shared {
    Shared(hub.log, hub.latest, hub.checkpoints, hub.writeIds, handlers)
  }

  /** A handler that begins a write and is not interrupted. */
  function Uninterrupted(s: Shared, h: nat, m: Mutation, now: int): Shared {
    Act(Act(Act(Act(Act(s, BeginWrite(h, m)), Advance(h, now)), Advance(h, now)), Advance(h, now)), Advance(h, now))
  }

  lemma UninterruptedKnown(s: Shared, h: nat, m: Mutation, now: int)
    requires Idle(s, h) && WriteKeyOf(m) in s.writeIds
    ensures Uninterrupted(s, h, m, now) == s.(handlers := s.handlers[h := Done(s.writeIds[WriteKeyOf(m)])])
  {
    hide WriteKeyOf, ScopeOf, IndexCheckpoint, IndexWriteId;
    var s1 := Act(Act(s, BeginWrite(h, m)), Advance(h, now));
    assert s1 == s.(handlers := s.handlers[h := Done(s.writeIds[WriteKeyOf(m)])]);
    assert Act(s1, Advance(h, now)) == s1;
  }

  lemma UninterruptedNew(s: Shared, h: nat, m: Mutation, now: int)
    requires Idle(s, h) && WriteKeyOf(m) !in s.writeIds
    ensures var n := s.latest + 1;
            Uninterrupted(s, h, m, now) ==
            Shared(s.log + [Entry(n, now, m, Origin.Remote, false)], n,
                   IndexCheckpoint(s.checkpoints, n, m), IndexWriteId(s.writeIds, n, m), s.handlers[h := Done(n)])
  {
    hide Act, WriteKeyOf, ScopeOf, IndexCheckpoint, IndexWriteId;
    var n := s.latest + 1;
    LookedUpNew(s, h, m, now);
    var logged := s.(log := s.log + [Entry(n, now, m, Origin.Remote, false)], latest := n);
    if m.collection == AUDIT {
      DoneStays(logged.(handlers := s.handlers[h := Done(n)]), h, now);
      AuditIsNotIndexed(s, n, m);
    } else {
      var s2 := logged.(handlers := s.handlers[h := Marking(m, n)]);
      IndexSteps(s2, h, now);
      ExecuteTwo(s2, Advance(h, now), Advance(h, now));
      assert s2.handlers[h := Done(n)] == s.handlers[h := Done(n)];
    }
  }

  /** The first three of those steps: begin, look up in vain, append. */
  lemma LookedUpNew(s: Shared, h: nat, m: Mutation, now: int)
    requires Idle(s, h) && WriteKeyOf(m) !in s.writeIds
    ensures var n := s.latest + 1;
            Act(Act(Act(s, BeginWrite(h, m)), Advance(h, now)), Advance(h, now)) ==
            s.(log := s.log + [Entry(n, now, m, Origin.Remote, false)], latest := n,
               handlers := s.handlers[h := if m.collection == AUDIT then Done(n) else Marking(m, n)])
  {
    hide WriteKeyOf, ScopeOf;
    var s1 := Act(Act(s, BeginWrite(h, m)), Advance(h, now));
    assert s1 == s.(handlers := s.handlers[h := Appending(m, false)]);
  }

  lemma DoneStays(s: Shared, h: nat, now: int)
    requires h in s.handlers && s.handlers[h].Done?
    ensures Act(s, Advance(h, now)) == s
  {}

  lemma AuditIsNotIndexed(s: Shared, n: nat, m: Mutation)
    requires m.collection == AUDIT
    ensures IndexCheckpoint(s.checkpoints, n, m) == s.checkpoints && IndexWriteId(s.writeIds, n, m) == s.writeIds
  {}

  /** A handler that is never interrupted does what the serial hub does in one step. */
  lemma UninterruptedIsSerial(env: Env, hub: HubState, handlers: map<nat, Pc>, h: nat, m: Mutation)
    requires ValidMetadata(m.metadata) && Idle(SharedOf(hub, handlers), h)
    ensures var (after, n) := Accepted(env, hub, m, ScopeOf(m));
            Uninterrupted(SharedOf(hub, handlers), h, m, env.appendedAt(hub.latest + 1)) == SharedOf(after, handlers[h := Done(n)])
  {
    hide WriteKeyOf, ScopeOf, ValidMetadata, Uninterrupted, IndexCheckpoint, IndexWriteId;
    if WriteKeyOf(m) in hub.writeIds {
      UninterruptedKnown(SharedOf(hub, handlers), h, m, env.appendedAt(hub.latest + 1));
    } else {
      UninterruptedNew(SharedOf(hub, handlers), h, m, env.appendedAt(hub.latest + 1));
    }
  }

  /** Nor does evidence differ: begun and appended without interruption it is the serial append of an audit entry. */
  lemma EvidenceIsSerial(env: Env, hub: HubState, handlers: map<nat, Pc>, h: nat, m: Mutation)
    requires m.collection == AUDIT && Idle(SharedOf(hub, handlers), h)
    ensures var s := Act(SharedOf(hub, handlers), BeginEvidence(h, m));
            var (after, n) := AppendIndexed(env, hub, m, Origin.Local, true);
            Act(s, Advance(h, env.appendedAt(hub.latest + 1))) == SharedOf(after, handlers[h := Done(n)])
  {
    AuditIsNotIndexed(SharedOf(hub, handlers), hub.latest + 1, m);
    hide ScopeOf, WriteKeyOf, IndexCheckpoint, IndexWriteId;
    var s := Act(SharedOf(hub, handlers), BeginEvidence(h, m));
    assert s.handlers == handlers[h := Appending(m, true)];
    assert s.handlers[h := Done(hub.latest + 1)] == handlers[h := Done(hub.latest + 1)];
  }

  /** A hub that has only run serially, or has just restarted, is a sound place to start from. */
  lemma SerialIsSound(hub: HubState)
    requires Indexed(hub)
    ensures Sound(SharedOf(hub, map[])) && AppendsAreNew(SharedOf(hub, map[])) && Exclusive(SharedOf(hub, map[]))
  {
    hide WellNumbered, ScopeOf, WriteKeyOf, CheckpointsOver, WriteIdsOver;
    var s := SharedOf(hub, map[]);
    forall scope | scope in s.checkpoints
      ensures exists e | e in s.log :: UserEntry(e) && ScopeOf(e.mutation) == scope && e.seqNo == s.checkpoints[scope]
    {
      CheckpointMeaning(hub.log, scope);
    }
    forall e | e in s.log && UserEntry(e)
      ensures e.seqNo <= CheckpointAt(s, ScopeOf(e.mutation)) && WriteKeyOf(e.mutation) in s.writeIds
    {
      CheckpointMeaning(hub.log, ScopeOf(e.mutation));
      WriteIdMeaning(hub.log, WriteKeyOf(e.mutation));
    }
    forall key | key in s.writeIds
      ensures exists e | e in s.log :: UserEntry(e) && WriteKeyOf(e.mutation) == key && e.seqNo == s.writeIds[key]
    {
      WriteIdMeaning(hub.log, key);
    }
  }
}
