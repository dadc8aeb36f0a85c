/** What a pull returns, for every bounded-context hook, and what it can miss. */
module HubPull {
  import opened Wrappers
  import opened Documents
  import opened Oplog
  import opened StableSort
  import opened Hub
  import opened HubIndexes
  import opened HubShape
  import opened HubIdempotence
  import opened HubContainment

  /** What a client sees of the entries it is given: each mutation, marked on the semantic tier. */
  function Images(entries: seq<Entry>, tier: Tier): seq<Mutation> {
    if entries == [] then [] else [Annotated(entries[0].mutation, tier)] + Images(entries[1..], tier)
  }

  /** Some of the elements of `t`, in their order and each used at most once. */
  ghost predicate Subsequence<T>(s: seq<T>, t: seq<T>)
    decreases |t|
  {
    s == [] || (t != [] && if s[0] == t[0] then Subsequence(s[1..], t[1..]) else Subsequence(s, t[1..]))
  }

  predicate Offered(e: Entry, scope: Scope, tier: Tier) {
    InView(e, scope, tier) && e.mutation.patch.Some?
  }

  function Key(e: Entry): Identity {
    (e.seqNo, e.mutation.writeId)
  }

  /** The hook handed back a candidate that carries this entry's identity. */
  ghost predicate LetThrough(e: Entry, candidates: seq<Document>) {
    exists c | c in candidates :: IdentityOf(c) == Some(Key(e))
  }

  function Past(log: seq<Entry>, since: nat): seq<Entry> {
    Since(log, since + 1)
  }

  function Page(log: seq<Entry>, since: nat): seq<Entry> {
    ReadLog(log, since + 1, PAGE)
  }

  /** What the control plane hands back for a pull. */
  function Handed(env: Env, log: seq<Entry>, req: PullRequest): seq<Document> {
    ReadPath(env, req.scope, req.tier, Candidates(ScopedEntries(Page(log, req.since), req.scope, req.tier))).1
  }

  /* ---------- filtering ---------- */

  lemma {:induction false} FilterSame(entries: seq<Entry>, p: Entry -> bool, q: Entry -> bool)
    requires forall e | e in entries :: p(e) == q(e)
    ensures Filter(p, entries) == Filter(q, entries)
  {
    if entries != [] {
      FilterSame(entries[1..], p, q);
    }
  }

  lemma {:induction false} FilterKeeps(entries: seq<Entry>, p: Entry -> bool)
    ensures forall e :: e in Filter(p, entries) <==> e in entries && p(e)
    ensures Subsequence(Filter(p, entries), entries)
    ensures |Filter(p, entries)| <= |entries|
  {
    if entries != [] {
      FilterKeeps(entries[1..], p);
      assert entries == [entries[0]] + entries[1..];
      if p(entries[0]) {
        assert Filter(p, entries)[1..] == Filter(p, entries[1..]);
      } else {
        assert Filter(p, entries) == Filter(p, entries[1..]);
        if Filter(p, entries) != [] {
          assert Filter(p, entries)[0] in Filter(p, entries[1..]);
        }
      }
    }
  }

  lemma {:induction false} FilterNone(entries: seq<Entry>, p: Entry -> bool)
    requires forall e | e in entries :: !p(e)
    ensures Filter(p, entries) == []
  {
    if entries != [] {
      FilterNone(entries[1..], p);
    }
  }

  function Both(p: Entry -> bool, q: Entry -> bool): Entry -> bool {
    e => p(e) && q(e)
  }

  lemma {:induction false} FilterTwice(entries: seq<Entry>, p: Entry -> bool, q: Entry -> bool)
    ensures Filter(q, Filter(p, entries)) == Filter(Both(p, q), entries)
  {
    if entries != [] {
      FilterTwice(entries[1..], p, q);
      var rest := Filter(p, entries[1..]);
      if p(entries[0]) {
        assert Filter(p, entries)[1..] == rest;
      } else {
        assert Filter(p, entries) == rest;
      }
    }
  }

  lemma {:induction false} ImagesLength(entries: seq<Entry>, tier: Tier)
    ensures |Images(entries, tier)| == |entries|
  {
    if entries != [] {
      ImagesLength(entries[1..], tier);
    }
  }

  lemma {:induction false} ScopedIsFilter(entries: seq<Entry>, scope: Scope, tier: Tier)
    ensures ScopedEntries(entries, scope, tier) == Filter(Views(scope, tier), entries)
  {
    if entries != [] {
      ScopedIsFilter(entries[1..], scope, tier);
    }
  }

  lemma {:induction false} FilterIncreasing(entries: seq<Entry>, p: Entry -> bool)
    requires Increasing(entries)
    ensures Increasing(Filter(p, entries))
  {
    if entries != [] {
      FilterIncreasing(entries[1..], p);
      FilterKeeps(entries[1..], p);
      var rest := Filter(p, entries[1..]);
      forall j | 0 <= j < |rest| ensures entries[0].seqNo < rest[j].seqNo {
        assert rest[j] in entries[1..];
      }
    }
  }

  lemma {:induction false} SinceMembers(log: seq<Entry>, seqNo: nat)
    ensures forall e :: e in Since(log, seqNo) <==> e in log && e.seqNo >= seqNo
  {
    if log != [] {
      SinceMembers(log[..|log| - 1], seqNo);
      assert log == log[..|log| - 1] + [log[|log| - 1]];
    }
  }

  lemma {:induction false} SinceIncreasing(log: seq<Entry>, seqNo: nat)
    requires Increasing(log)
    ensures Increasing(Since(log, seqNo))
  {
    if log != [] {
      var init, last := log[..|log| - 1], log[|log| - 1];
      SinceIncreasing(init, seqNo);
      SinceMembers(init, seqNo);
      forall e | e in init ensures e.seqNo < last.seqNo {
        var i :| 0 <= i < |init| && init[i] == e;
        assert log[i] == e;
      }
      assert forall e | e in Since(init, seqNo) :: e.seqNo < last.seqNo;
    }
  }

  lemma PageMembers(log: seq<Entry>, since: nat)
    requires Increasing(log)
    ensures Increasing(Page(log, since)) && |Page(log, since)| == if |Past(log, since)| < 1000 then |Past(log, since)| else 1000
    ensures forall e | e in Page(log, since) :: e in log && e.seqNo > since
    ensures Page(log, since) <= Past(log, since)
  {
    hide Since, Increasing;
    SinceMembers(log, since + 1);
    SinceIncreasing(log, since + 1);
    TakeIncreasing(Past(log, since), PAGE);
  }

  lemma TakeIncreasing(entries: seq<Entry>, n: nat)
    requires Increasing(entries)
    ensures Increasing(Take(entries, n)) && Take(entries, n) <= entries
    ensures |Take(entries, n)| == if |entries| < n then |entries| else n
    ensures forall e | e in Take(entries, n) :: e in entries
  {}

  /* ---------- selection ---------- */

  lemma {:induction false} CountsMeaning(candidates: seq<Document>, key: Identity)
    ensures key in IdentityCounts(candidates) <==> exists c | c in candidates :: IdentityOf(c) == Some(key)
    ensures key in IdentityCounts(candidates) ==> IdentityCounts(candidates)[key] > 0
  {
    hide IdentityOf;
    if candidates != [] {
      var init, last := candidates[..|candidates| - 1], candidates[|candidates| - 1];
      CountsMeaning(init, key);
      assert forall c :: c in candidates <==> c in init || c == last;
    }
  }

  function Views(scope: Scope, tier: Tier): Entry -> bool {
    e => InView(e, scope, tier)
  }

  function Offers(scope: Scope, tier: Tier): Entry -> bool {
    e => Offered(e, scope, tier)
  }

  function Grants(left: map<Identity, nat>): Entry -> bool {
    e => Granted(e, left)
  }

  /** What a pull returns of a page, given what the hook handed back. */
  ghost function Passes(scope: Scope, tier: Tier, handed: seq<Document>): Entry -> bool {
    e => Offered(e, scope, tier) && LetThrough(e, handed)
  }

  predicate Granted(e: Entry, left: map<Identity, nat>) {
    e.mutation.patch.Some? && Key(e) in left && left[Key(e)] > 0
  }

  /** Numbers are distinct, so counting down never turns a granted entry away. */
  lemma {:induction false} SelectedIsFilter(entries: seq<Entry>, left: map<Identity, nat>, tier: Tier)
    requires Increasing(entries)
    ensures Selected(entries, left, tier) == Images(Filter(Grants(left), entries), tier)
    decreases |entries|
  {
    if entries != [] {
      var e, rest := entries[0], entries[1..];
      if Granted(e, left) {
        var less := left[Key(e) := left[Key(e)] - 1];
        SelectedIsFilter(rest, less, tier);
        forall f | f in rest ensures Granted(f, less) == Granted(f, left) {
          var i :| 0 <= i < |rest| && rest[i] == f;
          assert entries[0].seqNo < entries[i + 1].seqNo;
        }
        FilterSame(rest, Grants(less), Grants(left));
        assert Filter(Grants(left), entries)[1..] == Filter(Grants(left), rest);
      } else {
        SelectedIsFilter(rest, left, tier);
        assert Filter(Grants(left), entries) == Filter(Grants(left), rest);
      }
    }
  }

  /** What is selected of a page, counts of identities and all, is a filter of the page. */
  lemma PageSelected(page: seq<Entry>, scope: Scope, tier: Tier, handed: seq<Document>)
    requires Increasing(page)
    ensures Selected(ScopedEntries(page, scope, tier), IdentityCounts(handed), tier)
            == Images(Filter(Passes(scope, tier, handed), page), tier)
  {
    hide InView, IdentityOf, Increasing, Annotated, Selected, ScopedEntries, Images, Filter, IdentityCounts;
    var counts := IdentityCounts(handed);
    var views, grants := Views(scope, tier), Grants(counts);
    ScopedIsFilter(page, scope, tier);
    FilterIncreasing(page, views);
    SelectedIsFilter(Filter(views, page), counts, tier);
    FilterTwice(page, views, grants);
    forall e | e in page ensures Both(views, grants)(e) == Passes(scope, tier, handed)(e) {
      CountsMeaning(handed, Key(e));
    }
    FilterSame(page, Both(views, grants), Passes(scope, tier, handed));
  }

  /**
   Whatever the bounded-context hook hands back, a pull that is not rejected returns, in log
   order, exactly the page's entries that are in scope, visible, no audit evidence, carry a
   patch, and whose identity the hook let through; a rejected one returns nothing.
   */
  lemma PullReturns(env: Env, s: HubState, req: PullRequest)
    requires WellNumbered(s.log, s.latest)
    ensures var answer := PullStep(env, s, req).1;
            answer.mutations ==
            if answer.decision.verdict == Reject then []
            else
              Images(Filter(Passes(req.scope, req.tier, Handed(env, s.log, req)), Page(s.log, req.since)), req.tier)
  {
    hide Recorded, Gate, ReadPath, Increasing, Selected, ScopedEntries, Images, Filter, IdentityCounts, Passes;
    PageMembers(s.log, req.since);
    PageSelected(Page(s.log, req.since), req.scope, req.tier, Handed(env, s.log, req));
  }

  /** So the hook can only leave entries out: it cannot add, repeat, reorder or alter one. */
  lemma PullIsSubsequence(env: Env, s: HubState, req: PullRequest)
    requires WellNumbered(s.log, s.latest)
    ensures exists kept: seq<Entry> ::
              && Subsequence(kept, Page(s.log, req.since)) && Increasing(kept)
              && (forall e | e in kept :: e in s.log && e.seqNo > req.since && Offered(e, req.scope, req.tier))
              && PullStep(env, s, req).1.mutations == Images(kept, req.tier)
  {
    hide PullStep, Offered, LetThrough, Handed, Increasing, Page;
    PullReturns(env, s, req);
    PageMembers(s.log, req.since);
    var page := Page(s.log, req.since);
    var passes := Passes(req.scope, req.tier, Handed(env, s.log, req));
    FilterKeeps(page, passes);
    FilterIncreasing(page, passes);
    var kept := if PullStep(env, s, req).1.decision.verdict == Reject then [] else Filter(passes, page);
    assert Subsequence(kept, page) && Increasing(kept) by {
      NothingSelected(page);
    }
    assert PullStep(env, s, req).1.mutations == Images(kept, req.tier);
  }

  lemma NothingSelected(page: seq<Entry>)
    ensures Subsequence([], page) && Increasing([])
  {}

  /* ---------- pass-through policies ---------- */

  /** Neither the control plane nor containment stands between the page and this request. */
  ghost predicate PassThrough(env: Env, s: HubState, req: PullRequest) {
    && req.scope.0 != "" && req.scope.1 != ""
    && env.retrievalGate(req.scope, req.tier).verdict != Reject
    && (forall cs :: env.boundedContext(req.scope, req.tier, cs) == cs)
    && GateOpen(env, s, req.scope)
  }

  lemma SignedRoundTrip(n: nat)
    ensures -U63 <= AsSigned(n) < U63
    ensures n < U63 ==> AsSigned(n) == n
    ensures AsUnsigned(AsSigned(n)) == n <==> n < 2 * U63
  {}

  lemma {:induction false} CandidatesCarry(entries: seq<Entry>)
    ensures |Candidates(entries)| <= |entries|
    ensures forall e | e in entries && e.mutation.patch.Some? && e.seqNo < 2 * U63 :: LetThrough(e, Candidates(entries))
  {
    hide AsSigned, AsUnsigned;
    if entries != [] {
      var first, rest := entries[0], entries[1..];
      CandidatesCarry(rest);
      assert entries == [first] + rest;
      if first.mutation.patch.Some? {
        SignedRoundTrip(first.seqNo);
        var c := WithIdentity(first, first.mutation.patch.value);
        assert Candidates(entries) == [c] + Candidates(rest);
        assert c in Candidates(entries);
        assert first.seqNo < 2 * U63 ==> IdentityOf(c) == Some(Key(first));
      }
      forall e | e in rest && LetThrough(e, Candidates(rest)) ensures LetThrough(e, Candidates(entries)) {
        var c :| c in Candidates(rest) && IdentityOf(c) == Some(Key(e));
        assert c in Candidates(entries);
      }
    }
  }

  predicate HasPatch(e: Entry) {
    e.mutation.patch.Some?
  }

  /** The candidate shows the hook the entry's patch, all of it, and under two more fields which entry it is. */
  predicate Presents(candidate: Document, e: Entry)
    requires HasPatch(e)
  {
    && candidate - {"__rango_candidate_seq", "__rango_candidate_write_id"}
       == e.mutation.patch.value - {"__rango_candidate_seq", "__rango_candidate_write_id"}
    && "__rango_candidate_seq" in candidate && candidate["__rango_candidate_seq"].Int64?
    && (e.seqNo < U63 ==> candidate["__rango_candidate_seq"].int64 == e.seqNo)
    && "__rango_candidate_write_id" in candidate && candidate["__rango_candidate_write_id"] == String(e.mutation.writeId)
    && (e.seqNo < 2 * U63 ==> IdentityOf(candidate) == Some((e.seqNo, e.mutation.writeId)))
  }

  /** A candidate the hook hands back counts for the entry whose number and write id its two fields still hold. */
  lemma IdentityIs(candidate: Document, n: nat, writeId: string)
    ensures IdentityOf(candidate) == Some((n, writeId)) <==>
            && "__rango_candidate_seq" in candidate && candidate["__rango_candidate_seq"].Int64?
            && candidate["__rango_candidate_seq"].int64 % 0x1_0000_0000_0000_0000 == n
            && "__rango_candidate_write_id" in candidate && candidate["__rango_candidate_write_id"] == String(writeId)
  {}

  /** Of what the hook answers the first thousand are handed on, unless the request names no scope or the gate rejects it. */
  lemma HandedIs(env: Env, log: seq<Entry>, req: PullRequest)
    ensures var shown := Candidates(Filter(Views(req.scope, req.tier), Page(log, req.since)));
            var answered := env.boundedContext(req.scope, req.tier, shown);
            if req.scope.0 == "" || req.scope.1 == "" || env.retrievalGate(req.scope, req.tier).verdict == Reject
            then Handed(env, log, req) == []
            else
              && Handed(env, log, req) <= answered
              && |Handed(env, log, req)| == if |answered| < 1000 then |answered| else 1000
  {
    hide Page, Candidates, InView;
    ScopedIsFilter(Page(log, req.since), req.scope, req.tier);
  }

  /** The hook is shown every patch-bearing entry in view, in log order, and nothing else. */
  lemma {:induction false} CandidatesPresent(entries: seq<Entry>)
    ensures var patched := Filter(HasPatch, entries);
            && |Candidates(entries)| == |patched|
            && forall k | 0 <= k < |patched| :: HasPatch(patched[k]) && Presents(Candidates(entries)[k], patched[k])
  {
    hide AsSigned, AsUnsigned;
    if entries != [] {
      var first, rest := entries[0], entries[1..];
      CandidatesPresent(rest);
      if HasPatch(first) {
        SignedRoundTrip(first.seqNo);
        var c := WithIdentity(first, first.mutation.patch.value);
        assert Presents(c, first);
        assert Candidates(entries) == [c] + Candidates(rest);
        assert Filter(HasPatch, entries) == [first] + Filter(HasPatch, rest);
      } else {
        assert Candidates(entries) == Candidates(rest);
      }
    }
  }

  /**
   With pass-through policies a pull returns every patch-bearing entry in view among the
   first thousand entries of the whole log past the checkpoint. Deletes carry no patch, so
   no pull ever returns one.
   */
  lemma PassThroughReturnsPage(env: Env, s: HubState, req: PullRequest)
    requires WellNumbered(s.log, s.latest) && s.latest < 2 * U63
    requires PassThrough(env, s, req)
    ensures PullStep(env, s, req).1.mutations == Images(Filter(Offers(req.scope, req.tier), Page(s.log, req.since)), req.tier)
  {
    hide Recorded, Gate, InView, IdentityOf, Increasing, Annotated, LetThrough;
    var page := Page(s.log, req.since);
    PageMembers(s.log, req.since);
    ScopedIsFilter(page, req.scope, req.tier);
    FilterKeeps(page, Views(req.scope, req.tier));
    var scoped := ScopedEntries(page, req.scope, req.tier);
    CandidatesCarry(scoped);
    assert Handed(env, s.log, req) == Candidates(scoped);
    PullReturns(env, s, req);
    forall e | e in page ensures Offers(req.scope, req.tier)(e) == Passes(req.scope, req.tier, Candidates(scoped))(e) {
      assert e in s.log;
    }
    FilterSame(page, Offers(req.scope, req.tier), Passes(req.scope, req.tier, Candidates(scoped)));
  }

  /* ---------- what a pull misses ---------- */

  /** What lies past the checkpoint but beyond the page. */
  function Beyond(log: seq<Entry>, since: nat): seq<Entry> {
    Past(log, since)[|Page(log, since)|..]
  }

  lemma PageThenBeyond(log: seq<Entry>, since: nat)
    ensures Past(log, since) == Page(log, since) + Beyond(log, since)
    ensures Beyond(log, since) == [] <==> |Past(log, since)| <= PAGE
  {}

  /** The page is all there is exactly when nothing a pull could return lies beyond it; a thousand entries or fewer suffice. */
  lemma NothingMissedIff(env: Env, s: HubState, req: PullRequest)
    requires WellNumbered(s.log, s.latest) && s.latest < 2 * U63
    requires PassThrough(env, s, req)
    ensures PullStep(env, s, req).1.mutations == Images(Filter(Offers(req.scope, req.tier), Past(s.log, req.since)), req.tier)
            <==> forall e | e in Beyond(s.log, req.since) :: !Offered(e, req.scope, req.tier)
    ensures |Past(s.log, req.since)| <= PAGE ==> Beyond(s.log, req.since) == []
  {
    hide PullStep, Past, Page, Offered;
    var page, beyond, offers := Page(s.log, req.since), Beyond(s.log, req.since), Offers(req.scope, req.tier);
    PassThroughReturnsPage(env, s, req);
    PageThenBeyond(s.log, req.since);
    FilterAppend(offers, page, beyond);
    FilterKeeps(beyond, offers);
    ImagesLength(Filter(offers, page), req.tier);
    ImagesLength(Filter(offers, page + beyond), req.tier);
    if Filter(offers, beyond) == [] {
      assert Filter(offers, page) + [] == Filter(offers, page);
      forall e | e in beyond ensures !Offered(e, req.scope, req.tier) {
        assert !offers(e);
      }
    } else {
      assert Filter(offers, beyond)[0] in Filter(offers, beyond);
    }
  }

  /**
   A write of the scope beyond the page is at or below the checkpoint the pull answers with,
   so no pull from that checkpoint, at any later time, reads it.
   */
  lemma BeyondIsLost(env: Env, s: HubState, req: PullRequest, attempts: seq<Attempt>, next: PullRequest, e: Entry)
    requires Indexed(s)
    requires e in Beyond(s.log, req.since) && UserEntry(e) && ScopeOf(e.mutation) == req.scope
    requires next.since >= Checkpoint(PullStep(env, s, req).0, req.scope)
    ensures e.seqNo <= Checkpoint(PullStep(env, s, req).0, req.scope)
    ensures e !in Page(Run(env, PullStep(env, s, req).0, attempts).log, next.since)
  {
    hide PullStep, Page, Checkpoint, ScopeOf, CheckpointsOver, WriteIdsOver, Rebuilt;
    var t := PullStep(env, s, req).0;
    assert Step(env, s, Pull(req)).0 == t;
    StepGrows(env, s, Pull(req));
    PageThenBeyond(s.log, req.since);
    assert e in Past(s.log, req.since);
    SinceMembers(s.log, req.since + 1);
    assert e in s.log;
    assert t.log[..|s.log|] == s.log;
    assert e in t.log;
    CheckpointCovers(t, e);
    RunGrows(env, t, attempts);
    PageMembers(Run(env, t, attempts).log, next.since);
  }

  /** For one: a thousand writes of other scopes hide the first write of this one, and the answered checkpoint skips it. */
  lemma OneTooMany(env: Env, s: HubState, req: PullRequest)
    requires Indexed(s) && |s.log| == PAGE + 1 && req.since == 0
    requires forall i | 0 <= i < PAGE :: ScopeOf(s.log[i].mutation) != req.scope
    requires UserEntry(s.log[PAGE]) && Offered(s.log[PAGE], req.scope, req.tier)
    ensures PullStep(env, s, req).1.mutations == []
    ensures Checkpoint(PullStep(env, s, req).0, req.scope) >= s.log[PAGE].seqNo
  {
    hide Recorded, Gate, ReadPath, IdentityOf, Annotated, VisibleForTier, LetThrough, CheckpointsOver, WriteIdsOver,
         Handed, PullStep, ScopeOf;
    forall i | 0 <= i < |s.log| ensures s.log[i].seqNo >= 1 {
      assert s.log[i] in s.log;
    }
    SinceIsTail(s.log, 1, 0);
    var page, passes := Page(s.log, 0), Passes(req.scope, req.tier, Handed(env, s.log, req));
    assert page == s.log[..PAGE];
    FilterNone(page, passes);
    PullReturns(env, s, req);
    StepGrows(env, s, Pull(req));
    PullAsStep(env, s, req);
    CheckpointCovers(s, s.log[PAGE]);
    assert Checkpoint(s, req.scope) <= Checkpoint(PullStep(env, s, req).0, req.scope);
  }

  lemma CheckpointCovers(s: HubState, e: Entry)
    requires Indexed(s) && e in s.log && UserEntry(e)
    ensures e.seqNo <= Checkpoint(s, ScopeOf(e.mutation))
  {
    hide ScopeOf;
    CheckpointMeaning(s.log, ScopeOf(e.mutation));
  }

  /* ---------- pulling again ---------- */

  /**
   A pull from the scope's own checkpoint, with pass-through policies, is empty exactly when
   no entry that was pushed into the audit collection under another kind is on offer in its page.
   */
  lemma QuietIff(env: Env, s: HubState, req: PullRequest)
    requires Indexed(s) && s.latest < 2 * U63
    requires PassThrough(env, s, req) && req.since >= Checkpoint(s, req.scope)
    ensures PullStep(env, s, req).1.mutations == [] <==>
            forall e | e in Page(s.log, req.since) && e.mutation.collection == AUDIT :: !Offered(e, req.scope, req.tier)
  {
    hide PullStep, Page, Checkpoint, CheckpointsOver, WriteIdsOver;
    var page, offers := Page(s.log, req.since), Offers(req.scope, req.tier);
    PassThroughReturnsPage(env, s, req);
    PageMembers(s.log, req.since);
    FilterKeeps(page, offers);
    ImagesLength(Filter(offers, page), req.tier);
    forall e | e in page && Offered(e, req.scope, req.tier) ensures e.mutation.collection == AUDIT && e in Filter(offers, page) {
      if UserEntry(e) {
        CheckpointCovers(s, e);
      }
      assert offers(e);
    }
    if Filter(offers, page) != [] {
      assert Filter(offers, page)[0] in Filter(offers, page);
    }
  }

  /** Everything in the audit collection is audit evidence by kind too. */
  ghost predicate AuditsTyped(log: seq<Entry>) {
    forall e | e in log && e.mutation.collection == AUDIT :: e.mutation.metadata.kind == AUDIT_KIND
  }

  lemma QuietForEveryHook(env: Env, s: HubState, req: PullRequest)
    requires Indexed(s) && AuditsTyped(s.log) && req.since >= Checkpoint(s, req.scope)
    ensures PullStep(env, s, req).1.mutations == []
  {
    hide PullStep, Page, Checkpoint, CheckpointsOver, WriteIdsOver, Subsequence, Increasing, Annotated;
    PullIsSubsequence(env, s, req);
    var kept: seq<Entry> :| && Subsequence(kept, Page(s.log, req.since)) && Increasing(kept)
              && (forall e | e in kept :: e in s.log && e.seqNo > req.since && Offered(e, req.scope, req.tier))
              && PullStep(env, s, req).1.mutations == Images(kept, req.tier);
    if kept != [] {
      var e := kept[0];
      assert e in kept;
      assert UserEntry(e);
      CheckpointCovers(s, e);
      assert false;
    }
  }

  lemma {:induction false} UsersInMembers(log: seq<Entry>, scope: Scope)
    ensures forall e :: e in UsersIn(log, scope) <==> e in log && UserEntry(e) && ScopeOf(e.mutation) == scope
  {
    hide ScopeOf;
    if log != [] {
      UsersInMembers(log[..|log| - 1], scope);
      assert log == log[..|log| - 1] + [log[|log| - 1]];
    }
  }

  /**
   Having pulled, a client that comes back with the checkpoint it was given finds nothing,
   whatever happened in between, until some write of its scope was appended.
   */
  lemma PullDrains(env: Env, s: HubState, req: PullRequest, attempts: seq<Attempt>, tier: Tier)
    requires Indexed(s)
    requires var t := PullStep(env, s, req).0; var u := Run(env, t, attempts);
             UsersIn(u.log, req.scope) == UsersIn(t.log, req.scope) && AuditsTyped(u.log)
    ensures var t := PullStep(env, s, req).0; var u := Run(env, t, attempts);
            PullStep(env, u, PullRequest(req.scope, Checkpoint(t, req.scope), tier)).1.mutations == []
  {
    hide PullStep, Step, Run, CheckpointsOver, WriteIdsOver, AuditsTyped, UsersIn, ScopeOf;
    var t := PullStep(env, s, req).0;
    assert Step(env, s, Pull(req)).0 == t by {
      PullAsStep(env, s, req);
    }
    StepGrows(env, s, Pull(req));
    var u := Run(env, t, attempts);
    RunGrows(env, t, attempts);
    UsersInMembers(t.log, req.scope);
    UsersInMembers(u.log, req.scope);
    CheckpointMeaning(t.log, req.scope);
    CheckpointMeaning(u.log, req.scope);
    assert Checkpoint(u, req.scope) == Checkpoint(t, req.scope) by {
      SameUsersSameCheckpoint(t, u, req.scope);
    }
    QuietForEveryHook(env, u, PullRequest(req.scope, Checkpoint(t, req.scope), tier));
  }

  lemma PullAsStep(env: Env, s: HubState, req: PullRequest)
    ensures Step(env, s, Pull(req)) == PullStep(env, s, req)
  {
    hide PullStep;
  }

  lemma SameUsersSameCheckpoint(t: HubState, u: HubState, scope: Scope)
    requires Indexed(t) && Indexed(u) && UsersIn(t.log, scope) == UsersIn(u.log, scope)
    ensures Checkpoint(t, scope) == Checkpoint(u, scope)
  {
    hide UsersIn, ScopeOf, CheckpointsOver, WriteIdsOver, WellNumbered;
    UsersInMembers(t.log, scope);
    UsersInMembers(u.log, scope);
    CheckpointMeaning(t.log, scope);
    CheckpointMeaning(u.log, scope);
    forall e ensures (e in t.log && UserEntry(e) && ScopeOf(e.mutation) == scope)
                     == (e in u.log && UserEntry(e) && ScopeOf(e.mutation) == scope) {
      assert e in UsersIn(t.log, scope) <==> e in UsersIn(u.log, scope);
    }
  }

  /* ---------- keeping the audit collection clean ---------- */

  /** The attempt brings no client mutation aimed at the audit collection. */
  predicate SparesAudits(a: Attempt) {
    Brought(a).Some? ==> Brought(a).value.collection != AUDIT
  }

  lemma RecordedKeepsTyped(env: Env, s: HubState, stage: string, scope: Scope, writeId: Option<string>, d: Decision)
    requires AuditsTyped(s.log)
    ensures AuditsTyped(Recorded(env, s, stage, scope, writeId, d).log)
  {
    hide ValidMetadata, IndexCheckpoint, IndexWriteId;
    var m := AuditMutation(env, s.audits + 1, stage, scope, writeId, d);
    assert m.metadata.kind == AUDIT_KIND;
  }

  lemma AcceptedKeepsTyped(env: Env, s: HubState, m: Mutation, scope: Scope)
    requires AuditsTyped(s.log) && ValidMetadata(m.metadata) && ScopeOf(m) == scope && m.collection != AUDIT
    ensures AuditsTyped(Accepted(env, s, m, scope).0.log)
  {
    hide ValidMetadata, ScopeOf, IndexCheckpoint, IndexWriteId;
  }

  lemma StepKeepsTyped(env: Env, s: HubState, a: Attempt)
    requires AuditsTyped(s.log) && SparesAudits(a)
    ensures AuditsTyped(Step(env, s, a).0.log)
  {
    hide Step, Recorded, Gate, Accepted, ValidMetadata, ScopeOf, ConsultsGate, AuditsTyped, Grows;
    var before := StepShape(env, s, a);
    var answer := Step(env, s, a).1;
    GateGrows(env, s, AttemptScope(a));
    RecordedKeepsTyped(env, before, StageOf(a), AttemptScope(a), WriteIdOf(a), answer.decision);
    if answer.accepted.Some? {
      var recorded := Recorded(env, before, StageOf(a), AttemptScope(a), WriteIdOf(a), answer.decision);
      AcceptedKeepsTyped(env, recorded, Brought(a).value, AttemptScope(a));
    }
  }

  /** A run in which no client writes to the audit collection keeps every audit entry out of every view. */
  lemma {:induction false} RunKeepsTyped(env: Env, s: HubState, attempts: seq<Attempt>)
    requires AuditsTyped(s.log) && forall a | a in attempts :: SparesAudits(a)
    ensures AuditsTyped(Run(env, s, attempts).log)
  {
    hide Step, AuditsTyped, SparesAudits;
    if attempts != [] {
      var init := attempts[..|attempts| - 1];
      forall a | a in init ensures SparesAudits(a) {
        assert a in attempts;
      }
      RunKeepsTyped(env, s, init);
      StepKeepsTyped(env, Run(env, s, init), attempts[|attempts| - 1]);
    }
  }
}
