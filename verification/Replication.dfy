/**
 Eventual consistency. Engines on different nodes receive the same mutations, in whatever
 batches and order and with named ones repeated; when do their readers see the same?
 */
module Replication {
  import opened Wrappers
  import opened StableSort
  import opened Documents
  import opened Merge
  import opened Batches
  import opened Effects
  import LocalLog
  import Revisions
  import Sequences

  /** An engine: the node it runs on and what it holds. */
  datatype Engine = Engine(node: string, state: EngineState)

  /** Every named mutation at least once, every anonymous one as often as in `ms`, and nothing else. */
  ghost predicate Delivers(ns: seq<Mutation>, ms: seq<Mutation>) {
    forall m: Mutation ::
      && (m in ns <==> m in ms)
      && (m.writeId == "" ==> multiset(ns)[m] == multiset(ms)[m])
  }

  /** The mutations are new to the engine, which shows nothing under the key. */
  ghost predicate Ready(e: Engine, fallback: string, key: Key, ms: seq<Mutation>) {
    && AllApplicable(e.node, fallback, ms) && Fresh(ms, e.state.applied)
    && LocalLog.View(e.state.storage, key).None?
  }

  /** Both engines get through their batches and then show the same under the key. */
  ghost predicate Agree(
    fallback: string, key: Key, a: Engine, bs: seq<seq<Mutation>>, b: Engine, cs: seq<seq<Mutation>>)
  {
    var ra, rb := RunBatches(a.node, fallback, a.state, bs), RunBatches(b.node, fallback, b.state, cs);
    && ra.Some? && rb.Some?
    && LocalLog.View(ra.value.0.storage, key) == LocalLog.View(rb.value.0.storage, key)
  }

  ghost predicate NoneLive(vs: seq<Document>) {
    forall v | v in vs :: IsDeleted(v)
  }

  /* ---------- a run of batches is one replay ---------- */

  /** What the batches apply, each sorted by itself. */
  function Delivered(bs: seq<seq<Mutation>>): seq<Mutation> {
    if bs == [] then [] else Delivered(bs[..|bs| - 1]) + Sort(CompareMutations, bs[|bs| - 1])
  }

  lemma {:induction false} DeliveredPermutes(bs: seq<seq<Mutation>>)
    ensures multiset(Delivered(bs)) == multiset(Concatenated(bs))
  {
    hide CompareMutations;
    if bs != [] {
      DeliveredPermutes(bs[..|bs| - 1]);
      SortMultiset(CompareMutations, bs[|bs| - 1]);
    }
  }

  lemma {:induction false} RunIsReplay(node: string, fallback: string, st: EngineState, bs: seq<seq<Mutation>>)
    ensures var run, out := RunBatches(node, fallback, st, bs), Replay(node, fallback, st, Delivered(bs));
            && (run.Some? <==> out.result.Success?)
            && (run.Some? ==> run.value == (out.state, out.result.value))
  {
    hide CompareMutations, Replay;
    if bs == [] {
      ReplayNothing(node, fallback, st);
    } else {
      var init, sorted := bs[..|bs| - 1], Sort(CompareMutations, bs[|bs| - 1]);
      RunIsReplay(node, fallback, st, init);
      ReplayAppend(node, fallback, st, Delivered(init), sorted);
    }
  }

  /** One mutation a batch. */
  function Singles(ms: seq<Mutation>): seq<seq<Mutation>> {
    if ms == [] then [] else Singles(ms[..|ms| - 1]) + [[ms[|ms| - 1]]]
  }

  lemma {:induction false} SinglesDeliver(ms: seq<Mutation>)
    ensures Delivered(Singles(ms)) == ms && Concatenated(Singles(ms)) == ms
  {
    hide CompareMutations;
    if ms != [] {
      var init, last := ms[..|ms| - 1], ms[|ms| - 1];
      SinglesDeliver(init);
      assert Singles(ms)[..|Singles(ms)| - 1] == Singles(init);
      assert Sort(CompareMutations, []) == [];
      assert Sort(CompareMutations, [last]) == [last];
    }
  }

  /* ---------- repeated mutations ---------- */

  /** The mutations without those whose id has been seen. */
  function Once(seen: set<string>, ms: seq<Mutation>): seq<Mutation>
    decreases ms
  {
    if ms == [] then []
    else if ms[0].writeId == "" then [ms[0]] + Once(seen, ms[1..])
    else if ms[0].writeId in seen then Once(seen, ms[1..])
    else [ms[0]] + Once(seen + {ms[0].writeId}, ms[1..])
  }

  lemma {:induction false} ReplayOnce(node: string, fallback: string, st: EngineState, ms: seq<Mutation>)
    requires AllApplicable(node, fallback, ms)
    ensures var all, once := Replay(node, fallback, st, ms), Replay(node, fallback, st, Once(st.applied, ms));
            all.state == once.state && all.result == once.result
    decreases ms
  {
    hide ApplyRemote, VersionOf, ValidMetadata;
    if ms != [] {
      var m, rest := ms[0], ms[1..];
      match ReplayOne(node, fallback, st, m)
      case Refused(_, _) =>
      case Duplicate =>
        ReplayOnce(node, fallback, st, rest);
      case Applied(after) =>
        ReplayOnce(node, fallback, after, rest);
        assert Once(st.applied, ms)[1..] == Once(after.applied, rest);
    }
  }

  /** An id names one mutation. */
  ghost predicate IdsName(ms: seq<Mutation>) {
    forall a, b | a in ms && b in ms && a.writeId == b.writeId && a.writeId != "" :: a == b
  }

  lemma {:induction false} OnceOccurs(seen: set<string>, ms: seq<Mutation>, m: Mutation)
    requires IdsName(ms)
    ensures multiset(Once(seen, ms))[m] ==
            if m.writeId == "" then multiset(ms)[m] else if m in ms && m.writeId !in seen then 1 else 0
    decreases ms
  {
    if ms != [] {
      var first, rest := ms[0], ms[1..];
      assert ms == [first] + rest;
      if first.writeId == "" || first.writeId in seen {
        OnceOccurs(seen, rest, m);
      } else {
        OnceOccurs(seen + {first.writeId}, rest, m);
      }
    }
  }

  lemma {:induction false} IdsOccur(ms: seq<Mutation>, m: Mutation)
    requires m.writeId != ""
    ensures multiset(ms)[m] <= Ids(ms)[m.writeId]
  {
    if ms != [] {
      assert ms == [ms[0]] + ms[1..];
      IdsOccur(ms[1..], m);
    }
  }

  lemma {:induction false} TwoOfOneId(ms: seq<Mutation>, a: Mutation, b: Mutation)
    requires a in ms && b in ms && a != b && a.writeId == b.writeId != ""
    ensures Ids(ms)[a.writeId] >= 2
  {
    if a in ms[1..] && b in ms[1..] {
      TwoOfOneId(ms[1..], a, b);
    } else {
      IdsOccur(ms[1..], if a == ms[0] then b else a);
    }
  }

  /** Whatever was delivered more than once, what gets applied is each of the mutations once. */
  lemma OnceDelivers(seen: set<string>, ns: seq<Mutation>, ms: seq<Mutation>)
    requires Delivers(ns, ms) && Fresh(ms, seen)
    ensures multiset(Once(seen, ns)) == multiset(ms)
  {
    hide Ids, Once;
    forall a, b | a in ns && b in ns && a.writeId == b.writeId && a.writeId != "" ensures a == b {
      IdsOccur(ms, a);
      assert a in multiset(ms) && a.writeId in Ids(ms);
      if a != b {
        TwoOfOneId(ms, a, b);
      }
    }
    forall m: Mutation ensures multiset(Once(seen, ns))[m] == multiset(ms)[m] {
      OnceOccurs(seen, ns, m);
      if m.writeId != "" {
        IdsOccur(ms, m);
        if m in ms {
          assert m in multiset(ms);
          assert m.writeId in Ids(ms);
        }
      }
    }
  }

  /** After any such batches the engine shows the mutations' versions, merged in some order. */
  lemma RunShows(e: Engine, fallback: string, key: Key, ms: seq<Mutation>, bs: seq<seq<Mutation>>)
    returns (ns: seq<Mutation>)
    requires Ready(e, fallback, key, ms) && Delivers(Concatenated(bs), ms)
    ensures multiset(ns) == multiset(ms)
    ensures var run := RunBatches(e.node, fallback, e.state, bs);
            && run.Some?
            && LocalLog.View(run.value.0.storage, key) ==
               LocalLog.ViewOf(MergeAll(None, VersionsFor(e.node, fallback, key, ns)))
  {
    hide ValidMetadata, KeyOf, Ids, Fresh, Replay, RunBatches, Once, MergeAll, IsDeleted, Bare;
    var all := Delivered(bs);
    DeliveredPermutes(bs);
    SameElements(all, Concatenated(bs));
    ns := Once(e.state.applied, all);
    OnceDelivers(e.state.applied, all, ms);
    SameElements(ns, ms);
    FreshPermutes(ns, ms, e.state.applied);
    RunIsReplay(e.node, fallback, e.state, bs);
    ReplayOnce(e.node, fallback, e.state, all);
    ReplayMerges(e.node, fallback, e.state, ns);
    StartShowsNothing(Lookup(e.state.storage, key), VersionsFor(e.node, fallback, key, ns));
  }

  lemma FreshPermutes(ns: seq<Mutation>, ms: seq<Mutation>, applied: set<string>)
    requires multiset(ns) == multiset(ms) && Fresh(ms, applied)
    ensures Fresh(ns, applied)
  {
    IdsPermute(ns, ms);
  }

  lemma StartShowsNothing(start: Option<Document>, vs: seq<Document>)
    requires LocalLog.ViewOf(start).None?
    ensures LocalLog.ViewOf(MergeAll(start, vs)) == LocalLog.ViewOf(MergeAll(None, vs))
  {
    hide IsDeleted, Bare, MergeVersion;
    if start.Some? && vs != [] {
      TombstoneForgotten(start.value, vs);
    }
  }

  /* ---------- tombstones made on different nodes ---------- */

  /** Alike but for what a tombstone says besides its revision: live ones show the same. */
  ghost predicate Alike(v: Document, w: Document) {
    ReadingOf(v) == ReadingOf(w) && IsDeleted(v) == IsDeleted(w) && (!IsDeleted(v) ==> Bare(v) == Bare(w))
  }

  ghost predicate AllAlike(vs: seq<Document>, ws: seq<Document>) {
    |vs| == |ws| && forall i | 0 <= i < |vs| :: Alike(vs[i], ws[i])
  }

  lemma AlikeMerge(c: Document, d: Document, v: Document, w: Document)
    requires Alike(c, d) && Alike(v, w)
    ensures Alike(MergeVersion(Some(c), v), MergeVersion(Some(d), w))
  {
    hide ReadingOf, IsDeleted, Bare, AddConflict;
    AddConflictKeeps(c, v);
    AddConflictKeeps(d, w);
    AddConflictKeeps(v, c);
    AddConflictKeeps(w, d);
  }

  lemma {:induction false} AlikeRuns(vs: seq<Document>, ws: seq<Document>)
    requires AllAlike(vs, ws)
    ensures vs == [] <==> MergeAll(None, vs).None?
    ensures vs == [] <==> MergeAll(None, ws).None?
    ensures vs != [] ==> Alike(MergeAll(None, vs).value, MergeAll(None, ws).value)
  {
    hide Alike, MergeVersion;
    if |vs| == 1 {
      MergeFirst(vs[0]);
      MergeFirst(ws[0]);
      assert vs[..0] == ws[..0] == [];
    } else if vs != [] {
      var n := |vs| - 1;
      AlikeRuns(vs[..n], ws[..n]);
      AlikeMerge(MergeAll(None, vs[..n]).value, MergeAll(None, ws[..n]).value, vs[n], ws[n]);
    }
  }

  lemma AlikeVersions(node: string, other: string, fallback: string, m: Mutation)
    ensures Alike(VersionOf(node, m), VersionOf(other, m))
    ensures KeyOf(node, fallback, m) == KeyOf(other, fallback, m)
  {
    hide Revisions.Valid, Revisions.Parse;
  }

  /** The node an engine runs on does not show. */
  lemma {:induction false} NodeDoesNotShow(node: string, other: string, fallback: string, key: Key, ms: seq<Mutation>)
    ensures AllAlike(VersionsFor(node, fallback, key, ms), VersionsFor(other, fallback, key, ms))
    ensures LocalLog.ViewOf(MergeAll(None, VersionsFor(node, fallback, key, ms))) ==
            LocalLog.ViewOf(MergeAll(None, VersionsFor(other, fallback, key, ms)))
  {
    hide Alike, VersionOf, KeyOf, MergeAll, IsDeleted, Bare;
    if ms != [] {
      NodeDoesNotShow(node, other, fallback, key, ms[1..]);
      AlikeVersions(node, other, fallback, ms[0]);
    }
    var vs, ws := VersionsFor(node, fallback, key, ms), VersionsFor(other, fallback, key, ms);
    AlikeRuns(vs, ws);
    if vs != [] {
      AlikeShow(MergeAll(None, vs).value, MergeAll(None, ws).value);
    }
  }

  lemma AlikeShow(c: Document, d: Document)
    requires Alike(c, d)
    ensures LocalLog.ViewOf(Some(c)) == LocalLog.ViewOf(Some(d))
  {
    hide ReadingOf;
  }

  /* ---------- which orders show the same ---------- */

  lemma ShownAs(d: Option<Document>, v: Document)
    requires BareOf(d) == Some(Bare(v))
    ensures LocalLog.ViewOf(d) == if IsDeleted(v) then None else Some(Bare(v))
  {
    hide IsDeleted, Bare;
    BareKeeps(d.value, v);
  }

  lemma OneView(vs: seq<Document>, ws: seq<Document>)
    requires multiset(vs) == multiset(ws) && (NoneLive(vs) || OneLiveMaximum(vs))
    ensures LocalLog.ViewOf(MergeAll(None, vs)) == LocalLog.ViewOf(MergeAll(None, ws))
  {
    hide ReadingOf, IsDeleted, Bare, IsMaximum, MergeAll;
    PermutationKeeps(vs, ws);
    PermutationKeeps(ws, vs);
    Sequences.SameSize(vs, ws);
    if OneLiveMaximum(vs) {
      var m :| m in vs && LiveMaximum(m, vs) && Unrivalled(m, vs);
      LiveMaximumStays(m, vs);
      LiveMaximumStays(m, ws);
      ShownAs(MergeAll(None, vs), m);
      ShownAs(MergeAll(None, ws), m);
    } else if vs != [] {
      var v := CurrentWasApplied(vs);
      var w := CurrentWasApplied(ws);
      ShownAs(MergeAll(None, vs), v);
      ShownAs(MergeAll(None, ws), w);
    } else {
      assert ws == [];
    }
  }

  lemma TwoViews(vs: seq<Document>) returns (us: seq<Document>, ws: seq<Document>)
    requires !NoneLive(vs) && !OneLiveMaximum(vs)
    ensures multiset(us) == multiset(vs) == multiset(ws)
    ensures LocalLog.ViewOf(MergeAll(None, us)) != LocalLog.ViewOf(MergeAll(None, ws))
  {
    hide ReadingOf, IsDeleted, Bare, IsMaximum, MergeAll;
    if HasLiveMaximum(vs) {
      var m :| m in vs && LiveMaximum(m, vs);
      var n :| LiveMaximum(n, vs) && Bare(n) != Bare(m);
      us := MaximumFirst(m, vs);
      ws := MaximumFirst(n, vs);
      ShownAs(MergeAll(None, us), m);
      ShownAs(MergeAll(None, ws), n);
    } else {
      var v :| v in vs && !IsDeleted(v);
      var t := MaximumExists(vs);
      MaximumOccurs(t, vs);
      if Bare(v) == Bare(t) {
        BareKeeps(v, t);
      }
      assert Bare(v) != Bare(t);
      us, ws := DeadLastOrNot(t, v, vs);
      ShownAs(MergeAll(None, us), t);
      ShownAs(MergeAll(None, ws), v);
    }
  }

  /* ---------- arranging mutations ---------- */

  lemma {:induction false} VersionComesFrom(node: string, fallback: string, key: Key, ms: seq<Mutation>, v: Document)
    returns (i: nat)
    requires v in VersionsFor(node, fallback, key, ms)
    ensures i < |ms| && KeyOf(node, fallback, ms[i]) == Some(key) && VersionOf(node, ms[i]) == v
  {
    hide VersionOf, KeyOf;
    if KeyOf(node, fallback, ms[0]) == Some(key) && VersionOf(node, ms[0]) == v {
      i := 0;
    } else {
      var j := VersionComesFrom(node, fallback, key, ms[1..], v);
      i := j + 1;
    }
  }

  /** Any order of a key's versions is that of some order of the mutations. */
  lemma {:induction false} Arranged(
    node: string, fallback: string, key: Key, ms: seq<Mutation>, us: seq<Document>) returns (ns: seq<Mutation>)
    requires multiset(us) == multiset(VersionsFor(node, fallback, key, ms))
    ensures multiset(ns) == multiset(ms) && VersionsFor(node, fallback, key, ns) == us
    decreases us
  {
    hide VersionOf, KeyOf, VersionsFor;
    if us == [] {
      Sequences.SameSize(us, VersionsFor(node, fallback, key, ms));
      ns := ms;
    } else {
      var m, rest := TakeOut(node, fallback, key, ms, us);
      var tail := Arranged(node, fallback, key, rest, us[1..]);
      ns := [m] + tail;
      Sequences.SplitFirst(us);
      PutBack(node, fallback, key, m, tail);
    }
  }

  /** The mutation that brings the first of these versions, and the others. */
  lemma TakeOut(node: string, fallback: string, key: Key, ms: seq<Mutation>, us: seq<Document>)
    returns (m: Mutation, rest: seq<Mutation>)
    requires us != [] && multiset(us) == multiset(VersionsFor(node, fallback, key, ms))
    ensures KeyOf(node, fallback, m) == Some(key) && VersionOf(node, m) == us[0]
    ensures multiset(ms) == multiset{m} + multiset(rest)
    ensures multiset(us[1..]) == multiset(VersionsFor(node, fallback, key, rest))
  {
    hide *;
    assert us[0] in multiset(us);
    assert us[0] in VersionsFor(node, fallback, key, ms) by {
      assert us[0] in multiset(VersionsFor(node, fallback, key, ms));
    }
    var i := VersionComesFrom(node, fallback, key, ms, us[0]);
    m, rest := ms[i], ms[..i] + ms[i + 1..];
    Without(node, fallback, key, ms, i);
    Sequences.SplitFirst(us);
  }

  lemma Without(node: string, fallback: string, key: Key, ms: seq<Mutation>, i: nat)
    requires i < |ms| && KeyOf(node, fallback, ms[i]) == Some(key)
    ensures var rest := ms[..i] + ms[i + 1..];
            && multiset(ms) == multiset{ms[i]} + multiset(rest)
            && multiset(VersionsFor(node, fallback, key, rest)) ==
               multiset(VersionsFor(node, fallback, key, ms)) - multiset{VersionOf(node, ms[i])}
  {
    hide *;
    Sequences.SplitAt(ms, i);
    LocalLog.VersionsInsert(node, fallback, key, ms[..i], ms[i], ms[i + 1..]);
    assert ms[i] in multiset(ms);
  }

  lemma PutBack(node: string, fallback: string, key: Key, m: Mutation, tail: seq<Mutation>)
    requires KeyOf(node, fallback, m) == Some(key)
    ensures VersionsFor(node, fallback, key, [m] + tail) ==
            [VersionOf(node, m)] + VersionsFor(node, fallback, key, tail)
    ensures multiset([m] + tail) == multiset{m} + multiset(tail)
  {
    hide VersionOf, KeyOf;
    assert ([m] + tail)[1..] == tail;
  }

  /* ---------- the theorem ---------- */

  /**
   Two engines that have not seen the mutations and show nothing under the key show the same after
   receiving them, however the mutations are batched, ordered and repeated for each, exactly when
   none of the key's versions is live, or the greatest revision belongs to a live version and to
   no live one of other content.
   */
  lemma EnginesAgreeIff(fallback: string, key: Key, a: Engine, b: Engine, ms: seq<Mutation>)
    requires Ready(a, fallback, key, ms) && Ready(b, fallback, key, ms)
    ensures var vs := VersionsFor(a.node, fallback, key, ms);
            (forall bs, cs | Delivers(Concatenated(bs), ms) && Delivers(Concatenated(cs), ms) ::
               Agree(fallback, key, a, bs, b, cs)) <==> NoneLive(vs) || OneLiveMaximum(vs)
  {
    hide *;
    var vs := VersionsFor(a.node, fallback, key, ms);
    if NoneLive(vs) || OneLiveMaximum(vs) {
      forall bs, cs | Delivers(Concatenated(bs), ms) && Delivers(Concatenated(cs), ms)
        ensures Agree(fallback, key, a, bs, b, cs)
      {
        EnginesAgree(fallback, key, a, b, ms, bs, cs);
      }
    } else {
      var us, ws := TwoViews(vs);
      var ns := Arranged(a.node, fallback, key, ms, us);
      var os := Arranged(a.node, fallback, key, ms, ws);
      SinglesShow(fallback, key, a, ms, ns);
      SinglesShow(fallback, key, a, ms, os);
      SinglesShow(fallback, key, b, ms, ms);
      if Agree(fallback, key, a, Singles(ns), b, Singles(ms)) && Agree(fallback, key, a, Singles(os), b, Singles(ms)) {
        NotBoth(fallback, key, a, Singles(ns), Singles(os), b, Singles(ms));
      }
    }
  }

  lemma EnginesAgree(
    fallback: string, key: Key, a: Engine, b: Engine, ms: seq<Mutation>,
    bs: seq<seq<Mutation>>, cs: seq<seq<Mutation>>)
    requires Ready(a, fallback, key, ms) && Ready(b, fallback, key, ms)
    requires var vs := VersionsFor(a.node, fallback, key, ms); NoneLive(vs) || OneLiveMaximum(vs)
    requires Delivers(Concatenated(bs), ms) && Delivers(Concatenated(cs), ms)
    ensures Agree(fallback, key, a, bs, b, cs)
  {
    hide Ready, Delivers, VersionsFor, NoneLive, OneLiveMaximum, RunBatches, MergeAll, LocalLog.ViewOf;
    var ns := RunShows(a, fallback, key, ms, bs);
    var os := RunShows(b, fallback, key, ms, cs);
    NodeDoesNotShow(b.node, a.node, fallback, key, os);
    LocalLog.VersionsPermute(a.node, fallback, key, ns, ms);
    LocalLog.VersionsPermute(a.node, fallback, key, os, ms);
    OneView(VersionsFor(a.node, fallback, key, ms), VersionsFor(a.node, fallback, key, ns));
    OneView(VersionsFor(a.node, fallback, key, ms), VersionsFor(a.node, fallback, key, os));
  }

  lemma SinglesShow(fallback: string, key: Key, e: Engine, ms: seq<Mutation>, ns: seq<Mutation>)
    requires Ready(e, fallback, key, ms) && multiset(ns) == multiset(ms)
    ensures Delivers(Concatenated(Singles(ns)), ms)
    ensures var run := RunBatches(e.node, fallback, e.state, Singles(ns));
            && run.Some?
            && LocalLog.View(run.value.0.storage, key) ==
               LocalLog.ViewOf(MergeAll(None, VersionsFor(e.node, fallback, key, ns)))
  {
    hide ValidMetadata, KeyOf, Ids, Fresh, Replay, RunBatches, Once, MergeAll, IsDeleted, Bare, Singles;
    SinglesDeliver(ns);
    SameElements(ns, ms);
    FreshPermutes(ns, ms, e.state.applied);
    RunIsReplay(e.node, fallback, e.state, Singles(ns));
    ReplayMerges(e.node, fallback, e.state, ns);
    StartShowsNothing(Lookup(e.state.storage, key), VersionsFor(e.node, fallback, key, ns));
  }

  lemma NotBoth(
    fallback: string, key: Key, a: Engine, bs: seq<seq<Mutation>>, ds: seq<seq<Mutation>>,
    b: Engine, cs: seq<seq<Mutation>>)
    requires Agree(fallback, key, a, bs, b, cs) && Agree(fallback, key, a, ds, b, cs)
    ensures var x, y := RunBatches(a.node, fallback, a.state, bs), RunBatches(a.node, fallback, a.state, ds);
            x.Some? && y.Some? && LocalLog.View(x.value.0.storage, key) == LocalLog.View(y.value.0.storage, key)
  {}
}
