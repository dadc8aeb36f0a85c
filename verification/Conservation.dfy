/**
 What merging keeps. The versions held by a document are its own bare content and,
 recursively, those of every document in its `_conflicts` list.
 */
module Conservation {
  import opened Wrappers
  import opened Orders
  import opened Documents
  import opened Merge
  import Revisions
  import Sequences

  ghost function Versions(b: Bson): multiset<Document>
    decreases b, 0
  {
    match b
    case Document(d) =>
      multiset{Bare(d)} +
      (if CONFLICTS in d && d[CONFLICTS].Array? then
         assert d[CONFLICTS] < b;
         VersionsOf(d[CONFLICTS].items)
       else multiset{})
    case _ => multiset{}
  }

  ghost function VersionsOf(bs: seq<Bson>): multiset<Document>
    decreases bs, 1
  {
    if bs == [] then multiset{} else Versions(bs[0]) + VersionsOf(bs[1..])
  }

  /** A document whose conflicts, if any, are a list of such documents: what merging builds. */
  ghost predicate Tree(b: Bson)
    decreases b, 0
  {
    b.Document? &&
    (CONFLICTS in b.fields ==>
       assert b.fields[CONFLICTS] < b;
       b.fields[CONFLICTS].Array? && Forest(b.fields[CONFLICTS].items))
  }

  ghost predicate Forest(bs: seq<Bson>)
    decreases bs, 1
  {
    bs == [] || (Tree(bs[0]) && Forest(bs[1..]))
  }

  /** No list at any nesting level is longer than ten. */
  ghost predicate Bounded(b: Bson)
    decreases b, 0
  {
    b.Document? && CONFLICTS in b.fields && b.fields[CONFLICTS].Array? ==>
      assert b.fields[CONFLICTS] < b;
      |b.fields[CONFLICTS].items| <= MAX_CONFLICTS && AllBounded(b.fields[CONFLICTS].items)
  }

  ghost predicate AllBounded(bs: seq<Bson>)
    decreases bs, 1
  {
    bs == [] || (Bounded(bs[0]) && AllBounded(bs[1..]))
  }

  ghost function Held(d: Document): multiset<Document> {
    Versions(Bson.Document(d))
  }

  ghost predicate IsTree(d: Document) {
    Tree(Bson.Document(d))
  }

  /** All the versions a run of documents brings along. */
  ghost function Applied(vs: seq<Document>): multiset<Document> {
    if vs == [] then multiset{} else Applied(vs[..|vs| - 1]) + Held(vs[|vs| - 1])
  }

  function Winner(current: Document, incoming: Document): Document {
    if CompareRevisions(incoming, current) == Greater then incoming else current
  }

  function Loser(current: Document, incoming: Document): Document {
    if CompareRevisions(incoming, current) == Greater then current else incoming
  }

  /* ---------- lists ---------- */

  lemma {:induction false} VersionsOfAppend(xs: seq<Bson>, ys: seq<Bson>)
    ensures VersionsOf(xs + ys) == VersionsOf(xs) + VersionsOf(ys)
    ensures Forest(xs + ys) <==> Forest(xs) && Forest(ys)
    ensures AllBounded(xs + ys) <==> AllBounded(xs) && AllBounded(ys)
  {
    if xs == [] {
      assert xs + ys == ys;
    } else {
      assert (xs + ys)[1..] == xs[1..] + ys;
      VersionsOfAppend(xs[1..], ys);
    }
  }

  /** A list of documents holds at least one version for each. */
  lemma {:induction false} ForestSize(bs: seq<Bson>)
    requires Forest(bs)
    ensures |VersionsOf(bs)| >= |bs|
  {
    if bs != [] {
      ForestSize(bs[1..]);
    }
  }

  lemma HeldSize(d: Document)
    requires IsTree(d)
    ensures |Held(d)| >= 1 + |ConflictList(d)|
  {
    ForestSize(ConflictList(d));
  }

  /** Cutting a list to ten keeps all of it or strictly less. */
  lemma LastTenHolds(list: seq<Bson>)
    ensures Forest(list) ==> Forest(LastTen(list))
    ensures AllBounded(list) ==> AllBounded(LastTen(list))
    ensures |list| <= MAX_CONFLICTS ==> VersionsOf(LastTen(list)) == VersionsOf(list)
    ensures |list| > MAX_CONFLICTS && Forest(list) ==> |VersionsOf(LastTen(list))| < |VersionsOf(list)|
  {
    if |list| > MAX_CONFLICTS {
      var cut := |list| - MAX_CONFLICTS;
      assert list == list[..cut] + list[cut..];
      VersionsOfAppend(list[..cut], list[cut..]);
      if Forest(list) {
        ForestSize(list[..cut]);
      }
    }
  }

  lemma OneVersion(d: Document)
    ensures VersionsOf([Bson.Document(d)]) == Held(d)
    ensures Forest([Bson.Document(d)]) <==> IsTree(d)
    ensures AllBounded([Bson.Document(d)]) <==> Bounded(Bson.Document(d))
  {
    assert [Bson.Document(d)][1..] == [];
    assert VersionsOf([]) == multiset{};
  }

  lemma HeldParts(d: Document)
    ensures Held(d) == multiset{Bare(d)} + VersionsOf(ConflictList(d))
    ensures IsTree(d) <==> (CONFLICTS in d ==> d[CONFLICTS].Array?) && Forest(ConflictList(d))
    ensures Bounded(Bson.Document(d)) <==> |ConflictList(d)| <= MAX_CONFLICTS && AllBounded(ConflictList(d))
  {}

  /* ---------- what one merge loses ---------- */

  /** `add_conflict` writes into this document: its conflicts are a list, or there are none yet. */
  predicate Receives(d: Document) {
    CONFLICTS in d ==> d[CONFLICTS].Array?
  }

  /** The oldest entries, which give way to the loser in a list of ten. */
  function Dropped(loser: Document, winner: Document): seq<Bson> {
    var list := ConflictList(winner) + [Bson.Document(loser)];
    if |list| > MAX_CONFLICTS then list[..|list| - MAX_CONFLICTS] else []
  }

  /** What is gone once the loser has been added to the winner's conflicts. */
  ghost function LostTo(loser: Document, winner: Document): multiset<Document> {
    if Receives(winner) then VersionsOf(Dropped(loser, winner)) else Held(loser)
  }

  /** What is gone after a merge: a tombstone that was there, an incoming version that ties, or what `LostTo` says. */
  ghost function LostBy(current: Option<Document>, incoming: Document): multiset<Document> {
    if current.None? then multiset{}
    else if IsDeleted(current.value) then Held(current.value)
    else
      match CompareRevisions(incoming, current.value)
      case Greater => LostTo(current.value, incoming)
      case Less => LostTo(incoming, current.value)
      case Equal => Held(incoming)
  }

  ghost function HeldBy(current: Option<Document>): multiset<Document> {
    if current.None? then multiset{} else Held(current.value)
  }

  lemma AddConflictAccounts(loser: Document, winner: Document)
    ensures Held(AddConflict(loser, winner)) + LostTo(loser, winner) == Held(winner) + Held(loser)
  {
    hide Held, Bare, VersionsOf, Versions, IsDeleted, ReadingOf;
    var list := ConflictList(winner) + [Bson.Document(loser)];
    HeldParts(winner);
    HeldParts(AddConflict(loser, winner));
    AddConflictKeeps(loser, winner);
    OneVersion(loser);
    VersionsOfAppend(ConflictList(winner), [Bson.Document(loser)]);
    if Receives(winner) {
      assert ConflictList(AddConflict(loser, winner)) == LastTen(list);
      assert list == Dropped(loser, winner) + LastTen(list);
      VersionsOfAppend(Dropped(loser, winner), LastTen(list));
      assert VersionsOf(list) == VersionsOf(ConflictList(winner)) + Held(loser);
      var dropped, kept := VersionsOf(Dropped(loser, winner)), VersionsOf(LastTen(list));
      assert VersionsOf(list) == dropped + kept;
      assert Held(AddConflict(loser, winner)) == multiset{Bare(winner)} + kept;
      assert (multiset{Bare(winner)} + kept) + dropped == multiset{Bare(winner)} + (dropped + kept);
    }
  }

  /** Every merge accounts for every version: what is held after it and what it lost are what was held and what came. */
  lemma MergeAccounts(current: Option<Document>, incoming: Document)
    ensures Held(MergeVersion(current, incoming)) + LostBy(current, incoming) == HeldBy(current) + Held(incoming)
  {
    hide ReadingOf, AddConflict, IsDeleted, Held, LostTo;
    if current.Some? {
      AddConflictAccounts(current.value, incoming);
      AddConflictAccounts(incoming, current.value);
    }
  }

  lemma HoldsItself(d: Document)
    ensures Bare(d) in Held(d)
  {
    hide Bare;
  }

  /**
   A merge of two live versions conserves what both held exactly when the winner's conflicts are
   a list, or not there, and no version is among the entries that the list gives up.
   */
  lemma MergeConservesIff(current: Document, incoming: Document)
    requires !IsDeleted(current) && ReadingOf(current) != ReadingOf(incoming)
    ensures var winner, loser := Winner(current, incoming), Loser(current, incoming);
            Held(MergeVersion(Some(current), incoming)) == Held(current) + Held(incoming) <==>
            Receives(winner) && VersionsOf(Dropped(loser, winner)) == multiset{}
  {
    hide ReadingOf, AddConflict, IsDeleted, Held, MergeVersion, Dropped;
    Revisions.CompareReadingTotalOrder(ReadingOf(incoming), ReadingOf(current), ReadingOf(current));
    MergeAccounts(Some(current), incoming);
    HoldsItself(Loser(current, incoming));
    NothingMore(Held(MergeVersion(Some(current), incoming)), LostBy(Some(current), incoming));
  }

  lemma NothingMore(held: multiset<Document>, lost: multiset<Document>)
    ensures held == held + lost <==> lost == multiset{}
  {
    assert |held + lost| == |held| + |lost|;
  }

  /** A winner whose conflicts are no list swallows the loser: nothing of it is recorded anywhere. */
  lemma OddWinnerSwallows(current: Document, incoming: Document)
    requires !IsDeleted(current) && ReadingOf(current) != ReadingOf(incoming)
    requires !Receives(Winner(current, incoming))
    ensures MergeVersion(Some(current), incoming) == Winner(current, incoming)
  {
    hide ReadingOf, IsDeleted;
    Revisions.CompareReadingTotalOrder(ReadingOf(incoming), ReadingOf(current), ReadingOf(current));
  }

  /** A full list of documents gives up at least one version. */
  lemma DroppedTrees(loser: Document, winner: Document)
    requires IsTree(loser) && IsTree(winner)
    ensures Receives(winner)
    ensures VersionsOf(Dropped(loser, winner)) == multiset{} <==> |ConflictList(winner)| < MAX_CONFLICTS
    ensures IsTree(AddConflict(loser, winner))
  {
    hide Held, IsTree, Bare, VersionsOf, Forest, Versions, Tree, IsDeleted, ReadingOf;
    var list := ConflictList(winner) + [Bson.Document(loser)];
    HeldParts(winner);
    HeldParts(AddConflict(loser, winner));
    OneVersion(loser);
    NoVersion();
    VersionsOfAppend(ConflictList(winner), [Bson.Document(loser)]);
    LastTenHolds(list);
    assert ConflictList(AddConflict(loser, winner)) == LastTen(list);
    if |list| > MAX_CONFLICTS {
      var dropped := Dropped(loser, winner);
      assert list == dropped + LastTen(list);
      VersionsOfAppend(dropped, LastTen(list));
      ForestSize(dropped);
    }
  }

  lemma NoVersion()
    ensures VersionsOf([]) == multiset{}
  {}

  /** For the documents merging itself builds: exactly when the winner's list has room. */
  lemma TreesConserveIff(current: Document, incoming: Document)
    requires !IsDeleted(current) && IsTree(current) && IsTree(incoming)
    requires ReadingOf(current) != ReadingOf(incoming)
    ensures var merged, room := MergeVersion(Some(current), incoming),
                                |ConflictList(Winner(current, incoming))| < MAX_CONFLICTS;
            && IsTree(merged)
            && (room ==> Held(merged) == Held(current) + Held(incoming))
            && (!room ==> |Held(merged)| < |Held(current)| + |Held(incoming)|)
  {
    hide ReadingOf, AddConflict, IsDeleted, Held, IsTree, Dropped, VersionsOf;
    Revisions.CompareReadingTotalOrder(ReadingOf(incoming), ReadingOf(current), ReadingOf(current));
    DroppedTrees(current, incoming);
    DroppedTrees(incoming, current);
    MergeAccounts(Some(current), incoming);
    MergeConservesIff(current, incoming);
    var merged, lost := MergeVersion(Some(current), incoming), LostBy(Some(current), incoming);
    assert |Held(merged) + lost| == |Held(merged)| + |lost|;
    NothingMore(Held(merged), lost);
  }

  /** The bound of ten survives every merge, whatever the revisions, tombstones included. */
  lemma MergeStaysBounded(current: Option<Document>, incoming: Document)
    requires current.Some? ==> Bounded(Bson.Document(current.value))
    requires Bounded(Bson.Document(incoming))
    ensures Bounded(Bson.Document(MergeVersion(current, incoming)))
  {
    hide CompareRevisions, Revisions.Valid, Revisions.Parse;
    if current.Some? {
      AddConflictBounded(current.value, incoming);
      AddConflictBounded(incoming, current.value);
    }
  }

  lemma AddConflictBounded(loser: Document, winner: Document)
    requires Bounded(Bson.Document(loser)) && Bounded(Bson.Document(winner))
    ensures Bounded(Bson.Document(AddConflict(loser, winner)))
  {
    hide AllBounded, Bounded;
    var list := ConflictList(winner) + [Bson.Document(loser)];
    HeldParts(winner);
    HeldParts(AddConflict(loser, winner));
    OneVersion(loser);
    VersionsOfAppend(ConflictList(winner), [Bson.Document(loser)]);
    LastTenHolds(list);
    if !(CONFLICTS in winner && !winner[CONFLICTS].Array?) {
      assert ConflictList(AddConflict(loser, winner)) == LastTen(list);
    }
  }

  /* ---------- whole runs ---------- */

  /** What the merges of a run lost between them. */
  ghost function RunLost(vs: seq<Document>): multiset<Document> {
    if vs == [] then multiset{}
    else RunLost(vs[..|vs| - 1]) + LostBy(MergeAll(None, vs[..|vs| - 1]), vs[|vs| - 1])
  }

  /** Every run accounts for every version: nothing is lost but what some merge lost. */
  lemma {:induction false} RunAccounts(vs: seq<Document>)
    ensures HeldBy(MergeAll(None, vs)) + RunLost(vs) == Applied(vs)
  {
    hide Held, LostBy, MergeVersion;
    if vs != [] {
      var init, last := vs[..|vs| - 1], vs[|vs| - 1];
      var before, merged := MergeAll(None, init), MergeVersion(MergeAll(None, init), last);
      RunAccounts(init);
      MergeAccounts(before, last);
      assert MergeAll(None, vs) == Some(merged);
      assert Held(merged) + LostBy(before, last) == HeldBy(before) + Held(last);
      assert Held(merged) + (RunLost(init) + LostBy(before, last))
             == (Held(merged) + LostBy(before, last)) + RunLost(init);
      assert (HeldBy(before) + Held(last)) + RunLost(init) == (HeldBy(before) + RunLost(init)) + Held(last);
    }
  }

  /** The merge loses nothing: a guard on the two documents alone. */
  ghost predicate MergesInFull(current: Option<Document>, incoming: Document) {
    current.Some? ==>
      && !IsDeleted(current.value) && ReadingOf(current.value) != ReadingOf(incoming)
      && Receives(Winner(current.value, incoming))
      && VersionsOf(Dropped(Loser(current.value, incoming), Winner(current.value, incoming))) == multiset{}
  }

  lemma MergesInFullIff(current: Option<Document>, incoming: Document)
    ensures LostBy(current, incoming) == multiset{} <==> MergesInFull(current, incoming)
  {
    hide ReadingOf, IsDeleted, Held, VersionsOf, Dropped;
    HoldsItself(incoming);
    if current.Some? {
      HoldsItself(current.value);
      Revisions.CompareReadingTotalOrder(ReadingOf(incoming), ReadingOf(current.value), ReadingOf(incoming));
    }
  }

  /** Whatever versions a run brings, it holds all of them at its end exactly when each of its merges lost nothing. */
  lemma {:induction false} RunConservesIff(vs: seq<Document>)
    ensures HeldBy(MergeAll(None, vs)) == Applied(vs) <==>
            forall k | 0 <= k < |vs| :: MergesInFull(MergeAll(None, vs[..k]), vs[k])
  {
    hide HeldBy, LostBy, MergesInFull, MergeAll, Applied;
    RunAccounts(vs);
    NothingMore(HeldBy(MergeAll(None, vs)), RunLost(vs));
    RunLosesNothingIff(vs);
  }

  lemma {:induction false} RunLosesNothingIff(vs: seq<Document>)
    ensures RunLost(vs) == multiset{} <==>
            forall k | 0 <= k < |vs| :: MergesInFull(MergeAll(None, vs[..k]), vs[k])
  {
    hide LostBy, MergesInFull, MergeAll;
    if vs != [] {
      var n := |vs| - 1;
      var init := vs[..n];
      RunLosesNothingIff(init);
      MergesInFullIff(MergeAll(None, init), vs[n]);
      forall k | 0 <= k < n ensures init[..k] == vs[..k] && init[k] == vs[k] {}
      var before, lost := RunLost(init), LostBy(MergeAll(None, init), vs[n]);
      assert RunLost(vs) == before + lost;
      assert |before + lost| == |before| + |lost|;
    }
  }

  ghost predicate LiveTrees(vs: seq<Document>) {
    forall v | v in vs :: !IsDeleted(v) && IsTree(v)
  }

  /** At no step of the run does the receiving list already hold ten entries. */
  ghost predicate NoOverflow(vs: seq<Document>) {
    |vs| <= 1 ||
    var init, last := vs[..|vs| - 1], vs[|vs| - 1];
    NoOverflow(init) && |ConflictList(Winner(MergeAll(None, init).value, last))| < MAX_CONFLICTS
  }

  lemma {:induction false} RunStaysBounded(current: Option<Document>, vs: seq<Document>)
    requires current.Some? ==> Bounded(Bson.Document(current.value))
    requires forall v | v in vs :: Bounded(Bson.Document(v))
    ensures MergeAll(current, vs).Some? ==> Bounded(Bson.Document(MergeAll(current, vs).value))
  {
    if vs != [] {
      var init := vs[..|vs| - 1];
      RunStaysBounded(current, init);
      MergeStaysBounded(MergeAll(current, init), vs[|vs| - 1]);
    }
  }

  /** The current version of a run of live versions is live and its reading is one of theirs. */
  lemma CurrentIsLive(init: seq<Document>, last: Document)
    requires init != [] && DistinctReadings(init + [last]) && forall v | v in init :: !IsDeleted(v)
    ensures !IsDeleted(MergeAll(None, init).value)
    ensures ReadingOf(MergeAll(None, init).value) != ReadingOf(last)
  {
    hide ReadingOf, IsDeleted, Bare, IsTree;
    var v := CurrentWasApplied(init);
    BareKeeps(MergeAll(None, init).value, v);
    var i :| 0 <= i < |init| && init[i] == v;
    assert ReadingOf((init + [last])[i]) != ReadingOf((init + [last])[|init|]);
  }

  /** For live trees: a run loses nothing exactly when no list overflowed on the way. */
  lemma {:induction false} LiveTreesConserveIff(vs: seq<Document>)
    requires vs != [] && DistinctReadings(vs) && LiveTrees(vs)
    ensures IsTree(MergeAll(None, vs).value)
    ensures NoOverflow(vs) ==> Held(MergeAll(None, vs).value) == Applied(vs)
    ensures !NoOverflow(vs) ==> |Held(MergeAll(None, vs).value)| < |Applied(vs)|
  {
    hide ReadingOf, IsDeleted, Held, IsTree, Winner;
    var init, last := vs[..|vs| - 1], vs[|vs| - 1];
    if init == [] {
      assert Applied(vs) == Applied([]) + Held(last) == Held(last);
    } else {
      LiveTreesConserveIff(init);
      assert init + [last] == vs;
      CurrentIsLive(init, last);
      TreesConserveIff(MergeAll(None, init).value, last);
    }
  }

  /** The entries a run brings: each version, and each entry of its conflict list whatever it is. */
  function Weight(vs: seq<Document>): nat {
    if vs == [] then 0 else Weight(vs[..|vs| - 1]) + 1 + |ConflictList(vs[|vs| - 1])|
  }

  /** Live versions into which conflicts can be written. */
  ghost predicate LiveReceivers(vs: seq<Document>) {
    forall v | v in vs :: !IsDeleted(v) && Receives(v)
  }

  /** A run that brings at most eleven entries never fills a list, so it conserves every version. */
  lemma {:induction false} ElevenAreConserved(vs: seq<Document>)
    requires vs != [] && DistinctReadings(vs) && LiveReceivers(vs) && Weight(vs) <= MAX_CONFLICTS + 1
    ensures Held(MergeAll(None, vs).value) == Applied(vs)
    ensures 1 + |ConflictList(MergeAll(None, vs).value)| <= Weight(vs) && Receives(MergeAll(None, vs).value)
  {
    hide ReadingOf, IsDeleted, Held, VersionsOf, ConflictList, Receives;
    var init, last := vs[..|vs| - 1], vs[|vs| - 1];
    if init == [] {
      AppliedOne(last);
      assert vs == [last];
    } else {
      ElevenAreConserved(init);
      assert init + [last] == vs;
      CurrentIsLive(init, last);
      EntriesAdd(MergeAll(None, init).value, last);
    }
  }

  /** Two live versions with at most eleven entries between them merge in full. */
  lemma EntriesAdd(current: Document, incoming: Document)
    requires !IsDeleted(current) && ReadingOf(current) != ReadingOf(incoming)
    requires Receives(current) && Receives(incoming)
    requires 2 + |ConflictList(current)| + |ConflictList(incoming)| <= MAX_CONFLICTS + 1
    ensures var merged := MergeVersion(Some(current), incoming);
            && Held(merged) == Held(current) + Held(incoming) && Receives(merged)
            && |ConflictList(merged)| <= 1 + |ConflictList(current)| + |ConflictList(incoming)|
  {
    hide ReadingOf, IsDeleted, Held, VersionsOf;
    NoVersion();
    MergeConservesIff(current, incoming);
    Revisions.CompareReadingTotalOrder(ReadingOf(incoming), ReadingOf(current), ReadingOf(current));
  }

  /** A tree brings a version with each of its entries, so eleven versions are at most eleven entries. */
  lemma {:induction false} TreesWeigh(vs: seq<Document>)
    requires LiveTrees(vs)
    ensures Weight(vs) <= |Applied(vs)| && LiveReceivers(vs)
  {
    hide IsDeleted, Held, IsTree, ConflictList, Receives;
    if vs != [] {
      var init, last := vs[..|vs| - 1], vs[|vs| - 1];
      assert vs == init + [last];
      TreesWeigh(init);
      HeldSize(last);
      assert |Applied(vs)| == |Applied(init)| + |Held(last)|;
      forall v | v in vs ensures Receives(v) {
        HeldParts(v);
        TreeReceives(v);
      }
    }
  }

  lemma TreeReceives(d: Document)
    requires IsTree(d)
    ensures Receives(d)
  {}

  lemma {:induction false} AppliedAppend(xs: seq<Document>, ys: seq<Document>)
    ensures Applied(xs + ys) == Applied(xs) + Applied(ys)
  {
    hide Held;
    if ys == [] {
      assert xs + ys == xs;
    } else {
      assert (xs + ys)[..|xs + ys| - 1] == xs + ys[..|ys| - 1];
      AppliedAppend(xs, ys[..|ys| - 1]);
    }
  }

  lemma AppliedWithout(ws: seq<Document>, i: nat)
    requires i < |ws|
    ensures Applied(ws) == Applied(ws[..i] + ws[i + 1..]) + Held(ws[i])
  {
    hide Held;
    Sequences.SplitAt(ws, i);
    AppliedAppend(ws[..i], ws[i + 1..]);
    AppliedAppend(ws[..i], [ws[i]] + ws[i + 1..]);
    AppliedAppend([ws[i]], ws[i + 1..]);
    AppliedOne(ws[i]);
  }

  lemma AppliedOne(v: Document)
    ensures Applied([v]) == Held(v)
  {
    hide Held;
    assert [v][..0] == [];
    assert Applied([]) == multiset{};
  }

  lemma {:induction false} AppliedPermutes(vs: seq<Document>, ws: seq<Document>)
    requires multiset(vs) == multiset(ws)
    ensures Applied(vs) == Applied(ws)
  {
    hide Held;
    Sequences.SameSize(vs, ws);
    if vs != [] {
      var i := Sequences.FindLast(vs, ws);
      AppliedWithout(ws, i);
      AppliedPermutes(vs[..|vs| - 1], ws[..i] + ws[i + 1..]);
    }
  }

  /**
   Replicas that receive the same live versions with at most eleven entries, in whatever orders,
   show the same current content and hold the same versions.
   */
  lemma ReplicasAgree(vs: seq<Document>, ws: seq<Document>)
    requires vs != [] && DistinctReadings(vs) && LiveReceivers(vs) && Weight(vs) <= MAX_CONFLICTS + 1
    requires multiset(vs) == multiset(ws)
    ensures ws != []
    ensures BareOf(MergeAll(None, vs)) == BareOf(MergeAll(None, ws))
    ensures Held(MergeAll(None, vs).value) == Held(MergeAll(None, ws).value)
  {
    hide Held, Receives, ReadingOf, IsDeleted, IsMaximum;
    Sequences.SameSize(vs, ws);
    PermutationKeeps(vs, ws);
    var m := MaximumExists(vs);
    MaximumOccurs(m, vs);
    DistinctUnrivalled(m, vs);
    DistinctUnrivalled(m, ws);
    LiveMaximumStays(m, vs);
    LiveMaximumStays(m, ws);
    AppliedPermutes(vs, ws);
    WeightPermutes(vs, ws);
    ElevenAreConserved(vs);
    ElevenAreConserved(ws);
  }

  lemma {:induction false} WeightAppend(xs: seq<Document>, ys: seq<Document>)
    ensures Weight(xs + ys) == Weight(xs) + Weight(ys)
  {
    hide ConflictList;
    if ys == [] {
      assert xs + ys == xs;
    } else {
      assert (xs + ys)[..|xs + ys| - 1] == xs + ys[..|ys| - 1];
      WeightAppend(xs, ys[..|ys| - 1]);
    }
  }

  lemma {:induction false} WeightPermutes(vs: seq<Document>, ws: seq<Document>)
    requires multiset(vs) == multiset(ws)
    ensures Weight(vs) == Weight(ws)
  {
    hide ConflictList;
    Sequences.SameSize(vs, ws);
    if vs != [] {
      var i := Sequences.FindLast(vs, ws);
      Sequences.SplitAt(ws, i);
      WeightPermutes(vs[..|vs| - 1], ws[..i] + ws[i + 1..]);
      WeightAppend(ws[..i], ws[i + 1..]);
      WeightAppend(ws[..i], [ws[i]] + ws[i + 1..]);
      WeightAppend([ws[i]], ws[i + 1..]);
      assert [ws[i]][..0] == [];
      assert Weight([ws[i]]) == 1 + |ConflictList(ws[i])|;
    }
  }

  /* ---------- eleven is the exact bound ---------- */

  function Numbered(n: nat): Document {
    map[REV := String(Revisions.Print(Revisions.Reading(n, 0, "n")))]
  }

  /** Twelve versions, the newest delivered first. */
  function NewestFirst(k: nat): seq<Document>
    requires k <= 12
  {
    seq(k, i requires 0 <= i < k => Numbered(12 - i))
  }

  lemma NumberedReading(n: nat)
    requires n <= 12
    ensures ReadingOf(Numbered(n)) == Revisions.Reading(n, 0, "n")
    ensures !IsDeleted(Numbered(n)) && IsTree(Numbered(n)) && CONFLICTS !in Numbered(n)
    ensures |Held(Numbered(n))| == 1
  {
    hide Revisions.Valid, Revisions.Parse, Revisions.Print;
    Revisions.PrintParse(Revisions.Reading(n, 0, "n"));
    HeldParts(Numbered(n));
    assert VersionsOf([]) == multiset{};
  }

  lemma {:induction false} NewestFirstList(k: nat)
    requires 1 <= k <= 11
    ensures MergeAll(None, NewestFirst(k)).Some?
    ensures var d := MergeAll(None, NewestFirst(k)).value;
            ReadingOf(d).timestamp == 12 && !IsDeleted(d) && |ConflictList(d)| == k - 1
            && (CONFLICTS in d ==> d[CONFLICTS].Array?)
  {
    hide Numbered, ReadingOf, IsDeleted, Held, IsTree;
    var vs := NewestFirst(k);
    assert vs[..k - 1] == NewestFirst(k - 1) && vs[k - 1] == Numbered(13 - k);
    NumberedReading(13 - k);
    if k > 1 {
      NewestFirstList(k - 1);
      var cur := MergeAll(None, NewestFirst(k - 1)).value;
      AddConflictKeeps(vs[k - 1], cur);
    } else {
      assert NewestFirst(0) == [];
    }
  }

  /** Twelve versions delivered newest first lose one. */
  lemma TwelveOverflow()
    ensures DistinctReadings(NewestFirst(12)) && LiveTrees(NewestFirst(12))
    ensures !NoOverflow(NewestFirst(12))
  {
    hide Numbered, ReadingOf, IsDeleted, Held, IsTree, ConflictList, AddConflict;
    var vs := NewestFirst(12);
    forall i | 0 <= i < 12
      ensures ReadingOf(vs[i]).timestamp == 12 - i && !IsDeleted(vs[i]) && IsTree(vs[i])
    {
      NumberedReading(12 - i);
    }
    assert vs[..11] == NewestFirst(11);
    NewestFirstList(11);
    NumberedReading(1);
  }
}
