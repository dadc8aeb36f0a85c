/**
 Last-writer-wins merging of one document's versions. The losers of every merge are
 kept, each with the losers it carried itself, in a nested list of at most ten.
 */
module Merge {
  import opened Wrappers
  import opened Orders
  import opened Documents
  import Revisions
  import Sequences

  const MAX_CONFLICTS: nat := 10

  function LastTen(items: seq<Bson>): seq<Bson> {
    if |items| > MAX_CONFLICTS then items[|items| - MAX_CONFLICTS..] else items
  }

  /** `add_conflict`: a `_conflicts` field that is not an array is left alone. */
  function AddConflict(loser: Document, winner: Document): Document {
    if CONFLICTS in winner && !winner[CONFLICTS].Array? then winner
    else winner[CONFLICTS := Array(LastTen(ConflictList(winner) + [Bson.Document(loser)]))]
  }

  /** What `apply_remote_mutation` leaves under the document's key. */
  function MergeVersion(current: Option<Document>, incoming: Document): Document {
    if current.None? || IsDeleted(current.value) then incoming
    else
      match CompareRevisions(incoming, current.value)
      case Greater => AddConflict(current.value, incoming)
      case Less => AddConflict(incoming, current.value)
      case Equal => current.value
  }

  function MergeAll(current: Option<Document>, versions: seq<Document>): Option<Document> {
    if versions == [] then current
    else Some(MergeVersion(MergeAll(current, versions[..|versions| - 1]), versions[|versions| - 1]))
  }

  /* ---------- which version ends up current ---------- */

  ghost predicate DistinctReadings(vs: seq<Document>) {
    forall i, j | 0 <= i < j < |vs| :: ReadingOf(vs[i]) != ReadingOf(vs[j])
  }

  /** `m` has the greatest revision of `vs`. */
  ghost predicate IsMaximum(m: Document, vs: seq<Document>) {
    m in vs && forall v | v in vs :: CompareRevisions(v, m) != Greater
  }

  ghost predicate LiveMaximum(m: Document, vs: seq<Document>) {
    IsMaximum(m, vs) && !IsDeleted(m)
  }

  ghost predicate HasLiveMaximum(vs: seq<Document>) {
    exists m | m in vs :: LiveMaximum(m, vs)
  }

  /** Whatever live version ties with the greatest revision has this content. */
  ghost predicate Unrivalled(m: Document, vs: seq<Document>) {
    forall n | LiveMaximum(n, vs) :: Bare(n) == Bare(m)
  }

  /** A live version has the greatest revision, and all that have it show the same. */
  ghost predicate OneLiveMaximum(vs: seq<Document>) {
    exists m | m in vs :: LiveMaximum(m, vs) && Unrivalled(m, vs)
  }

  ghost predicate OneContent(vs: seq<Document>) {
    forall v, w | v in vs && w in vs :: Bare(v) == Bare(w)
  }

  function BareOf(d: Option<Document>): Option<Document> {
    if d.None? then None else Some(Bare(d.value))
  }

  lemma AddConflictKeeps(loser: Document, winner: Document)
    ensures Bare(AddConflict(loser, winner)) == Bare(winner)
    ensures ReadingOf(AddConflict(loser, winner)) == ReadingOf(winner)
    ensures IsDeleted(AddConflict(loser, winner)) == IsDeleted(winner)
  {
    hide Revisions.Valid, Revisions.Parse;
  }

  lemma BareKeeps(d: Document, e: Document)
    requires Bare(d) == Bare(e)
    ensures ReadingOf(d) == ReadingOf(e) && IsDeleted(d) == IsDeleted(e)
  {
    hide Revisions.Valid, Revisions.Parse;
    assert forall k | k != CONFLICTS :: (k in d <==> k in Bare(d)) && (k in e <==> k in Bare(e));
    assert REV in d ==> d[REV] == Bare(d)[REV];
    assert REV in e ==> e[REV] == Bare(e)[REV];
    assert DELETED in d ==> d[DELETED] == Bare(d)[DELETED];
    assert DELETED in e ==> e[DELETED] == Bare(e)[DELETED];
  }

  /** After any nonempty run the current version is one of those applied. */
  lemma {:induction false} CurrentWasApplied(vs: seq<Document>) returns (v: Document)
    requires vs != []
    ensures v in vs && BareOf(MergeAll(None, vs)) == Some(Bare(v))
  {
    hide Revisions.Valid, Revisions.Parse;
    var init, last := vs[..|vs| - 1], vs[|vs| - 1];
    if init == [] {
      v := last;
    } else {
      v := CurrentWasApplied(init);
      var cur := MergeAll(None, init).value;
      AddConflictKeeps(cur, last);
      AddConflictKeeps(last, cur);
      if Bare(MergeVersion(Some(cur), last)) != Bare(cur) {
        v := last;
      }
    }
  }

  /** Versions of one reading are all of greatest revision, or none is. */
  lemma TieIsMaximum(m: Document, v: Document, vs: seq<Document>)
    requires IsMaximum(m, vs) && v in vs && ReadingOf(v) == ReadingOf(m)
    ensures IsMaximum(v, vs)
  {
    hide ReadingOf;
  }

  lemma MaximaTie(m: Document, n: Document, vs: seq<Document>)
    requires IsMaximum(m, vs) && IsMaximum(n, vs)
    ensures ReadingOf(m) == ReadingOf(n)
  {
    hide ReadingOf;
    Revisions.CompareReadingTotalOrder(ReadingOf(m), ReadingOf(n), ReadingOf(m));
  }

  /** With distinct revisions a version of greatest revision has no rival. */
  lemma DistinctUnrivalled(m: Document, vs: seq<Document>)
    requires DistinctReadings(vs) && IsMaximum(m, vs)
    ensures Unrivalled(m, vs)
  {
    hide ReadingOf, IsDeleted, Bare, IsMaximum;
    forall n | LiveMaximum(n, vs) ensures n == m {
      MaximaTie(m, n, vs);
      assert n in vs && m in vs by { MaximumOccurs(m, vs); MaximumOccurs(n, vs); }
      var i :| 0 <= i < |vs| && vs[i] == m;
      var j :| 0 <= j < |vs| && vs[j] == n;
      assert i == j;
    }
  }

  lemma MaximumOccurs(m: Document, vs: seq<Document>)
    requires IsMaximum(m, vs)
    ensures m in vs
  {}

  /** A current version of greatest revision gives way to nothing. */
  lemma TopStays(cur: Document, v: Document)
    requires !IsDeleted(cur) && CompareRevisions(v, cur) != Greater
    ensures Bare(MergeVersion(Some(cur), v)) == Bare(cur)
  {
    hide ReadingOf, IsDeleted, Bare, AddConflict;
    AddConflictKeeps(v, cur);
  }

  /** A version above the current one, or after a tombstone, takes its place. */
  lemma TopWins(cur: Document, v: Document)
    requires IsDeleted(cur) || CompareRevisions(v, cur) == Greater
    ensures Bare(MergeVersion(Some(cur), v)) == Bare(v)
  {
    hide ReadingOf, IsDeleted, Bare, AddConflict;
    AddConflictKeeps(cur, v);
  }

  /** From the moment a live version of greatest revision is applied, one is current. */
  lemma {:induction false} LiveMaximumShows(m: Document, vs: seq<Document>) returns (n: Document)
    requires LiveMaximum(m, vs)
    ensures LiveMaximum(n, vs) && BareOf(MergeAll(None, vs)) == Some(Bare(n))
  {
    hide ReadingOf, IsDeleted, Bare, MergeVersion;
    var init, last := vs[..|vs| - 1], vs[|vs| - 1];
    assert vs == init + [last];
    if m in init {
      n := LiveMaximumShows(m, init);
      var cur := MergeAll(None, init).value;
      MaximaTie(m, n, init);
      TieIsMaximum(m, n, vs);
      BareKeeps(cur, n);
      assert last in vs && CompareRevisions(last, n) != Greater;
      TopStays(cur, last);
    } else if init == [] {
      n := last;
      assert MergeAll(None, vs) == Some(MergeVersion(None, last));
      MergeFirst(last);
    } else {
      var cur := MergeAll(None, init).value;
      var v := CurrentWasApplied(init);
      BareKeeps(cur, v);
      Revisions.CompareReadingTotalOrder(ReadingOf(v), ReadingOf(m), ReadingOf(m));
      if !IsDeleted(cur) && ReadingOf(v) == ReadingOf(m) {
        n := v;
        TieIsMaximum(m, v, vs);
        TopStays(cur, last);
      } else {
        n := last;
        assert v in vs;
        TopWins(cur, last);
      }
    }
  }

  lemma MergeFirst(d: Document)
    ensures MergeVersion(None, d) == d
  {}

  /** A live version of maximum revision and without a rival is current from the moment it is applied. */
  lemma LiveMaximumStays(m: Document, vs: seq<Document>)
    requires LiveMaximum(m, vs) && Unrivalled(m, vs)
    ensures BareOf(MergeAll(None, vs)) == Some(Bare(m))
  {
    hide ReadingOf, IsDeleted, Bare, IsMaximum, MergeAll;
    var n := LiveMaximumShows(m, vs);
  }

  /** A version of maximum revision and without a live rival is current when it is applied last, live or not. */
  lemma LastMaximumWins(m: Document, vs: seq<Document>)
    requires IsMaximum(m, vs) && Unrivalled(m, vs) && vs[|vs| - 1] == m
    ensures BareOf(MergeAll(None, vs)) == Some(Bare(m))
  {
    hide ReadingOf, IsDeleted, AddConflict, Bare;
    var init := vs[..|vs| - 1];
    var cur := MergeAll(None, init);
    if init != [] && !IsDeleted(cur.value) {
      var v := CurrentWasApplied(init);
      BareKeeps(cur.value, v);
      assert v in vs;
      AddConflictKeeps(cur.value, m);
      Revisions.CompareReadingTotalOrder(ReadingOf(v), ReadingOf(m), ReadingOf(m));
      if ReadingOf(v) == ReadingOf(m) {
        TieIsMaximum(m, v, vs);
        assert LiveMaximum(v, vs);
      }
    }
  }

  /** A live version of maximum revision is current for good when it is applied first, rivals or not. */
  lemma {:induction false} FirstMaximumWins(m: Document, vs: seq<Document>)
    requires LiveMaximum(m, vs) && vs[0] == m
    ensures BareOf(MergeAll(None, vs)) == Some(Bare(m))
  {
    hide ReadingOf, IsDeleted, MergeVersion, Bare;
    var init, last := vs[..|vs| - 1], vs[|vs| - 1];
    assert last in vs;
    if init == [] {
      MergeFirst(last);
      assert MergeAll(None, init) == None;
    } else {
      var cur := MergeAll(None, init).value;
      assert vs == init + [last] && init[0] == m;
      FirstMaximumWins(m, init);
      BareKeeps(cur, m);
      TopStays(cur, last);
    }
  }

  /** A stored tombstone is forgotten by the next version, whatever their revisions. */
  lemma {:induction false} TombstoneForgotten(t: Document, vs: seq<Document>)
    requires IsDeleted(t) && vs != []
    ensures MergeAll(Some(t), vs) == MergeAll(None, vs)
  {
    if |vs| > 1 {
      TombstoneForgotten(t, vs[..|vs| - 1]);
    } else {
      assert vs[..0] == [];
    }
  }

  lemma {:induction false} MergeAllAppend(current: Option<Document>, xs: seq<Document>, ys: seq<Document>)
    ensures MergeAll(current, xs + ys) == MergeAll(MergeAll(current, xs), ys)
  {
    if ys == [] {
      assert xs + ys == xs;
    } else {
      assert (xs + ys)[..|xs + ys| - 1] == xs + ys[..|ys| - 1];
      MergeAllAppend(current, xs, ys[..|ys| - 1]);
    }
  }

  /** Every order of delivery ends with the same current version. */
  ghost predicate OrderIndependent(vs: seq<Document>) {
    forall ws | multiset(ws) == multiset(vs) :: BareOf(MergeAll(None, ws)) == BareOf(MergeAll(None, vs))
  }

  lemma {:induction false} MaximumExists(vs: seq<Document>) returns (m: Document)
    requires vs != []
    ensures IsMaximum(m, vs)
  {
    hide Revisions.Valid, Revisions.Parse;
    var init, last := vs[..|vs| - 1], vs[|vs| - 1];
    if init == [] {
      m := last;
      Revisions.CompareReadingTotalOrder(ReadingOf(m), ReadingOf(m), ReadingOf(m));
    } else {
      m := MaximumExists(init);
      Revisions.CompareReadingTotalOrder(ReadingOf(last), ReadingOf(m), ReadingOf(last));
      if CompareRevisions(last, m) == Greater {
        Revisions.CompareReadingTotalOrder(ReadingOf(last), ReadingOf(last), ReadingOf(last));
        forall v | v in init ensures CompareRevisions(v, last) != Greater {
          Revisions.CompareReadingTotalOrder(ReadingOf(v), ReadingOf(m), ReadingOf(last));
        }
        m := last;
      }
    }
  }

  lemma PermutationKeeps(vs: seq<Document>, ws: seq<Document>)
    requires multiset(vs) == multiset(ws)
    ensures forall v :: v in vs <==> v in ws
    ensures DistinctReadings(vs) ==> DistinctReadings(ws)
    ensures forall m :: IsMaximum(m, vs) ==> IsMaximum(m, ws)
  {
    hide Revisions.Valid, Revisions.Parse;
    assert forall v :: v in vs <==> v in multiset(vs);
    assert forall v :: v in ws <==> v in multiset(ws);
    if DistinctReadings(vs) {
      forall i, j | 0 <= i < j < |ws| ensures ReadingOf(ws[i]) != ReadingOf(ws[j]) {
        assert ws[i] in vs && ws[j] in vs;
        if ws[i] == ws[j] {
          OccursTwice(ws, i, j);
          assert multiset(vs)[ws[i]] >= 2;
          OccursOnce(vs, ws[i]);
        }
      }
    }
  }

  lemma OccursTwice(ws: seq<Document>, i: nat, j: nat)
    requires i < j < |ws| && ws[i] == ws[j]
    ensures multiset(ws)[ws[i]] >= 2
  {
    assert ws == ws[..i] + [ws[i]] + ws[i + 1..j] + [ws[j]] + ws[j + 1..];
  }

  lemma {:induction false} OccursOnce(vs: seq<Document>, v: Document)
    requires DistinctReadings(vs)
    ensures multiset(vs)[v] <= 1
  {
    hide Revisions.Valid, Revisions.Parse;
    if vs != [] {
      OccursOnce(vs[1..], v);
      assert vs == [vs[0]] + vs[1..];
      if v in vs[1..] {
        var i :| 0 < i < |vs| && vs[i] == v;
        assert ReadingOf(vs[0]) != ReadingOf(vs[i]);
      }
    }
  }

  /**
   Convergence. Delivery order does not matter exactly when the versions all show the same, or
   the greatest revision belongs to a live version and to no live one of other content.
   Tombstones of lower revision do no harm.
   */
  lemma OrderIndependentIff(vs: seq<Document>)
    requires vs != []
    ensures OrderIndependent(vs) <==> OneContent(vs) || OneLiveMaximum(vs)
  {
    hide ReadingOf, IsDeleted, Bare, IsMaximum, MergeAll;
    if OneContent(vs) {
      OneContentConverges(vs);
    } else if OneLiveMaximum(vs) {
      var m :| m in vs && LiveMaximum(m, vs) && Unrivalled(m, vs);
      LiveMaximumStays(m, vs);
      forall ws | multiset(ws) == multiset(vs) ensures BareOf(MergeAll(None, ws)) == BareOf(MergeAll(None, vs)) {
        PermutationKeeps(vs, ws);
        PermutationKeeps(ws, vs);
        LiveMaximumStays(m, ws);
      }
    } else if HasLiveMaximum(vs) {
      var m :| m in vs && LiveMaximum(m, vs);
      var n :| LiveMaximum(n, vs) && Bare(n) != Bare(m);
      RivalsDepend(m, n, vs);
    } else {
      var t := MaximumExists(vs);
      DeadMaximumDepends(t, vs);
    }
  }

  lemma OneContentConverges(vs: seq<Document>)
    requires vs != [] && OneContent(vs)
    ensures OrderIndependent(vs)
  {
    hide Bare;
    var v := CurrentWasApplied(vs);
    forall ws | multiset(ws) == multiset(vs) ensures BareOf(MergeAll(None, ws)) == BareOf(MergeAll(None, vs)) {
      Sequences.SameSize(ws, vs);
      var w := CurrentWasApplied(ws);
      assert w in multiset(vs);
    }
  }

  /** Two live versions of greatest revision and different content stay in the order they came. */
  lemma RivalsDepend(m: Document, n: Document, vs: seq<Document>)
    requires LiveMaximum(m, vs) && LiveMaximum(n, vs) && Bare(m) != Bare(n)
    ensures !OrderIndependent(vs)
  {
    hide ReadingOf, IsDeleted, Bare, IsMaximum, MergeAll, OrderIndependent;
    var us := MaximumFirst(m, vs);
    var ws := MaximumFirst(n, vs);
    OrdersDiffer(vs, us, ws);
  }

  /** Some order ends with any given live version of greatest revision. */
  lemma MaximumFirst(m: Document, vs: seq<Document>) returns (us: seq<Document>)
    requires LiveMaximum(m, vs)
    ensures multiset(us) == multiset(vs) && BareOf(MergeAll(None, us)) == Some(Bare(m))
  {
    MaximumOccurs(m, vs);
    var i :| 0 <= i < |vs| && vs[i] == m;
    hide *;
    us := [m] + (vs[..i] + vs[i + 1..]);
    MoveAround(vs, i);
    LiveMaximumKeeps(m, vs, us);
    FirstMaximumWins(m, us);
  }

  lemma LiveMaximumKeeps(m: Document, vs: seq<Document>, ws: seq<Document>)
    requires LiveMaximum(m, vs) && multiset(vs) == multiset(ws)
    ensures LiveMaximum(m, ws)
  {
    hide IsDeleted;
    PermutationKeeps(vs, ws);
  }

  /** With no live version of greatest revision, the tombstone that has it does not settle what is shown. */
  lemma DeadMaximumDepends(t: Document, vs: seq<Document>)
    requires IsMaximum(t, vs) && !HasLiveMaximum(vs) && !OneContent(vs)
    ensures !OrderIndependent(vs)
  {
    hide *;
    var v := OtherContent(t, vs);
    var us, ws := DeadLastOrNot(t, v, vs);
    OrdersDiffer(vs, us, ws);
  }

  /** Delivered last a tombstone of greatest revision is current, delivered last but one it is lost. */
  lemma DeadLastOrNot(t: Document, v: Document, vs: seq<Document>) returns (us: seq<Document>, ws: seq<Document>)
    requires IsMaximum(t, vs) && !HasLiveMaximum(vs) && v in vs && Bare(v) != Bare(t)
    ensures multiset(us) == multiset(ws) == multiset(vs) && IsDeleted(t)
    ensures BareOf(MergeAll(None, us)) == Some(Bare(t)) && BareOf(MergeAll(None, ws)) == Some(Bare(v))
  {
    hide *;
    MaximumOccurs(t, vs);
    var early := LastTwo(vs, t, v);
    var i :| 0 <= i < |vs| && vs[i] == t;
    MoveAround(vs, i);
    us := vs[..i] + vs[i + 1..] + [t];
    ws := early + [t] + [v];
    DeadLastShows(t, vs, us);
    DeadPartShows(t, vs, early + [t], v);
    MergeOverDead(t, early + [t], v);
  }

  /** An order that ends with two given versions. */
  lemma LastTwo(vs: seq<Document>, t: Document, v: Document) returns (early: seq<Document>)
    requires t in vs && v in vs && t != v
    ensures multiset(early + [t] + [v]) == multiset(vs)
  {
    var j :| 0 <= j < |vs| && vs[j] == v;
    var rest := vs[..j] + vs[j + 1..];
    assert vs == vs[..j] + [v] + vs[j + 1..];
    assert t in rest;
    var k :| 0 <= k < |rest| && rest[k] == t;
    MoveAround(vs, j);
    MoveAround(rest, k);
    early := rest[..k] + rest[k + 1..];
    assert multiset(early + [t]) == multiset(rest);
    assert multiset(early + [t] + [v]) == multiset(early + [t]) + multiset{v};
    assert multiset(rest + [v]) == multiset(rest) + multiset{v};
  }

  lemma OtherContent(t: Document, vs: seq<Document>) returns (v: Document)
    requires !OneContent(vs)
    ensures v in vs && Bare(v) != Bare(t)
  {
    hide Bare;
    var x, y :| x in vs && y in vs && Bare(x) != Bare(y);
    v := if Bare(x) != Bare(t) then x else y;
  }

  lemma DeadLastShows(t: Document, vs: seq<Document>, ws: seq<Document>)
    requires IsMaximum(t, vs) && !HasLiveMaximum(vs) && multiset(ws) == multiset(vs)
    requires ws != [] && ws[|ws| - 1] == t
    ensures BareOf(MergeAll(None, ws)) == Some(Bare(t))
  {
    hide ReadingOf, IsDeleted, Bare, MergeAll;
    PermutationKeeps(vs, ws);
    PermutationKeeps(ws, vs);
    LastMaximumWins(t, ws);
  }

  lemma DeadPartShows(t: Document, vs: seq<Document>, upTo: seq<Document>, v: Document)
    requires IsMaximum(t, vs) && !HasLiveMaximum(vs) && multiset(upTo + [v]) == multiset(vs)
    requires upTo != [] && upTo[|upTo| - 1] == t
    ensures BareOf(MergeAll(None, upTo)) == Some(Bare(t)) && IsDeleted(t)
  {
    hide ReadingOf, IsDeleted, Bare, MergeAll;
    PermutationKeeps(vs, upTo + [v]);
    MaximumOccurs(t, vs);
    forall n | IsMaximum(n, upTo) ensures IsMaximum(n, vs) {
      MaximaTie(t, n, upTo);
      TieIsMaximum(t, n, vs);
    }
    assert forall n | LiveMaximum(n, upTo) :: LiveMaximum(n, vs);
    LastMaximumWins(t, upTo);
  }

  lemma MergeOverDead(t: Document, upTo: seq<Document>, v: Document)
    requires BareOf(MergeAll(None, upTo)) == Some(Bare(t)) && IsDeleted(t)
    ensures BareOf(MergeAll(None, upTo + [v])) == Some(Bare(v))
  {
    hide IsDeleted, Bare, ReadingOf;
    BareKeeps(MergeAll(None, upTo).value, t);
    assert (upTo + [v])[..|upTo|] == upTo;
  }

  /** With distinct revisions: exactly when the version of greatest revision is live. */
  lemma ConvergesIff(vs: seq<Document>)
    requires |vs| >= 2 && DistinctReadings(vs)
    ensures OrderIndependent(vs) <==> HasLiveMaximum(vs)
  {
    hide ReadingOf, IsDeleted, Bare, IsMaximum, OrderIndependent;
    OrderIndependentIff(vs);
    assert ReadingOf(vs[0]) != ReadingOf(vs[1]);
    assert Bare(vs[0]) != Bare(vs[1]) by {
      if Bare(vs[0]) == Bare(vs[1]) {
        BareKeeps(vs[0], vs[1]);
      }
    }
    if HasLiveMaximum(vs) {
      var m :| m in vs && LiveMaximum(m, vs);
      DistinctUnrivalled(m, vs);
    }
  }

  /** A live greatest revision is not enough: two live versions of one revision stay in the order they came. */
  lemma TiedVersionsDepend(rev: string, x: Bson, y: Bson)
    requires Revisions.Valid(rev) && x != y
    ensures var a, b := map[REV := String(rev), "value" := x], map[REV := String(rev), "value" := y];
            HasLiveMaximum([a, b]) && !OrderIndependent([a, b])
  {
    hide Revisions.Valid, Revisions.Parse, OrderIndependent;
    var a: Document, b: Document := map[REV := String(rev), "value" := x], map[REV := String(rev), "value" := y];
    assert ReadingOf(a) == ReadingOf(b) == Revisions.Parse(rev);
    Revisions.CompareReadingTotalOrder(ReadingOf(a), ReadingOf(a), ReadingOf(a));
    assert Bare(a)["value"] == x && Bare(b)["value"] == y;
    assert a in [a, b];
    assert LiveMaximum(a, [a, b]) && LiveMaximum(b, [a, b]);
    RivalsDepend(a, b, [a, b]);
  }

  lemma OrdersDiffer(vs: seq<Document>, us: seq<Document>, ws: seq<Document>)
    requires multiset(us) == multiset(ws) == multiset(vs)
    requires BareOf(MergeAll(None, us)) != BareOf(MergeAll(None, ws))
    ensures !OrderIndependent(vs)
  {}

  lemma MoveAround(vs: seq<Document>, i: nat)
    requires i < |vs|
    ensures var others := vs[..i] + vs[i + 1..];
            multiset(others + [vs[i]]) == multiset([vs[i]] + others) == multiset(vs)
  {
    Sequences.SplitAt(vs, i);
    assert vs[i] in multiset(vs);
  }

  /* ---------- which orders end in a tombstone ---------- */

  /** Each live version is followed by one of greater revision. */
  ghost predicate LiveAreOutlived(ws: seq<Document>) {
    forall i | 0 <= i < |ws| && !IsDeleted(ws[i]) :: Outlived(ws, i)
  }

  ghost predicate Outlived(ws: seq<Document>, i: nat)
    requires i < |ws|
  {
    exists j | i < j < |ws| :: CompareRevisions(ws[i], ws[j]) == Less
  }

  lemma OutlivedMore(ws: seq<Document>, last: Document, i: nat)
    requires i < |ws|
    ensures Outlived(ws + [last], i) <==> Outlived(ws, i) || CompareRevisions(ws[i], last) == Less
  {
    hide CompareRevisions;
    var more := ws + [last];
    if Outlived(ws, i) {
      var j :| i < j < |ws| && CompareRevisions(ws[i], ws[j]) == Less;
      assert more[j] == ws[j];
    }
    if CompareRevisions(ws[i], last) == Less {
      assert more[|ws|] == last;
    }
  }

  /** Live, and followed by none of greater revision. */
  ghost predicate Stands(ws: seq<Document>, i: nat)
    requires i < |ws|
  {
    !IsDeleted(ws[i]) && !Outlived(ws, i)
  }

  /** A live current version has the revision of one that stands, and none that stands has a greater one. */
  ghost predicate ShowsStanding(ws: seq<Document>, cur: Document) {
    && (exists p | 0 <= p < |ws| :: Stands(ws, p) && ReadingOf(ws[p]) == ReadingOf(cur))
    && (forall i | 0 <= i < |ws| && Stands(ws, i) :: CompareRevisions(ws[i], cur) != Greater)
  }

  /** Either nothing stands and a tombstone is current, or what stands is what shows. */
  ghost predicate StandsAs(ws: seq<Document>, cur: Document) {
    if IsDeleted(cur) then forall i | 0 <= i < |ws| :: !Stands(ws, i) else ShowsStanding(ws, cur)
  }

  lemma {:induction false} CurrentStands(ws: seq<Document>)
    requires ws != []
    ensures StandsAs(ws, MergeAll(None, ws).value)
  {
    hide ReadingOf, IsDeleted, CompareRevisions, Stands, StandsAs, MergeVersion;
    var init, last := ws[..|ws| - 1], ws[|ws| - 1];
    assert ws == init + [last];
    if init == [] {
      OnlyStands(last);
    } else {
      CurrentStands(init);
      StandingStep(init, last, MergeAll(None, init).value);
    }
  }

  lemma StandsMore(init: seq<Document>, last: Document)
    ensures var ws := init + [last];
            && (forall i | 0 <= i < |init| ::
                  Stands(ws, i) <==> Stands(init, i) && CompareRevisions(init[i], last) != Less)
            && (Stands(ws, |init|) <==> !IsDeleted(last))
  {
    hide IsDeleted, CompareRevisions, Outlived;
    forall i | 0 <= i < |init|
      ensures Stands(init + [last], i) <==> Stands(init, i) && CompareRevisions(init[i], last) != Less
    {
      OutlivedMore(init, last, i);
    }
    LastStands(init + [last]);
  }

  lemma LastStands(ws: seq<Document>)
    requires ws != []
    ensures Stands(ws, |ws| - 1) <==> !IsDeleted(ws[|ws| - 1])
  {}

  lemma OnlyStands(d: Document)
    ensures MergeAll(None, [d]) == Some(d)
    ensures StandsAs([d], d)
  {
    hide ReadingOf, IsDeleted;
    assert [d][..0] == [];
    Revisions.CompareReadingTotalOrder(ReadingOf(d), ReadingOf(d), ReadingOf(d));
    if !IsDeleted(d) {
      assert Stands([d], 0);
    }
  }

  /** What one more version does to the ones that stand and to the one that shows. */
  lemma StandingStep(init: seq<Document>, last: Document, cur: Document)
    requires init != [] && StandsAs(init, cur)
    ensures StandsAs(init + [last], MergeVersion(Some(cur), last))
  {
    hide ReadingOf, IsDeleted, AddConflict, Stands;
    var ws, next := init + [last], MergeVersion(Some(cur), last);
    StandsMore(init, last);
    AddConflictKeeps(cur, last);
    AddConflictKeeps(last, cur);
    forall i | 0 <= i < |ws| && Stands(ws, i) ensures !IsDeleted(next) && CompareRevisions(ws[i], next) != Greater {
      Revisions.CompareReadingTotalOrder(ReadingOf(ws[i]), ReadingOf(cur), ReadingOf(last));
      Revisions.CompareReadingTotalOrder(ReadingOf(last), ReadingOf(cur), ReadingOf(last));
      Revisions.CompareReadingTotalOrder(ReadingOf(ws[i]), ReadingOf(last), ReadingOf(cur));
    }
    if !IsDeleted(next) {
      if IsDeleted(cur) || CompareRevisions(last, cur) == Greater {
        assert Stands(ws, |init|) && ReadingOf(ws[|init|]) == ReadingOf(next);
      } else {
        var p :| 0 <= p < |init| && Stands(init, p) && ReadingOf(init[p]) == ReadingOf(cur);
        Revisions.CompareReadingTotalOrder(ReadingOf(last), ReadingOf(cur), ReadingOf(last));
        assert Stands(ws, p) && ReadingOf(ws[p]) == ReadingOf(next);
      }
    }
  }

  /** Any versions at all end in a tombstone exactly when every live one is followed by one of greater revision. */
  lemma EndsDeadIff(ws: seq<Document>)
    requires ws != []
    ensures IsDeleted(MergeAll(None, ws).value) <==> LiveAreOutlived(ws)
  {
    hide ReadingOf, IsDeleted, CompareRevisions, MergeAll, Outlived;
    CurrentStands(ws);
    if LiveAreOutlived(ws) {
      assert forall i | 0 <= i < |ws| :: !Stands(ws, i);
    } else {
      var i :| 0 <= i < |ws| && !IsDeleted(ws[i]) && !Outlived(ws, i);
      assert Stands(ws, i);
    }
  }
}
