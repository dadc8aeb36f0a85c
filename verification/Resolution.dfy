/** Resolving a conflict: which version becomes current, which are kept, which are gone. */
module Resolution {
  import opened Wrappers
  import opened Documents
  import opened Conservation
  import opened StableSort
  import Revisions

  predicate HasRevision(d: Document, rev: string) {
    REV in d && d[REV].String? && Revisions.Valid(d[REV].text) && d[REV].text == rev
  }

  predicate Picks(item: Bson, rev: string) {
    item.Document? && HasRevision(item.fields, rev)
  }

  /** The last listed version with the chosen revision, and the listed documents without it. */
  function Resolve(items: seq<Bson>, rev: string): (Option<Document>, seq<Bson>) {
    if items == [] then (None, [])
    else
      var (chosen, kept) := Resolve(items[..|items| - 1], rev);
      var last := items[|items| - 1];
      if !last.Document? then (chosen, kept)
      else if Picks(last, rev) then (Some(last.fields), kept)
      else (chosen, kept + [last])
  }

  function Resolved(chosen: Document, kept: seq<Bson>): Document {
    if kept == [] then chosen - {CONFLICTS} else chosen[CONFLICTS := Array(kept)]
  }

  ghost function Picked(items: seq<Bson>, rev: string): seq<Bson> {
    if items == [] then []
    else Picked(items[..|items| - 1], rev) + (if Picks(items[|items| - 1], rev) then [items[|items| - 1]] else [])
  }

  /** Of the listed versions some are kept and the rest picked. */
  lemma {:induction false} ResolveSplits(items: seq<Bson>, rev: string)
    ensures VersionsOf(items) == VersionsOf(Resolve(items, rev).1) + VersionsOf(Picked(items, rev))
    ensures Forest(items) ==> Forest(Resolve(items, rev).1)
  {
    hide HasRevision, Versions, Tree, Picks, VersionsOf, Forest;
    if items == [] {
      assert Resolve(items, rev) == (None, []) && Picked(items, rev) == [];
      NoVersions();
    } else {
      var init, last := items[..|items| - 1], items[|items| - 1];
      var kept, picked := Resolve(init, rev).1, Picked(init, rev);
      assert items == init + [last];
      OtherIsNoVersion(last);
      VersionsOfAppend(init, [last]);
      ResolveSplits(init, rev);
      VersionsOfAppend(kept, [last]);
      VersionsOfAppend(picked, [last]);
      assert picked + [] == picked;
    }
  }

  lemma NoVersions()
    ensures VersionsOf([]) == multiset{} && Forest([])
  {}

  /** A version is picked exactly when one carries the revision; none that does is kept. */
  lemma {:induction false} ResolvePicks(items: seq<Bson>, rev: string)
    ensures var (chosen, kept) := Resolve(items, rev);
            && (chosen.Some? <==> exists item | item in items :: Picks(item, rev))
            && (chosen.Some? ==> Bson.Document(chosen.value) in items && HasRevision(chosen.value, rev))
            && forall item | item in kept :: item in items && !Picks(item, rev)
  {
    hide HasRevision;
    if items != [] {
      var init, last := items[..|items| - 1], items[|items| - 1];
      assert items == init + [last];
      ResolvePicks(init, rev);
    }
  }

  /** The item is a listed version of another revision. */
  function IsOther(rev: string): Bson -> bool {
    (item: Bson) => item.Document? && !Picks(item, rev)
  }

  /**
   Of several listed versions that carry the revision the last is chosen; the other documents of
   the list are all kept, in their order, and what is no document is not.
   */
  lemma {:induction false} ResolveKeeps(items: seq<Bson>, rev: string)
    ensures var (chosen, kept) := Resolve(items, rev);
            && kept == Filter(IsOther(rev), items)
            && (chosen.Some? ==>
                  exists i :: 0 <= i < |items| && items[i] == Bson.Document(chosen.value)
                              && forall j | i < j < |items| :: !Picks(items[j], rev))
  {
    hide Picks;
    if items != [] {
      var init, last := items[..|items| - 1], items[|items| - 1];
      assert items == init + [last];
      ResolveKeeps(init, rev);
      FilterAppend(IsOther(rev), init, [last]);
      assert Filter(IsOther(rev), [last][1..]) == [];
      var kept := Resolve(init, rev).1;
      assert kept + [] == kept;
      PickedIsDocument(last, rev);
      if Picks(last, rev) {
        assert items[|items| - 1] == Bson.Document(last.fields);
      }
    }
  }

  lemma PickedIsDocument(item: Bson, rev: string)
    ensures Picks(item, rev) ==> item.Document?
    ensures Picks(item, rev) <==>
            item.Document? && Revisions.Valid(rev) && "_rev" in item.fields && item.fields["_rev"] == String(rev)
  {
    hide Revisions.Valid;
  }

  /** The resolved document is the chosen one, all of it, with the kept versions for conflicts, or with none. */
  lemma ResolvedIs(chosen: Document, kept: seq<Bson>)
    ensures var result := Resolved(chosen, kept);
            && result - {"_conflicts"} == chosen - {"_conflicts"}
            && if kept == [] then "_conflicts" !in result
               else "_conflicts" in result && result["_conflicts"] == Array(kept)
  {}

  /** The loop drops what is no document, and with it no version. */
  lemma OtherIsNoVersion(item: Bson)
    ensures !item.Document? ==> VersionsOf([item]) == multiset{} && !Forest([item])
  {
    assert [item][1..] == [];
    NoVersions();
  }

  /**
   A resolved document carries the chosen revision. It keeps every listed version of
   another revision; the version it displaced and what the chosen one had beaten are gone.
   */
  lemma ResolutionHolds(doc: Document, rev: string)
    requires Resolve(ConflictList(doc), rev).0.Some?
    ensures var (chosen, kept) := Resolve(ConflictList(doc), rev);
            var result := Resolved(chosen.value, kept);
            && RevisionOf(result) == rev && Bare(result) == Bare(chosen.value) && (IsTree(doc) ==> IsTree(result))
            && Held(doc) + multiset{Bare(result)} ==
               Held(result) + multiset{Bare(doc)} + VersionsOf(Picked(ConflictList(doc), rev))
  {
    hide Held, IsTree, Versions, Tree, Forest, VersionsOf, Picked, Resolve, Revisions.Valid;
    var (chosen, kept) := Resolve(ConflictList(doc), rev);
    var result := Resolved(chosen.value, kept);
    HeldParts(doc);
    HeldParts(result);
    ResolveSplits(ConflictList(doc), rev);
    ResolvePicks(ConflictList(doc), rev);
    assert ConflictList(result) == kept;
  }
}
