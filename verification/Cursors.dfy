/** `find`: the lazy cursor with its counters, the sorted path, and the simple query both stand for. */
module Cursors {
  import opened Wrappers
  import opened Orders
  import opened StableSort
  import opened Documents
  import opened Queries

  /** What a scan or a cursor yields. */
  type Item = Result<Document, string>

  datatype Query = Query(skip: nat, limit: Option<nat>, projection: Option<Document>)

  type Matcher = Document -> Result<bool, string>

  /* ---------- the simple query ---------- */

  /** The live documents that the filter accepts, in scan order. */
  function Matching(items: seq<Item>, matches: Matcher): seq<Document> {
    if items == [] then []
    else
      (if items[0].Success? && !IsDeleted(items[0].value) && matches(items[0].value) == Success(true)
       then [items[0].value] else []) + Matching(items[1..], matches)
  }

  function Drop<T>(s: seq<T>, n: nat): seq<T> {
    if n < |s| then s[n..] else []
  }

  function Limited<T>(s: seq<T>, limit: Option<nat>): seq<T> {
    if limit.Some? && limit.value < |s| then s[..limit.value] else s
  }

  function Shown(doc: Document, projection: Option<Document>): Document {
    if projection.Some? then Projected(doc, projection.value) else doc
  }

  function ShownAll(docs: seq<Document>, projection: Option<Document>): (r: seq<Document>)
    ensures |r| == |docs| && forall i | 0 <= i < |r| :: r[i] == Shown(docs[i], projection)
  {
    seq(|docs|, i requires 0 <= i < |docs| => Shown(docs[i], projection))
  }

  /** project(take(limit, drop(skip, docs))). */
  function Answer(docs: seq<Document>, q: Query): seq<Document> {
    ShownAll(Limited(Drop(docs, q.skip), q.limit), q.projection)
  }

  /** A document is answered as often as the scan lists it if it is live and the filter accepts it, and never otherwise. */
  lemma {:induction false} MatchingCounts(items: seq<Item>, matches: Matcher, doc: Document)
    ensures multiset(Matching(items, matches))[doc] ==
            if !(DELETED in doc && doc[DELETED] == Boolean(true)) && matches(doc) == Success(true)
            then multiset(items)[Success(doc)] else 0
  {
    if items != [] {
      MatchingCounts(items[1..], matches, doc);
      assert items == [items[0]] + items[1..];
      assert multiset(items)[Success(doc)] == multiset{items[0]}[Success(doc)] + multiset(items[1..])[Success(doc)];
    }
  }

  /** Scan order is kept: the matches of two stretches of a scan follow each other. */
  lemma {:induction false} MatchingAppend(items: seq<Item>, more: seq<Item>, matches: Matcher)
    ensures Matching(items + more, matches) == Matching(items, matches) + Matching(more, matches)
  {
    if items == [] {
      assert items + more == more;
    } else {
      assert (items + more)[1..] == items[1..] + more;
      MatchingAppend(items[1..], more, matches);
    }
  }

  /** The window of an answer: as many documents as are left after the skip, up to the limit, each shown in its place. */
  lemma AnswerWindow(docs: seq<Document>, q: Query)
    ensures var left := if |docs| < q.skip then 0 else |docs| - q.skip;
            |Answer(docs, q)| == if q.limit.Some? && q.limit.value < left then q.limit.value else left
    ensures forall i | 0 <= i < |Answer(docs, q)| ::
              && q.skip + i < |docs|
              && Answer(docs, q)[i] ==
                 match q.projection
                 case None => docs[q.skip + i]
                 case Some(projection) => Projected(docs[q.skip + i], projection)
  {
    hide Projected;
  }

  /* ---------- the filtering iterator ---------- */

  /** What is left of a scan once tombstones and non-matching documents are passed over; errors stay. */
  function Filtered(items: seq<Item>, matches: Matcher): seq<Item> {
    if items == [] then []
    else
      var rest := Filtered(items[1..], matches);
      match items[0]
      case Failure(_) => [items[0]] + rest
      case Success(doc) =>
        if IsDeleted(doc) then rest
        else
          match matches(doc)
          case Success(true) => [items[0]] + rest
          case Success(false) => rest
          case Failure(e) => [Failure(e)] + rest
  }

  function Found(items: seq<Item>): seq<Document> {
    if items == [] then []
    else (if items[0].Success? then [items[0].value] else []) + Found(items[1..])
  }

  lemma {:induction false} FilteredDocuments(items: seq<Item>, matches: Matcher)
    ensures Found(Filtered(items, matches)) == Matching(items, matches)
    ensures forall item | item in Filtered(items, matches) && item.Success? :: matches(item.value) == Success(true)
  {
    hide IsDeleted;
    if items != [] {
      FilteredDocuments(items[1..], matches);
      var rest, all := Filtered(items[1..], matches), Filtered(items, matches);
      if all != rest {
        assert all[1..] == rest;
      }
    }
  }

  /** An error comes through when the scan has it or the filter fails with it on a live document. */
  lemma {:induction false} FilteredErrs(items: seq<Item>, matches: Matcher, e: string)
    ensures Failure(e) in Filtered(items, matches) <==>
            Failure(e) in items
            || exists doc :: Success(doc) in items && !IsDeleted(doc) && matches(doc) == Failure(e)
  {
    hide IsDeleted;
    if items != [] {
      var first, rest := items[0], items[1..];
      FilteredErrs(rest, matches, e);
      assert forall item :: item in items <==> item == first || item in rest;
      var kept := Filtered(rest, matches);
      assert Filtered(items, matches) != kept ==> Filtered(items, matches)[1..] == kept;
      assert Failure(e) in Filtered(items, matches) <==>
             Failure(e) in kept || first == Failure(e)
             || (first.Success? && !IsDeleted(first.value) && matches(first.value) == Failure(e));
    }
  }

  ghost predicate NoError(items: seq<Item>, matches: Matcher) {
    forall item | item in Filtered(items, matches) :: item.Success?
  }

  /* ---------- what draining the lazy cursor yields ---------- */

  /** From the counters' current values to the end. */
  function Stream(rest: seq<Item>, q: Query, skipped: nat, emitted: nat): seq<Item>
    decreases |rest|
  {
    if q.limit.Some? && emitted >= q.limit.value then []
    else if rest == [] then []
    else
      match rest[0]
      case Failure(_) => [rest[0]] + Stream(rest[1..], q, skipped, emitted)
      case Success(doc) =>
        if skipped < q.skip then Stream(rest[1..], q, skipped + 1, emitted)
        else [Success(Shown(doc, q.projection))] + Stream(rest[1..], q, skipped, emitted + 1)
  }

  function Left(limit: Option<nat>, emitted: nat): Option<nat> {
    match limit
    case None => None
    case Some(n) => Some(if emitted < n then n - emitted else 0)
  }

  lemma AnswerSkips(doc: Document, docs: seq<Document>, q: Query)
    requires q.skip > 0
    ensures Answer([doc] + docs, q) == Answer(docs, q.(skip := q.skip - 1))
  {
    assert Drop([doc] + docs, q.skip) == Drop(docs, q.skip - 1);
  }

  lemma AnswerShows(doc: Document, docs: seq<Document>, q: Query)
    requires q.skip == 0 && q.limit != Some(0)
    ensures Answer([doc] + docs, q)
            == [Shown(doc, q.projection)] + Answer(docs, q.(limit := if q.limit.Some? then Some(q.limit.value - 1) else None))
  {
    hide Shown;
    var n := if q.limit.Some? then Some(q.limit.value - 1) else None;
    assert Drop([doc] + docs, 0) == [doc] + docs && Drop(docs, 0) == docs;
    assert Limited([doc] + docs, q.limit) == [doc] + Limited(docs, n);
  }

  lemma {:induction false} StreamIsAnswer(rest: seq<Item>, q: Query, skipped: nat, emitted: nat)
    requires skipped <= q.skip
    ensures Found(Stream(rest, q, skipped, emitted))
            == Answer(Found(rest), Query(q.skip - skipped, Left(q.limit, emitted), q.projection))
    decreases |rest|
  {
    hide Shown, Answer;
    var now := Query(q.skip - skipped, Left(q.limit, emitted), q.projection);
    if (q.limit.Some? && emitted >= q.limit.value) || rest == [] {
      AnswerEmpty(Found(rest), now);
    } else {
      var tail := rest[1..];
      match rest[0]
      case Failure(_) =>
        StreamIsAnswer(tail, q, skipped, emitted);
        assert Stream(rest, q, skipped, emitted)[1..] == Stream(tail, q, skipped, emitted);
        assert Found(rest) == Found(tail);
      case Success(doc) =>
        if skipped < q.skip {
          StreamIsAnswer(tail, q, skipped + 1, emitted);
          AnswerSkips(doc, Found(tail), now);
        } else {
          StreamIsAnswer(tail, q, skipped, emitted + 1);
          AnswerShows(doc, Found(tail), now);
          assert Stream(rest, q, skipped, emitted)[1..] == Stream(tail, q, skipped, emitted + 1);
        }
    }
  }

  lemma AnswerEmpty(docs: seq<Document>, q: Query)
    requires q.limit == Some(0) || docs == []
    ensures Answer(docs, q) == []
  {}

  lemma {:induction false} StreamWithoutError(rest: seq<Item>, q: Query, skipped: nat, emitted: nat)
    requires forall item | item in rest :: item.Success?
    ensures forall item | item in Stream(rest, q, skipped, emitted) :: item.Success?
    decreases |rest|
  {
    hide Shown;
    if rest != [] {
      assert rest[0] in rest;
      StreamWithoutError(rest[1..], q, skipped + 1, emitted);
      StreamWithoutError(rest[1..], q, skipped, emitted + 1);
    }
  }

  lemma {:induction false} AllDocuments(items: seq<Item>)
    requires forall item | item in items :: item.Success?
    ensures |items| == |Found(items)| && forall i | 0 <= i < |items| :: items[i] == Success(Found(items)[i])
  {
    if items != [] {
      AllDocuments(items[1..]);
      assert items == [items[0]] + items[1..];
    }
  }

  /** The errors of a stream, in order. */
  function Errors(items: seq<Item>): seq<Item> {
    if items == [] then [] else (if items[0].Failure? then [items[0]] else []) + Errors(items[1..])
  }

  /** The cursor passes on every error it meets before its limit; without a limit it passes on all. */
  lemma {:induction false} StreamPassesErrors(rest: seq<Item>, q: Query, skipped: nat, emitted: nat)
    ensures Errors(Stream(rest, q, skipped, emitted)) <= Errors(rest)
    ensures q.limit == None ==> Errors(Stream(rest, q, skipped, emitted)) == Errors(rest)
    decreases |rest|
  {
    hide Shown;
    if !(q.limit.Some? && emitted >= q.limit.value) && rest != [] {
      StreamPassesErrors(rest[1..], q, skipped, emitted);
      StreamPassesErrors(rest[1..], q, skipped + 1, emitted);
      StreamPassesErrors(rest[1..], q, skipped, emitted + 1);
      var all := Stream(rest, q, skipped, emitted);
      if rest[0].Failure? || skipped >= q.skip {
        assert all[1..] == Stream(rest[1..], q, skipped, if rest[0].Failure? then emitted else emitted + 1);
      }
    }
  }

  /**
   Draining the lazy cursor: its documents are those of the simple query, for every filter,
   scan, skip and limit; and if nothing errs it yields exactly those and nothing else.
   */
  lemma LazyCursorIsSimpleQuery(items: seq<Item>, matches: Matcher, q: Query)
    ensures var drained := Stream(Filtered(items, matches), q, 0, 0);
            var answer := Answer(Matching(items, matches), q);
            && Found(drained) == answer
            && (NoError(items, matches) ==>
                  |drained| == |answer| && forall i | 0 <= i < |answer| :: drained[i] == Success(answer[i]))
  {
    hide Stream, Answer, Projected;
    FilteredDocuments(items, matches);
    StreamIsAnswer(Filtered(items, matches), q, 0, 0);
    assert Left(q.limit, 0) == q.limit;
    assert Query(q.skip - 0, Left(q.limit, 0), q.projection) == q;
    if NoError(items, matches) {
      StreamWithoutError(Filtered(items, matches), q, 0, 0);
      AllDocuments(Stream(Filtered(items, matches), q, 0, 0));
    }
  }

  /* ---------- the sorted path ---------- */

  /** The documents whose field ranks with that of `d`. */
  ghost function Level(d: Document, field: string): Document -> bool {
    e => MayPrecede(FieldOf(d, field), FieldOf(e, field)) && MayPrecede(FieldOf(e, field), FieldOf(d, field))
  }

  /** A permutation in the order of the field's values, in which documents of one rank stay in scan order. */
  ghost predicate StablySorted(sorted: seq<Document>, docs: seq<Document>, field: string, desc: bool) {
    && multiset(sorted) == multiset(docs)
    && (forall i, j | 0 <= i < j < |sorted| :: MayStand(sorted[i], sorted[j], field, desc))
    && forall d | d in docs :: Filter(Level(d, field), sorted) == Filter(Level(d, field), docs)
  }

  /** Unless a NaN meets two different doubles there is one such order, and the sort finds it. */
  lemma SortedPathIsStable(docs: seq<Document>, field: string, desc: bool)
    requires !MixesNaN(docs, field)
    ensures forall sorted :: StablySorted(sorted, docs, field, desc) <==> sorted == Sort(ByField(field, desc), docs)
  {
    hide MixesNaN, ByField, Sorted, Ties, MayStand, Level;
    var cmp, all := ByField(field, desc), Elements(docs);
    MixesNaNIff(docs, field);
    DocumentOrderIff(docs, field, desc);
    SortMultiset(cmp, docs);
    SortSorted(cmp, docs, all);
    SortedByValue(Sort(cmp, docs), field, desc);
    forall d | d in docs ensures Filter(Level(d, field), Sort(cmp, docs)) == Filter(Level(d, field), docs) {
      SortStable(cmp, d, docs, all);
      LevelTies(d, docs, field, desc);
      LevelTies(d, Sort(cmp, docs), field, desc);
    }
    forall sorted | StablySorted(sorted, docs, field, desc) ensures sorted == Sort(cmp, docs) {
      SameElements(sorted, docs);
      SortedByValue(sorted, field, desc);
      forall d | d in docs ensures Ties(cmp, d, sorted) == Ties(cmp, d, Sort(cmp, docs)) {
        LevelTies(d, sorted, field, desc);
        LevelTies(d, Sort(cmp, docs), field, desc);
      }
      assert SameTies(cmp, sorted, Sort(cmp, docs), all);
      StableSortUnique(cmp, sorted, Sort(cmp, docs), all);
    }
  }

  lemma SortedByValue(docs: seq<Document>, field: string, desc: bool)
    ensures Sorted(ByField(field, desc), docs) <==>
            forall i, j | 0 <= i < j < |docs| :: MayStand(docs[i], docs[j], field, desc)
  {
    hide ByField, MayStand;
    forall a, b ensures ByField(field, desc)(a, b) != Greater <==> MayStand(a, b, field, desc) {
      FieldOrderMeaning(a, b, field, desc);
    }
  }

  lemma LevelTies(d: Document, docs: seq<Document>, field: string, desc: bool)
    ensures Ties(ByField(field, desc), d, docs) == Filter(Level(d, field), docs)
  {
    hide ByField, MayPrecede, Ties, Filter;
    forall e ensures Level(d, field)(e) <==> ByField(field, desc)(d, e) == Equal {
      FieldOrderMeaning(d, e, field, desc);
      FieldOrderMeaning(e, d, field, desc);
      FieldReverse(d, e, field, desc);
    }
    TiesFilter(ByField(field, desc), d, docs, Level(d, field));
  }

  /** Whichever way one sorts, documents with equal keys stay in scan order. */
  lemma {:induction false} TiesBothWays(d: Document, docs: seq<Document>, field: string)
    ensures Ties(ByField(field, true), d, docs) == Ties(ByField(field, false), d, docs)
  {
    if docs != [] {
      TiesBothWays(d, docs[1..], field);
    }
  }

  /* ---------- the cursors ---------- */

  class FilteredIter {
    const items: seq<Item>
    const matches: Matcher
    var position: nat

    constructor (items: seq<Item>, matches: Matcher)
      ensures this.items == items && this.matches == matches && position == 0
    {
      this.items, this.matches, position := items, matches, 0;
    }

    ghost predicate Valid()
      reads this
    {
      position <= |items|
    }

    /** What it will still yield. */
    ghost function Rest(): seq<Item>
      reads this
      requires Valid()
    {
      Filtered(items[position..], matches)
    }

    method Next() returns (item: Option<Item>)
      requires Valid()
      modifies this
      ensures Valid()
      ensures old(Rest()) == [] ==> item == None && Rest() == []
      ensures old(Rest()) != [] ==> item == Some(old(Rest())[0]) && Rest() == old(Rest())[1..]
    {
      while position < |items|
        invariant position <= |items| && Rest() == old(Rest())
      {
        var current := items[position];
        assert items[position..][1..] == items[position + 1..];
        position := position + 1;
        match current
        case Failure(e) => return Some(current);
        case Success(doc) =>
          if IsDeleted(doc) {
            continue;
          }
          match matches(doc)
          case Success(true) => return Some(Success(doc));
          case Success(false) => continue;
          case Failure(e) => return Some(Failure(e));
      }
      item := None;
    }
  }

  class LazyCursor {
    const filtered: FilteredIter
    const query: Query
    var skipped: nat
    var emitted: nat

    constructor (items: seq<Item>, matches: Matcher, query: Query)
      ensures Valid() && fresh(filtered) && filtered.items == items && filtered.matches == matches && this.query == query
      ensures Rest() == Stream(Filtered(items, matches), query, 0, 0)
    {
      filtered := new FilteredIter(items, matches);
      this.query, skipped, emitted := query, 0, 0;
      new;
      assert items[0..] == items;
    }

    ghost predicate Valid()
      reads this, filtered
    {
      filtered.Valid() && skipped <= query.skip
    }

    /** What draining from here on yields. */
    ghost function Rest(): seq<Item>
      reads this, filtered
      requires Valid()
    {
      Stream(filtered.Rest(), query, skipped, emitted)
    }

    /** One call of the closure; the filter is asked a second time and never changes its mind. */
    method Next() returns (item: Option<Item>)
      requires Valid()
      modifies this, filtered
      ensures Valid()
      ensures old(Rest()) == [] ==> item == None && Rest() == []
      ensures old(Rest()) != [] ==> item == Some(old(Rest())[0]) && Rest() == old(Rest())[1..]
    {
      hide IsDeleted, Filtered, Projected;
      while true
        invariant Valid() && Rest() == old(Rest())
        decreases |filtered.Rest()|
      {
        if query.limit.Some? && emitted >= query.limit.value {
          return None;
        }
        FilteredDocuments(filtered.items[filtered.position..], filtered.matches);
        ghost var before := filtered.Rest();
        var next := filtered.Next();
        match next
        case None => return None;
        case Some(Failure(e)) => return Some(Failure(e));
        case Some(Success(doc)) =>
          assert before[0] in before;
          if filtered.matches(doc) != Success(true) {
            continue;
          }
          if skipped < query.skip {
            skipped := skipped + 1;
            continue;
          }
          emitted := emitted + 1;
          var result := doc;
          if query.projection.Some? {
            result := Project(doc, query.projection.value);
          }
          return Some(Success(result));
      }
    }

    method Drain() returns (drained: seq<Item>)
      requires Valid()
      modifies this, filtered
      ensures drained == old(Rest())
    {
      hide Stream, Filtered;
      drained := [];
      while true
        invariant Valid() && drained + Rest() == old(Rest())
        decreases |Rest()|
      {
        ghost var before := Rest();
        var item := Next();
        match item
        case None =>
          assert drained + [] == drained;
          return;
        case Some(next) =>
          assert drained + before == drained + [next] + before[1..];
          drained := drained + [next];
      }
    }
  }

  /** `find` without a sort, drained. */
  method FindUnsorted(items: seq<Item>, matches: Matcher, query: Query) returns (drained: seq<Item>)
    ensures Found(drained) == Answer(Matching(items, matches), query)
    ensures NoError(items, matches) ==> |drained| == |Answer(Matching(items, matches), query)|
  {
    hide Answer, Matching, Stream, Filtered, Found;
    var cursor := new LazyCursor(items, matches, query);
    drained := cursor.Drain();
    LazyCursorIsSimpleQuery(items, matches, query);
  }

  /** What a scan lets through, with its errors dropped. */
  method Collect(items: seq<Item>, matches: Matcher) returns (docs: seq<Document>)
    ensures docs == Matching(items, matches)
  {
    hide Filtered, Matching, IsDeleted, Found;
    var iter := new FilteredIter(items, matches);
    assert items[0..] == items;
    docs := [];
    FoundNothing();
    while true
      invariant iter.Valid() && fresh(iter)
      invariant docs + Found(iter.Rest()) == Found(Filtered(items, matches))
      decreases |iter.Rest()|
    {
      ghost var before := iter.Rest();
      var item := iter.Next();
      if item.None? {
        break;
      }
      FoundFirst(before);
      if item.value.Success? {
        assert docs + Found(before) == docs + [item.value.value] + Found(iter.Rest());
        docs := docs + [item.value.value];
      }
    }
    assert docs + [] == docs;
    FilteredDocuments(items, matches);
  }

  lemma FoundNothing()
    ensures Found([]) == []
  {}

  lemma FoundFirst(items: seq<Item>)
    requires items != []
    ensures Found(items) == if items[0].Success? then [items[0].value] + Found(items[1..]) else Found(items[1..])
  {
    assert [] + Found(items[1..]) == Found(items[1..]);
  }

  method ShowAll(docs: seq<Document>, projection: Option<Document>) returns (shown: seq<Document>)
    ensures shown == ShownAll(docs, projection)
  {
    hide Projected;
    if projection.None? {
      assert docs == ShownAll(docs, projection);
      return docs;
    }
    shown := [];
    for i := 0 to |docs|
      invariant |shown| == i && forall k | 0 <= k < i :: shown[k] == Projected(docs[k], projection.value)
    {
      var one := Project(docs[i], projection.value);
      shown := shown + [one];
    }
  }

  /** `find` with a sort: errors are dropped, then sort, skip, truncate and project. */
  method FindSorted(items: seq<Item>, matches: Matcher, field: string, desc: bool, query: Query)
    returns (answer: seq<Document>)
    ensures exists sorted :: multiset(sorted) == multiset(Matching(items, matches)) && answer == Answer(sorted, query)
    ensures !MixesNaN(Matching(items, matches), field) ==>
              exists sorted :: StablySorted(sorted, Matching(items, matches), field, desc) && answer == Answer(sorted, query)
  {
    hide Matching, MixesNaN, StablySorted, ByField, Sort, ShownAll;
    var docs := Collect(items, matches);
    var sorted := Sort(ByField(field, desc), docs);
    SortMultiset(ByField(field, desc), docs);
    if !MixesNaN(docs, field) {
      SortedPathIsStable(docs, field, desc);
    }
    var window := sorted;
    if query.skip > 0 {
      window := Drop(window, query.skip);
    }
    window := Limited(window, query.limit);
    answer := ShowAll(window, query.projection);
    assert answer == Answer(sorted, query);
  }
}
