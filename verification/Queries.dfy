/** Sort keys with their order, and projections. */
module Queries {
  import opened Wrappers
  import opened Orders
  import opened Documents
  import opened StableSort

  datatype SortKey =
    | NullKey
    | Int64Key(int64: int)
    | DoubleKey(double: Float)
    | StringKey(text: string)
    | DateTimeKey(millis: int)

  /** `sort_key`: the error for the kinds one cannot sort by carries nothing the caller uses. */
  function SortKeyOf(doc: Document, field: string): Result<SortKey, ()> {
    if field !in doc then Success(NullKey)
    else
      match doc[field]
      case Int32(v) => Success(Int64Key(v))
      case Int64(v) => Success(Int64Key(v))
      case Double(v) => Success(DoubleKey(v))
      case String(v) => Success(StringKey(v))
      case DateTime(v) => Success(DateTimeKey(v))
      case Null => Success(NullKey)
      case _ => Failure(())
  }

  function KeyOrNull(doc: Document, field: string): SortKey {
    match SortKeyOf(doc, field)
    case Success(key) => key
    case Failure(_) => NullKey
  }

  function Rank(key: SortKey): nat {
    match key
    case NullKey => 0
    case Int64Key(_) => 1
    case DoubleKey(_) => 2
    case StringKey(_) => 3
    case DateTimeKey(_) => 4
  }

  /** `partial_cmp` with a missing answer read as equal. */
  function CompareFloat(a: Float, b: Float): Ordering {
    if a.NaN? || b.NaN? then Equal
    else if a.value < b.value then Less else if a.value == b.value then Equal else Greater
  }

  /** `SortKey::cmp`. */
  function CompareKeys(a: SortKey, b: SortKey): Ordering {
    match (a, b)
    case (Int64Key(x), Int64Key(y)) => CompareInt(x, y)
    case (DoubleKey(x), DoubleKey(y)) => CompareFloat(x, y)
    case (StringKey(x), StringKey(y)) => CompareString(x, y)
    case (DateTimeKey(x), DateTimeKey(y)) => CompareInt(x, y)
    case _ => CompareInt(Rank(a), Rank(b))
  }

  /** A NaN together with two different numbers. */
  ghost predicate NaNAmongNumbers(keys: iset<SortKey>) {
    DoubleKey(NaN) in keys && exists x, y :: DoubleKey(Number(x)) in keys && DoubleKey(Number(y)) in keys && x != y
  }

  lemma KeysReverse(a: SortKey, b: SortKey)
    ensures CompareKeys(b, a) == CompareKeys(a, b).Reverse()
    ensures CompareKeys(a, a) == Equal
  {
    if a.StringKey? {
      CompareStringTotalOrder(a.text, a.text, a.text);
      if b.StringKey? {
        CompareStringTotalOrder(a.text, b.text, b.text);
      }
    }
  }

  lemma KeysTransitive(a: SortKey, b: SortKey, c: SortKey)
    requires CompareKeys(a, b) != Greater && CompareKeys(b, c) != Greater
    requires b == DoubleKey(NaN) ==> CompareKeys(a, c) != Greater
    ensures CompareKeys(a, c) != Greater
  {
    if a.StringKey? && b.StringKey? && c.StringKey? {
      CompareStringTotalOrder(a.text, b.text, c.text);
    }
  }

  /** The order of sort keys is a total preorder exactly on the sets in which no NaN meets two different numbers. */
  lemma KeyOrderIff(keys: iset<SortKey>)
    ensures PreorderOn(CompareKeys, keys) <==> !NaNAmongNumbers(keys)
  {
    if NaNAmongNumbers(keys) {
      var x, y :| DoubleKey(Number(x)) in keys && DoubleKey(Number(y)) in keys && x != y;
      var low, high := DoubleKey(Number(if x < y then x else y)), DoubleKey(Number(if x < y then y else x));
      assert CompareKeys(high, DoubleKey(NaN)) == Equal && CompareKeys(DoubleKey(NaN), low) == Equal;
      assert CompareKeys(high, low) == Greater;
    } else {
      forall a, b | a in keys && b in keys
        ensures CompareKeys(a, a) == Equal && CompareKeys(b, a) == CompareKeys(a, b).Reverse()
      {
        KeysReverse(a, b);
      }
      forall a, b, c | a in keys && b in keys && c in keys && CompareKeys(a, b) != Greater && CompareKeys(b, c) != Greater
        ensures CompareKeys(a, c) != Greater
      {
        KeysTransitive(a, b, c);
      }
    }
  }

  /** The comparison a sorted query uses. */
  function ByField(field: string, desc: bool): (Document, Document) -> Ordering {
    (a, b) =>
      var order := CompareKeys(KeyOrNull(a, field), KeyOrNull(b, field));
      if desc then order.Reverse() else order
  }

  ghost function KeysOf(docs: seq<Document>, field: string): iset<SortKey> {
    iset d | d in docs :: KeyOrNull(d, field)
  }

  lemma FieldReverse(a: Document, b: Document, field: string, desc: bool)
    ensures ByField(field, desc)(a, a) == Equal
    ensures ByField(field, desc)(b, a) == ByField(field, desc)(a, b).Reverse()
  {
    hide CompareKeys, KeyOrNull;
    KeysReverse(KeyOrNull(a, field), KeyOrNull(b, field));
  }

  /** Three documents break the order exactly when their keys, read in the direction of the sort, do. */
  lemma FieldTransitive(a: Document, b: Document, c: Document, field: string, desc: bool)
    ensures var x, y, z := KeyOrNull(a, field), KeyOrNull(b, field), KeyOrNull(c, field);
            var order := ByField(field, desc);
            (order(a, b) != Greater && order(b, c) != Greater && order(a, c) == Greater)
            == if desc then CompareKeys(z, y) != Greater && CompareKeys(y, x) != Greater && CompareKeys(z, x) == Greater
               else CompareKeys(x, y) != Greater && CompareKeys(y, z) != Greater && CompareKeys(x, z) == Greater
  {
    hide CompareKeys, KeyOrNull;
    var x, y, z := KeyOrNull(a, field), KeyOrNull(b, field), KeyOrNull(c, field);
    KeysReverse(x, y);
    KeysReverse(y, z);
    KeysReverse(x, z);
  }

  /** So documents can be sorted by a field, either way, unless a NaN in it meets two different numbers. */
  lemma DocumentOrderIff(docs: seq<Document>, field: string, desc: bool)
    ensures PreorderOn(ByField(field, desc), Elements(docs)) <==> !NaNAmongNumbers(KeysOf(docs, field))
  {
    hide CompareKeys, KeyOrNull, NaNAmongNumbers, ByField;
    var keys, order := KeysOf(docs, field), ByField(field, desc);
    KeyOrderIff(keys);
    forall a, b ensures order(a, a) == Equal && order(b, a) == order(a, b).Reverse() {
      FieldReverse(a, b, field, desc);
    }
    if PreorderOn(CompareKeys, keys) {
      forall a, b, c | a in docs && b in docs && c in docs && order(a, b) != Greater && order(b, c) != Greater
        ensures order(a, c) != Greater
      {
        FieldTransitive(a, b, c, field, desc);
        assert KeyOrNull(a, field) in keys && KeyOrNull(b, field) in keys && KeyOrNull(c, field) in keys;
      }
    } else {
      UnorderedDocuments(docs, field, desc);
    }
  }

  lemma UnorderedDocuments(docs: seq<Document>, field: string, desc: bool)
    requires !PreorderOn(CompareKeys, KeysOf(docs, field))
    ensures !PreorderOn(ByField(field, desc), Elements(docs))
  {
    hide CompareKeys, KeyOrNull, ByField;
    var keys := KeysOf(docs, field);
    forall x, y ensures CompareKeys(y, x) == CompareKeys(x, y).Reverse() && CompareKeys(x, x) == Equal {
      KeysReverse(x, y);
    }
    var x, y, z :| x in keys && y in keys && z in keys && CompareKeys(x, y) != Greater && CompareKeys(y, z) != Greater
                   && CompareKeys(x, z) == Greater;
    var a :| a in docs && KeyOrNull(a, field) == x;
    var b :| b in docs && KeyOrNull(b, field) == y;
    var c :| c in docs && KeyOrNull(c, field) == z;
    assert a in Elements(docs) && b in Elements(docs) && c in Elements(docs);
    FieldTransitive(a, b, c, field, false);
    FieldTransitive(c, b, a, field, true);
  }

  /* ---------- the order by what the documents hold ---------- */

  function FieldOf(doc: Document, field: string): Option<Bson> {
    if field in doc then Some(doc[field]) else None
  }

  predicate IsWhole(v: Option<Bson>) {
    v.Some? && (v.value.Int32? || v.value.Int64?)
  }

  function WholeOf(v: Option<Bson>): int
    requires IsWhole(v)
  {
    match v.value
    case Int32(n) => n
    case Int64(n) => n
  }

  predicate IsDouble(v: Option<Bson>) {
    v.Some? && v.value.Double?
  }

  predicate IsText(v: Option<Bson>) {
    v.Some? && v.value.String?
  }

  predicate IsDate(v: Option<Bson>) {
    v.Some? && v.value.DateTime?
  }

  /**
   In an ascending answer a document with `x` in the field may come before one with `y`: what is
   null, absent or cannot be sorted by comes first, then whole numbers, doubles, texts and dates,
   each kind in its own order. A NaN is anywhere among the doubles.
   */
  ghost predicate MayPrecede(x: Option<Bson>, y: Option<Bson>) {
    if IsWhole(x) then IsDouble(y) || IsText(y) || IsDate(y) || (IsWhole(y) && WholeOf(x) <= WholeOf(y))
    else if IsDouble(x) then IsText(y) || IsDate(y) || (IsDouble(y) && FloatAtMost(x.value.double, y.value.double))
    else if IsText(x) then
      IsDate(y) || (IsText(y) && (x.value.text == y.value.text || TextBelow(x.value.text, y.value.text)))
    else if IsDate(x) then IsDate(y) && x.value.millis <= y.value.millis
    else true
  }

  predicate FloatAtMost(a: Float, b: Float) {
    a.NaN? || b.NaN? || a.value <= b.value
  }

  /** The same in the direction that was asked for. */
  ghost predicate MayStand(a: Document, b: Document, field: string, desc: bool) {
    if desc then MayPrecede(FieldOf(b, field), FieldOf(a, field)) else MayPrecede(FieldOf(a, field), FieldOf(b, field))
  }

  /** The comparison of a sorted query is the order by value, reversed when that is asked for. */
  lemma FieldOrderMeaning(a: Document, b: Document, field: string, desc: bool)
    ensures ByField(field, desc)(a, b) != Greater <==> MayStand(a, b, field, desc)
  {
    hide CompareKeys, KeyOrNull, MayPrecede;
    KeyOrderMeaning(a, b, field);
    KeyOrderMeaning(b, a, field);
    KeysReverse(KeyOrNull(a, field), KeyOrNull(b, field));
  }

  lemma KeyOrderMeaning(a: Document, b: Document, field: string)
    ensures CompareKeys(KeyOrNull(a, field), KeyOrNull(b, field)) != Greater
            <==> MayPrecede(FieldOf(a, field), FieldOf(b, field))
  {
    hide CompareString, TextBelow;
    if IsText(FieldOf(a, field)) && IsText(FieldOf(b, field)) {
      CompareStringMeaning(a[field].text, b[field].text);
      CompareStringMeaning(b[field].text, a[field].text);
      CompareStringTotalOrder(a[field].text, b[field].text, b[field].text);
    }
  }

  ghost predicate Carries(docs: seq<Document>, field: string, v: Bson) {
    exists d | d in docs :: FieldOf(d, field) == Some(v)
  }

  /** In the field a NaN meets two different doubles. */
  ghost predicate MixesNaN(docs: seq<Document>, field: string) {
    && Carries(docs, field, Double(NaN))
    && exists x, y :: Carries(docs, field, Double(Number(x))) && Carries(docs, field, Double(Number(y))) && x != y
  }

  lemma MixesNaNIff(docs: seq<Document>, field: string)
    ensures MixesNaN(docs, field) <==> NaNAmongNumbers(KeysOf(docs, field))
  {
    forall v: Float ensures Carries(docs, field, Double(v)) <==> DoubleKey(v) in KeysOf(docs, field) {
      CarriesKey(docs, field, v);
    }
    hide Carries, KeysOf;
  }

  lemma CarriesKey(docs: seq<Document>, field: string, v: Float)
    ensures Carries(docs, field, Double(v)) <==> DoubleKey(v) in KeysOf(docs, field)
  {
    forall d | d in docs ensures FieldOf(d, field) == Some(Double(v)) <==> KeyOrNull(d, field) == DoubleKey(v) {}
  }

  /* ---------- projections ---------- */

  predicate Asks(projection: Document, key: string, flag: int) {
    key in projection && projection[key] == Int32(flag)
  }

  predicate IsInclusion(projection: Document) {
    exists key | key in projection :: projection[key] == Int32(1)
  }

  /** Whether a projection lets a field through, which depends on no document. */
  predicate Wanted(projection: Document, key: string) {
    if IsInclusion(projection) then Asks(projection, key, 1) || (key == ID && !Asks(projection, ID, 0))
    else !Asks(projection, key, 0)
  }

  function Projected(doc: Document, projection: Document): Document {
    map key | key in doc && Wanted(projection, key) :: doc[key]
  }

  /** A field is shown: with inclusions, if it is included or is the id and not excluded; otherwise if it is not excluded. */
  lemma ProjectedHas(doc: Document, projection: Document, key: string)
    ensures key in Projected(doc, projection) <==>
            key in doc &&
            if exists k | k in projection :: projection[k] == Int32(1) then
              (key in projection && projection[key] == Int32(1))
              || (key == "_id" && !(key in projection && projection[key] == Int32(0)))
            else !(key in projection && projection[key] == Int32(0))
    ensures key in Projected(doc, projection) ==> Projected(doc, projection)[key] == doc[key]
  {}

  lemma ProjectTwice(doc: Document, projection: Document)
    ensures Projected(Projected(doc, projection), projection) == Projected(doc, projection)
  {}

  /** `project`, field by field; the order of the fields does not matter. */
  method Project(doc: Document, projection: Document) returns (result: Document)
    ensures result == Projected(doc, projection)
  {
    result := map[];
    if IsInclusion(projection) {
      var keys := projection.Keys;
      while keys != {}
        invariant keys <= projection.Keys
        invariant result == map key | key in doc && key !in keys && Asks(projection, key, 1) :: doc[key]
      {
        var key :| key in keys;
        keys := keys - {key};
        if projection[key] == Int32(1) && key in doc {
          result := result[key := doc[key]];
        }
      }
      if !Asks(projection, ID, 0) && ID in doc {
        result := result[ID := doc[ID]];
      }
    } else {
      var keys := doc.Keys;
      while keys != {}
        invariant keys <= doc.Keys
        invariant result == map key | key in doc && key !in keys && !Asks(projection, key, 0) :: doc[key]
      {
        var key :| key in keys;
        keys := keys - {key};
        if !Asks(projection, key, 0) {
          result := result[key := doc[key]];
        }
      }
    }
  }
}
