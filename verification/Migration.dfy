/** Importing and exporting documents as JSON: exactly what survives a trip each way. */
module Migration {
  import opened Wrappers
  import opened Documents

  const I32_MIN: int := -0x8000_0000
  const I32_MAX: int := 0x7fff_ffff
  const I64_MIN: int := -0x8000_0000_0000_0000
  const I64_MAX: int := 0x7fff_ffff_ffff_ffff
  const U64_MAX: int := 0xffff_ffff_ffff_ffff

  /** A JSON number is whole, signed or unsigned, or a finite double. */
  datatype JsonNumber = Whole(value: int) | Fractional(double: real)

  datatype Json =
    | JNull
    | JBool(flag: bool)
    | JNumber(number: JsonNumber)
    | JString(text: string)
    | JArray(items: seq<Json>)
    | JObject(members: map<string, Json>)

  /** The text formats of object ids, dates and numbers, and the rounding of large unsigned numbers. */
  datatype Texts = Texts(
    readObjectId: string -> Option<string>,
    readDate: string -> Option<int>,
    readInt32: string -> Option<int>,
    readInt64: string -> Option<int>,
    readDouble: string -> Option<Float>,
    printDate: int -> string,
    rounded: int -> real)

  type Converted = Result<Bson, ()>

  function Parsed(b: Option<Bson>): Converted {
    match b
    case Some(value) => Success(value)
    case None => Failure(())
  }

  function Single(members: map<string, Json>, key: string): Option<Json> {
    if |members| == 1 && key in members then Some(members[key]) else None
  }

  /** The extended JSON patterns; `None` when the object is an ordinary one. */
  function Extended(texts: Texts, members: map<string, Json>): Option<Converted> {
    var oid, date, int32, int64, double := Single(members, "$oid"), Single(members, "$date"),
      Single(members, "$numberInt"), Single(members, "$numberLong"), Single(members, "$numberDouble");
    if oid.Some? && oid.value.JString? then
      Some(Parsed(match texts.readObjectId(oid.value.text) case Some(x) => Some(Other("ObjectId", x)) case None => None))
    else if date.Some? && date.value.JString? then
      Some(Parsed(match texts.readDate(date.value.text) case Some(x) => Some(DateTime(x)) case None => None))
    else if int32.Some? && int32.value.JString? then
      Some(Parsed(match texts.readInt32(int32.value.text) case Some(x) => Some(Int32(x)) case None => None))
    else if int64.Some? && int64.value.JString? then
      Some(Parsed(match texts.readInt64(int64.value.text) case Some(x) => Some(Int64(x)) case None => None))
    else if double.Some? then
      match double.value
      case JString(s) =>
        Some(Parsed(match texts.readDouble(s) case Some(x) => Some(Double(x)) case None => None))
      case JNumber(n) => Some(Success(Double(Number(AsDouble(texts, n)))))
      case _ => Some(Success(Double(Number(0.0))))
    else None
  }

  function AsDouble(texts: Texts, n: JsonNumber): real {
    match n
    case Whole(i) => texts.rounded(i)
    case Fractional(r) => r
  }

  /** Collecting converted items: one failure fails them all. */
  function JoinItems(converted: seq<Converted>): (r: Converted)
    ensures r.Success? <==> forall i | 0 <= i < |converted| :: converted[i].Success?
    ensures r.Success? ==> r.value.Array? && |r.value.items| == |converted|
    ensures r.Success? ==> forall i | 0 <= i < |converted| :: r.value.items[i] == converted[i].value
  {
    if exists i | 0 <= i < |converted| :: converted[i].Failure? then Failure(())
    else Success(Array(seq(|converted|, i requires 0 <= i < |converted| => converted[i].value)))
  }

  function JoinFields(converted: map<string, Converted>): (r: Converted)
    ensures r.Success? <==> forall key | key in converted :: converted[key].Success?
    ensures r.Success? ==> r.value.Document? && r.value.fields.Keys == converted.Keys
    ensures r.Success? ==> forall key | key in converted :: r.value.fields[key] == converted[key].value
  {
    if exists key | key in converted :: converted[key].Failure? then Failure(())
    else Success(Bson.Document(map key | key in converted :: converted[key].value))
  }

  /** `json_to_bson`. */
  function ToBson(texts: Texts, json: Json): Converted {
    match json
    case JNull => Success(Null)
    case JBool(b) => Success(Boolean(b))
    case JNumber(Whole(i)) =>
      if I32_MIN <= i <= I32_MAX then Success(Int32(i))
      else if i <= I64_MAX then Success(Int64(i))
      else Success(Double(Number(texts.rounded(i))))
    case JNumber(Fractional(r)) => Success(Double(Number(r)))
    case JString(s) => Success(String(s))
    case JArray(items) =>
      JoinItems(seq(|items|, i requires 0 <= i < |items| => ToBson(texts, items[i])))
    case JObject(members) =>
      var extended := Extended(texts, members);
      if extended.Some? then extended.value
      else JoinFields(map key | key in members :: ToBson(texts, members[key]))
  }

  /** `bson_to_json`. */
  function FromBson(texts: Texts, bson: Bson): Json {
    match bson
    case Null => JNull
    case Boolean(b) => JBool(b)
    case Int32(i) => JNumber(Whole(i))
    case Int64(i) => JNumber(Whole(i))
    case Double(NaN) => JNumber(Whole(0))
    case Double(Number(r)) => JNumber(Fractional(r))
    case String(s) => JString(s)
    case DateTime(millis) => JString(texts.printDate(millis))
    case Array(items) => JArray(seq(|items|, i requires 0 <= i < |items| => FromBson(texts, items[i])))
    case Document(fields) => JObject(map key | key in fields :: FromBson(texts, fields[key]))
    case Other(_, printed) => JString(printed)
  }

  /* ---------- what becomes of each kind ---------- */

  /** What is expected of a text that stands for a value: the value, or an error. */
  predicate ReadsAs<T>(read: Option<T>, wrap: T -> Bson, converted: Converted) {
    match read
    case Some(x) => converted == Success(wrap(x))
    case None => converted == Failure(())
  }

  lemma SingleIs(key: string, v: Json, other: string)
    ensures Single(map[key := v], other) == if other == key then Some(v) else None
  {
    assert |map[key := v]| == 1;
  }

  lemma ConvertExtended(texts: Texts, members: map<string, Json>)
    requires Extended(texts, members).Some?
    ensures ToBson(texts, JObject(members)) == Extended(texts, members).value
  {
    hide Extended, JoinFields;
  }

  /** What an object of one member is read as, if the member's name is one of the five. */
  lemma OneMember(texts: Texts, key: string, v: Json)
    ensures forall other :: Single(map[key := v], other) == if other == key then Some(v) else None
    ensures Extended(texts, map[key := v]).Some? ==>
              ToBson(texts, JObject(map[key := v])) == Extended(texts, map[key := v]).value
  {
    hide Extended, Single, ToBson;
    forall other ensures Single(map[key := v], other) == if other == key then Some(v) else None {
      SingleIs(key, v, other);
    }
    if Extended(texts, map[key := v]).Some? {
      ConvertExtended(texts, map[key := v]);
    }
  }

  /** An object of one member under an extended JSON name is read as the scalar it stands for. */
  lemma MarkersConvert(texts: Texts, text: string)
    ensures ReadsAs(texts.readObjectId(text), x => Other("ObjectId", x), ToBson(texts, JObject(map["$oid" := JString(text)])))
    ensures ReadsAs(texts.readDate(text), x => DateTime(x), ToBson(texts, JObject(map["$date" := JString(text)])))
    ensures ReadsAs(texts.readInt32(text), x => Int32(x), ToBson(texts, JObject(map["$numberInt" := JString(text)])))
    ensures ReadsAs(texts.readInt64(text), x => Int64(x), ToBson(texts, JObject(map["$numberLong" := JString(text)])))
    ensures ReadsAs(texts.readDouble(text), x => Double(x), ToBson(texts, JObject(map["$numberDouble" := JString(text)])))
  {
    hide ToBson, Single;
    OneMember(texts, "$oid", JString(text));
    OneMember(texts, "$date", JString(text));
    OneMember(texts, "$numberInt", JString(text));
    OneMember(texts, "$numberLong", JString(text));
    OneMember(texts, "$numberDouble", JString(text));
  }

  /** Under the name of a double a number is taken as it is, and anything that is neither text nor number as zero. */
  lemma DoubleConverts(texts: Texts, v: Json)
    requires !v.JString?
    ensures ToBson(texts, JObject(map["$numberDouble" := v])) ==
            Success(Double(Number(if !v.JNumber? then 0.0
                                  else if v.number.Whole? then texts.rounded(v.number.value)
                                  else v.number.double)))
  {
    hide ToBson, Single;
    OneMember(texts, "$numberDouble", v);
  }

  /** Scalars become scalars of their kind: whole numbers the smallest that holds them, beyond 64 bits a double. */
  lemma ScalarsConvert(texts: Texts, i: int, r: real, s: string, b: bool)
    ensures ToBson(texts, JNull) == Success(Null) && ToBson(texts, JBool(b)) == Success(Boolean(b))
    ensures ToBson(texts, JString(s)) == Success(String(s))
    ensures ToBson(texts, JNumber(Fractional(r))) == Success(Double(Number(r)))
    ensures ToBson(texts, JNumber(Whole(i))) ==
            Success(if -0x8000_0000 <= i < 0x8000_0000 then Int32(i)
                    else if i < 0x8000_0000_0000_0000 then Int64(i)
                    else Double(Number(texts.rounded(i))))
    ensures FromBson(texts, Null) == JNull && FromBson(texts, Boolean(b)) == JBool(b)
    ensures FromBson(texts, String(s)) == JString(s)
    ensures FromBson(texts, Int32(i)) == FromBson(texts, Int64(i)) == JNumber(Whole(i))
    ensures FromBson(texts, Double(Number(r))) == JNumber(Fractional(r)) && FromBson(texts, Double(NaN)) == JNumber(Whole(0))
    ensures FromBson(texts, DateTime(i)) == JString(texts.printDate(i))
    ensures forall kind :: FromBson(texts, Other(kind, s)) == JString(s)
  {}

  /** Arrays are converted item by item, in order, and one item that cannot be converted fails them all. */
  lemma ArrayConverts(texts: Texts, items: seq<Json>)
    ensures ToBson(texts, JArray(items)).Success? <==> forall i | 0 <= i < |items| :: ToBson(texts, items[i]).Success?
    ensures ToBson(texts, JArray(items)).Success? ==>
              var b := ToBson(texts, JArray(items)).value;
              b.Array? && |b.items| == |items|
              && forall i | 0 <= i < |items| :: ToBson(texts, items[i]) == Success(b.items[i])
  {
    hide JoinItems;
    var converted := seq(|items|, i requires 0 <= i < |items| => ToBson(texts, items[i]));
    assert ToBson(texts, JArray(items)) == JoinItems(converted);
    assert forall i | 0 <= i < |items| :: converted[i].Success? <==> ToBson(texts, items[i]).Success?;
  }

  lemma ConvertMembers(texts: Texts, members: map<string, Json>) returns (converted: map<string, Converted>)
    requires Extended(texts, members) == None
    ensures converted.Keys == members.Keys && ToBson(texts, JObject(members)) == JoinFields(converted)
    ensures forall key | key in members :: converted[key] == ToBson(texts, members[key])
  {
    hide Extended, JoinFields;
    converted := map key | key in members :: ToBson(texts, members[key]);
    assert ToBson(texts, JObject(members)) == JoinFields(converted);
  }

  /** Objects that are no markers are converted member by member. */
  lemma ObjectConverts(texts: Texts, members: map<string, Json>)
    requires !IsMarker(members)
    ensures ToBson(texts, JObject(members)).Success? <==>
            forall key | key in members :: ToBson(texts, members[key]).Success?
    ensures ToBson(texts, JObject(members)).Success? ==>
              var b := ToBson(texts, JObject(members)).value;
              b.Document? && b.fields.Keys == members.Keys
              && forall key | key in members :: ToBson(texts, members[key]) == Success(b.fields[key])
  {
    hide JoinFields, IsMarker, Extended, ToBson;
    MarkersAreScalars(texts, members);
    var converted := ConvertMembers(texts, members);
    assert forall key | key in members :: converted[key].Success? <==> ToBson(texts, members[key]).Success?;
  }

  /* ---------- JSON to BSON and back ---------- */

  /** What JSON can hold. */
  predicate ValidJson(json: Json) {
    match json
    case JNumber(Whole(i)) => I64_MIN <= i <= U64_MAX
    case JArray(items) => forall item | item in items :: ValidJson(item)
    case JObject(members) => forall key | key in members :: ValidJson(members[key])
    case _ => true
  }

  /** An object the importer reads as a scalar. */
  predicate IsMarker(members: map<string, Json>) {
    |members| == 1 &&
    (("$oid" in members && members["$oid"].JString?)
     || ("$date" in members && members["$date"].JString?)
     || ("$numberInt" in members && members["$numberInt"].JString?)
     || ("$numberLong" in members && members["$numberLong"].JString?)
     || "$numberDouble" in members)
  }

  /** No unsigned number above the signed range and no marker object, at any depth. */
  predicate Plain(json: Json) {
    match json
    case JNumber(Whole(i)) => i <= I64_MAX
    case JArray(items) => forall item | item in items :: Plain(item)
    case JObject(members) => !IsMarker(members) && forall key | key in members :: Plain(members[key])
    case _ => true
  }

  lemma MarkersAreScalars(texts: Texts, members: map<string, Json>)
    ensures Extended(texts, members).Some? <==> IsMarker(members)
    ensures var e := Extended(texts, members);
            e.Some? && e.value.Success? ==> !FromBson(texts, e.value.value).JObject?
  {}

  predicate Returns(texts: Texts, json: Json) {
    var b := ToBson(texts, json);
    b.Success? && FromBson(texts, b.value) == json
  }

  lemma ArrayReturns(texts: Texts, items: seq<Json>)
    ensures Returns(texts, JArray(items)) <==> forall i | 0 <= i < |items| :: Returns(texts, items[i])
  {
    hide JoinItems;
    var b := ToBson(texts, JArray(items));
    assert forall i | 0 <= i < |items| && Returns(texts, items[i]) :: ToBson(texts, items[i]).Success?;
    if b.Success? {
      var back := FromBson(texts, b.value);
      assert |back.items| == |items| && forall i | 0 <= i < |items| :: back.items[i] == FromBson(texts, b.value.items[i]);
      if back == JArray(items) {
        forall i | 0 <= i < |items| ensures Returns(texts, items[i]) {
          assert back.items[i] == items[i];
        }
      }
      if forall i | 0 <= i < |items| :: Returns(texts, items[i]) {
        assert back.items == items;
      }
    }
  }

  lemma ObjectReturns(texts: Texts, members: map<string, Json>)
    ensures Returns(texts, JObject(members)) <==>
            !IsMarker(members) && forall key | key in members :: Returns(texts, members[key])
  {
    hide IsMarker, Extended, JoinFields;
    MarkersAreScalars(texts, members);
    var b := ToBson(texts, JObject(members));
    assert forall key | key in members && Returns(texts, members[key]) :: ToBson(texts, members[key]).Success?;
    if !IsMarker(members) && b.Success? {
      var back := FromBson(texts, b.value);
      assert back.members.Keys == members.Keys;
      if back == JObject(members) {
        forall key | key in members ensures Returns(texts, members[key]) {
          assert back.members[key] == members[key];
        }
      }
      if forall key | key in members :: Returns(texts, members[key]) {
        assert back.members == members;
      }
    }
  }

  /** Importing a JSON value and exporting it again gives it back exactly when it is plain. */
  lemma {:induction false} JsonRoundTripIff(texts: Texts, json: Json)
    requires ValidJson(json)
    ensures Returns(texts, json) <==> Plain(json)
  {
    hide Returns, IsMarker;
    match json
    case JArray(items) =>
      ArrayReturns(texts, items);
      forall i | 0 <= i < |items| ensures Returns(texts, items[i]) <==> Plain(items[i]) {
        JsonRoundTripIff(texts, items[i]);
      }
    case JObject(members) =>
      ObjectReturns(texts, members);
      forall key | key in members ensures Returns(texts, members[key]) <==> Plain(members[key]) {
        JsonRoundTripIff(texts, members[key]);
      }
    case _ => ScalarReturns(texts, json);
  }

  lemma ScalarReturns(texts: Texts, json: Json)
    requires ValidJson(json) && !json.JArray? && !json.JObject?
    ensures Returns(texts, json) <==> Plain(json)
  {}

  /* ---------- BSON to JSON and back ---------- */

  predicate ValidBson(bson: Bson) {
    match bson
    case Int32(i) => I32_MIN <= i <= I32_MAX
    case Int64(i) => I64_MIN <= i <= I64_MAX
    case Array(items) => forall item | item in items :: ValidBson(item)
    case Document(fields) => forall key | key in fields :: ValidBson(fields[key])
    case _ => true
  }

  /** A document whose export the importer takes for a scalar. */
  predicate LooksLikeMarker(fields: Document) {
    |fields| == 1 &&
    (("$oid" in fields && fields["$oid"].String?)
     || ("$date" in fields && fields["$date"].String?)
     || ("$numberInt" in fields && fields["$numberInt"].String?)
     || ("$numberLong" in fields && fields["$numberLong"].String?)
     || "$numberDouble" in fields)
  }

  /** Only kinds JSON has, 64-bit integers only where 32 bits do not do, and no marker document. */
  predicate Portable(bson: Bson) {
    match bson
    case Int64(i) => !(I32_MIN <= i <= I32_MAX)
    case Double(NaN) => false
    case DateTime(_) => false
    case Other(_, _) => false
    case Array(items) => forall item | item in items :: Portable(item)
    case Document(fields) => !LooksLikeMarker(fields) && forall key | key in fields :: Portable(fields[key])
    case _ => true
  }

  predicate Survives(texts: Texts, bson: Bson) {
    ToBson(texts, FromBson(texts, bson)) == Success(bson)
  }

  lemma ArraySurvives(texts: Texts, items: seq<Bson>)
    ensures Survives(texts, Array(items)) <==> forall i | 0 <= i < |items| :: Survives(texts, items[i])
  {
    hide JoinItems;
    var exported := FromBson(texts, Array(items));
    assert |exported.items| == |items| && forall i | 0 <= i < |items| :: exported.items[i] == FromBson(texts, items[i]);
    var b := ToBson(texts, exported);
    if b == Success(Array(items)) {
      forall i | 0 <= i < |items| ensures Survives(texts, items[i]) {
        assert b.value.items[i] == items[i];
      }
    }
    if forall i | 0 <= i < |items| :: Survives(texts, items[i]) {
      assert b.Success? && b.value.items == items;
    }
  }

  lemma DocumentSurvives(texts: Texts, fields: Document)
    requires !IsMarker(FromBson(texts, Bson.Document(fields)).members)
    ensures Survives(texts, Bson.Document(fields)) <==> forall key | key in fields :: Survives(texts, fields[key])
  {
    hide IsMarker, Extended, JoinFields;
    var exported := FromBson(texts, Bson.Document(fields));
    MarkersAreScalars(texts, exported.members);
    assert exported.members.Keys == fields.Keys;
    var b := ToBson(texts, exported);
    if b == Success(Bson.Document(fields)) {
      forall key | key in fields ensures Survives(texts, fields[key]) {
        assert b.value.fields[key] == fields[key];
      }
    }
    if forall key | key in fields :: Survives(texts, fields[key]) {
      assert b.Success? && b.value.fields == fields;
    }
  }

  /** Importing gives back an ordinary document only for an object that is no marker. */
  lemma MarkerIsLost(texts: Texts, fields: Document)
    requires IsMarker(FromBson(texts, Bson.Document(fields)).members)
    ensures !Survives(texts, Bson.Document(fields))
  {
    MarkersAreScalars(texts, FromBson(texts, Bson.Document(fields)).members);
  }

  /** The exported document is a marker when it looks like one, or when its one field is a kind that exports as text. */
  lemma ExportedMarker(texts: Texts, fields: Document)
    ensures LooksLikeMarker(fields) ==> IsMarker(FromBson(texts, Bson.Document(fields)).members)
    ensures IsMarker(FromBson(texts, Bson.Document(fields)).members) ==>
              LooksLikeMarker(fields) || exists key | key in fields :: fields[key].DateTime? || fields[key].Other?
  {
    var members := FromBson(texts, Bson.Document(fields)).members;
    assert members.Keys == fields.Keys;
    assert |members| == |members.Keys| && |fields| == |fields.Keys|;
    forall key | key in fields
      ensures members[key].JString? <==> fields[key].String? || fields[key].DateTime? || fields[key].Other?
    {
      assert members[key] == FromBson(texts, fields[key]);
      ExportsAsText(texts, fields[key]);
    }
  }

  lemma ExportsAsText(texts: Texts, bson: Bson)
    ensures FromBson(texts, bson).JString? <==> bson.String? || bson.DateTime? || bson.Other?
  {}

  /** Exporting a stored value and importing it again gives it back exactly when it is portable. */
  lemma {:induction false} BsonRoundTripIff(texts: Texts, bson: Bson)
    requires ValidBson(bson)
    ensures Survives(texts, bson) <==> Portable(bson)
  {
    hide Survives, IsMarker, LooksLikeMarker, ToBson;
    match bson
    case Array(items) =>
      ArraySurvives(texts, items);
      forall i | 0 <= i < |items| ensures Survives(texts, items[i]) <==> Portable(items[i]) {
        BsonRoundTripIff(texts, items[i]);
      }
    case Document(fields) =>
      ExportedMarker(texts, fields);
      forall key | key in fields ensures Survives(texts, fields[key]) <==> Portable(fields[key]) {
        BsonRoundTripIff(texts, fields[key]);
      }
      if IsMarker(FromBson(texts, bson).members) {
        MarkerIsLost(texts, fields);
      } else {
        DocumentSurvives(texts, fields);
      }
    case _ => ScalarSurvives(texts, bson);
  }

  lemma ScalarSurvives(texts: Texts, bson: Bson)
    requires ValidBson(bson) && !bson.Array? && !bson.Document?
    ensures Survives(texts, bson) <==> Portable(bson)
  {}
}
