/**
 Document storage: nested collections as one flat table of byte keys. A key is the
 collection's name, a zero byte and the printed id; names and ids are their bytes here.
 */
module Storage {
  import opened Wrappers
  import opened Orders
  import opened StableSort
  import opened Frames

  type Bytes = seq<byte>

  /** `collection_prefix`. */
  function Prefix(collection: Bytes): Bytes {
    collection + [0]
  }

  /** `encode_key`. */
  function KeyOf(collection: Bytes, id: Bytes): Bytes {
    Prefix(collection) + id
  }

  /** No collection's name is another's followed by a zero byte and more. */
  ghost predicate Separate(names: iset<Bytes>) {
    forall c, d | c in names && d in names :: !(Prefix(c) <= d)
  }

  lemma ZeroFreeIsSeparate(names: iset<Bytes>)
    requires forall c | c in names :: 0 !in c
    ensures Separate(names)
  {
    forall c, d | c in names && d in names ensures !(Prefix(c) <= d) {
      assert Prefix(c)[|c|] == 0;
      assert |c| < |d| ==> d[|c|] in d;
    }
  }

  lemma ShorterOwner(c: Bytes, d: Bytes, key: Bytes)
    requires Prefix(c) <= key && Prefix(d) <= key && |c| < |d|
    ensures Prefix(c) <= d
  {
    assert forall i | 0 <= i <= |c| :: Prefix(c)[i] == key[i] && Prefix(d)[i] == key[i] && Prefix(d)[i] == d[i];
  }

  lemma OneOwner(names: iset<Bytes>, c: Bytes, d: Bytes, key: Bytes)
    requires Separate(names) && c in names && d in names
    requires Prefix(c) <= key && Prefix(d) <= key
    ensures c == d
  {
    if |c| < |d| {
      ShorterOwner(c, d, key);
    } else if |d| < |c| {
      ShorterOwner(d, c, key);
    } else {
      assert c == Prefix(c)[..|c|] == key[..|c|] == Prefix(d)[..|d|] == d;
    }
  }

  lemma KeySplits(c: Bytes, id: Bytes)
    ensures Prefix(c) <= KeyOf(c, id) && KeyOf(c, id)[|Prefix(c)|..] == id
  {}

  /** Two documents never share a key exactly when the collection names are separate. */
  lemma KeysInjectiveIff(names: iset<Bytes>)
    ensures (forall c, d, i, j | c in names && d in names && KeyOf(c, i) == KeyOf(d, j) :: c == d && i == j)
            <==> Separate(names)
  {
    if Separate(names) {
      forall c, d, i, j | c in names && d in names && KeyOf(c, i) == KeyOf(d, j) ensures c == d && i == j {
        KeySplits(c, i);
        KeySplits(d, j);
        OneOwner(names, c, d, KeyOf(c, i));
      }
    } else {
      var c, d :| c in names && d in names && Prefix(c) <= d;
      SharedKey(c, d);
    }
  }

  lemma SharedKey(c: Bytes, d: Bytes)
    requires Prefix(c) <= d
    ensures KeyOf(c, d[|c| + 1..] + [0]) == KeyOf(d, [])
    ensures c != d
  {
    assert d == Prefix(c) + d[|c| + 1..];
  }

  /* ---------- the two stores ---------- */

  type Flat<V> = map<Bytes, V>

  /** The in-memory store keeps a map per collection, under the same keys. */
  type Nested<V> = map<Bytes, map<Bytes, V>>

  datatype Op<V> =
    | Get(collection: Bytes, id: Bytes)
    | Put(collection: Bytes, id: Bytes, doc: V)
    | Delete(collection: Bytes, id: Bytes)

  datatype Reply<V> = Got(doc: Option<V>) | Stored | Removed(existed: bool)

  function FlatStep<V>(table: Flat<V>, op: Op<V>): (Flat<V>, Reply<V>) {
    var key := KeyOf(op.collection, op.id);
    match op
    case Get(_, _) => (table, Got(if key in table then Some(table[key]) else None))
    case Put(_, _, doc) => (table[key := doc], Stored)
    case Delete(_, _) => (table - {key}, Removed(key in table))
  }

  function NestedStep<V>(store: Nested<V>, op: Op<V>): (Nested<V>, Reply<V>) {
    var c, key := op.collection, KeyOf(op.collection, op.id);
    match op
    case Get(_, _) => (store, Got(if c in store && key in store[c] then Some(store[c][key]) else None))
    case Put(_, _, doc) => (store[c := (if c in store then store[c] else map[])[key := doc]], Stored)
    case Delete(_, _) =>
      if c in store then (store[c := store[c] - {key}], Removed(key in store[c])) else (store, Removed(false))
  }

  function FlatRun<V>(table: Flat<V>, ops: seq<Op<V>>): (Flat<V>, seq<Reply<V>>) {
    if ops == [] then (table, [])
    else
      var (t, replies) := FlatRun(table, ops[..|ops| - 1]);
      var (u, reply) := FlatStep(t, ops[|ops| - 1]);
      (u, replies + [reply])
  }

  function NestedRun<V>(store: Nested<V>, ops: seq<Op<V>>): (Nested<V>, seq<Reply<V>>) {
    if ops == [] then (store, [])
    else
      var (t, replies) := NestedRun(store, ops[..|ops| - 1]);
      var (u, reply) := NestedStep(t, ops[|ops| - 1]);
      (u, replies + [reply])
  }

  ghost predicate Within<V>(ops: seq<Op<V>>, names: iset<Bytes>) {
    forall op | op in ops :: op.collection in names
  }

  ghost predicate Sits<V>(table: Flat<V>, c: Bytes, key: Bytes, doc: V) {
    Prefix(c) <= key && key in table && table[key] == doc
  }

  ghost predicate Owned<V>(store: Nested<V>, key: Bytes) {
    exists c | c in store :: key in store[c]
  }

  /** Every collection's map is the part of the table below its prefix. */
  ghost predicate Represents<V>(table: Flat<V>, store: Nested<V>, names: iset<Bytes>) {
    && (forall c | c in store :: c in names)
    && (forall c, key | c in store && key in store[c] :: Sits(table, c, key, store[c][key]))
    && (forall key | key in table :: Owned(store, key))
  }

  lemma Below<V>(table: Flat<V>, store: Nested<V>, names: iset<Bytes>, c: Bytes, key: Bytes)
    requires Represents(table, store, names) && Separate(names) && c in names && Prefix(c) <= key
    ensures key in table <==> c in store && key in store[c]
    ensures key in table ==> table[key] == store[c][key]
  {
    if key in table {
      assert Owned(store, key);
      var d :| d in store && key in store[d];
      assert Sits(table, d, key, store[d][key]);
      OneOwner(names, c, d, key);
    }
  }

  lemma StepAgrees<V>(table: Flat<V>, store: Nested<V>, names: iset<Bytes>, op: Op<V>)
    requires Represents(table, store, names) && Separate(names) && op.collection in names
    ensures Represents(FlatStep(table, op).0, NestedStep(store, op).0, names)
    ensures FlatStep(table, op).1 == NestedStep(store, op).1
  {
    hide KeyOf, Separate, Represents;
    var c, key := op.collection, KeyOf(op.collection, op.id);
    assert Prefix(c) <= key by { KeySplits(c, op.id); }
    Below(table, store, names, c, key);
    match op
    case Get(_, _) =>
    case Put(_, _, doc) => PutRepresents(table, store, names, c, key, doc);
    case Delete(_, _) =>
      if c in store {
        DeleteRepresents(table, store, names, c, key);
      } else {
        assert table - {key} == table;
      }
  }

  lemma OwnedBy<V>(store: Nested<V>, c: Bytes, key: Bytes)
    requires c in store && key in store[c]
    ensures Owned(store, key)
  {}

  /** A key below `c` sits in no other collection. */
  lemma NotElsewhere<V>(table: Flat<V>, store: Nested<V>, names: iset<Bytes>, c: Bytes, key: Bytes)
    requires Represents(table, store, names) && Separate(names) && c in names && Prefix(c) <= key
    ensures forall d | d in store && d != c :: key !in store[d]
  {
    hide Separate, Owned;
    forall d | d in store && key in store[d] ensures d == c {
      assert Sits(table, d, key, store[d][key]);
      OneOwner(names, c, d, key);
    }
  }

  lemma PutRepresents<V>(table: Flat<V>, store: Nested<V>, names: iset<Bytes>, c: Bytes, key: Bytes, doc: V)
    requires Represents(table, store, names) && Separate(names) && c in names && Prefix(c) <= key
    ensures Represents(table[key := doc], store[c := (if c in store then store[c] else map[])[key := doc]], names)
  {
    hide Separate, Prefix, Owned;
    var mine := (if c in store then store[c] else map[])[key := doc];
    var t, u := table[key := doc], store[c := mine];
    NotElsewhere(table, store, names, c, key);
    forall d, k | d in u && k in u[d] ensures Sits(t, d, k, u[d][k]) {
      if !(d == c && k == key) {
        assert d in store && k in store[d];
        assert Sits(table, d, k, store[d][k]);
      }
    }
    forall k | k in t ensures Owned(u, k) {
      if k == key {
        OwnedBy(u, c, k);
      } else {
        assert Owned(store, k);
        OwnedStays(store, u, k);
      }
    }
  }

  lemma OwnedStays<V>(store: Nested<V>, u: Nested<V>, key: Bytes)
    requires Owned(store, key)
    requires forall d | d in store && key in store[d] :: d in u && key in u[d]
    ensures Owned(u, key)
  {}

  lemma DeleteRepresents<V>(table: Flat<V>, store: Nested<V>, names: iset<Bytes>, c: Bytes, key: Bytes)
    requires Represents(table, store, names) && Separate(names) && c in store && Prefix(c) <= key
    ensures Represents(table - {key}, store[c := store[c] - {key}], names)
  {
    hide Separate, Prefix, Owned;
    var t, u := table - {key}, store[c := store[c] - {key}];
    NotElsewhere(table, store, names, c, key);
    forall d, k | d in u && k in u[d] ensures Sits(t, d, k, u[d][k]) {
      assert d in store && k in store[d];
      assert Sits(table, d, k, store[d][k]);
    }
    forall k | k in t ensures Owned(u, k) {
      assert Owned(store, k);
      OwnedStays(store, u, k);
    }
  }

  lemma {:induction false} RunsAgree<V>(ops: seq<Op<V>>, names: iset<Bytes>)
    requires Separate(names) && Within(ops, names)
    ensures Represents(FlatRun(map[], ops).0, NestedRun(map[], ops).0, names)
    ensures FlatRun(map[], ops).1 == NestedRun(map[], ops).1
  {
    hide FlatStep, NestedStep, Separate, Represents;
    if ops == [] {
      EmptyAgrees<V>(names);
    } else {
      var init, last := ops[..|ops| - 1], ops[|ops| - 1];
      assert Within(init, names);
      assert last in ops;
      RunsAgree(init, names);
      StepAgrees(FlatRun<V>(map[], init).0, NestedRun<V>(map[], init).0, names, last);
    }
  }

  lemma EmptyAgrees<V>(names: iset<Bytes>)
    ensures Represents<V>(map[], map[], names)
  {}

  /**
   The flat table answers every run of puts, gets and deletes on a family of collections as the
   nested store does if and only if their names are separate.
   */
  lemma FlatRefinesNestedIff<V(!new)>(names: iset<Bytes>, v: V, w: V)
    requires v != w
    ensures (forall ops: seq<Op<V>> | Within(ops, names) :: FlatRun(map[], ops).1 == NestedRun(map[], ops).1)
            <==> Separate(names)
  {
    hide Within;
    if Separate(names) {
      forall ops: seq<Op<V>> | Within(ops, names) ensures FlatRun(map[], ops).1 == NestedRun(map[], ops).1 {
        RunsAgree(ops, names);
      }
    } else {
      var c, d :| c in names && d in names && Prefix(c) <= d;
      Overwritten(c, d, v, w, names);
    }
  }

  /* ---------- what a store is for ---------- */

  /** What was last put under a collection and an id and not deleted since. */
  function LastPut<V>(ops: seq<Op<V>>, c: Bytes, id: Bytes): Option<V> {
    if ops == [] then None
    else
      var last := ops[|ops| - 1];
      if last.Get? || last.collection != c || last.id != id then LastPut(ops[..|ops| - 1], c, id)
      else if last.Put? then Some(last.doc)
      else None
  }

  /** The reply a store owes to an operation after others. */
  function Owed<V>(before: seq<Op<V>>, op: Op<V>): Reply<V> {
    match op
    case Get(c, id) => Got(LastPut(before, c, id))
    case Put(_, _, _) => Stored
    case Delete(c, id) => Removed(LastPut(before, c, id).Some?)
  }

  lemma SameId(c: Bytes, i: Bytes, j: Bytes)
    ensures KeyOf(c, i) == KeyOf(c, j) <==> i == j
  {
    KeySplits(c, i);
    KeySplits(c, j);
  }

  lemma {:induction false} NestedHolds<V>(ops: seq<Op<V>>, c: Bytes, id: Bytes)
    ensures var store := NestedRun(map[], ops).0;
            LastPut(ops, c, id) ==
            if c in store && KeyOf(c, id) in store[c] then Some(store[c][KeyOf(c, id)]) else None
  {
    hide KeyOf;
    if ops != [] {
      NestedHolds(ops[..|ops| - 1], c, id);
      SameId(c, ops[|ops| - 1].id, id);
    }
  }

  /** The nested store gives every operation of every run the reply it owes. */
  lemma {:induction false} NestedAnswers<V>(ops: seq<Op<V>>)
    ensures var replies := NestedRun(map[], ops).1;
            |replies| == |ops| && forall i | 0 <= i < |ops| :: replies[i] == Owed(ops[..i], ops[i])
  {
    hide KeyOf, NestedRun, LastPut;
    NestedRunSplits(ops);
    if ops != [] {
      var k := |ops| - 1;
      NestedAnswers(ops[..k]);
      NestedHolds(ops[..k], ops[k].collection, ops[k].id);
      forall i | 0 <= i < k ensures ops[..k][..i] == ops[..i] && ops[..k][i] == ops[i] {}
    }
  }

  lemma NestedRunSplits<V>(ops: seq<Op<V>>)
    ensures ops == [] ==> NestedRun(map[], ops).1 == []
    ensures ops != [] ==>
              var (t, replies) := NestedRun<V>(map[], ops[..|ops| - 1]);
              NestedRun(map[], ops).1 == replies + [NestedStep(t, ops[|ops| - 1]).1]
  {}

  /** So does the flat table, as long as the names are separate. */
  lemma FlatAnswers<V>(ops: seq<Op<V>>, names: iset<Bytes>)
    requires Separate(names) && Within(ops, names)
    ensures var replies := FlatRun(map[], ops).1;
            |replies| == |ops| && forall i | 0 <= i < |ops| :: replies[i] == Owed(ops[..i], ops[i])
  {
    hide FlatRun, NestedRun, Owed;
    RunsAgree(ops, names);
    NestedAnswers(ops);
  }

  /** The run that goes wrong: the second write lands on the first one's key. */
  function Clash<V>(c: Bytes, d: Bytes, v: V, w: V): seq<Op<V>>
    requires Prefix(c) <= d
  {
    var id := d[|c| + 1..] + [0];
    [Put(c, id, v), Put(d, [], w), Get(c, id)]
  }

  lemma Overwritten<V(!new)>(c: Bytes, d: Bytes, v: V, w: V, names: iset<Bytes>)
    requires Prefix(c) <= d && c in names && d in names
    ensures Within(Clash(c, d, v, w), names)
    ensures FlatRun(map[], Clash(c, d, v, w)).1 == [Stored, Stored, Got(Some(w))]
    ensures NestedRun(map[], Clash(c, d, v, w)).1 == [Stored, Stored, Got(Some(v))]
  {
    hide KeyOf;
    SharedKey(c, d);
    var ops := Clash(c, d, v, w);
    assert ops[..2][..1] == ops[..1] && ops[..1][..0] == [];
    assert ops[..2] == [ops[0], ops[1]] && ops[..1] == [ops[0]];
    assert FlatRun(map[], ops[..1]).1 == [Stored] && NestedRun(map[], ops[..1]).1 == [Stored];
    assert FlatRun(map[], ops[..2]).1 == [Stored, Stored] && NestedRun(map[], ops[..2]).1 == [Stored, Stored];
  }

  /* ---------- listings ---------- */

  function ByteCode(b: byte): int {
    b as int
  }

  function CompareBytes(a: Bytes, b: Bytes): Ordering {
    CompareSeq(ByteCode, a, b)
  }

  ghost predicate Ascending(keys: seq<Bytes>) {
    forall i, j | 0 <= i < j < |keys| :: CompareBytes(keys[i], keys[j]) == Less
  }

  lemma BytesPreorder(keys: iset<Bytes>)
    ensures PreorderOn(CompareBytes, keys)
    ensures forall a, b :: CompareBytes(a, b) == Equal <==> a == b
  {
    forall a, b ensures CompareBytes(b, a) == CompareBytes(a, b).Reverse() && (CompareBytes(a, b) == Equal <==> a == b) {
      CompareSeqReverse(ByteCode, a, b);
      CompareSeqEqual(ByteCode, a, b);
    }
    forall a, b, c | CompareBytes(a, b) != Greater && CompareBytes(b, c) != Greater ensures CompareBytes(a, c) != Greater {
      CompareSeqTransitive(ByteCode, a, b, c);
    }
  }

  /** Keys are in byte order: a proper prefix first, otherwise by the first byte that differs. */
  lemma ByteOrder(a: Bytes, b: Bytes)
    ensures CompareBytes(a, b) == Less <==> SeqBelow((x: byte) => x as int, a, b)
  {
    CompareSeqMeaning(ByteCode, a, b);
    SameCodes(ByteCode, (x: byte) => x as int, a, b);
  }

  /** Below one prefix, the order of keys is the order of what follows the prefix. */
  lemma SuffixOrder(c: Bytes, i: Bytes, j: Bytes)
    ensures CompareBytes(KeyOf(c, i), KeyOf(c, j)) == CompareBytes(i, j)
  {
    CompareSeqCommonPrefix(ByteCode, Prefix(c), i, j);
  }

  ghost predicate Distinct<T>(s: seq<T>) {
    forall i, j | 0 <= i < j < |s| :: s[i] != s[j]
  }

  lemma AscendingDistinct(keys: seq<Bytes>)
    requires Ascending(keys)
    ensures Distinct(keys)
  {
    BytesPreorder(iset{});
  }

  lemma {:induction false} DistinctOnce<T>(s: seq<T>)
    requires Distinct(s)
    ensures forall x :: multiset(s)[x] == if x in s then 1 else 0
  {
    if s != [] {
      DistinctOnce(s[1..]);
      assert s == [s[0]] + s[1..];
    }
  }

  lemma DistinctPlaces<T>(s: seq<T>, i: nat, j: nat)
    requires i < j < |s| && forall x :: multiset(s)[x] <= 1
    ensures s[i] != s[j]
  {
    assert s == s[..j] + [s[j]] + s[j + 1..];
    assert multiset(s) == multiset(s[..j]) + multiset{s[j]} + multiset(s[j + 1..]);
    assert s[..j][i] == s[i];
    assert s[i] in multiset(s[..j]);
    assert multiset(s)[s[j]] <= 1;
  }

  lemma Inhabited<T(!new)>(s: seq<T>)
    requires s != []
    ensures exists x :: x in s
  {
    assert s[0] in s;
  }

  lemma Without<T>(s: seq<T>, i: nat)
    requires Distinct(s) && i < |s|
    ensures Distinct(s[..i] + s[i + 1..])
    ensures forall x :: x in s[..i] + s[i + 1..] <==> x in s && x != s[i]
  {
    var rest := s[..i] + s[i + 1..];
    assert forall k | 0 <= k < |rest| :: rest[k] == if k < i then s[k] else s[k + 1];
    forall x | x in s && x != s[i] ensures x in rest {
      var k :| 0 <= k < |s| && s[k] == x;
      assert rest[if k < i then k else k - 1] == x;
    }
  }

  lemma ValuesWithout<K, V>(m: map<K, V>, keys: seq<K>, i: nat)
    requires i < |keys| && forall k | k in keys :: k in m
    ensures multiset(Values(m, keys)) == multiset(Values(m, keys[..i] + keys[i + 1..])) + multiset{m[keys[i]]}
  {
    var docs := Values(m, keys);
    assert Values(m, keys[..i] + keys[i + 1..]) == docs[..i] + docs[i + 1..];
    assert docs == docs[..i] + ([docs[i]] + docs[i + 1..]);
  }

  /** Taking the documents in another order of the keys gives the same documents, each as often. */
  lemma {:induction false} SameDocuments<K(!new), V>(m: map<K, V>, a: seq<K>, b: seq<K>)
    requires Distinct(a) && Distinct(b)
    requires (forall k :: k in a <==> k in b) && forall k | k in a :: k in m
    ensures multiset(Values(m, a)) == multiset(Values(m, b))
    decreases |a|
  {
    hide Distinct;
    if a == [] {
      assert b == [] by {
        if b != [] {
          Inhabited(b);
        }
      }
    } else {
      var n := |a| - 1;
      assert a[n] in b;
      var i :| 0 <= i < |b| && b[i] == a[n];
      Without(a, n);
      Without(b, i);
      var p, q := a[..n] + a[n + 1..], b[..i] + b[i + 1..];
      forall k ensures k in p <==> k in q {
        assert k in p <==> k in a && k != a[n];
        assert k in q <==> k in b && k != b[i];
      }
      SameDocuments(m, p, q);
      ValuesWithout(m, a, n);
      ValuesWithout(m, b, i);
    }
  }

  function Values<K, V>(m: map<K, V>, keys: seq<K>): (docs: seq<V>)
    requires forall k | k in keys :: k in m
    ensures |docs| == |keys| && forall i | 0 <= i < |docs| :: docs[i] == m[keys[i]]
  {
    seq(|keys|, i requires 0 <= i < |keys| => m[keys[i]])
  }

  /** A collection's own map; it has one only once something was put there. */
  function CollectionOf<V>(store: Nested<V>, c: Bytes): map<Bytes, V> {
    if c in store then store[c] else map[]
  }

  /** The keys of a collection in byte order. */
  ghost predicate Lists<V>(table: Flat<V>, collection: Bytes, keys: seq<Bytes>) {
    Ascending(keys) && forall key :: key in keys <==> key in table && Prefix(collection) <= key
  }

  /**
   A scan of the table yields the documents of that collection and of no other, whatever order
   the nested store lists them in.
   */
  lemma ScansAgree<V>(table: Flat<V>, store: Nested<V>, names: iset<Bytes>, c: Bytes, keys: seq<Bytes>, others: seq<Bytes>)
    requires Represents(table, store, names) && Separate(names) && c in names
    requires Lists(table, c, keys)
    requires Distinct(others) && forall key :: key in others <==> key in CollectionOf(store, c)
    ensures multiset(Values(table, keys)) == multiset(Values(CollectionOf(store, c), others))
  {
    hide Separate, Represents, CollectionOf, Prefix;
    AscendingDistinct(keys);
    forall key ensures key in keys <==> key in others {
      OwnPart(table, store, names, c, key);
    }
    forall key | key in keys ensures table[key] == CollectionOf(store, c)[key] {
      OwnPart(table, store, names, c, key);
    }
    assert Values(table, keys) == Values(CollectionOf(store, c), keys);
    SameDocuments(CollectionOf(store, c), keys, others);
  }

  /** A collection's own map is the part of the table below its prefix. */
  lemma OwnPart<V>(table: Flat<V>, store: Nested<V>, names: iset<Bytes>, c: Bytes, key: Bytes)
    requires Represents(table, store, names) && Separate(names) && c in names
    ensures key in table && Prefix(c) <= key <==> key in CollectionOf(store, c)
    ensures key in CollectionOf(store, c) ==> table[key] == CollectionOf(store, c)[key]
  {
    hide Separate, Prefix;
    assert c in store && key in store[c] ==> Sits(table, c, key, store[c][key]);
    if Prefix(c) <= key {
      Below(table, store, names, c, key);
    }
  }

  /* ---------- the stores as objects ---------- */

  predicate InRange(suffix: Bytes, start: Option<Bytes>, end: Option<Bytes>) {
    && (start.Some? ==> CompareBytes(suffix, start.value) != Less)
    && (end.Some? ==> CompareBytes(suffix, end.value) == Less)
  }

  /** From the start on and before the end, in that order; a bound that is not given does not bound. */
  lemma RangeIs(suffix: Bytes, start: Option<Bytes>, end: Option<Bytes>)
    ensures InRange(suffix, start, end) <==>
            && (start == None || !SeqBelow((x: byte) => x as int, suffix, start.value))
            && (end == None || SeqBelow((x: byte) => x as int, suffix, end.value))
  {
    hide CompareBytes, SeqBelow;
    if start.Some? {
      ByteOrder(suffix, start.value);
    }
    if end.Some? {
      ByteOrder(suffix, end.value);
    }
  }

  class RedbStorage<V(!new)> {
    var table: Flat<V>

    constructor ()
      ensures table == map[]
    {
      table := map[];
    }

    method Get(collection: Bytes, id: Bytes) returns (doc: Option<V>)
      ensures Got(doc) == FlatStep(table, Op.Get(collection, id)).1
    {
      var key := KeyOf(collection, id);
      doc := if key in table then Some(table[key]) else None;
    }

    method Put(collection: Bytes, id: Bytes, doc: V)
      modifies this
      ensures table == FlatStep(old(table), Op.Put(collection, id, doc)).0
    {
      table := table[KeyOf(collection, id) := doc];
    }

    method Delete(collection: Bytes, id: Bytes) returns (existed: bool)
      modifies this
      ensures (table, Removed(existed)) == FlatStep(old(table), Op.Delete(collection, id))
    {
      var key := KeyOf(collection, id);
      existed := key in table;
      table := table - {key};
    }

    /** The table's own iterator: every key once, in byte order. */
    method Keys() returns (keys: seq<Bytes>)
      ensures Ascending(keys) && forall key :: key in keys <==> key in table
    {
      var rest := table.Keys;
      var listed: seq<Bytes> := [];
      while rest != {}
        invariant rest <= table.Keys && Distinct(listed)
        invariant forall key :: key in listed <==> key in table && key !in rest
      {
        var key :| key in rest;
        listed, rest := listed + [key], rest - {key};
      }
      keys := Sort(CompareBytes, listed);
      SortedAscends(listed);
    }

    /** `scan`: walk the whole table and keep what starts with the prefix. */
    method Scan(collection: Bytes) returns (docs: seq<V>)
      ensures exists keys :: Lists(table, collection, keys) && docs == Values(table, keys)
    {
      var all := Keys();
      docs := [];
      ghost var keys: seq<Bytes> := [];
      for i := 0 to |all|
        invariant Ascending(keys) && forall key :: key in keys <==> key in all[..i] && Prefix(collection) <= key
        invariant docs == Values(table, keys)
      {
        assert all[..i + 1] == all[..i] + [all[i]];
        assert all[i] in all;
        if Prefix(collection) <= all[i] {
          forall j | 0 <= j < |keys| ensures CompareBytes(keys[j], all[i]) == Less {
            assert keys[j] in keys;
            var k :| 0 <= k < i && all[..i][k] == keys[j];
            assert all[k] == keys[j];
          }
          docs, keys := docs + [table[all[i]]], keys + [all[i]];
        }
      }
      assert all[..|all|] == all;
      assert Lists(table, collection, keys);
    }

    /** `range`: the same walk, keeping the suffixes from `start` up to but not including `end`. */
    method Range(collection: Bytes, start: Option<Bytes>, end: Option<Bytes>) returns (rows: seq<(Bytes, V)>)
      ensures forall i, j | 0 <= i < j < |rows| :: CompareBytes(rows[i].0, rows[j].0) == Less
      ensures forall id, doc :: (id, doc) in rows <==>
                KeyOf(collection, id) in table && table[KeyOf(collection, id)] == doc && InRange(id, start, end)
    {
      hide InRange, CompareBytes;
      var all := Keys();
      var prefix := Prefix(collection);
      rows := [];
      for i := 0 to |all|
        invariant forall j, k | 0 <= j < k < |rows| :: CompareBytes(rows[j].0, rows[k].0) == Less
        invariant forall id, doc :: (id, doc) in rows <==>
                    KeyOf(collection, id) in all[..i] && KeyOf(collection, id) in table
                    && table[KeyOf(collection, id)] == doc && InRange(id, start, end)
      {
        var key := all[i];
        assert all[..i + 1] == all[..i] + [key];
        assert key in all;
        if prefix <= key {
          var suffix := key[|prefix|..];
          assert key == KeyOf(collection, suffix);
          forall id | KeyOf(collection, id) == key ensures id == suffix {
            KeySplits(collection, id);
          }
          if InRange(suffix, start, end) {
            forall j | 0 <= j < |rows| ensures CompareBytes(rows[j].0, suffix) == Less {
              assert rows[j] in rows && rows[j] == (rows[j].0, rows[j].1);
              var k :| 0 <= k < i && all[..i][k] == KeyOf(collection, rows[j].0);
              assert CompareBytes(all[k], all[i]) == Less;
              SuffixOrder(collection, rows[j].0, suffix);
            }
            rows := rows + [(suffix, table[key])];
          }
        } else {
          forall id ensures KeyOf(collection, id) != key {
            KeySplits(collection, id);
          }
        }
      }
      assert all[..|all|] == all;
    }
  }

  lemma SortedAscends(listed: seq<Bytes>)
    requires Distinct(listed)
    ensures Ascending(Sort(CompareBytes, listed))
    ensures forall key :: key in Sort(CompareBytes, listed) <==> key in listed
  {
    hide CompareBytes;
    var all := Elements(listed);
    BytesPreorder(all);
    SortSorted(CompareBytes, listed, all);
    SortElements(CompareBytes, listed);
    SortMultiset(CompareBytes, listed);
    var sorted := Sort(CompareBytes, listed);
    DistinctOnce(listed);
    forall i, j | 0 <= i < j < |sorted| ensures CompareBytes(sorted[i], sorted[j]) == Less {
      DistinctPlaces(sorted, i, j);
    }
  }

  class MemoryStorage<V(!new)> {
    var data: Nested<V>

    constructor ()
      ensures data == map[]
    {
      data := map[];
    }

    method Get(collection: Bytes, id: Bytes) returns (doc: Option<V>)
      ensures Got(doc) == NestedStep(data, Op.Get(collection, id)).1
    {
      doc := None;
      if collection in data {
        var key := KeyOf(collection, id);
        if key in data[collection] {
          doc := Some(data[collection][key]);
        }
      }
    }

    method Put(collection: Bytes, id: Bytes, doc: V)
      modifies this
      ensures data == NestedStep(old(data), Op.Put(collection, id, doc)).0
    {
      if collection !in data {
        data := data[collection := map[]];
      }
      data := data[collection := data[collection][KeyOf(collection, id) := doc]];
    }

    method Delete(collection: Bytes, id: Bytes) returns (existed: bool)
      modifies this
      ensures (data, Removed(existed)) == NestedStep(old(data), Op.Delete(collection, id))
    {
      existed := false;
      if collection in data {
        var key := KeyOf(collection, id);
        existed := key in data[collection];
        data := data[collection := data[collection] - {key}];
      }
    }

    /** `scan`, in whatever order the hash map has. */
    method Scan(collection: Bytes) returns (docs: seq<V>, ghost keys: seq<Bytes>)
      ensures Distinct(keys) && forall key :: key in keys <==> key in CollectionOf(data, collection)
      ensures docs == Values(CollectionOf(data, collection), keys)
      ensures collection !in data ==> docs == []
    {
      docs, keys := [], [];
      if collection in data {
        var items := data[collection];
        var rest := items.Keys;
        while rest != {}
          invariant rest <= items.Keys && Distinct(keys)
          invariant forall key :: key in keys <==> key in items && key !in rest
          invariant docs == Values(items, keys)
        {
          var key :| key in rest;
          docs, keys, rest := docs + [items[key]], keys + [key], rest - {key};
        }
      }
    }
  }
}
