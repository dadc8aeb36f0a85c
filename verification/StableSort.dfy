/**
 What `slice::sort_by` promises: an ordered permutation that keeps ties in their
 first order. `Sort` is one algorithm with that promise; `StableSortUnique` shows
 that every other one returns the same sequence.
 */
module StableSort {
  import opened Orders
  import Sequences

  function Insert<T>(cmp: (T, T) -> Ordering, x: T, ys: seq<T>): seq<T> {
    if ys == [] then [x]
    else if cmp(x, ys[0]) != Greater then [x] + ys
    else [ys[0]] + Insert(cmp, x, ys[1..])
  }

  function Sort<T>(cmp: (T, T) -> Ordering, xs: seq<T>): seq<T> {
    if xs == [] then [] else Insert(cmp, xs[0], Sort(cmp, xs[1..]))
  }

  function Filter<T>(p: T -> bool, xs: seq<T>): seq<T> {
    if xs == [] then []
    else if p(xs[0]) then [xs[0]] + Filter(p, xs[1..])
    else Filter(p, xs[1..])
  }

  ghost function Elements<T(!new)>(xs: seq<T>): iset<T> {
    iset x | x in xs
  }

  ghost predicate Sorted<T>(cmp: (T, T) -> Ordering, xs: seq<T>) {
    forall i, j | 0 <= i < j < |xs| :: cmp(xs[i], xs[j]) != Greater
  }

  /** Every element of `xs` may come before every element of `ys`. */
  ghost predicate AllBelow<T>(cmp: (T, T) -> Ordering, xs: seq<T>, ys: seq<T>) {
    forall x, y | x in xs && y in ys :: cmp(x, y) != Greater
  }

  lemma {:induction false} InsertMultiset<T>(cmp: (T, T) -> Ordering, x: T, ys: seq<T>)
    ensures multiset(Insert(cmp, x, ys)) == multiset{x} + multiset(ys)
  {
    if ys != [] && cmp(x, ys[0]) == Greater {
      InsertMultiset(cmp, x, ys[1..]);
      assert ys == [ys[0]] + ys[1..];
    }
  }

  lemma {:induction false} SortMultiset<T>(cmp: (T, T) -> Ordering, xs: seq<T>)
    ensures multiset(Sort(cmp, xs)) == multiset(xs)
  {
    if xs != [] {
      SortMultiset(cmp, xs[1..]);
      InsertMultiset(cmp, xs[0], Sort(cmp, xs[1..]));
      assert xs == [xs[0]] + xs[1..];
    }
  }

  lemma SameElements<T(!new)>(xs: seq<T>, ys: seq<T>)
    requires multiset(xs) == multiset(ys)
    ensures forall x :: x in xs <==> x in ys
    ensures Elements(xs) == Elements(ys)
    ensures |xs| == |ys|
  {
    forall x ensures x in xs <==> x in ys {
      assert x in multiset(xs) <==> x in multiset(ys);
    }
    assert |xs| == |multiset(xs)| && |ys| == |multiset(ys)|;
  }

  lemma SortElements<T(!new)>(cmp: (T, T) -> Ordering, xs: seq<T>)
    ensures forall x :: x in Sort(cmp, xs) <==> x in xs
    ensures Elements(Sort(cmp, xs)) == Elements(xs)
    ensures |Sort(cmp, xs)| == |xs|
  {
    SortMultiset(cmp, xs);
    SameElements(Sort(cmp, xs), xs);
  }

  lemma {:induction false} InsertSorted<T(!new)>(cmp: (T, T) -> Ordering, x: T, ys: seq<T>, all: iset<T>)
    requires PreorderOn(cmp, all) && x in all && (forall y | y in ys :: y in all)
    requires Sorted(cmp, ys)
    ensures Sorted(cmp, Insert(cmp, x, ys))
  {
    if ys != [] && cmp(x, ys[0]) == Greater {
      var rest := Insert(cmp, x, ys[1..]);
      InsertSorted(cmp, x, ys[1..], all);
      InsertMultiset(cmp, x, ys[1..]);
      forall i | 0 <= i < |rest| ensures cmp(ys[0], rest[i]) != Greater {
        assert rest[i] in multiset(rest);
      }
    }
  }

  lemma {:induction false} SortSorted<T(!new)>(cmp: (T, T) -> Ordering, xs: seq<T>, all: iset<T>)
    requires PreorderOn(cmp, all) && (forall x | x in xs :: x in all)
    ensures Sorted(cmp, Sort(cmp, xs))
  {
    if xs != [] {
      SortSorted(cmp, xs[1..], all);
      SortElements(cmp, xs[1..]);
      InsertSorted(cmp, xs[0], Sort(cmp, xs[1..]), all);
    }
  }

  lemma {:induction false} SortOfSorted<T>(cmp: (T, T) -> Ordering, xs: seq<T>)
    requires Sorted(cmp, xs)
    ensures Sort(cmp, xs) == xs
  {
    if xs != [] {
      SortOfSorted(cmp, xs[1..]);
      assert xs == [xs[0]] + xs[1..];
      if |xs| > 1 {
        assert cmp(xs[0], xs[1]) != Greater;
      }
    }
  }

  /** A sequence is in order as soon as every adjacent pair is. */
  lemma AdjacentSorted<T(!new)>(cmp: (T, T) -> Ordering, xs: seq<T>, all: iset<T>)
    requires PreorderOn(cmp, all) && (forall x | x in xs :: x in all)
    ensures Sorted(cmp, xs) <==> forall i | 0 <= i < |xs| - 1 :: cmp(xs[i], xs[i + 1]) != Greater
  {
    if forall i | 0 <= i < |xs| - 1 :: cmp(xs[i], xs[i + 1]) != Greater {
      forall i, j | 0 <= i < j < |xs| ensures cmp(xs[i], xs[j]) != Greater {
        AdjacentReaches(cmp, xs, all, i, j);
      }
    }
  }

  lemma {:induction false} AdjacentReaches<T(!new)>(cmp: (T, T) -> Ordering, xs: seq<T>, all: iset<T>, i: nat, j: nat)
    requires PreorderOn(cmp, all) && (forall x | x in xs :: x in all)
    requires forall k | 0 <= k < |xs| - 1 :: cmp(xs[k], xs[k + 1]) != Greater
    requires i < j < |xs|
    ensures cmp(xs[i], xs[j]) != Greater
    decreases j
  {
    assert cmp(xs[j - 1], xs[j - 1 + 1]) != Greater;
    if i < j - 1 {
      AdjacentReaches(cmp, xs, all, i, j - 1);
      assert xs[i] in all && xs[j - 1] in all && xs[j] in all;
    }
  }

  lemma {:induction false} FilterAppend<T>(p: T -> bool, xs: seq<T>, ys: seq<T>)
    ensures Filter(p, xs + ys) == Filter(p, xs) + Filter(p, ys)
  {
    if xs == [] {
      assert xs + ys == ys;
    } else {
      assert (xs + ys)[1..] == xs[1..] + ys;
      FilterAppend(p, xs[1..], ys);
    }
  }

  lemma {:induction false} FilterElements<T(!new)>(p: T -> bool, xs: seq<T>)
    ensures forall x :: x in Filter(p, xs) <==> x in xs && p(x)
  {
    if xs != [] {
      FilterElements(p, xs[1..]);
    }
  }

  lemma {:induction false} FilterSorted<T(!new)>(cmp: (T, T) -> Ordering, p: T -> bool, xs: seq<T>)
    requires Sorted(cmp, xs)
    ensures Sorted(cmp, Filter(p, xs))
  {
    if xs != [] {
      FilterSorted(cmp, p, xs[1..]);
      FilterElements(p, xs[1..]);
      var fs := Filter(p, xs[1..]);
      forall y | y in fs ensures cmp(xs[0], y) != Greater {
        assert y in xs[1..];
        var i :| 0 < i < |xs| && xs[i] == y;
      }
    }
  }

  lemma {:induction false} FilterInsert<T(!new)>(cmp: (T, T) -> Ordering, p: T -> bool, x: T, ys: seq<T>, all: iset<T>)
    requires PreorderOn(cmp, all) && x in all && (forall y | y in ys :: y in all)
    requires Sorted(cmp, ys)
    ensures Filter(p, Insert(cmp, x, ys)) == if p(x) then Insert(cmp, x, Filter(p, ys)) else Filter(p, ys)
  {
    if ys == [] {
    } else if cmp(x, ys[0]) != Greater {
      var fs := Filter(p, ys);
      FilterElements(p, ys);
      if fs != [] {
        assert fs[0] in ys;
        var i :| 0 <= i < |ys| && ys[i] == fs[0];
        assert cmp(x, fs[0]) != Greater;
      }
      assert ([x] + ys)[1..] == ys;
    } else {
      FilterInsert(cmp, p, x, ys[1..], all);
      assert ([ys[0]] + Insert(cmp, x, ys[1..]))[1..] == Insert(cmp, x, ys[1..]);
    }
  }

  /** Sorting and selecting commute: the selected part comes out in its own sorted order. */
  lemma {:induction false} FilterSort<T(!new)>(cmp: (T, T) -> Ordering, p: T -> bool, xs: seq<T>, all: iset<T>)
    requires PreorderOn(cmp, all) && (forall x | x in xs :: x in all)
    ensures Filter(p, Sort(cmp, xs)) == Sort(cmp, Filter(p, xs))
  {
    if xs != [] {
      FilterSort(cmp, p, xs[1..], all);
      SortSorted(cmp, xs[1..], all);
      SortElements(cmp, xs[1..]);
      FilterInsert(cmp, p, xs[0], Sort(cmp, xs[1..]), all);
    }
  }

  /** The elements of `ys` that tie with `x`, in order. */
  function Ties<T>(cmp: (T, T) -> Ordering, x: T, ys: seq<T>): seq<T> {
    if ys == [] then []
    else if cmp(x, ys[0]) == Equal then [ys[0]] + Ties(cmp, x, ys[1..])
    else Ties(cmp, x, ys[1..])
  }

  ghost predicate SameTies<T(!new)>(cmp: (T, T) -> Ordering, ys: seq<T>, zs: seq<T>, all: iset<T>) {
    forall x | x in all :: Ties(cmp, x, ys) == Ties(cmp, x, zs)
  }

  lemma {:induction false} TiesFilter<T>(cmp: (T, T) -> Ordering, x: T, ys: seq<T>, tied: T -> bool)
    requires forall y :: tied(y) <==> cmp(x, y) == Equal
    ensures Ties(cmp, x, ys) == Filter(tied, ys)
  {
    if ys != [] {
      TiesFilter(cmp, x, ys[1..], tied);
    }
  }

  /** Ties keep their first order. */
  lemma SortStable<T(!new)>(cmp: (T, T) -> Ordering, x: T, xs: seq<T>, all: iset<T>)
    requires PreorderOn(cmp, all) && x in all && (forall y | y in xs :: y in all)
    ensures Ties(cmp, x, Sort(cmp, xs)) == Ties(cmp, x, xs)
  {
    var tied := (y: T) => cmp(x, y) == Equal;
    FilterSort(cmp, tied, xs, all);
    TiesFilter(cmp, x, xs, tied);
    TiesFilter(cmp, x, Sort(cmp, xs), tied);
    var fs := Filter(tied, xs);
    FilterElements(tied, xs);
    forall i, j | 0 <= i < j < |fs| ensures cmp(fs[i], fs[j]) != Greater {
      assert fs[i] in fs && fs[j] in fs;
      assert cmp(fs[i], x) == Equal && cmp(x, fs[j]) == Equal;
    }
    SortOfSorted(cmp, fs);
  }

  /** Two ordered permutations of each other with the same ties in the same order are equal. */
  lemma {:induction false} StableSortUnique<T(!new)>(cmp: (T, T) -> Ordering, ys: seq<T>, zs: seq<T>, all: iset<T>)
    requires PreorderOn(cmp, all) && (forall y | y in ys :: y in all)
    requires Sorted(cmp, ys) && Sorted(cmp, zs) && multiset(ys) == multiset(zs)
    requires SameTies(cmp, ys, zs, all)
    ensures ys == zs
  {
    SameElements(ys, zs);
    if ys != [] {
      StableHeadsEqual(cmp, ys, zs, all);
      Sequences.SplitFirst(ys);
      Sequences.SplitFirst(zs);
      SameTiesTail(cmp, ys, zs, all);
      StableSortUnique(cmp, ys[1..], zs[1..], all);
    }
  }

  lemma StableHeadsEqual<T(!new)>(cmp: (T, T) -> Ordering, ys: seq<T>, zs: seq<T>, all: iset<T>)
    requires PreorderOn(cmp, all) && (forall y | y in ys :: y in all)
    requires Sorted(cmp, ys) && Sorted(cmp, zs) && multiset(ys) == multiset(zs) && ys != [] && zs != []
    requires SameTies(cmp, ys, zs, all)
    ensures ys[0] == zs[0]
  {
    SameElements(ys, zs);
    var y, z := ys[0], zs[0];
    assert y in zs && z in ys;
    LeastFirst(cmp, ys, z, all);
    LeastFirst(cmp, zs, y, all);
    assert Ties(cmp, y, ys)[0] == y && Ties(cmp, y, zs)[0] == z;
  }

  lemma SameTiesTail<T(!new)>(cmp: (T, T) -> Ordering, ys: seq<T>, zs: seq<T>, all: iset<T>)
    requires ys != [] && zs != [] && ys[0] == zs[0] && SameTies(cmp, ys, zs, all)
    ensures SameTies(cmp, ys[1..], zs[1..], all)
  {
    forall x | x in all ensures Ties(cmp, x, ys[1..]) == Ties(cmp, x, zs[1..]) {
      assert Ties(cmp, x, ys) == Ties(cmp, x, zs);
      if cmp(x, ys[0]) == Equal {
        assert Ties(cmp, x, ys)[1..] == Ties(cmp, x, ys[1..]);
        assert Ties(cmp, x, zs)[1..] == Ties(cmp, x, zs[1..]);
      }
    }
  }

  lemma LeastFirst<T(!new)>(cmp: (T, T) -> Ordering, ys: seq<T>, z: T, all: iset<T>)
    requires PreorderOn(cmp, all) && (forall y | y in ys :: y in all)
    requires Sorted(cmp, ys) && z in ys
    ensures cmp(ys[0], z) != Greater
  {
    var i :| 0 <= i < |ys| && ys[i] == z;
    if i == 0 {
      assert cmp(z, z) == Equal;
    }
  }

  ghost predicate TiesEqual<T(!new)>(cmp: (T, T) -> Ordering, xs: seq<T>) {
    forall x, y | x in xs && y in xs && cmp(x, y) == Equal :: x == y
  }

  lemma SortedHeadsEqual<T(!new)>(cmp: (T, T) -> Ordering, ys: seq<T>, zs: seq<T>, all: iset<T>)
    requires PreorderOn(cmp, all) && (forall y | y in ys :: y in all)
    requires Sorted(cmp, ys) && Sorted(cmp, zs) && multiset(ys) == multiset(zs) && ys != [] && zs != []
    requires TiesEqual(cmp, ys)
    ensures ys[0] == zs[0]
  {
    SameElements(ys, zs);
    assert ys[0] in zs && zs[0] in ys;
    LeastFirst(cmp, ys, zs[0], all);
    LeastFirst(cmp, zs, ys[0], all);
  }

  /** When tied elements are equal, the first order is forgotten altogether. */
  lemma {:induction false} SortForgetsOrder<T(!new)>(cmp: (T, T) -> Ordering, xs: seq<T>, ys: seq<T>, all: iset<T>)
    requires PreorderOn(cmp, all) && (forall x | x in xs :: x in all)
    requires multiset(xs) == multiset(ys)
    requires TiesEqual(cmp, xs)
    ensures Sort(cmp, xs) == Sort(cmp, ys)
  {
    SameElements(xs, ys);
    SortSorted(cmp, xs, all);
    SortSorted(cmp, ys, all);
    SortMultiset(cmp, xs);
    SortMultiset(cmp, ys);
    SortElements(cmp, xs);
    SortElements(cmp, ys);
    SortedUnique(cmp, Sort(cmp, xs), Sort(cmp, ys), all);
  }

  lemma {:induction false} SortedUnique<T(!new)>(cmp: (T, T) -> Ordering, ys: seq<T>, zs: seq<T>, all: iset<T>)
    requires PreorderOn(cmp, all) && (forall y | y in ys :: y in all)
    requires Sorted(cmp, ys) && Sorted(cmp, zs) && multiset(ys) == multiset(zs)
    requires TiesEqual(cmp, ys)
    ensures ys == zs
  {
    Sequences.SameSize(ys, zs);
    if ys != [] {
      SortedHeadsEqual(cmp, ys, zs, all);
      Sequences.SplitFirst(ys);
      Sequences.SplitFirst(zs);
      SortedUnique(cmp, ys[1..], zs[1..], all);
    }
  }

  /** Sorting a batch whose two parts are already in order is sorting the parts. */
  lemma SortSplit<T(!new)>(cmp: (T, T) -> Ordering, xs: seq<T>, ys: seq<T>, all: iset<T>)
    requires PreorderOn(cmp, all) && (forall x | x in xs + ys :: x in all)
    requires AllBelow(cmp, xs, ys)
    ensures Sort(cmp, xs + ys) == Sort(cmp, xs) + Sort(cmp, ys)
  {
    if xs == [] {
      assert xs + ys == ys;
    } else {
      assert (xs + ys)[1..] == xs[1..] + ys;
      SortSplit(cmp, xs[1..], ys, all);
      SortElements(cmp, ys);
      InsertInFront(cmp, xs[0], Sort(cmp, xs[1..]), Sort(cmp, ys));
    }
  }

  lemma {:induction false} InsertInFront<T>(cmp: (T, T) -> Ordering, x: T, us: seq<T>, vs: seq<T>)
    requires forall v | v in vs :: cmp(x, v) != Greater
    ensures Insert(cmp, x, us + vs) == Insert(cmp, x, us) + vs
  {
    if us == [] {
      assert us + vs == vs;
    } else {
      assert (us + vs)[1..] == us[1..] + vs;
      InsertInFront(cmp, x, us[1..], vs);
    }
  }
}
