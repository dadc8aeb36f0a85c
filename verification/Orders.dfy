/**
 Three-way comparison in the style of `std::cmp::Ordering`: comparators, the laws a
 sort needs of them, and the lexicographic comparator on sequences.
 */
module Orders {

  datatype Ordering = Less | Equal | Greater {
    /** `Ordering::then`: the next comparison decides only when this one is a tie. */
    function Then(next: Ordering): Ordering {
      if Equal? then next else this
    }

    function Reverse(): Ordering {
      match this
      case Less => Greater
      case Equal => Equal
      case Greater => Less
    }
  }

  function CompareInt(a: int, b: int): Ordering {
    if a < b then Less else if a == b then Equal else Greater
  }

  /** Lexicographic order of two sequences whose elements are compared by their code. */
  function CompareSeq<T>(code: T -> int, a: seq<T>, b: seq<T>): Ordering {
    if a == [] then (if b == [] then Equal else Less)
    else if b == [] then Greater
    else CompareInt(code(a[0]), code(b[0])).Then(CompareSeq(code, a[1..], b[1..]))
  }

  function CharCode(c: char): int {
    c as int
  }

  /** Order of strings by code point, which is also the order of their UTF-8 bytes. */
  function CompareString(a: string, b: string): Ordering {
    CompareSeq(CharCode, a, b)
  }

  /** `cmp` is a total preorder on the elements of `xs`. */
  ghost predicate PreorderOn<T(!new)>(cmp: (T, T) -> Ordering, xs: iset<T>) {
    && (forall x | x in xs :: cmp(x, x) == Equal)
    && (forall x, y | x in xs && y in xs :: cmp(y, x) == cmp(x, y).Reverse())
    && (forall x, y, z | x in xs && y in xs && z in xs && cmp(x, y) != Greater && cmp(y, z) != Greater ::
          cmp(x, z) != Greater)
  }

  lemma {:induction false} CompareSeqReverse<T>(code: T -> int, a: seq<T>, b: seq<T>)
    ensures CompareSeq(code, b, a) == CompareSeq(code, a, b).Reverse()
  {
    if a != [] && b != [] {
      CompareSeqReverse(code, a[1..], b[1..]);
    }
  }

  lemma {:induction false} CompareSeqTransitive<T>(code: T -> int, a: seq<T>, b: seq<T>, c: seq<T>)
    requires CompareSeq(code, a, b) != Greater && CompareSeq(code, b, c) != Greater
    ensures CompareSeq(code, a, c) != Greater
    ensures CompareSeq(code, a, c) == Equal ==> CompareSeq(code, a, b) == Equal && CompareSeq(code, b, c) == Equal
  {
    if a != [] && b != [] && c != [] && code(a[0]) == code(b[0]) == code(c[0]) {
      CompareSeqTransitive(code, a[1..], b[1..], c[1..]);
    }
  }

  /** With an injective code only equal sequences compare as equal. */
  lemma {:induction false} CompareSeqEqual<T(!new)>(code: T -> int, a: seq<T>, b: seq<T>)
    requires forall x, y :: code(x) == code(y) ==> x == y
    ensures CompareSeq(code, a, b) == Equal <==> a == b
  {
    if a != [] && b != [] {
      CompareSeqEqual(code, a[1..], b[1..]);
      assert a == [a[0]] + a[1..] && b == [b[0]] + b[1..];
    }
  }

  /** Two sequences that agree up to a cut compare as what follows the cut does. */
  lemma {:induction false} CompareSeqCommonPrefix<T>(code: T -> int, p: seq<T>, a: seq<T>, b: seq<T>)
    ensures CompareSeq(code, p + a, p + b) == CompareSeq(code, a, b)
  {
    if p == [] {
      assert p + a == a && p + b == b;
    } else {
      assert (p + a)[1..] == p[1..] + a && (p + b)[1..] == p[1..] + b;
      CompareSeqCommonPrefix(code, p[1..], a, b);
    }
  }

  /** String comparison is a total order: the facts other comparators are built from. */
  lemma CompareStringTotalOrder(a: string, b: string, c: string)
    ensures CompareString(a, b) == Equal <==> a == b
    ensures CompareString(b, a) == CompareString(a, b).Reverse()
    ensures CompareString(a, b) != Greater && CompareString(b, c) != Greater ==>
              CompareString(a, c) != Greater &&
              (CompareString(a, c) == Equal ==> a == b == c)
  {
    CompareSeqEqual(CharCode, a, b);
    CompareSeqEqual(CharCode, b, c);
    CompareSeqReverse(CharCode, a, b);
    if CompareString(a, b) != Greater && CompareString(b, c) != Greater {
      CompareSeqTransitive(CharCode, a, b, c);
    }
  }

  /** Dictionary order: a proper prefix, or smaller at the first difference. */
  ghost predicate SeqBelow<T>(code: T -> int, a: seq<T>, b: seq<T>) {
    a < b || exists k :: 0 <= k < |a| && k < |b| && a[..k] == b[..k] && code(a[k]) < code(b[k])
  }

  /** With an injective code the lexicographic comparison is that order. */
  lemma {:induction false} CompareSeqMeaning<T(!new)>(code: T -> int, a: seq<T>, b: seq<T>)
    requires forall x, y :: code(x) == code(y) ==> x == y
    ensures CompareSeq(code, a, b) == Less <==> SeqBelow(code, a, b)
    ensures CompareSeq(code, a, b) == Greater <==> SeqBelow(code, b, a)
  {
    if a != [] && b != [] {
      CompareSeqMeaning(code, a[1..], b[1..]);
      SeqBelowSplit(code, a, b);
      SeqBelowSplit(code, b, a);
    }
  }

  lemma SeqBelowSplit<T(!new)>(code: T -> int, a: seq<T>, b: seq<T>)
    requires a != [] && b != [] && forall x, y :: code(x) == code(y) ==> x == y
    ensures SeqBelow(code, a, b) <==>
            code(a[0]) < code(b[0]) || (code(a[0]) == code(b[0]) && SeqBelow(code, a[1..], b[1..]))
  {
    if code(a[0]) < code(b[0]) {
      assert a[..0] == b[..0];
    } else if a[0] == b[0] {
      if SeqBelow(code, a, b) {
        BelowInTail(code, a, b);
      }
      if SeqBelow(code, a[1..], b[1..]) {
        BelowFromTail(code, a, b);
      }
    } else {
      assert forall k | 0 < k <= |a| && k <= |b| :: a[..k][0] == a[0] && b[..k][0] == b[0];
    }
  }

  lemma BelowInTail<T(!new)>(code: T -> int, a: seq<T>, b: seq<T>)
    requires a != [] && b != [] && a[0] == b[0] && SeqBelow(code, a, b)
    ensures SeqBelow(code, a[1..], b[1..])
  {
    var c, d := a[1..], b[1..];
    if a < b {
      assert c == b[..|a|][1..];
    } else {
      var k :| 0 <= k < |a| && k < |b| && a[..k] == b[..k] && code(a[k]) < code(b[k]);
      assert c[..k - 1] == a[..k][1..] && d[..k - 1] == b[..k][1..];
      assert code(c[k - 1]) < code(d[k - 1]);
    }
  }

  lemma BelowFromTail<T(!new)>(code: T -> int, a: seq<T>, b: seq<T>)
    requires a != [] && b != [] && a[0] == b[0] && SeqBelow(code, a[1..], b[1..])
    ensures SeqBelow(code, a, b)
  {
    var c, d := a[1..], b[1..];
    if c < d {
      assert a == [b[0]] + d[..|c|];
      assert a == b[..|a|];
    } else {
      var k :| 0 <= k < |c| && k < |d| && c[..k] == d[..k] && code(c[k]) < code(d[k]);
      assert a[..k + 1] == [a[0]] + c[..k] && b[..k + 1] == [b[0]] + d[..k];
      assert code(a[k + 1]) < code(b[k + 1]);
    }
  }

  /** The same for texts, whose characters count by their code points. */
  ghost predicate TextBelow(a: string, b: string) {
    SeqBelow(c => c as int, a, b)
  }

  lemma CompareStringMeaning(a: string, b: string)
    ensures CompareString(a, b) == Less <==> TextBelow(a, b)
    ensures CompareString(a, b) == Greater <==> TextBelow(b, a)
  {
    CompareSeqMeaning(CharCode, a, b);
    SameCodes(CharCode, c => c as int, a, b);
    SameCodes(CharCode, c => c as int, b, a);
  }

  lemma SameCodes<T(!new)>(code: T -> int, same: T -> int, a: seq<T>, b: seq<T>)
    requires forall x :: code(x) == same(x)
    ensures SeqBelow(code, a, b) <==> SeqBelow(same, a, b)
  {}
}
