/**
 Revisions: the hybrid logical clock reading `<timestamp>-<counter>-<node>` kept as a
 string, its printer, its two parsers and its order.
 */
module Revisions {
  import opened Wrappers
  import opened Orders

  const U16_LIMIT: nat := 0x1_0000
  const U64_LIMIT: nat := 0x1_0000_0000_0000_0000

  /** What `Revision::cmp` compares. */
  datatype Reading = Reading(timestamp: nat, counter: nat, node: string)

  /* ---------- decimal text ---------- */

  function Digit(d: nat): char
    requires d < 10
  {
    '0' + d as char
  }

  predicate IsDigit(c: char) {
    '0' <= c <= '9'
  }

  /** `Display` of an unsigned integer. */
  function Decimal(n: nat): (s: string)
    ensures |s| > 0 && (forall c | c in s :: IsDigit(c))
  {
    if n < 10 then [Digit(n)] else Decimal(n / 10) + [Digit(n % 10)]
  }

  function DecimalValue(s: string): nat
    requires forall c | c in s :: IsDigit(c)
  {
    if s == [] then 0
    else
      var last := s[|s| - 1];
      assert IsDigit(last);
      10 * DecimalValue(s[..|s| - 1]) + (last as int - '0' as int)
  }

  /** `str::parse` for an unsigned integer below `limit`: one leading plus is allowed, overflow is an error. */
  function ParseUnsigned(s: string, limit: nat): Option<nat> {
    var body := if |s| > 1 && s[0] == '+' then s[1..] else s;
    if body != [] && (forall c | c in body :: IsDigit(c)) && DecimalValue(body) < limit
    then Some(DecimalValue(body))
    else None
  }

  /* ---------- revisions ---------- */

  function IndexOf(s: string, c: char): (r: Option<nat>)
    ensures r.Some? ==> r.value < |s| && s[r.value] == c && c !in s[..r.value]
    ensures r.None? ==> c !in s
  {
    if s == [] then None
    else if s[0] == c then Some(0)
    else
      match IndexOf(s[1..], c)
      case None => None
      case Some(i) => Some(i + 1)
  }

  /** `splitn(3, '-')`: at most two cuts, the third part keeps its dashes. */
  function SplitThree(s: string): (parts: seq<string>)
    ensures 1 <= |parts| <= 3
  {
    match IndexOf(s, '-')
    case None => [s]
    case Some(i) =>
      var rest := s[i + 1..];
      match IndexOf(rest, '-')
      case None => [s[..i], rest]
      case Some(j) => [s[..i], rest[..j], rest[j + 1..]]
  }

  /** `Revision::new`, given the four hash digits that stand for the node. */
  function Print(r: Reading): string {
    Decimal(r.timestamp) + "-" + Decimal(r.counter) + "-" + r.node
  }

  /** `Revision::from_str` succeeds. */
  predicate Valid(s: string) {
    var parts := SplitThree(s);
    |parts| == 3 && ParseUnsigned(parts[0], U64_LIMIT).Some? && ParseUnsigned(parts[1], U16_LIMIT).Some?
  }

  /** `Revision::parse` and `node_id_short` together. */
  function Parse(s: string): Reading
    requires Valid(s)
  {
    var parts := SplitThree(s);
    Reading(ParseUnsigned(parts[0], U64_LIMIT).value, ParseUnsigned(parts[1], U16_LIMIT).value, parts[2])
  }

  function CompareReading(a: Reading, b: Reading): Ordering {
    CompareInt(a.timestamp, b.timestamp)
      .Then(CompareInt(a.counter, b.counter))
      .Then(CompareString(a.node, b.node))
  }

  /** `Revision::cmp` on revisions that `from_str` accepts. */
  function Compare(a: string, b: string): Ordering
    requires Valid(a) && Valid(b)
  {
    CompareReading(Parse(a), Parse(b))
  }

  /** `Revision::initial("")`: 3040 are the first hash digits of the empty node name. */
  const INITIAL: string := "0-0-3040"

  ghost predicate InRange(r: Reading) {
    r.timestamp < U64_LIMIT && r.counter < U16_LIMIT
  }

  /* ---------- printing and parsing undo each other ---------- */

  lemma {:induction false} DecimalRoundTrip(n: nat)
    ensures DecimalValue(Decimal(n)) == n
  {
    if n >= 10 {
      DecimalRoundTrip(n / 10);
      assert Decimal(n)[..|Decimal(n)| - 1] == Decimal(n / 10);
    }
  }

  lemma ParseDecimal(n: nat, limit: nat)
    requires n < limit
    ensures ParseUnsigned(Decimal(n), limit) == Some(n)
  {
    DecimalRoundTrip(n);
    assert Decimal(n)[0] in Decimal(n);
  }

  lemma {:induction false} IndexOfFirst(p: string, c: char, rest: string)
    requires c !in p
    ensures IndexOf(p + [c] + rest, c) == Some(|p|)
  {
    if p != [] {
      assert (p + [c] + rest)[1..] == p[1..] + [c] + rest;
      IndexOfFirst(p[1..], c, rest);
    }
  }

  lemma SplitThreeParts(a: string, b: string, c: string)
    requires '-' !in a && '-' !in b
    ensures SplitThree(a + "-" + b + "-" + c) == [a, b, c]
  {
    var rest := b + "-" + c;
    assert a + "-" + b + "-" + c == a + "-" + rest;
    IndexOfFirst(a, '-', rest);
    IndexOfFirst(b, '-', c);
    assert (a + "-" + rest)[|a| + 1..] == rest && (a + "-" + rest)[..|a|] == a;
    assert rest[|b| + 1..] == c && rest[..|b|] == b;
  }

  lemma SplitThreeJoins(s: string)
    requires |SplitThree(s)| == 3
    ensures Joined(SplitThree(s)) == s && '-' !in SplitThree(s)[0] && '-' !in SplitThree(s)[1]
  {
    hide IndexOf;
    var i := IndexOf(s, '-').value;
    var rest := s[i + 1..];
    var j := IndexOf(rest, '-').value;
    CutAt(s, '-', i);
    CutAt(rest, '-', j);
    JoinThree(s[..i], rest[..j], rest[j + 1..]);
  }

  lemma CutAt(s: string, c: char, i: nat)
    requires i < |s| && s[i] == c
    ensures s == s[..i] + ([c] + s[i + 1..])
  {}

  lemma JoinThree(a: string, b: string, c: string)
    ensures a + ("-" + (b + ("-" + c))) == Joined([a, b, c])
  {}

  ghost function Joined(p: seq<string>): string
    requires |p| == 3
  {
    p[0] + "-" + p[1] + "-" + p[2]
  }

  /** A printed revision parses back to the reading it was printed from. */
  lemma PrintParse(r: Reading)
    requires InRange(r)
    ensures Valid(Print(r)) && Parse(Print(r)) == r
  {
    ParseDecimal(r.timestamp, U64_LIMIT);
    ParseDecimal(r.counter, U16_LIMIT);
    SplitThreeParts(Decimal(r.timestamp), Decimal(r.counter), r.node);
  }

  /** Digits only, and no zero in front of another digit. */
  predicate PlainDecimal(s: string) {
    s != [] && (forall c | c in s :: IsDigit(c)) && (|s| > 1 ==> s[0] != '0')
  }

  lemma {:induction false} DecimalIsPlain(n: nat)
    ensures PlainDecimal(Decimal(n)) && (n > 0 ==> Decimal(n)[0] != '0')
  {
    if n >= 10 {
      DecimalIsPlain(n / 10);
    }
  }

  lemma {:induction false} PlainIsDecimal(s: string)
    requires PlainDecimal(s)
    ensures Decimal(DecimalValue(s)) == s && (s[0] != '0' ==> DecimalValue(s) > 0)
  {
    var init, last := s[..|s| - 1], s[|s| - 1];
    assert s == init + [last] && last in s;
    if init != [] {
      assert init[0] == s[0];
      PlainIsDecimal(init);
      assert DecimalValue(s) / 10 == DecimalValue(init) && DecimalValue(s) % 10 == last as int - '0' as int;
    } else {
      assert DecimalValue(init) == 0;
    }
  }

  lemma ParsePlain(s: string, limit: nat)
    requires PlainDecimal(s) && ParseUnsigned(s, limit).Some?
    ensures Decimal(ParseUnsigned(s, limit).value) == s
  {
    assert s[0] in s;
    PlainIsDecimal(s);
  }

  /**
   `from_str` also accepts leading zeros and a plus sign, so parsing loses the text:
   it is recovered by printing exactly when both numbers are written plainly.
   */
  lemma ParsePrintIff(s: string)
    requires Valid(s)
    ensures Print(Parse(s)) == s <==> PlainDecimal(SplitThree(s)[0]) && PlainDecimal(SplitThree(s)[1])
  {
    var p := SplitThree(s);
    var r := Parse(s);
    SplitThreeJoins(s);
    if PlainDecimal(p[0]) && PlainDecimal(p[1]) {
      ParsePlain(p[0], U64_LIMIT);
      ParsePlain(p[1], U16_LIMIT);
      assert Print(r) == Joined(p);
    }
    if Print(r) == s {
      assert s == Decimal(r.timestamp) + "-" + Decimal(r.counter) + "-" + r.node;
      SplitThreeParts(Decimal(r.timestamp), Decimal(r.counter), r.node);
      assert p == [Decimal(r.timestamp), Decimal(r.counter), r.node];
      DecimalIsPlain(r.timestamp);
      DecimalIsPlain(r.counter);
    }
  }

  /** The text is these digits, or a plus sign and these digits. */
  predicate Spells(s: string, digits: string) {
    digits != [] && (forall c | c in digits :: IsDigit(c)) && (s == digits || s == "+" + digits)
  }

  /** A number is read exactly from its digits, with or without a plus sign, if it is below the limit. */
  lemma NumberReadIff(s: string, limit: nat, n: nat)
    ensures ParseUnsigned(s, limit) == Some(n) <==>
            exists digits :: Spells(s, digits) && DecimalValue(digits) == n < limit
  {
    var body := if |s| > 1 && s[0] == '+' then s[1..] else s;
    if ParseUnsigned(s, limit) == Some(n) {
      assert |s| > 1 && s[0] == '+' ==> s == "+" + body;
      assert Spells(s, body);
    }
    if digits :| Spells(s, digits) && DecimalValue(digits) == n < limit {
      assert digits[0] in digits;
      assert s == "+" + digits ==> s[0] == '+' && s[1..] == digits;
      assert body == digits;
    }
  }

  /** Zeros in front do not count. */
  lemma {:induction false} LeadingZero(s: string)
    requires forall c | c in s :: IsDigit(c)
    ensures DecimalValue("0" + s) == DecimalValue(s)
  {
    assert forall c | c in "0" + s :: IsDigit(c);
    if s == [] {
      assert "0" + s == "0" && "0"[..0] == "";
      assert DecimalValue("") == 0;
    } else {
      assert ("0" + s)[..|s|] == "0" + s[..|s| - 1];
      LeadingZero(s[..|s| - 1]);
    }
  }

  /** The text is a timestamp, a dash, a counter, a dash and a node part, which may be empty and may have dashes. */
  ghost predicate Presents(s: string, r: Reading) {
    exists a, b :: s == a + "-" + b + "-" + r.node
                   && ParseUnsigned(a, U64_LIMIT) == Some(r.timestamp) && ParseUnsigned(b, U16_LIMIT) == Some(r.counter)
  }

  lemma NumbersHaveNoDash(s: string, limit: nat)
    requires ParseUnsigned(s, limit).Some?
    ensures '-' !in s
  {
    var body := if |s| > 1 && s[0] == '+' then s[1..] else s;
    if |s| > 1 && s[0] == '+' {
      assert s == ['+'] + body;
    }
    assert '-' in s ==> '-' in body;
    assert !IsDigit('-');
  }

  /** Exactly such texts are accepted, and each is read as what it presents. */
  lemma AcceptedIff(s: string, r: Reading)
    ensures Presents(s, r) <==> Valid(s) && Parse(s) == r
  {
    hide ParseUnsigned, SplitThree;
    if Presents(s, r) {
      var a, b :| s == a + "-" + b + "-" + r.node
                  && ParseUnsigned(a, U64_LIMIT) == Some(r.timestamp) && ParseUnsigned(b, U16_LIMIT) == Some(r.counter);
      NumbersHaveNoDash(a, U64_LIMIT);
      NumbersHaveNoDash(b, U16_LIMIT);
      SplitThreeParts(a, b, r.node);
    }
    if Valid(s) && Parse(s) == r {
      SplitThreeJoins(s);
      var p := SplitThree(s);
      assert s == p[0] + "-" + p[1] + "-" + r.node;
    }
  }

  /* ---------- the order ---------- */

  lemma CompareReadingTotalOrder(a: Reading, b: Reading, c: Reading)
    ensures CompareReading(a, b) == Equal <==> a == b
    ensures CompareReading(b, a) == CompareReading(a, b).Reverse()
    ensures CompareReading(a, b) != Greater && CompareReading(b, c) != Greater ==> CompareReading(a, c) != Greater
  {
    CompareStringTotalOrder(a.node, b.node, c.node);
    CompareStringTotalOrder(b.node, c.node, a.node);
  }

  /** On printed revisions, comparing as equal is being the same string. */
  lemma PrintedEqualIffSame(a: Reading, b: Reading)
    requires InRange(a) && InRange(b)
    ensures Valid(Print(a)) && Valid(Print(b))
    ensures Compare(Print(a), Print(b)) == CompareReading(a, b)
    ensures Compare(Print(a), Print(b)) == Equal <==> Print(a) == Print(b)
  {
    PrintParse(a);
    PrintParse(b);
    CompareReadingTotalOrder(a, b, a);
  }

  /** On parsed ones it is not: two spellings of one reading tie without being equal. */
  lemma ParsedEqualNotSame()
    ensures Valid("01-0-ab") && Valid("1-0-ab")
    ensures Compare("01-0-ab", "1-0-ab") == Equal && "01-0-ab" != "1-0-ab"
  {
    hide IndexOf, DecimalValue;
    SplitThreeParts("01", "0", "ab");
    SplitThreeParts("1", "0", "ab");
    assert "01-0-ab" == "01" + "-" + "0" + "-" + "ab" && "1-0-ab" == "1" + "-" + "0" + "-" + "ab";
    ParseSpellings();
    assert Parse("01-0-ab") == Parse("1-0-ab") == Reading(1, 0, "ab");
    CompareReadingTotalOrder(Reading(1, 0, "ab"), Reading(1, 0, "ab"), Reading(1, 0, "ab"));
  }

  lemma ParseSpellings()
    ensures ParseUnsigned("01", U64_LIMIT) == ParseUnsigned("1", U64_LIMIT) == Some(1)
    ensures ParseUnsigned("0", U16_LIMIT) == Some(0)
  {
    hide IndexOf;
    assert "01"[..1] == "0" && "0"[..0] == "" && "1"[..0] == "";
    assert DecimalValue("") == 0;
    assert DecimalValue("0") == 0 && DecimalValue("1") == 1;
    assert DecimalValue("01") == 1;
  }

  /* ---------- "ordered lexicographically == ordered semantically" ---------- */

  /** `n` without its last `k` digits. */
  function DropDigits(n: nat, k: nat): nat {
    if k == 0 then n else DropDigits(n / 10, k - 1)
  }

  /** The number with fewer digits does not exceed the leading digits of the other one. */
  predicate Aligned(m: nat, n: nat) {
    var la, lb := |Decimal(m)|, |Decimal(n)|;
    if la < lb then m <= DropDigits(n, lb - la)
    else if lb < la then n <= DropDigits(m, la - lb)
    else true
  }

  lemma {:induction false} CompareSeqSnoc<T>(code: T -> int, a: seq<T>, x: T, b: seq<T>, y: T)
    requires |a| == |b|
    ensures CompareSeq(code, a + [x], b + [y]) == CompareSeq(code, a, b).Then(CompareInt(code(x), code(y)))
  {
    if a != [] {
      assert (a + [x])[1..] == a[1..] + [x] && (b + [y])[1..] == b[1..] + [y];
      CompareSeqSnoc(code, a[1..], x, b[1..], y);
    }
  }

  /** Text of one length compares as the numbers do. */
  lemma {:induction false} SameLengthDecimals(m: nat, n: nat)
    requires |Decimal(m)| == |Decimal(n)|
    ensures CompareString(Decimal(m), Decimal(n)) == CompareInt(m, n)
  {
    if m >= 10 && n >= 10 {
      SameLengthDecimals(m / 10, n / 10);
      CompareSeqSnoc(CharCode, Decimal(m / 10), Digit(m % 10), Decimal(n / 10), Digit(n % 10));
      CompareByDigits(m, n);
    } else {
      assert m < 10 && n < 10;
      CompareSeqSnoc(CharCode, [], Digit(m), [], Digit(n));
      assert [] + [Digit(m)] == Decimal(m) && [] + [Digit(n)] == Decimal(n);
    }
  }

  lemma CompareByDigits(m: nat, n: nat)
    ensures CompareInt(m, n) == CompareInt(m / 10, n / 10).Then(CompareInt(m % 10, n % 10))
  {
    assert m == 10 * (m / 10) + m % 10 && n == 10 * (n / 10) + n % 10;
  }

  lemma {:induction false} LeadingDigits(n: nat, k: nat)
    requires k < |Decimal(n)|
    ensures Decimal(DropDigits(n, k)) == Decimal(n)[..|Decimal(n)| - k]
  {
    if k > 0 {
      assert n >= 10;
      LeadingDigits(n / 10, k - 1);
      assert Decimal(n)[..|Decimal(n)| - k] == Decimal(n / 10)[..|Decimal(n / 10)| - (k - 1)];
    } else {
      assert Decimal(n)[..|Decimal(n)|] == Decimal(n);
    }
  }

  /** One side's text runs out first and is followed by a dash, which is below every digit. */
  lemma ShorterBeforeDash(m: nat, n: nat, x: string, y: string)
    requires |Decimal(m)| < |Decimal(n)|
    ensures CompareString(Decimal(m) + "-" + x, Decimal(n) + "-" + y) ==
            if m <= DropDigits(n, |Decimal(n)| - |Decimal(m)|) then Less else Greater
  {
    hide Decimal, DropDigits;
    var k := |Decimal(m)|;
    var head := DropDigits(n, |Decimal(n)| - k);
    LeadingDigits(n, |Decimal(n)| - k);
    var tail := Decimal(n)[k..];
    assert Decimal(n) == Decimal(head) + tail;
    assert Decimal(n) + "-" + y == Decimal(head) + (tail + "-" + y);
    assert Decimal(m) + "-" + x == Decimal(m) + ("-" + x);
    SameLengthDecimals(m, head);
    if m == head {
      CompareSeqCommonPrefix(CharCode, Decimal(m), "-" + x, tail + "-" + y);
      assert tail[0] in Decimal(n);
    } else {
      CompareSeqDiffers(CharCode, Decimal(m), "-" + x, Decimal(head), tail + "-" + y);
    }
  }

  lemma {:induction false} CompareSeqDiffers<T>(code: T -> int, a: seq<T>, x: seq<T>, b: seq<T>, y: seq<T>)
    requires |a| == |b| && CompareSeq(code, a, b) != Equal
    ensures CompareSeq(code, a + x, b + y) == CompareSeq(code, a, b)
  {
    if a != [] {
      assert (a + x)[1..] == a[1..] + x && (b + y)[1..] == b[1..] + y;
      if code(a[0]) == code(b[0]) {
        CompareSeqDiffers(code, a[1..], x, b[1..], y);
      }
    }
  }

  lemma {:induction false} FewerDigitsIsLess(m: nat, n: nat)
    requires |Decimal(m)| < |Decimal(n)|
    ensures m < n
  {
    if m >= 10 {
      FewerDigitsIsLess(m / 10, n / 10);
    }
  }

  lemma SameLengthDashed(m: nat, n: nat, x: string, y: string)
    requires m != n && |Decimal(m)| == |Decimal(n)|
    ensures CompareString(Decimal(m) + "-" + x, Decimal(n) + "-" + y) == CompareInt(m, n)
  {
    hide Decimal, CompareSeq;
    SameLengthDecimals(m, n);
    assert Decimal(m) + "-" + x == Decimal(m) + ("-" + x);
    assert Decimal(n) + "-" + y == Decimal(n) + ("-" + y);
    CompareSeqDiffers(CharCode, Decimal(m), "-" + x, Decimal(n), "-" + y);
  }

  /** Two different numbers, each followed by a dash, compare as text the way they compare as numbers iff aligned. */
  lemma DashedDecimals(m: nat, n: nat, a: string, b: string, x: string, y: string)
    requires m != n && a == Decimal(m) + "-" + x && b == Decimal(n) + "-" + y
    ensures CompareString(a, b) == CompareInt(m, n) <==> Aligned(m, n)
  {
    if |Decimal(m)| == |Decimal(n)| {
      SameLengthDashed(m, n, x, y);
    } else if |Decimal(m)| < |Decimal(n)| {
      FewerDigitsIsLess(m, n);
      ShorterBeforeDash(m, n, x, y);
    } else {
      FewerDigitsIsLess(n, m);
      ShorterBeforeDash(n, m, y, x);
      CompareSeqReverse(CharCode, b, a);
    }
  }

  /**
   The header of the source says that the text order is the semantic order. Exactly when
   the first differing number of the two readings is aligned, it is.
   */
  lemma LexicographicIffAligned(a: Reading, b: Reading)
    ensures CompareString(Print(a), Print(b)) == CompareReading(a, b) <==>
            if a.timestamp != b.timestamp then Aligned(a.timestamp, b.timestamp)
            else a.counter != b.counter ==> Aligned(a.counter, b.counter)
  {
    var tailA, tailB := Decimal(a.counter) + "-" + a.node, Decimal(b.counter) + "-" + b.node;
    var head := Decimal(a.timestamp) + "-";
    assert Print(a) == Decimal(a.timestamp) + "-" + tailA && Print(b) == Decimal(b.timestamp) + "-" + tailB;
    if a.timestamp != b.timestamp {
      DashedDecimals(a.timestamp, b.timestamp, Print(a), Print(b), tailA, tailB);
    } else {
      CompareSeqCommonPrefix(CharCode, head, tailA, tailB);
      if a.counter != b.counter {
        DashedDecimals(a.counter, b.counter, tailA, tailB, a.node, b.node);
      } else {
        CompareSeqCommonPrefix(CharCode, Decimal(a.counter) + "-", a.node, b.node);
      }
    }
  }

  /** The tenth revision of a millisecond sorts, as text, before the ninth. */
  lemma LexicographicIsNotSemantic()
    ensures CompareReading(Reading(1000, 9, "ab"), Reading(1000, 10, "ab")) == Less
    ensures CompareString(Print(Reading(1000, 9, "ab")), Print(Reading(1000, 10, "ab"))) == Greater
  {
    LexicographicIffAligned(Reading(1000, 9, "ab"), Reading(1000, 10, "ab"));
    assert Decimal(9) == "9" && Decimal(10) == "10";
    ShorterBeforeDash(9, 10, "ab", "ab");
    assert DropDigits(10, 1) == 1;
    CompareSeqCommonPrefix(CharCode, Decimal(1000) + "-", "9-ab", "10-ab");
    assert Print(Reading(1000, 9, "ab")) == Decimal(1000) + "-" + "9-ab";
    assert Print(Reading(1000, 10, "ab")) == Decimal(1000) + "-" + "10-ab";
  }
}
