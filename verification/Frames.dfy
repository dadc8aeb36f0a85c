/**
 Length-prefixed frames: four little-endian bytes of length, then the payload. The log
 file and the sync queue file are both sequences of such frames.
 */
module Frames {
  import opened Wrappers

  type byte = b: int | 0 <= b < 256

  const U32_LIMIT: nat := 0x1_0000_0000

  /** `u32::to_le_bytes`. */
  function LittleEndian(n: nat): (bytes: seq<byte>)
    requires n < U32_LIMIT
    ensures |bytes| == 4
  {
    [n % 256, n / 256 % 256, n / 65536 % 256, n / 16777216]
  }

  /** `u32::from_le_bytes`. */
  function FromLittleEndian(bytes: seq<byte>): (n: nat)
    requires |bytes| == 4
    ensures n < U32_LIMIT
  {
    var (a: int, b: int, c: int, d: int) := (bytes[0], bytes[1], bytes[2], bytes[3]);
    a + 256 * b + 65536 * c + 16777216 * d
  }

  /** A payload with its length, which the writer truncates to 32 bits. */
  function Frame(payload: seq<byte>): (f: seq<byte>)
    ensures |f| == 4 + |payload|
  {
    LittleEndian(|payload| % U32_LIMIT) + payload
  }

  function WriteFrames(payloads: seq<seq<byte>>): seq<byte> {
    if payloads == [] then [] else WriteFrames(payloads[..|payloads| - 1]) + Frame(payloads[|payloads| - 1])
  }

  /** Reading stops at the first frame that is not there in full. */
  function FirstFrame(file: seq<byte>): (r: Option<seq<byte>>)
    ensures r.Some? ==> 4 + |r.value| <= |file| && |r.value| < U32_LIMIT
  {
    if |file| < 4 then None
    else
      var len := FromLittleEndian(file[..4]);
      if |file| - 4 < len then None else Some(file[4..4 + len])
  }

  function ReadFrames(file: seq<byte>): seq<seq<byte>>
    decreases |file|
  {
    match FirstFrame(file)
    case None => []
    case Some(payload) => [payload] + ReadFrames(file[4 + |payload|..])
  }

  ghost predicate Short(payloads: seq<seq<byte>>) {
    forall p | p in payloads :: |p| < U32_LIMIT
  }

  lemma LengthRoundTrip(n: nat)
    requires n < U32_LIMIT
    ensures FromLittleEndian(LittleEndian(n)) == n
  {
    var a, b, c := n / 256, n / 65536, n / 16777216;
    assert b == a / 256 && c == b / 256;
    assert n == n % 256 + 256 * a && a == a % 256 + 256 * b && b == b % 256 + 256 * c;
  }

  /** The four length bytes are the only ones that read back as their value. */
  lemma LengthBytesUnique(bytes: seq<byte>)
    requires |bytes| == 4
    ensures LittleEndian(FromLittleEndian(bytes)) == bytes
  {
    var n := FromLittleEndian(bytes);
    var a: int, b: int, c: int, z: int := bytes[0], bytes[1], bytes[2], bytes[3];
    var y := c + 256 * z;
    var x := b + 256 * y;
    assert n == a + 256 * x;
    assert n / 256 == x && x / 256 == y && y / 256 == z;
    assert n / 65536 == y && n / 16777216 == z;
  }

  /** The first byte counts ones, the next 256s, and so on. */
  lemma LengthBytesCount(n: nat)
    requires n < U32_LIMIT
    ensures var bytes := LittleEndian(n);
            bytes[0] as int + 0x100 * bytes[1] as int + 0x1_0000 * bytes[2] as int + 0x100_0000 * bytes[3] as int == n
  {
    LengthRoundTrip(n);
  }

  /** A frame at the front of a file, complete or cut short. */
  lemma FrameInFront(p: seq<byte>, rest: seq<byte>, k: nat)
    requires |p| < U32_LIMIT && k <= |Frame(p)| + |rest|
    ensures FirstFrame((Frame(p) + rest)[..k]) == if k >= |Frame(p)| then Some(p) else None
  {
    hide LittleEndian, FromLittleEndian;
    var file := (Frame(p) + rest)[..k];
    LengthRoundTrip(|p|);
    if k >= 4 {
      assert file[..4] == LittleEndian(|p|);
      if k >= |Frame(p)| {
        assert file[4..4 + |p|] == p;
      }
    }
  }

  lemma ReadFront(p: seq<byte>, rest: seq<byte>, k: nat)
    requires |p| < U32_LIMIT && k <= |Frame(p)| + |rest|
    ensures ReadFrames((Frame(p) + rest)[..k]) ==
            if k >= |Frame(p)| then [p] + ReadFrames(rest[..k - |Frame(p)|]) else []
  {
    hide Frame, FirstFrame;
    FrameInFront(p, rest, k);
    if k >= |Frame(p)| {
      assert (Frame(p) + rest)[..k][|Frame(p)|..] == rest[..k - |Frame(p)|];
    }
  }

  lemma PeelFront(ps: seq<seq<byte>>)
    requires ps != []
    ensures WriteFrames(ps) == Frame(ps[0]) + WriteFrames(ps[1..])
  {
    assert ps == [ps[0]] + ps[1..];
    WriteFramesAppend([ps[0]], ps[1..]);
    WriteOneFrame(ps[0]);
  }

  /** Frames are written as a concatenation, so they can also be peeled off the front. */
  lemma {:induction false} WriteFramesAppend(ps: seq<seq<byte>>, qs: seq<seq<byte>>)
    ensures WriteFrames(ps + qs) == WriteFrames(ps) + WriteFrames(qs)
  {
    hide Frame;
    if qs == [] {
      assert ps + qs == ps;
    } else {
      assert (ps + qs)[..|ps + qs| - 1] == ps + qs[..|qs| - 1];
      WriteFramesAppend(ps, qs[..|qs| - 1]);
    }
  }

  lemma WriteOneFrame(p: seq<byte>)
    ensures WriteFrames([p]) == Frame(p)
  {
    assert [p][..0] == [];
  }

  /** How many frames end at or before `k`. */
  function WholeFrames(ps: seq<seq<byte>>, k: nat): (n: nat)
    ensures n <= |ps|
    decreases |ps|
  {
    if ps == [] || k < |Frame(ps[0])| then 0 else 1 + WholeFrames(ps[1..], k - |Frame(ps[0])|)
  }

  /** The count is what it says: so many frames fit into `k` bytes and one more does not. */
  lemma {:induction false} WholeFramesFit(ps: seq<seq<byte>>, k: nat)
    ensures var n := WholeFrames(ps, k);
            && |WriteFrames(ps[..n])| <= k
            && (n < |ps| ==> k < |WriteFrames(ps[..n + 1])|)
    decreases |ps|
  {
    hide Frame, WriteFrames;
    NothingToRead();
    var n := WholeFrames(ps, k);
    if n == 0 {
      assert ps[..0] == [];
      if ps != [] {
        PrefixSize(ps, 1);
        assert ps[1..][..0] == [];
      }
    } else {
      WholeFramesFit(ps[1..], k - |Frame(ps[0])|);
      PrefixSize(ps, n);
      if n < |ps| {
        PrefixSize(ps, n + 1);
      }
    }
  }

  /** Reading the first `k` bytes of a file, for any `k`, yields exactly the payloads whose frames end at or before `k`. */
  lemma {:induction false} CrashPrefix(ps: seq<seq<byte>>, k: nat)
    requires Short(ps) && k <= |WriteFrames(ps)|
    ensures ReadFrames(WriteFrames(ps)[..k]) == ps[..WholeFrames(ps, k)]
    decreases |ps|
  {
    hide Frame, ReadFrames, WriteFrames;
    NothingToRead();
    if ps != [] {
      PeelFront(ps);
      ReadFront(ps[0], WriteFrames(ps[1..]), k);
      if k >= |Frame(ps[0])| {
        CrashPrefix(ps[1..], k - |Frame(ps[0])|);
        var n := WholeFrames(ps, k);
        assert ps[..n] == [ps[0]] + ps[1..][..n - 1];
      }
    }
  }

  lemma PrefixSize(ps: seq<seq<byte>>, n: nat)
    requires 1 <= n <= |ps|
    ensures |WriteFrames(ps[..n])| == |Frame(ps[0])| + |WriteFrames(ps[1..][..n - 1])|
  {
    hide Frame, WriteFrames;
    PeelFront(ps[..n]);
    assert ps[..n][1..] == ps[1..][..n - 1];
  }

  lemma NothingToRead()
    ensures WriteFrames([]) == [] && ReadFrames([]) == []
  {}

  lemma {:induction false} AllFramesFit(ps: seq<seq<byte>>)
    ensures WholeFrames(ps, |WriteFrames(ps)|) == |ps|
    decreases |ps|
  {
    hide Frame, WriteFrames;
    if ps != [] {
      PeelFront(ps);
      AllFramesFit(ps[1..]);
    }
  }

  /** The whole file reads back as what was written. */
  lemma FramesRoundTrip(ps: seq<seq<byte>>)
    requires Short(ps)
    ensures ReadFrames(WriteFrames(ps)) == ps
  {
    assert ps[..|ps|] == ps && WriteFrames(ps)[..|WriteFrames(ps)|] == WriteFrames(ps);
    AllFramesFit(ps);
    CrashPrefix(ps, |WriteFrames(ps)|);
  }

  /** What was read is short, and writing it back gives the front of the file it came from. */
  lemma {:induction false} ReadThenWrite(file: seq<byte>)
    ensures Short(ReadFrames(file)) && WriteFrames(ReadFrames(file)) <= file
    decreases |file|
  {
    hide Frame, FirstFrame;
    var first := FirstFrame(file);
    if first.Some? {
      var p := first.value;
      var rest := file[4 + |p|..];
      ReadThenWrite(rest);
      PeelFront([p] + ReadFrames(rest));
      FrameTaken(file);
    }
  }

  lemma FrameTaken(file: seq<byte>)
    requires FirstFrame(file).Some?
    ensures var p := FirstFrame(file).value; file == Frame(p) + file[4 + |p|..]
  {
    hide LittleEndian, FromLittleEndian;
    LengthBytesUnique(file[..4]);
    assert file == file[..4] + file[4..];
  }

  /** A file that ends between frames goes on with whatever is appended to it. */
  lemma {:induction false} ReadFramesAppend(ps: seq<seq<byte>>, more: seq<byte>)
    requires Short(ps)
    ensures ReadFrames(WriteFrames(ps) + more) == ps + ReadFrames(more)
  {
    hide Frame, ReadFrames;
    if ps == [] {
      assert WriteFrames(ps) + more == more && ps + ReadFrames(more) == ReadFrames(more);
    } else {
      var tail := WriteFrames(ps[1..]) + more;
      PeelFront(ps);
      assert WriteFrames(ps) + more == Frame(ps[0]) + tail;
      var file := Frame(ps[0]) + tail;
      assert file[..|file|] == file && tail[..|tail|] == tail;
      ReadFront(ps[0], tail, |file|);
      ReadFramesAppend(ps[1..], more);
      assert ps + ReadFrames(more) == [ps[0]] + (ps[1..] + ReadFrames(more));
    }
  }

  /**
   A frame torn after its length swallows what is appended: a reader sees nothing new exactly
   while the bytes it still lacks are more than those appended.
   */
  lemma TornTailHidesAppend(ps: seq<seq<byte>>, torn: seq<byte>, cut: nat, more: seq<byte>)
    requires Short(ps) && |torn| < U32_LIMIT && 4 <= cut < |Frame(torn)|
    ensures ReadFrames(WriteFrames(ps) + Frame(torn)[..cut] + more) == ps <==> |more| < |Frame(torn)| - cut
  {
    hide LittleEndian, FromLittleEndian, WriteFrames;
    var tail := Frame(torn)[..cut] + more;
    assert WriteFrames(ps) + Frame(torn)[..cut] + more == WriteFrames(ps) + tail;
    TornTailIsIncomplete(torn, cut, more);
    ReadFramesAppend(ps, tail);
  }

  lemma TornTailIsIncomplete(torn: seq<byte>, cut: nat, more: seq<byte>)
    requires |torn| < U32_LIMIT && 4 <= cut < |Frame(torn)|
    ensures ReadFrames(Frame(torn)[..cut] + more) == [] <==> |more| < |Frame(torn)| - cut
  {
    hide LittleEndian, FromLittleEndian, ReadFrames;
    var tail := Frame(torn)[..cut] + more;
    LengthRoundTrip(|torn|);
    assert |tail| == cut + |more| && |Frame(torn)| == 4 + |torn|;
    assert tail[..4] == LittleEndian(|torn|);
    ReadNothingIff(tail);
  }

  lemma ReadNothingIff(bytes: seq<byte>)
    ensures ReadFrames(bytes) == [] <==> FirstFrame(bytes) == None
  {
    hide FirstFrame;
  }

  /** The file ends where a frame does. */
  predicate EndsBetweenFrames(file: seq<byte>) {
    WriteFrames(ReadFrames(file)) == file
  }

  /** What follows the last whole frame. */
  function TailOf(file: seq<byte>): (tail: seq<byte>)
    ensures file == WriteFrames(ReadFrames(file)) + tail
  {
    ReadThenWrite(file);
    file[|WriteFrames(ReadFrames(file))|..]
  }

  /** It begins a frame at most and does not complete one. */
  lemma {:induction false} TailIsTorn(file: seq<byte>)
    ensures FirstFrame(TailOf(file)) == None
    decreases |file|
  {
    hide Frame, FirstFrame;
    ReadThenWrite(file);
    var first := FirstFrame(file);
    if first.Some? {
      var p := first.value;
      var rest := file[4 + |p|..];
      TailIsTorn(rest);
      PeelFront([p] + ReadFrames(rest));
      FrameTaken(file);
      assert ([p] + ReadFrames(rest))[1..] == ReadFrames(rest);
      assert TailOf(file) == TailOf(rest);
    } else {
      NothingToRead();
      assert file[0..] == file;
    }
  }

  /** Every appended length up to this one has a payload that a torn tail swallows. */
  const SWALLOWED_LIMIT: nat := 0xfe00_0000

  /** So many bytes of all ones, and a few more to make their number a multiple of 256. */
  function Swallowed(length: nat): (x: seq<byte>)
    requires length <= SWALLOWED_LIMIT
    ensures length < |x| <= length + 256 && |x| % 256 == 0 && forall i | 0 <= i < |x| :: x[i] == 255
  {
    seq((length / 256 + 1) * 256, _ => 255)
  }

  /** No file holds as much as a length with all ones in its top byte says. */
  lemma TopByteStops(bytes: seq<byte>)
    requires |bytes| >= 4 ==> bytes[3] == 255
    requires |bytes| <= SWALLOWED_LIMIT + 260
    ensures FirstFrame(bytes) == None && ReadFrames(bytes) == []
  {
    ReadNothingIff(bytes);
  }

  lemma FrameOfOnes(x: seq<byte>, i: nat)
    requires 256 <= |x| <= SWALLOWED_LIMIT + 256 && |x| % 256 == 0
    requires (forall k | 0 <= k < |x| :: x[k] == 255) && i < |Frame(x)|
    ensures i >= 4 ==> Frame(x)[i] == 255
    ensures i == 0 || i == 3 ==> Frame(x)[i] < 255
  {}

  /**
   Behind a torn tail such a payload never comes back: what the tail completes takes in bytes
   of the payload's length, and of the rest of it no length can be read.
   */
  lemma TailSwallows(tail: seq<byte>, length: nat)
    requires tail != [] && FirstFrame(tail) == None && length <= SWALLOWED_LIMIT
    ensures Swallowed(length) !in ReadFrames(tail + Frame(Swallowed(length)))
  {
    hide LittleEndian, FromLittleEndian, ReadFrames, Swallowed;
    var x := Swallowed(length);
    var frame := Frame(x);
    var bytes := tail + frame;
    var first := FirstFrame(bytes);
    ReadNothingIff(bytes);
    if first.Some? {
      var q := first.value;
      assert |tail| >= 4 ==> bytes[..4] == tail[..4];
      var from := 4 + |q| - |tail|;
      assert from >= 1;
      var rest := bytes[4 + |q|..];
      assert rest == frame[from..];
      if |rest| >= 4 {
        FrameOfOnes(x, from + 3);
      }
      TopByteStops(rest);
      ReadFirst(bytes);
      if |q| == |x| {
        TakesInLength(tail, x, q);
      }
    }
  }

  lemma ReadFirst(bytes: seq<byte>)
    requires FirstFrame(bytes).Some?
    ensures var p := FirstFrame(bytes).value; ReadFrames(bytes) == [p] + ReadFrames(bytes[4 + |p|..])
  {}

  /** The frame that the tail completes holds a byte of the appended length that is not all ones. */
  lemma TakesInLength(tail: seq<byte>, x: seq<byte>, q: seq<byte>)
    requires 256 <= |x| <= SWALLOWED_LIMIT + 256 && |x| % 256 == 0 && forall k | 0 <= k < |x| :: x[k] == 255
    requires tail != [] && 4 + |q| > |tail| && |q| == |x|
    requires 4 + |q| <= |tail + Frame(x)| && q == (tail + Frame(x))[4..4 + |q|]
    ensures q != x
  {
    hide LittleEndian;
    var at := if |tail| >= 4 then 0 else 3;
    FrameOfOnes(x, at);
    assert (tail + Frame(x))[|tail| + at] == Frame(x)[at];
    assert q[|tail| + at - 4] < 255;
  }

  /** After a torn frame there is, at any length, something that never comes back when it is appended. */
  lemma TornTailSwallows(file: seq<byte>, length: nat)
    requires !EndsBetweenFrames(file) && length <= SWALLOWED_LIMIT
    ensures var x := Swallowed(length);
            var read := ReadFrames(TailOf(file) + Frame(x));
            |x| < U32_LIMIT && x !in read && ReadFrames(file + Frame(x)) == ReadFrames(file) + read
  {
    hide Frame, ReadFrames, WriteFrames, FirstFrame, Swallowed;
    TailIsTorn(file);
    ReadThenWrite(file);
    var whole, tail, x := WriteFrames(ReadFrames(file)), TailOf(file), Swallowed(length);
    TailSwallows(tail, length);
    ReadFramesAppend(ReadFrames(file), tail + Frame(x));
    assert file + Frame(x) == whole + (tail + Frame(x));
  }

  /**
   Whatever is appended reads back, after all that read before, exactly when the file ends
   between frames; and it makes no difference to ask it only of payloads of some length or more.
   */
  lemma AppendReadsBackIff(file: seq<byte>, length: nat)
    requires length <= SWALLOWED_LIMIT
    ensures (forall x | length <= |x| < U32_LIMIT :: ReadFrames(file + Frame(x)) == ReadFrames(file) + [x])
            <==> EndsBetweenFrames(file)
  {
    hide Frame, ReadFrames, WriteFrames, FirstFrame, Swallowed;
    if EndsBetweenFrames(file) {
      ReadThenWrite(file);
      forall x | |x| < U32_LIMIT ensures ReadFrames(file + Frame(x)) == ReadFrames(file) + [x] {
        ReadFramesAppend(ReadFrames(file), Frame(x));
        WriteOneFrame(x);
        FramesRoundTrip([x]);
      }
    } else {
      TornTailSwallows(file, length);
      var x := Swallowed(length);
      NotAppended(ReadFrames(file), ReadFrames(TailOf(file) + Frame(x)), x);
    }
  }

  lemma NotAppended<T>(s: seq<T>, more: seq<T>, x: T)
    requires x !in more
    ensures s + more != s + [x]
  {
    assert |more| == 1 ==> (s + more)[|s|] == more[0] && (s + [x])[|s|] == x;
  }
}
