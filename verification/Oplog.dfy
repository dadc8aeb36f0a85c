/**
 The life of a framed log: append, read, mark applied, compact, reopen. The state with
 bytes is shown to behave as a plain list of entries.
 */
module Oplog {
  import opened Wrappers
  import opened Documents
  import opened Frames

  datatype Origin = Local | Remote | Replayed

  datatype Entry = Entry(seqNo: nat, timestamp: int, mutation: Mutation, origin: Origin, applied: bool)

  /** What a stored payload turns out to be. */
  datatype Payload =
    | Undecryptable
    | NotDocument
    | NotEntry
    | Decoded(entry: Entry)

  /** Serialisation and optional encryption; the number stands for whatever makes a ciphertext fresh. */
  datatype Codec = Codec(seal: (Entry, nat) -> seq<byte>, open: seq<byte> -> Payload)

  /**
   What is asked of a codec, of the entries actually written and of no others: decoding undoes
   encoding, and the encoding is shorter than the length a frame can carry.
   */
  predicate Carries(codec: Codec, e: Entry, nonce: nat) {
    codec.open(codec.seal(e, nonce)) == Decoded(e) && |codec.seal(e, nonce)| < U32_LIMIT
  }

  datatype Disk = Disk(file: seq<byte>, nextSeq: nat, applied: set<nat>)

  /** The entries that decode, in file order. */
  function Entries(codec: Codec, payloads: seq<seq<byte>>): seq<Entry> {
    if payloads == [] then []
    else
      Entries(codec, payloads[..|payloads| - 1]) +
      match codec.open(payloads[|payloads| - 1])
      case Decoded(e) => [e]
      case _ => []
  }

  function EntriesOf(codec: Codec, file: seq<byte>): seq<Entry> {
    Entries(codec, ReadFrames(file))
  }

  /* ---------- the operations ---------- */

  function Append(codec: Codec, d: Disk, e: Entry, nonce: nat): (Disk, nat) {
    var seqNo := d.nextSeq + 1;
    (Disk(d.file + Frame(codec.seal(e.(seqNo := seqNo), nonce)), seqNo, d.applied), seqNo)
  }

  /** The entries numbered `seqNo` or above, in file order. */
  function Since(entries: seq<Entry>, seqNo: nat): seq<Entry> {
    if entries == [] then []
    else
      Since(entries[..|entries| - 1], seqNo) +
      if entries[|entries| - 1].seqNo >= seqNo then [entries[|entries| - 1]] else []
  }

  function Take<T>(s: seq<T>, n: nat): seq<T> {
    if n < |s| then s[..n] else s
  }

  /** The reader tests its limit after pushing, so a limit of zero still lets one entry through. */
  function ReadSince(codec: Codec, file: seq<byte>, seqNo: nat, limit: nat): seq<Entry> {
    Take(Since(EntriesOf(codec, file), seqNo), if limit == 0 then 1 else limit)
  }

  /** Compaction keeps a frame it cannot decrypt or deserialise, and drops one that is no document. */
  predicate Keeps(codec: Codec, applied: set<nat>, payload: seq<byte>) {
    match codec.open(payload)
    case Undecryptable => true
    case NotDocument => false
    case NotEntry => true
    case Decoded(e) => e.seqNo !in applied
  }

  function KeptPayloads(codec: Codec, applied: set<nat>, payloads: seq<seq<byte>>): seq<seq<byte>> {
    if payloads == [] then []
    else
      KeptPayloads(codec, applied, payloads[..|payloads| - 1]) +
      if Keeps(codec, applied, payloads[|payloads| - 1]) then [payloads[|payloads| - 1]] else []
  }

  function Compact(codec: Codec, d: Disk): (Disk, nat) {
    var kept := KeptPayloads(codec, d.applied, ReadFrames(d.file));
    (d.(file := WriteFrames(kept)), |kept|)
  }

  /** `read_latest_seq`: the last entry's number, not the largest; an undecryptable frame is an error. */
  function LatestSeq(codec: Codec, payloads: seq<seq<byte>>): Option<nat> {
    if payloads == [] then Some(0)
    else
      match LatestSeq(codec, payloads[..|payloads| - 1])
      case None => None
      case Some(latest) =>
        match codec.open(payloads[|payloads| - 1])
        case Undecryptable => None
        case Decoded(e) => Some(e.seqNo)
        case _ => Some(latest)
  }

  /** Opening what a previous process left behind. */
  function Reopen(codec: Codec, d: Disk): Option<Disk> {
    match LatestSeq(codec, ReadFrames(d.file))
    case None => None
    case Some(latest) => Some(d.(nextSeq := latest))
  }

  /* ---------- single operations on any file ---------- */

  lemma {:induction false} EntriesAppend(codec: Codec, ps: seq<seq<byte>>, qs: seq<seq<byte>>)
    ensures Entries(codec, ps + qs) == Entries(codec, ps) + Entries(codec, qs)
  {
    if qs == [] {
      assert ps + qs == ps;
    } else {
      assert (ps + qs)[..|ps + qs| - 1] == ps + qs[..|qs| - 1];
      EntriesAppend(codec, ps, qs[..|qs| - 1]);
    }
  }

  lemma EntriesOne(codec: Codec, p: seq<byte>)
    ensures Entries(codec, [p]) == (match codec.open(p) case Decoded(e) => [e] case _ => [])
  {
    assert Entries(codec, [p][..0]) == [];
  }

  lemma {:induction false} SinceAppend(xs: seq<Entry>, ys: seq<Entry>, seqNo: nat)
    ensures Since(xs + ys, seqNo) == Since(xs, seqNo) + Since(ys, seqNo)
  {
    if ys == [] {
      assert xs + ys == xs;
    } else {
      assert (xs + ys)[..|xs + ys| - 1] == xs + ys[..|ys| - 1];
      SinceAppend(xs, ys[..|ys| - 1], seqNo);
    }
  }

  lemma {:induction false} KeptAreShort(codec: Codec, applied: set<nat>, payloads: seq<seq<byte>>)
    requires Short(payloads)
    ensures Short(KeptPayloads(codec, applied, payloads))
  {
    if payloads != [] {
      KeptAreShort(codec, applied, payloads[..|payloads| - 1]);
    }
  }

  function Unapplied(entries: seq<Entry>, applied: set<nat>): seq<Entry> {
    if entries == [] then []
    else
      Unapplied(entries[..|entries| - 1], applied) +
      if entries[|entries| - 1].seqNo in applied then [] else [entries[|entries| - 1]]
  }

  lemma {:induction false} KeptEntries(codec: Codec, applied: set<nat>, payloads: seq<seq<byte>>)
    ensures Entries(codec, KeptPayloads(codec, applied, payloads)) == Unapplied(Entries(codec, payloads), applied)
  {
    hide Keeps;
    if payloads != [] {
      var init, last := payloads[..|payloads| - 1], payloads[|payloads| - 1];
      KeptEntries(codec, applied, init);
      KeptOne(codec, applied, last);
      EntriesOne(codec, last);
      EntriesAppend(codec, KeptPayloads(codec, applied, init), KeptPayloads(codec, applied, [last]));
      UnappliedAppend(Entries(codec, init), Entries(codec, [last]), applied);
    }
  }

  lemma KeptOne(codec: Codec, applied: set<nat>, p: seq<byte>)
    ensures KeptPayloads(codec, applied, [p]) == if Keeps(codec, applied, p) then [p] else []
    ensures Entries(codec, KeptPayloads(codec, applied, [p])) == Unapplied(Entries(codec, [p]), applied)
  {
    assert KeptPayloads(codec, applied, [p][..0]) == [];
    EntriesOne(codec, p);
    if codec.open(p).Decoded? {
      UnappliedOne(codec.open(p).entry, applied);
    }
  }

  lemma UnappliedOne(e: Entry, applied: set<nat>)
    ensures Unapplied([e], applied) == if e.seqNo in applied then [] else [e]
  {
    assert Unapplied([e][..0], applied) == [];
  }

  lemma {:induction false} UnappliedAppend(xs: seq<Entry>, ys: seq<Entry>, applied: set<nat>)
    ensures Unapplied(xs + ys, applied) == Unapplied(xs, applied) + Unapplied(ys, applied)
  {
    if ys == [] {
      assert xs + ys == xs;
    } else {
      assert (xs + ys)[..|xs + ys| - 1] == xs + ys[..|ys| - 1];
      UnappliedAppend(xs, ys[..|ys| - 1], applied);
    }
  }

  /** Whatever the file holds, compaction leaves exactly its decodable entries that are not applied, in order. */
  lemma CompactKeepsUnapplied(codec: Codec, d: Disk)
    ensures var (after, kept) := Compact(codec, d);
            && EntriesOf(codec, after.file) == Unapplied(EntriesOf(codec, d.file), d.applied)
            && after.nextSeq == d.nextSeq && after.applied == d.applied
            && kept == |ReadFrames(after.file)|
  {
    hide ReadFrames, WriteFrames, Keeps;
    ReadThenWrite(d.file);
    KeptAreShort(codec, d.applied, ReadFrames(d.file));
    FramesRoundTrip(KeptPayloads(codec, d.applied, ReadFrames(d.file)));
    KeptEntries(codec, d.applied, ReadFrames(d.file));
  }

  /**
   Of the frames themselves, compaction keeps the entries that are not applied and whatever it
   cannot decrypt or read as an entry; documents that never were and applied entries go.
   */
  lemma {:induction false} KeptFrames(codec: Codec, applied: set<nat>, payloads: seq<seq<byte>>, p: seq<byte>)
    ensures multiset(KeptPayloads(codec, applied, payloads))[p] ==
            if codec.open(p) == Undecryptable || codec.open(p) == NotEntry
               || (codec.open(p).Decoded? && codec.open(p).entry.seqNo !in applied)
            then multiset(payloads)[p] else 0
  {
    if payloads != [] {
      var init, last := payloads[..|payloads| - 1], payloads[|payloads| - 1];
      assert payloads == init + [last];
      KeptFrames(codec, applied, init, p);
    }
  }

  lemma {:induction false} KeptAppend(codec: Codec, applied: set<nat>, ps: seq<seq<byte>>, qs: seq<seq<byte>>)
    ensures KeptPayloads(codec, applied, ps + qs) == KeptPayloads(codec, applied, ps) + KeptPayloads(codec, applied, qs)
  {
    hide Keeps;
    if qs == [] {
      assert ps + qs == ps;
    } else {
      assert (ps + qs)[..|ps + qs| - 1] == ps + qs[..|qs| - 1];
      KeptAppend(codec, applied, ps, qs[..|qs| - 1]);
    }
  }

  /** The last of the decodable entries gives the counter; one frame that cannot be decrypted makes opening fail. */
  lemma {:induction false} LatestSeqIff(codec: Codec, payloads: seq<seq<byte>>)
    ensures LatestSeq(codec, payloads) == None <==> exists p | p in payloads :: codec.open(p) == Undecryptable
    ensures LatestSeq(codec, payloads).Some? ==>
              LatestSeq(codec, payloads).value == LastSeq(Entries(codec, payloads))
  {
    if payloads != [] {
      var init, last := payloads[..|payloads| - 1], payloads[|payloads| - 1];
      assert forall p :: p in payloads <==> p in init || p == last;
      LatestSeqIff(codec, init);
    }
  }

  /**
   A read gives the first decodable entries numbered from `seqNo` on, as many as the limit says
   but at least one; fewer when there are no more.
   */
  lemma ReadSinceIs(codec: Codec, file: seq<byte>, seqNo: nat, limit: nat)
    ensures var all := Since(EntriesOf(codec, file), seqNo);
            var read := ReadSince(codec, file, seqNo, limit);
            read <= all && |read| == (if |all| <= limit then |all| else if limit == 0 then 1 else limit)
  {
    hide EntriesOf, Since;
  }

  lemma {:induction false} SinceCounts(entries: seq<Entry>, seqNo: nat, e: Entry)
    ensures multiset(Since(entries, seqNo))[e] == if e.seqNo >= seqNo then multiset(entries)[e] else 0
  {
    if entries != [] {
      var init, last := entries[..|entries| - 1], entries[|entries| - 1];
      assert entries == init + [last];
      SinceCounts(init, seqNo, e);
    }
  }

  /** The entry that an append writes. */
  function Numbered(d: Disk, e: Entry): Entry {
    e.(seqNo := d.nextSeq + 1)
  }

  /** An append to a file that ends between frames adds its entry at the end. */
  lemma AppendAddsEntry(codec: Codec, d: Disk, e: Entry, nonce: nat)
    requires Carries(codec, Numbered(d, e), nonce) && EndsBetweenFrames(d.file)
    ensures var (after, seqNo) := Append(codec, d, e, nonce);
            && seqNo == Numbered(d, e).seqNo && EndsBetweenFrames(after.file)
            && ReadFrames(after.file) == ReadFrames(d.file) + [codec.seal(Numbered(d, e), nonce)]
            && EntriesOf(codec, after.file) == EntriesOf(codec, d.file) + [Numbered(d, e)]
  {
    hide ReadFrames, Frame;
    var ps, payload := ReadFrames(d.file), codec.seal(Numbered(d, e), nonce);
    ReadThenWrite(d.file);
    assert (ps + [payload])[..|ps|] == ps;
    FramesRoundTrip(ps + [payload]);
    EntriesAppend(codec, ps, [payload]);
    EntriesOne(codec, payload);
  }

  /** A codec under which one payload is one entry and nothing else decodes. */
  function OneEntryCodec(e: Entry, x: seq<byte>): Codec {
    Codec((_, _) => x, p => if p == x then Decoded(e) else Undecryptable)
  }

  lemma {:induction false} OneEntryMissing(e: Entry, x: seq<byte>, ps: seq<seq<byte>>)
    requires x !in ps
    ensures Entries(OneEntryCodec(e, x), ps) == []
  {
    if ps != [] {
      OneEntryMissing(e, x, ps[..|ps| - 1]);
    }
  }

  /**
   An appended entry comes back after all those before it, whatever the codec makes of it,
   exactly when the file ended between frames; nor is it enough that encodings have some length.
   */
  lemma AppendedReturnsIff(d: Disk, e: Entry, nonce: nat, length: nat)
    requires length <= SWALLOWED_LIMIT
    ensures (forall codec | Carries(codec, Numbered(d, e), nonce) && |codec.seal(Numbered(d, e), nonce)| >= length ::
               EntriesOf(codec, Append(codec, d, e, nonce).0.file) == EntriesOf(codec, d.file) + [Numbered(d, e)])
            <==> EndsBetweenFrames(d.file)
  {
    hide ReadFrames, Frame, Entries, EndsBetweenFrames, Swallowed;
    if EndsBetweenFrames(d.file) {
      forall codec | Carries(codec, Numbered(d, e), nonce)
        ensures EntriesOf(codec, Append(codec, d, e, nonce).0.file) == EntriesOf(codec, d.file) + [Numbered(d, e)]
      {
        AppendAddsEntry(codec, d, e, nonce);
      }
    } else {
      TornTailSwallows(d.file, length);
      var x := Swallowed(length);
      var codec, read := OneEntryCodec(Numbered(d, e), x), ReadFrames(TailOf(d.file) + Frame(x));
      EntriesAppend(codec, ReadFrames(d.file), read);
      OneEntryMissing(Numbered(d, e), x, read);
      assert Carries(codec, Numbered(d, e), nonce);
      assert |EntriesOf(codec, Append(codec, d, e, nonce).0.file)| == |EntriesOf(codec, d.file)|;
    }
  }

  /* ---------- the plain list behind the bytes ---------- */

  datatype Book = Book(entries: seq<Entry>, nextSeq: nat, applied: set<nat>)

  datatype LogOp =
    | AppendOp(entry: Entry, nonce: nat)
    | MarkApplied(seqNo: nat)
    | CompactOp
    | ReopenOp

  function LastSeq(entries: seq<Entry>): nat {
    if entries == [] then 0 else entries[|entries| - 1].seqNo
  }

  function StepBook(b: Book, op: LogOp): Book {
    match op
    case AppendOp(e, _) => Book(b.entries + [e.(seqNo := b.nextSeq + 1)], b.nextSeq + 1, b.applied)
    case MarkApplied(s) => b.(applied := b.applied + {s})
    case CompactOp => b.(entries := Unapplied(b.entries, b.applied))
    case ReopenOp => b.(nextSeq := LastSeq(b.entries))
  }

  function StepDisk(codec: Codec, d: Disk, op: LogOp): Option<Disk> {
    match op
    case AppendOp(e, nonce) => Some(Append(codec, d, e, nonce).0)
    case MarkApplied(s) => Some(d.(applied := d.applied + {s}))
    case CompactOp => Some(Compact(codec, d).0)
    case ReopenOp => Reopen(codec, d)
  }

  function RunBook(ops: seq<LogOp>): Book {
    if ops == [] then Book([], 0, {}) else StepBook(RunBook(ops[..|ops| - 1]), ops[|ops| - 1])
  }

  function RunDisk(codec: Codec, ops: seq<LogOp>): Option<Disk> {
    if ops == [] then Some(Disk([], 0, {}))
    else
      match RunDisk(codec, ops[..|ops| - 1])
      case None => None
      case Some(d) => StepDisk(codec, d, ops[|ops| - 1])
  }

  ghost predicate AllDecode(codec: Codec, payloads: seq<seq<byte>>) {
    forall p | p in payloads :: codec.open(p).Decoded?
  }

  /** The file is a whole number of decodable frames, and holds the entries of the list. */
  ghost predicate Represents(codec: Codec, d: Disk, b: Book) {
    var ps := ReadFrames(d.file);
    && d.file == WriteFrames(ps) && AllDecode(codec, ps)
    && Entries(codec, ps) == b.entries && d.nextSeq == b.nextSeq && d.applied == b.applied
  }

  lemma {:induction false} LatestOfDecodable(codec: Codec, payloads: seq<seq<byte>>)
    requires AllDecode(codec, payloads)
    ensures LatestSeq(codec, payloads) == Some(LastSeq(Entries(codec, payloads)))
  {
    if payloads != [] {
      var init := payloads[..|payloads| - 1];
      assert payloads[|payloads| - 1] in payloads;
      LatestOfDecodable(codec, init);
    }
  }

  lemma {:induction false} KeptDecode(codec: Codec, applied: set<nat>, payloads: seq<seq<byte>>)
    requires AllDecode(codec, payloads)
    ensures AllDecode(codec, KeptPayloads(codec, applied, payloads))
  {
    if payloads != [] {
      KeptDecode(codec, applied, payloads[..|payloads| - 1]);
    }
  }

  lemma StepRefines(codec: Codec, d: Disk, b: Book, op: LogOp)
    requires Represents(codec, d, b)
    requires op.AppendOp? ==> Carries(codec, Numbered(d, op.entry), op.nonce)
    ensures StepDisk(codec, d, op).Some? && Represents(codec, StepDisk(codec, d, op).value, StepBook(b, op))
  {
    hide ReadFrames, WriteFrames, Frame, Entries, KeptPayloads, Keeps, LatestSeq;
    var ps := ReadFrames(d.file);
    ReadThenWrite(d.file);
    match op
    case AppendOp(e, nonce) =>
      AppendAddsEntry(codec, d, e, nonce);
    case MarkApplied(s) =>
    case CompactOp =>
      CompactKeepsUnapplied(codec, d);
      KeptAreShort(codec, d.applied, ps);
      FramesRoundTrip(KeptPayloads(codec, d.applied, ps));
      KeptDecode(codec, d.applied, ps);
    case ReopenOp =>
      LatestOfDecodable(codec, ps);
  }

  /** The codec carries every entry the run writes, under the number it gets. */
  ghost predicate CarriesAll(codec: Codec, ops: seq<LogOp>) {
    forall k | 0 <= k < |ops| && ops[k].AppendOp? ::
      Carries(codec, ops[k].entry.(seqNo := RunBook(ops[..k]).nextSeq + 1), ops[k].nonce)
  }

  /** Every run of the log on bytes is a run of the list: it never fails to open and decodes to the same entries. */
  lemma {:induction false} RunRefines(codec: Codec, ops: seq<LogOp>)
    requires CarriesAll(codec, ops)
    ensures RunDisk(codec, ops).Some? && Represents(codec, RunDisk(codec, ops).value, RunBook(ops))
  {
    hide Carries, StepDisk, StepBook;
    if ops == [] {
      NothingToRead();
      assert WriteFrames([]) == [] && Entries(codec, []) == [];
    } else {
      var k := |ops| - 1;
      forall i | 0 <= i < k && ops[i].AppendOp?
        ensures Carries(codec, ops[i].entry.(seqNo := RunBook(ops[..k][..i]).nextSeq + 1), ops[i].nonce)
      {
        assert ops[..k][..i] == ops[..i];
      }
      RunRefines(codec, ops[..k]);
      StepRefines(codec, RunDisk(codec, ops[..k]).value, RunBook(ops[..k]), ops[k]);
    }
  }

  /** In a list in order, the entries from a number on are a tail of it. */
  lemma {:induction false} SinceIsTail(entries: seq<Entry>, seqNo: nat, from: nat)
    requires Increasing(entries) && from <= |entries|
    requires forall i | 0 <= i < |entries| :: entries[i].seqNo >= seqNo <==> i >= from
    ensures Since(entries, seqNo) == entries[from..]
  {
    if entries != [] {
      var n := |entries| - 1;
      if from <= n {
        SinceIsTail(entries[..n], seqNo, from);
        assert entries[from..] == entries[..n][from..] + [entries[n]];
      } else {
        SinceIsTail(entries[..n], seqNo, n);
        assert entries[..n][n..] == [];
      }
    }
  }

  /* ---------- sequence numbers over whole runs ---------- */

  ghost predicate Increasing(entries: seq<Entry>) {
    forall i, j | 0 <= i < j < |entries| :: entries[i].seqNo < entries[j].seqNo
  }

  ghost predicate Ordered(b: Book) {
    && Increasing(b.entries)
    && forall e | e in b.entries :: 1 <= e.seqNo <= b.nextSeq
  }

  lemma {:induction false} UnappliedOrdered(entries: seq<Entry>, applied: set<nat>)
    requires Increasing(entries)
    ensures Increasing(Unapplied(entries, applied))
    ensures forall e :: e in Unapplied(entries, applied) <==> e in entries && e.seqNo !in applied
  {
    if entries != [] {
      var init, last := entries[..|entries| - 1], entries[|entries| - 1];
      assert entries == init + [last];
      UnappliedOrdered(init, applied);
      forall e | e in Unapplied(init, applied) ensures e.seqNo < last.seqNo {
        assert e in init;
      }
    }
  }

  lemma StepOrdered(b: Book, op: LogOp)
    requires Ordered(b)
    ensures Ordered(StepBook(b, op))
  {
    match op
    case AppendOp(_, _) =>
    case MarkApplied(_) =>
    case CompactOp => UnappliedOrdered(b.entries, b.applied);
    case ReopenOp =>
      forall e | e in b.entries ensures e.seqNo <= LastSeq(b.entries) {
        var i :| 0 <= i < |b.entries| && b.entries[i] == e;
      }
  }

  /** In every run the numbers in the file strictly increase and none is above the counter. */
  lemma {:induction false} RunOrdered(ops: seq<LogOp>)
    ensures Ordered(RunBook(ops))
  {
    hide StepBook;
    if ops != [] {
      RunOrdered(ops[..|ops| - 1]);
      StepOrdered(RunBook(ops[..|ops| - 1]), ops[|ops| - 1]);
    }
  }

  /** The numbers handed out by a run, in order. */
  function Issued(ops: seq<LogOp>): seq<nat> {
    if ops == [] then []
    else
      Issued(ops[..|ops| - 1]) +
      if ops[|ops| - 1].AppendOp? then [RunBook(ops[..|ops| - 1]).nextSeq + 1] else []
  }

  function Highest(ops: seq<LogOp>): nat {
    if ops == [] then 0
    else
      var h := Highest(ops[..|ops| - 1]);
      if ops[|ops| - 1].AppendOp? && RunBook(ops[..|ops| - 1]).nextSeq >= h
      then RunBook(ops[..|ops| - 1]).nextSeq + 1 else h
  }

  /** The numbers issued so far are exactly one to the highest, and the counter is among them. */
  lemma {:induction false} IssuedIsInterval(ops: seq<LogOp>)
    ensures forall n: nat :: n in Issued(ops) <==> 1 <= n <= Highest(ops)
    ensures RunBook(ops).nextSeq <= Highest(ops)
  {
    if ops != [] {
      IssuedIsInterval(ops[..|ops| - 1]);
      RunOrdered(ops[..|ops| - 1]);
      var b := RunBook(ops[..|ops| - 1]);
      if b.entries != [] {
        assert b.entries[|b.entries| - 1] in b.entries;
      }
    }
  }

  /** After any run the next append gets a new number exactly when the counter stands at the highest one issued. */
  lemma AppendIsFreshIff(ops: seq<LogOp>)
    ensures RunBook(ops).nextSeq + 1 !in Issued(ops) <==> RunBook(ops).nextSeq == Highest(ops)
  {
    IssuedIsInterval(ops);
  }

  ghost predicate Distinct(ns: seq<nat>) {
    forall i, j | 0 <= i < j < |ns| :: ns[i] != ns[j]
  }

  lemma DistinctMore(ns: seq<nat>, n: nat)
    ensures Distinct(ns + [n]) <==> Distinct(ns) && n !in ns
  {
    if Distinct(ns + [n]) {
      forall i, j | 0 <= i < j < |ns| ensures ns[i] != ns[j] {
        assert (ns + [n])[i] != (ns + [n])[j];
      }
      forall i | 0 <= i < |ns| ensures ns[i] != n {
        assert (ns + [n])[i] != (ns + [n])[|ns|];
      }
    }
  }

  /** Every append of the run finds the counter at the highest number issued before it. */
  ghost predicate AppendsAtHighest(ops: seq<LogOp>) {
    forall k | 0 <= k < |ops| && ops[k].AppendOp? :: RunBook(ops[..k]).nextSeq == Highest(ops[..k])
  }

  lemma AppendsAtHighestStep(ops: seq<LogOp>, op: LogOp)
    ensures AppendsAtHighest(ops + [op]) <==>
            AppendsAtHighest(ops) && (op.AppendOp? ==> RunBook(ops).nextSeq == Highest(ops))
  {
    hide RunBook, Highest;
    var more := ops + [op];
    forall k | 0 <= k <= |ops| ensures more[..k] == ops[..k] {}
    assert ops[..|ops|] == ops && more[|ops|] == op;
    if AppendsAtHighest(more) {
      forall k | 0 <= k < |ops| && ops[k].AppendOp? ensures RunBook(ops[..k]).nextSeq == Highest(ops[..k]) {
        assert more[k] == ops[k];
      }
    }
  }

  /** Over whole runs: no number is issued twice exactly when no append comes while the counter is behind. */
  lemma {:induction false} NeverReissuedIff(ops: seq<LogOp>)
    ensures Distinct(Issued(ops)) <==> AppendsAtHighest(ops)
  {
    hide RunBook, Highest, AppendsAtHighest, Distinct, Issued;
    if ops == [] {
      NoneIssued();
    } else {
      var init, op := ops[..|ops| - 1], ops[|ops| - 1];
      assert ops == init + [op];
      NeverReissuedIff(init);
      AppendsAtHighestStep(init, op);
      AppendIsFreshIff(init);
      RunNext(init, op);
      DistinctMore(Issued(init), RunBook(init).nextSeq + 1);
      assert Issued(init) + [] == Issued(init);
    }
  }

  lemma NoneIssued()
    ensures Distinct(Issued([])) && AppendsAtHighest([])
  {}

  /** A reopen keeps the counter there exactly when the entry of that number is still the last in the file. */
  lemma ReopenKeepsCounterIff(ops: seq<LogOp>)
    ensures RunBook(ops + [ReopenOp]).nextSeq == Highest(ops + [ReopenOp]) <==>
            LastSeq(RunBook(ops).entries) == Highest(ops)
  {
    assert (ops + [ReopenOp])[..|ops|] == ops;
  }

  ghost predicate NoReopenLoses(ops: seq<LogOp>) {
    forall k | 0 <= k < |ops| && ops[k].ReopenOp? :: LastSeq(RunBook(ops[..k]).entries) == Highest(ops[..k])
  }

  /** When no reopen follows the loss of the newest entry, the issued numbers are 1, 2, 3 and so on. */
  lemma {:induction false} IssuedOnce(ops: seq<LogOp>)
    requires NoReopenLoses(ops)
    ensures RunBook(ops).nextSeq == Highest(ops)
    ensures forall i | 0 <= i < |Issued(ops)| :: Issued(ops)[i] == i + 1
    ensures |Issued(ops)| == Highest(ops)
  {
    if ops != [] {
      var init := ops[..|ops| - 1];
      forall k | 0 <= k < |init| && init[k].ReopenOp?
        ensures LastSeq(RunBook(init[..k]).entries) == Highest(init[..k])
      {
        assert init[..k] == ops[..k] && ops[k].ReopenOp?;
      }
      IssuedOnce(init);
      if ops[|ops| - 1].ReopenOp? {
        assert LastSeq(RunBook(ops[..|ops| - 1]).entries) == Highest(ops[..|ops| - 1]);
      }
    }
  }

  /**
   The loss behind that condition: once the newest entry is applied and compacted away, a
   reopened log issues its number again, and the next compaction drops the new entry
   although nothing ever marked it applied.
   */
  lemma ReissuedEntryIsDropped(e: Entry, f: Entry)
    ensures var ops := [AppendOp(e, 0), MarkApplied(1), CompactOp, ReopenOp, AppendOp(f, 0)];
            && Issued(ops) == [1, 1]
            && RunBook(ops).entries == [f.(seqNo := 1)]
            && RunBook(ops + [CompactOp]).entries == []
  {
    hide RunBook, Issued, Unapplied;
    var a, m, c, r, a' := AppendOp(e, 0), MarkApplied(1), CompactOp, ReopenOp, AppendOp(f, 0);
    var e1, f1 := e.(seqNo := 1), f.(seqNo := 1);
    UnappliedOne(e1, {1});
    UnappliedOne(f1, {1});
    RunNext([], a);
    assert [] + [a] == [a] && RunBook([a]) == Book([e1], 1, {}) && Issued([a]) == [1] by {
      NothingRun();
    }
    RunNext([a], m);
    assert [a] + [m] == [a, m] && RunBook([a, m]) == Book([e1], 1, {1}) && Issued([a, m]) == [1];
    RunNext([a, m], c);
    assert [a, m] + [c] == [a, m, c] && RunBook([a, m, c]) == Book([], 1, {1}) && Issued([a, m, c]) == [1];
    RunNext([a, m, c], r);
    assert [a, m, c] + [r] == [a, m, c, r];
    assert RunBook([a, m, c, r]) == Book([], 0, {1}) && Issued([a, m, c, r]) == [1];
    RunNext([a, m, c, r], a');
    assert [a, m, c, r] + [a'] == [a, m, c, r, a'];
    RunNext([a, m, c, r, a'], c);
  }

  lemma NothingRun()
    ensures RunBook([]) == Book([], 0, {}) && Issued([]) == []
  {}

  lemma RunNext(ops: seq<LogOp>, op: LogOp)
    ensures RunBook(ops + [op]) == StepBook(RunBook(ops), op)
    ensures Issued(ops + [op]) == Issued(ops) + if op.AppendOp? then [RunBook(ops).nextSeq + 1] else []
  {
    assert (ops + [op])[..|ops|] == ops;
  }
}
