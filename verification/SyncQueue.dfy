/**
 The persistent sync queue: a map from sequence number to entry, rewritten as frames
 after every change and read back when the queue is opened again.
 */
module SyncQueue {
  import opened Wrappers
  import opened Frames
  import LogFile

  datatype QueueState = Pending | Inflight | Acked | Failed

  datatype QueueEntry = QueueEntry(seqNo: nat, state: QueueState, retries: nat, lastError: Option<string>)

  datatype QueueCodec = QueueCodec(seal: (QueueEntry, nat) -> seq<byte>, open: seq<byte> -> Option<QueueEntry>)

  type Table = map<nat, QueueEntry>

  /** Decoding undoes encoding for this entry, and no encoding of it is too long for a frame. */
  ghost predicate Carries(codec: QueueCodec, e: QueueEntry) {
    forall nonce :: codec.open(codec.seal(e, nonce)) == Some(e) && |codec.seal(e, nonce)| < U32_LIMIT
  }

  /** What is asked of the codec: it carries the entries that are there to be written. */
  ghost predicate Carried(codec: QueueCodec, t: Table) {
    forall n | n in t :: Carries(codec, t[n])
  }

  /** Every entry is stored under its own number. */
  ghost predicate Keyed(t: Table) {
    forall n | n in t :: t[n].seqNo == n
  }

  /** `read_all`: later frames win, what does not decode is skipped. */
  function Loaded(codec: QueueCodec, payloads: seq<seq<byte>>): Table {
    if payloads == [] then map[]
    else
      var rest := Loaded(codec, payloads[..|payloads| - 1]);
      match codec.open(payloads[|payloads| - 1])
      case Some(e) => rest[e.seqNo := e]
      case None => rest
  }

  /** `write_all` in one iteration order of the map, each payload sealed with its own nonce. */
  function Sealed(codec: QueueCodec, t: Table, order: seq<nat>, nonces: nat -> nat): seq<seq<byte>>
    requires forall n | n in order :: n in t
  {
    if order == [] then []
    else
      Sealed(codec, t, order[..|order| - 1], nonces) +
      [codec.seal(t[order[|order| - 1]], nonces(|order| - 1))]
  }

  /** Whatever order the map iterates in, writing all entries and reading them gives the map back. */
  lemma WriteReadAll(codec: QueueCodec, t: Table, order: seq<nat>, nonces: nat -> nat)
    requires Carried(codec, t) && Keyed(t) && forall n :: n in order <==> n in t
    ensures Loaded(codec, ReadFrames(WriteFrames(Sealed(codec, t, order, nonces)))) == t
  {
    SealedLoads(codec, t, order, nonces);
    FramesRoundTrip(Sealed(codec, t, order, nonces));
  }

  lemma {:induction false} SealedLoads(codec: QueueCodec, t: Table, order: seq<nat>, nonces: nat -> nat)
    requires Carried(codec, t) && Keyed(t) && forall n | n in order :: n in t
    ensures Short(Sealed(codec, t, order, nonces))
    ensures Loaded(codec, Sealed(codec, t, order, nonces)) == map n | n in t && n in order :: t[n]
  {
    if order != [] {
      var init, last := order[..|order| - 1], order[|order| - 1];
      SealedLoads(codec, t, init, nonces);
      assert codec.open(codec.seal(t[last], nonces(|init|))) == Some(t[last]);
      assert forall n :: n in order <==> n in init || n == last;
    }
  }

  /* ---------- what the operations do to the map ---------- */

  function EnqueueIn(t: Table, n: nat): Table {
    if n in t then t else t[n := QueueEntry(n, Pending, 0, None)]
  }

  function SetStates(t: Table, ns: seq<nat>, state: QueueState): Table {
    map n | n in t :: if n in ns then t[n].(state := state) else t[n]
  }

  function FailIn(t: Table, n: nat, error: string): Table {
    if n in t then t[n := QueueEntry(t[n].seqNo, Failed, t[n].retries + 1, Some(error))] else t
  }

  /** A batch of at most `limit` pending entries; it is shorter only when it takes them all. */
  ghost predicate IsBatch(t: Table, limit: nat, ns: seq<nat>) {
    && |ns| <= limit
    && (forall i, j | 0 <= i < j < |ns| :: ns[i] != ns[j])
    && (forall n | n in ns :: n in t && t[n].state == Pending)
    && (|ns| < limit ==> forall n | n in t && t[n].state == Pending :: n in ns)
  }

  /** Of several frames with one number the last counts; what does not decode counts for nothing. */
  lemma {:induction false} LoadedIsLast(codec: QueueCodec, payloads: seq<seq<byte>>, n: nat)
    ensures n in Loaded(codec, payloads) <==>
            exists i :: 0 <= i < |payloads| && codec.open(payloads[i]).Some? && codec.open(payloads[i]).value.seqNo == n
    ensures forall i | 0 <= i < |payloads| && codec.open(payloads[i]).Some? && codec.open(payloads[i]).value.seqNo == n
                       && (forall j | i < j < |payloads| && codec.open(payloads[j]).Some? ::
                             codec.open(payloads[j]).value.seqNo != n) ::
              Loaded(codec, payloads)[n] == codec.open(payloads[i]).value
  {
    if payloads != [] {
      var k := |payloads| - 1;
      var init, last := payloads[..k], payloads[k];
      LoadedIsLast(codec, init, n);
      assert forall i | 0 <= i < k :: init[i] == payloads[i];
      if codec.open(last).Some? && codec.open(last).value.seqNo == n {
        assert codec.open(payloads[k]).Some?;
      }
    }
  }

  datatype QueueOp =
    | Enqueue(seqNo: nat)
    | NextBatch(limit: nat, taken: seq<nat>)
    | MarkInflight(seqs: seq<nat>)
    | MarkAcked(seqs: seq<nat>)
    | MarkFailed(seqNo: nat, error: string)
    | Reopen

  ghost predicate Allowed(t: Table, op: QueueOp) {
    op.NextBatch? ==> IsBatch(t, op.limit, op.taken)
  }

  function StepTable(t: Table, op: QueueOp): Table {
    match op
    case Enqueue(n) => EnqueueIn(t, n)
    case NextBatch(_, taken) => SetStates(t, taken, Inflight)
    case MarkInflight(ns) => SetStates(t, ns, Inflight)
    case MarkAcked(ns) => SetStates(t, ns, Acked)
    case MarkFailed(n, error) => FailIn(t, n, error)
    case Reopen => t
  }

  function RunTable(ops: seq<QueueOp>): Table {
    if ops == [] then map[] else StepTable(RunTable(ops[..|ops| - 1]), ops[|ops| - 1])
  }

  ghost predicate Feasible(ops: seq<QueueOp>) {
    forall k | 0 <= k < |ops| :: Allowed(RunTable(ops[..k]), ops[k])
  }

  /** The numbers all batches of a run handed out, in order. */
  function Taken(ops: seq<QueueOp>): seq<nat> {
    if ops == [] then []
    else Taken(ops[..|ops| - 1]) + if ops[|ops| - 1].NextBatch? then ops[|ops| - 1].taken else []
  }

  /** Over any run, reopens included, entries stay under their numbers and none is handed out twice. */
  lemma {:induction false} NeverTakenTwice(ops: seq<QueueOp>)
    requires Feasible(ops)
    ensures Keyed(RunTable(ops))
    ensures forall n | n in Taken(ops) :: n in RunTable(ops) && RunTable(ops)[n].state != Pending
    ensures forall i, j | 0 <= i < j < |Taken(ops)| :: Taken(ops)[i] != Taken(ops)[j]
  {
    if ops != [] {
      var init, last := ops[..|ops| - 1], ops[|ops| - 1];
      forall k | 0 <= k < |init| ensures Allowed(RunTable(init[..k]), init[k]) {
        assert init[..k] == ops[..k];
      }
      NeverTakenTwice(init);
      assert Allowed(RunTable(init), last);
      if last.NextBatch? {
        TakenApart(RunTable(init), Taken(init), last.limit, last.taken);
      }
    }
  }

  lemma TakenApart(t: Table, before: seq<nat>, limit: nat, ns: seq<nat>)
    requires IsBatch(t, limit, ns)
    requires forall n | n in before :: n in t && t[n].state != Pending
    requires forall i, j | 0 <= i < j < |before| :: before[i] != before[j]
    ensures forall i, j | 0 <= i < j < |before + ns| :: (before + ns)[i] != (before + ns)[j]
  {
    forall i, j | 0 <= i < j < |before + ns| ensures (before + ns)[i] != (before + ns)[j] {
      if i < |before| {
        assert before[i] in before;
      }
      if j >= |before| {
        assert ns[j - |before|] in ns;
      }
    }
  }

  /** The operation names the entry. */
  predicate Concerns(op: QueueOp, n: nat) {
    match op
    case Enqueue(k) => k == n
    case NextBatch(_, taken) => n in taken
    case MarkInflight(seqs) => n in seqs
    case MarkAcked(seqs) => n in seqs
    case MarkFailed(k, _) => k == n
    case Reopen => false
  }

  /**
   What becomes of one entry: it is changed only by an operation that names it, only a new number is
   entered, pending and without retries, and a failure alone counts a retry and leaves its error.
   */
  lemma EntryAfter(t: Table, op: QueueOp, n: nat)
    ensures var u := StepTable(t, op);
            && (n in u <==> n in t || op == QueueOp.Enqueue(n))
            && (n in t && (!Concerns(op, n) || op.Enqueue?) ==> u[n] == t[n])
            && (n !in t && n in u ==> u[n] == QueueEntry(n, Pending, 0, None))
            && (n in t && Concerns(op, n) && (op.NextBatch? || op.MarkInflight?) ==> u[n] == t[n].(state := Inflight))
            && (n in t && Concerns(op, n) && op.MarkAcked? ==> u[n] == t[n].(state := Acked))
            && (n in t && Concerns(op, n) && op.MarkFailed? ==>
                  u[n] == t[n].(state := Failed, retries := t[n].retries + 1, lastError := Some(op.error)))
  {}

  /** An entry never becomes pending again, so a number once handed out stays handed out. */
  lemma PendingIsLeftForGood(t: Table, op: QueueOp, n: nat)
    requires n in t && t[n].state != Pending
    ensures n in StepTable(t, op) && StepTable(t, op)[n].state != Pending
  {}

  class FileSyncQueue {
    const codec: QueueCodec
    var file: seq<byte>
    var entries: Table

    /** What is in memory is what a reopen would read. */
    ghost predicate Valid()
      reads this
    {
      Keyed(entries) && Loaded(codec, ReadFrames(file)) == entries
    }

    constructor (codec: QueueCodec, file: seq<byte>, entries: Table)
      ensures this.codec == codec && this.file == file && this.entries == entries
    {
      this.codec, this.file, this.entries := codec, file, entries;
    }

    /** `new_with_crypto`: read all frames of the file. */
    static method Open(codec: QueueCodec, file: seq<byte>) returns (queue: FileSyncQueue)
      ensures fresh(queue) && queue.Valid() && queue.file == file
      ensures queue.entries == Loaded(codec, ReadFrames(file))
    {
      hide ReadFrames, FirstFrame;
      var pos := 0;
      var entries: Table := map[];
      ghost var done: seq<seq<byte>> := [];
      assert file[0..] == file;
      while true
        invariant pos <= |file| && ReadFrames(file) == done + ReadFrames(file[pos..])
        invariant entries == Loaded(codec, done) && Keyed(entries)
        decreases |file| - pos
      {
        var frame := LogFile.ReadFrame(file, pos);
        if frame.None? {
          LogFile.ReadDone(file, pos, done);
          break;
        }
        LogFile.ReadOn(file, pos, done, frame.value);
        pos := pos + 4 + |frame.value|;
        assert (done + [frame.value])[..|done|] == done;
        done := done + [frame.value];
        var entry := codec.open(frame.value);
        if entry.Some? {
          entries := entries[entry.value.seqNo := entry.value];
        }
      }
      queue := new FileSyncQueue(codec, file, entries);
    }

    /** `write_all`: the entries in whatever order the map yields them. */
    method WriteAll(nonces: nat -> nat)
      requires Carried(codec, entries) && Keyed(entries)
      modifies this`file
      ensures Valid()
    {
      hide WriteFrames, ReadFrames, LittleEndian;
      var left := entries.Keys;
      var out: seq<byte> := [];
      var written := 0;
      ghost var order: seq<nat> := [];
      NothingToRead();
      while left != {}
        invariant left <= entries.Keys && written == |order|
        invariant forall n :: n in order <==> n in entries && n !in left
        invariant out == WriteFrames(Sealed(codec, entries, order, nonces))
      {
        var n :| n in left;
        var bytes := codec.seal(entries[n], nonces(written));
        WriteOneMore(codec, entries, order, n, nonces);
        out := out + (LittleEndian(|bytes| % U32_LIMIT) + bytes);
        left, written := left - {n}, written + 1;
        order := order + [n];
      }
      file := out;
      WriteReadAll(codec, entries, order, nonces);
    }

    method Enqueue(seqNo: nat, nonces: nat -> nat)
      requires Valid() && Carried(codec, StepTable(entries, QueueOp.Enqueue(seqNo)))
      modifies this`entries, this`file
      ensures Valid() && entries == StepTable(old(entries), QueueOp.Enqueue(seqNo))
    {
      if seqNo !in entries {
        entries := entries[seqNo := QueueEntry(seqNo, Pending, 0, None)];
        WriteAll(nonces);
      }
    }

    /** The pending entries that `next_batch` collects, in the order the map yields them. */
    method PickPending(limit: nat) returns (picked: seq<QueueEntry>, ghost taken: seq<nat>)
      ensures IsBatch(entries, limit, taken) && |picked| == |taken|
      ensures forall i | 0 <= i < |picked| :: taken[i] in entries && picked[i] == entries[taken[i]]
      ensures |picked| <= limit && forall e | e in picked :: e.state == Pending
      ensures |picked| < limit ==> forall n | n in entries && entries[n].state == Pending :: entries[n] in picked
    {
      var pending := set n | n in entries && entries[n].state == Pending;
      picked, taken := [], [];
      while pending != {} && |picked| < limit
        invariant |picked| == |taken| <= limit
        invariant forall i, j | 0 <= i < j < |taken| :: taken[i] != taken[j]
        invariant forall n | n in taken :: n in entries && entries[n].state == Pending && n !in pending
        invariant forall n | n in pending :: n in entries && entries[n].state == Pending
        invariant forall n | n in entries && entries[n].state == Pending :: n in pending || n in taken
        invariant forall i | 0 <= i < |picked| :: picked[i] == entries[taken[i]]
        invariant forall n | n in taken :: entries[n] in picked
      {
        var n :| n in pending;
        picked, taken := picked + [entries[n]], taken + [n];
        pending := pending - {n};
      }
    }

    /** `next_batch`: some pending entries, marked in flight; nothing is written when there are none. */
    method NextBatch(limit: nat, nonces: nat -> nat) returns (batch: seq<QueueEntry>, ghost taken: seq<nat>)
      requires Valid() && Carried(codec, entries)
      requires forall n | n in entries :: Carries(codec, entries[n].(state := Inflight))
      modifies this`entries, this`file
      ensures IsBatch(old(entries), limit, taken) && |batch| == |taken|
      ensures forall i | 0 <= i < |batch| :: batch[i] == old(entries)[taken[i]].(state := Inflight)
      ensures Valid() && entries == StepTable(old(entries), QueueOp.NextBatch(limit, taken))
    {
      hide ReadFrames, Loaded, Carries;
      var picked;
      picked, taken := PickPending(limit);
      batch := [];
      ghost var before := entries;
      for i := 0 to |picked|
        invariant file == old(file) && |batch| == i
        invariant forall k | 0 <= k < i :: batch[k] == before[taken[k]].(state := Inflight)
        invariant entries == SetStates(before, taken[..i], Inflight)
      {
        SetOneMore(before, taken, i, Inflight);
        var entry := picked[i].(state := Inflight);
        batch := batch + [entry];
        entries := entries[entry.seqNo := entry];
      }
      assert taken[..|taken|] == taken;
      if batch != [] {
        WriteAll(nonces);
      } else {
        assert taken == [] && SetStates(before, [], Inflight) == before;
      }
    }

    /** The shared loop of `mark_inflight` and `mark_acked`. */
    method MarkAll(seqs: seq<nat>, state: QueueState, nonces: nat -> nat)
      requires Valid() && Carried(codec, SetStates(entries, seqs, state))
      modifies this`entries, this`file
      ensures Valid() && entries == SetStates(old(entries), seqs, state)
    {
      ghost var before := entries;
      for i := 0 to |seqs|
        invariant entries == SetStates(before, seqs[..i], state)
      {
        SetOneMore(before, seqs, i, state);
        if seqs[i] in entries {
          entries := entries[seqs[i] := entries[seqs[i]].(state := state)];
        }
      }
      assert seqs[..|seqs|] == seqs;
      WriteAll(nonces);
    }

    method MarkInflight(seqs: seq<nat>, nonces: nat -> nat)
      requires Valid() && Carried(codec, StepTable(entries, QueueOp.MarkInflight(seqs)))
      modifies this`entries, this`file
      ensures Valid() && entries == StepTable(old(entries), QueueOp.MarkInflight(seqs))
    {
      MarkAll(seqs, Inflight, nonces);
    }

    method MarkAcked(seqs: seq<nat>, nonces: nat -> nat)
      requires Valid() && Carried(codec, StepTable(entries, QueueOp.MarkAcked(seqs)))
      modifies this`entries, this`file
      ensures Valid() && entries == StepTable(old(entries), QueueOp.MarkAcked(seqs))
    {
      MarkAll(seqs, Acked, nonces);
    }

    method MarkFailed(seqNo: nat, error: string, nonces: nat -> nat)
      requires Valid() && Carried(codec, StepTable(entries, QueueOp.MarkFailed(seqNo, error)))
      modifies this`entries, this`file
      ensures Valid() && entries == StepTable(old(entries), QueueOp.MarkFailed(seqNo, error))
    {
      if seqNo in entries {
        var e := entries[seqNo];
        entries := entries[seqNo := QueueEntry(e.seqNo, Failed, e.retries + 1, Some(error))];
      }
      WriteAll(nonces);
    }
  }

  lemma SetOneMore(t: Table, ns: seq<nat>, i: nat, state: QueueState)
    requires i < |ns|
    ensures SetStates(t, ns[..i + 1], state) ==
            if ns[i] in t then SetStates(t, ns[..i], state)[ns[i] := t[ns[i]].(state := state)]
            else SetStates(t, ns[..i], state)
  {
    assert ns[..i + 1] == ns[..i] + [ns[i]];
  }

  lemma WriteOneMore(codec: QueueCodec, t: Table, order: seq<nat>, n: nat, nonces: nat -> nat)
    requires n in t && forall k | k in order :: k in t
    ensures WriteFrames(Sealed(codec, t, order + [n], nonces)) ==
            WriteFrames(Sealed(codec, t, order, nonces)) + Frame(codec.seal(t[n], nonces(|order|)))
  {
    hide Frame;
    var payloads, p := Sealed(codec, t, order, nonces), codec.seal(t[n], nonces(|order|));
    assert (order + [n])[..|order|] == order;
    assert (payloads + [p])[..|payloads|] == payloads;
  }
}
