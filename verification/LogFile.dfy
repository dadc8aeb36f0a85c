/** The log object: one file, its counter and its applied set, read frame by frame. */
module LogFile {
  import opened Wrappers
  import opened Frames
  import opened Oplog

  /** `read_u32` followed by `read_exact`, at a position in the file. */
  method ReadFrame(file: seq<byte>, pos: nat) returns (frame: Option<seq<byte>>)
    requires pos <= |file|
    ensures frame == FirstFrame(file[pos..])
  {
    if |file| - pos < 4 {
      return None;
    }
    assert file[pos..][..4] == file[pos..pos + 4];
    var len := FromLittleEndian(file[pos..pos + 4]);
    if |file| - pos - 4 < len {
      return None;
    }
    assert file[pos..][4..4 + len] == file[pos + 4..pos + 4 + len];
    frame := Some(file[pos + 4..pos + 4 + len]);
  }

  /** Having read `done` up to a position, one more frame and what follows it. */
  lemma ReadOn(file: seq<byte>, pos: nat, done: seq<seq<byte>>, p: seq<byte>)
    requires pos <= |file| && ReadFrames(file) == done + ReadFrames(file[pos..])
    requires FirstFrame(file[pos..]) == Some(p)
    ensures pos + 4 + |p| <= |file|
    ensures ReadFrames(file) == done + [p] + ReadFrames(file[pos + 4 + |p|..])
  {
    hide FirstFrame, ReadFrames;
    ReadSome(file[pos..], p);
    assert file[pos..][4 + |p|..] == file[pos + 4 + |p|..];
    assert done + ([p] + ReadFrames(file[pos + 4 + |p|..])) == done + [p] + ReadFrames(file[pos + 4 + |p|..]);
  }

  lemma ReadSome(bytes: seq<byte>, p: seq<byte>)
    requires FirstFrame(bytes) == Some(p)
    ensures ReadFrames(bytes) == [p] + ReadFrames(bytes[4 + |p|..])
  {
    hide FirstFrame;
  }

  lemma ReadDone(file: seq<byte>, pos: nat, done: seq<seq<byte>>)
    requires pos <= |file| && ReadFrames(file) == done + ReadFrames(file[pos..])
    requires FirstFrame(file[pos..]) == None
    ensures ReadFrames(file) == done
  {
    hide FirstFrame;
    assert ReadFrames(file[pos..]) == [];
  }

  /** `read_latest_seq`. */
  method ReadLatestSeq(codec: Codec, file: seq<byte>) returns (r: Option<nat>)
    ensures r == LatestSeq(codec, ReadFrames(file))
  {
    hide ReadFrames, FirstFrame;
    var pos, latest := 0, 0;
    ghost var done: seq<seq<byte>> := [];
    assert file[0..] == file;
    while true
      invariant pos <= |file| && ReadFrames(file) == done + ReadFrames(file[pos..])
      invariant LatestSeq(codec, done) == Some(latest)
      decreases |file| - pos
    {
      var frame := ReadFrame(file, pos);
      if frame.None? {
        ReadDone(file, pos, done);
        break;
      }
      ReadOn(file, pos, done, frame.value);
      pos := pos + 4 + |frame.value|;
      assert (done + [frame.value])[..|done|] == done;
      match codec.open(frame.value) {
        case Undecryptable =>
          LatestStaysNone(codec, done + [frame.value], ReadFrames(file[pos..]));
          return None;
        case Decoded(e) => latest := e.seqNo;
        case _ =>
      }
      done := done + [frame.value];
    }
    r := Some(latest);
  }

  lemma {:induction false} LatestStaysNone(codec: Codec, ps: seq<seq<byte>>, qs: seq<seq<byte>>)
    requires LatestSeq(codec, ps) == None
    ensures LatestSeq(codec, ps + qs) == None
  {
    if qs == [] {
      assert ps + qs == ps;
    } else {
      assert (ps + qs)[..|ps + qs| - 1] == ps + qs[..|qs| - 1];
      LatestStaysNone(codec, ps, qs[..|qs| - 1]);
    }
  }

  class FileOplog {
    const codec: Codec
    var file: seq<byte>
    var nextSeq: nat
    var applied: set<nat>

    function State(): Disk
      reads this
    {
      Disk(file, nextSeq, applied)
    }

    constructor (codec: Codec, file: seq<byte>, nextSeq: nat, applied: set<nat>)
      ensures this.codec == codec && State() == Disk(file, nextSeq, applied)
    {
      this.codec := codec;
      this.file, this.nextSeq, this.applied := file, nextSeq, applied;
    }

    /** `new_with_crypto`: the counter is read back from the file, the applied set from its own file. */
    static method Open(codec: Codec, left: Disk) returns (log: FileOplog?)
      ensures match Reopen(codec, left)
              case None => log == null
              case Some(d) => log != null && fresh(log) && log.codec == codec && log.State() == d
    {
      var latest := ReadLatestSeq(codec, left.file);
      if latest.None? {
        return null;
      }
      log := new FileOplog(codec, left.file, latest.value, left.applied);
    }

    method Append(entry: Entry, nonce: nat) returns (seqNo: nat)
      modifies this`file, this`nextSeq
      ensures (State(), seqNo) == Oplog.Append(codec, old(State()), entry, nonce)
    {
      nextSeq := nextSeq + 1;
      var bytes := codec.seal(entry.(seqNo := nextSeq), nonce);
      file := file + LittleEndian(|bytes| % U32_LIMIT);
      file := file + bytes;
      seqNo := nextSeq;
      assert file == old(file) + Frame(bytes);
    }

    method ReadSince(seqNo: nat, limit: nat) returns (entries: seq<Entry>)
      ensures entries == Oplog.ReadSince(codec, file, seqNo, limit)
    {
      hide ReadFrames, FirstFrame, Entries, Since;
      var pos := 0;
      entries := [];
      NothingRead(codec, seqNo);
      ghost var done: seq<seq<byte>> := [];
      assert file[0..] == file;
      while true
        invariant pos <= |file| && ReadFrames(file) == done + ReadFrames(file[pos..])
        invariant entries == Since(Entries(codec, done), seqNo) && (entries == [] || |entries| < limit)
        decreases |file| - pos
      {
        var frame := ReadFrame(file, pos);
        if frame.None? {
          ReadDone(file, pos, done);
          break;
        }
        ReadOn(file, pos, done, frame.value);
        pos := pos + 4 + |frame.value|;
        EntriesAppend(codec, done, [frame.value]);
        EntriesOne(codec, frame.value);
        SinceAppend(Entries(codec, done), Entries(codec, [frame.value]), seqNo);
        done := done + [frame.value];
        var payload := codec.open(frame.value);
        if !payload.Decoded? {
          NothingRead(codec, seqNo);
        } else {
          SinceOne(payload.entry, seqNo);
          if payload.entry.seqNo >= seqNo {
            entries := entries + [payload.entry];
            if |entries| >= limit {
              EntriesAppend(codec, done, ReadFrames(file[pos..]));
              SinceAppend(Entries(codec, done), Entries(codec, ReadFrames(file[pos..])), seqNo);
              return;
            }
          }
        }
      }
    }

    method MarkApplied(seqNo: nat)
      modifies this`applied
      ensures State() == old(State()).(applied := old(applied) + {seqNo})
    {
      applied := applied + {seqNo};
    }

    /** `compact`: the frames to keep go to a new file, which then takes the old one's place. */
    method Compact() returns (kept: nat)
      modifies this`file
      ensures (State(), kept) == Oplog.Compact(codec, old(State()))
    {
      hide ReadFrames, FirstFrame, Frame;
      var pos := 0;
      kept := 0;
      var temp: seq<byte> := [];
      ghost var done: seq<seq<byte>> := [];
      assert file[0..] == file;
      while true
        invariant file == old(file) && pos <= |file| && ReadFrames(file) == done + ReadFrames(file[pos..])
        invariant temp == WriteFrames(KeptPayloads(codec, applied, done)) && kept == |KeptPayloads(codec, applied, done)|
        decreases |file| - pos
      {
        var frame := ReadFrame(file, pos);
        if frame.None? {
          ReadDone(file, pos, done);
          break;
        }
        ReadOn(file, pos, done, frame.value);
        pos := pos + 4 + |frame.value|;
        assert (done + [frame.value])[..|done|] == done;
        var payload := codec.open(frame.value);
        var keep := match payload
          case Undecryptable => true
          case NotDocument => false
          case NotEntry => true
          case Decoded(e) => e.seqNo !in applied;
        ghost var before := KeptPayloads(codec, applied, done);
        assert before + [] == before;
        if keep {
          assert (before + [frame.value])[..|before|] == before;
          temp := temp + Frame(frame.value);
          kept := kept + 1;
        }
        done := done + [frame.value];
      }
      file := temp;
    }
  }

  lemma NothingRead(codec: Codec, seqNo: nat)
    ensures Entries(codec, []) == [] && Since([], seqNo) == []
  {}

  lemma SinceOne(e: Entry, seqNo: nat)
    ensures Since([e], seqNo) == if e.seqNo >= seqNo then [e] else []
  {
    assert Since([e][..0], seqNo) == [];
  }
}
