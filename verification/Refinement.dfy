/**
 * The file engine refines the in-memory one: on a reliable machine, and with records that the frame format can carry,
 * no sequence of calls can tell them apart, whatever the buffer size, the segment size and the sync policy.
 */
module Refinement {
  import opened Bytes
  import opened Results
  import opened Records
  import opened Frames
  import opened EngineState
  import opened Recovery
  import opened MemoryStorage
  import opened FileStorage

  /** Records are compared without their checksum, which only decoding fills in. */
  function Strip(rec: Record): Record {
    rec.(checksum := 0)
  }

  function StripAll(rs: seq<Record>): (ss: seq<Record>)
    ensures |ss| == |rs|
  {
    seq(|rs|, i requires 0 <= i < |rs| => Strip(rs[i]))
  }

  predicate SameReply(a: Reply, b: Reply) {
    if a.Batch? && b.Batch? then StripAll(a.records) == StripAll(b.records) else a == b
  }

  /** The log frame of a record decodes to the record. */
  ghost predicate Holds(hist: seq<Frame>, rs: seq<Record>, o: nat) {
    o < |hist| && o < |rs| && Decode(hist[o]).Ok?
    && Strip(Decode(hist[o]).value.(offset := o)) == Strip(rs[o])
  }

  /** The frames from `from` on are the encodings of the records at the same offsets. */
  ghost predicate Mirrors(hist: seq<Frame>, rs: seq<Record>, from: nat) {
    |hist| == |rs| && forall o: nat :: from <= o < |hist| ==> Holds(hist, rs, o)
  }

  lemma {:induction false} RunMirrors(hist: seq<Frame>, rs: seq<Record>, from: nat, end: nat)
    requires Mirrors(hist, rs, from) && from <= end <= |hist|
    ensures StripAll(Spool.ValidRun(hist, from, end)) == StripAll(rs[from..end])
    decreases end - from
  {
    hide Decode;
    if from < end {
      assert Holds(hist, rs, from);
      RunMirrors(hist, rs, from + 1, end);
      var run, rest := Spool.ValidRun(hist, from, end), Spool.ValidRun(hist, from + 1, end);
      assert rs[from..end] == [rs[from]] + rs[from + 1..end];
      forall i | 0 <= i < |run| ensures StripAll(run)[i] == StripAll(rs[from..end])[i] {
        if i > 0 {
          assert StripAll(run)[i] == StripAll(rest)[i - 1] == StripAll(rs[from + 1..end])[i - 1];
        }
      }
      assert |StripAll(rest)| == |StripAll(rs[from + 1..end])|;
    }
  }

  lemma MirrorsLater(hist: seq<Frame>, rs: seq<Record>, from: nat, later: nat)
    ensures Mirrors(hist, rs, from) && from <= later ==> Mirrors(hist, rs, later)
  {
  }

  /** Reading a mirrored log reads the records. */
  lemma BatchMirrors(hist: seq<Frame>, m: Memory, maxCount: nat)
    requires Mirrors(hist, m.records, m.checkpoint) && !m.closed
    ensures var r := Spool.Batch(hist, m.checkpoint, maxCount);
      r.Ok? && SameReply(Batch(r.value), Serve(m, ReadBatch(maxCount)).1)
  {
    hide Decode;
    if m.checkpoint < |hist| {
      var end := if m.checkpoint + maxCount > |hist| then |hist| else m.checkpoint + maxCount;
      RunMirrors(hist, m.records, m.checkpoint, end);
      assert Holds(hist, m.records, m.checkpoint);
    }
  }

  lemma AppendMirrors(hist: seq<Frame>, rs: seq<Record>, from: nat, rec: Record)
    requires Mirrors(hist, rs, from) && Encodable(rec)
    ensures Mirrors(hist + [Encode(rec)], rs + [rec.(offset := |rs|)], from)
  {
    assert Encode(rec) + [] == Encode(rec);
    RoundTrip(rec, []);
    hide Decode, Encode;
    var h, s := hist + [Encode(rec)], rs + [rec.(offset := |rs|)];
    forall o: nat | from <= o < |h| ensures Holds(h, s, o) {
      if o < |hist| {
        assert Holds(hist, rs, o);
      }
    }
  }

  /** The file engine stands for the abstract spool `m`. */
  ghost predicate StandsFor(e: FileStorageEngine, m: Memory)
    reads e
  {
    && e.Valid() && e.Working() && e.reliable && e.rooted && !e.closed && !m.closed
    && e.checkpoint == m.checkpoint && e.maxCapacity == m.capacity && e.maxID == HighestId(m.records)
    && |e.hist| == |m.records| && Mirrors(e.hist, m.records, m.checkpoint)
  }

  /** Calls the frame format can carry. */
  predicate Carriable(call: Call) {
    call.Append? ==> Encodable(call.rec)
  }

  /** What an append makes of the segments. */
  lemma AppendsTight(e: FileStorageEngine, frame: Frame, first: nat)
    requires e.Valid() && e.Working()
    ensures |e.hist| == e.baseOffset + |e.records|
    ensures var limit := e.opts.maxSegmentSize;
      var more := if limit > 0 && e.writePos > 0 && e.writePos + |frame| > limit then e.bases + [|e.hist|] else e.bases;
      Packed(e.bases, e.hist, e.opts.maxSegmentSize, first) ==>
        Packed(more, e.hist + [frame], limit, first)
  {
    hide FileStorageEngine.Valid, Packed;
    e.ActiveBytes();
    if Packed(e.bases, e.hist, e.opts.maxSegmentSize, first) {
      PackedAppend(e.bases, e.hist, frame, e.writePos, e.opts.maxSegmentSize, first);
    }
  }

  /** An append on a reliable machine does as `AppendOutcome` says, and begins no segment that could be spared. */
  method AppendTo(e: FileStorageEngine, rec: Record, ghost first: nat) returns (o: Result<nat>)
    requires e.Valid() && e.Working() && e.reliable && !e.closed && |rec.topic| <= MAX_TOPIC
    modifies e
    ensures e.Valid() && e.Working() && !e.closed && e.checkpoint == old(e.checkpoint) && e.rooted == old(e.rooted)
    ensures if |old(e.hist)| - e.checkpoint >= e.maxCapacity then o == Err(SpoolFull) && e.hist == old(e.hist)
            else o == Ok(|old(e.hist)|) && e.hist == old(e.hist) + [Encode(rec)]
    ensures e.maxID == if o.Ok? && rec.id > old(e.maxID) then rec.id else old(e.maxID)
    ensures old(Packed(e.bases, e.hist, e.opts.maxSegmentSize, first)) ==>
      Packed(e.bases, e.hist, e.opts.maxSegmentSize, first)
  {
    hide FileStorageEngine.Valid, Encode, Packed, Whole, FileStorageEngine.Overhung, FileStorageEngine.ForcedLast;
    hide FileStorageEngine.Sound, FileStorageEngine.FdOk, FileStorageEngine.BufOk, FileStorageEngine.IdsKnown;
    AppendsTight(e, Encode(rec), first);
    o := e.Append(rec);
    e.Scalars();
  }

  /** An append on the file engine. */
  method FileAppend(e: FileStorageEngine, rec: Record, ghost m: Memory, ghost first: nat) returns (r: Reply)
    requires StandsFor(e, m) && Encodable(rec)
    modifies e
    ensures StandsFor(e, Serve(m, Append(rec)).0)
    ensures SameReply(r, Serve(m, Append(rec)).1)
    ensures old(Packed(e.bases, e.hist, e.opts.maxSegmentSize, first)) ==>
      Packed(e.bases, e.hist, e.opts.maxSegmentSize, first)
  {
    hide FileStorageEngine.Valid, Decode, Encode, Holds, Mirrors, Packed;
    AppendMirrors(e.hist, m.records, m.checkpoint, rec);
    assert (m.records + [rec.(offset := |m.records|)])[..|m.records|] == m.records;
    var o := AppendTo(e, rec, first);
    r := match o case Ok(offset) => Offset(offset) case Err(err) => Failed(err);
  }

  /** A commit removes segments only at the front. */
  method CommitTo(e: FileStorageEngine, offset: nat, ghost first: nat) returns (err: Option<Error>)
    requires e.Valid() && e.Working() && e.reliable && !e.closed
    modifies e`files, e`synced, e`bases, e`past, e`cursor, e`buffer, e`stuck, e`records, e`baseOffset, e`saved
    modifies e`checkpoint, e`orderly, e`durable, e`forced
    ensures e.Valid() && err == None && e.checkpoint == Max(old(e.checkpoint), offset + 1)
    ensures e.baseOffset == old(e.baseOffset) || e.baseOffset <= e.checkpoint
    ensures old(Packed(e.bases, e.hist, e.opts.maxSegmentSize, first)) ==>
      Packed(e.bases, e.hist, e.opts.maxSegmentSize, first)
  {
    hide FileStorageEngine.Valid, Packed;
    ghost var bases := e.bases;
    err := e.Commit(offset);
    if Packed(bases, e.hist, e.opts.maxSegmentSize, first) {
      PrunedIsPacked(bases, e.bases, e.hist, e.checkpoint, e.opts.maxSegmentSize, first);
    }
  }

  /** One call on the file engine. */
  method FileDo(e: FileStorageEngine, call: Call, ghost m: Memory, ghost first: nat) returns (r: Reply)
    requires StandsFor(e, m) && Carriable(call)
    modifies e
    ensures StandsFor(e, Serve(m, call).0)
    ensures SameReply(r, Serve(m, call).1)
    ensures old(Packed(e.bases, e.hist, e.opts.maxSegmentSize, first)) ==>
      Packed(e.bases, e.hist, e.opts.maxSegmentSize, first)
  {
    hide FileStorageEngine.Valid, Decode, Encode, Holds, Mirrors, Packed;
    match call {
      case Append(rec) =>
        r := FileAppend(e, rec, m, first);
      case ReadBatch(maxCount) =>
        RootedCheckpoint(e);
        BatchMirrors(e.hist, m, maxCount);
        var b := e.ReadBatch(maxCount);
        r := match b case Ok(rs) => Batch(rs) case Err(err) => Failed(err);
      case Commit(offset) =>
        MirrorsLater(e.hist, m.records, m.checkpoint, Serve(m, call).0.checkpoint);
        var err := CommitTo(e, offset, first);
        r := match err case None => Done case Some(x) => Failed(x);
      case UncommittedCount =>
        var c := e.UncommittedCount();
        r := match c case Ok(n) => Count(n) case Err(err) => Failed(err);
      case LastID =>
        var id := e.LastID();
        r := Id(id);
    }
  }

  lemma RootedCheckpoint(e: FileStorageEngine)
    requires e.Valid() && e.Working() && e.rooted && !e.closed
    ensures e.baseOffset <= e.checkpoint && e.Legible()
  {
    e.Bounds();
  }

  lemma PrunedIsPacked(was: seq<nat>, now: seq<nat>, hist: seq<Frame>, checkpoint: nat, limit: int, first: nat)
    requires Packed(was, hist, limit, first) && (was == now || exists k :: Pruned(was, now, checkpoint, k))
    ensures Packed(now, hist, limit, first)
  {
    hide Packed;
    if was != now {
      var k :| Pruned(was, now, checkpoint, k);
      PackedDrop(was, hist, limit, first, k);
    }
  }

  /**
   * Every sequence of calls gets the same replies from the two engines, and no segment that the file engine begins
   * behind `first` could have been spared.
   */
  method SameReplies(e: FileStorageEngine, m: MemoryStorageEngine, calls: seq<Call>, ghost first: nat)
    returns (fromFile: seq<Reply>, fromMemory: seq<Reply>)
    requires StandsFor(e, m.State())
    requires forall i :: 0 <= i < |calls| ==> Carriable(calls[i])
    modifies e, m
    ensures StandsFor(e, m.State())
    ensures |fromFile| == |fromMemory| == |calls|
    ensures forall i :: 0 <= i < |calls| ==> SameReply(fromFile[i], fromMemory[i])
    ensures old(Packed(e.bases, e.hist, e.opts.maxSegmentSize, first)) ==>
      Packed(e.bases, e.hist, e.opts.maxSegmentSize, first)
  {
    hide StandsFor, Serve, SameReply, Packed;
    fromFile, fromMemory := [], [];
    for i := 0 to |calls|
      invariant StandsFor(e, m.State())
      invariant |fromFile| == |fromMemory| == i
      invariant forall j :: 0 <= j < i ==> SameReply(fromFile[j], fromMemory[j])
      invariant old(Packed(e.bases, e.hist, e.opts.maxSegmentSize, first)) ==>
      Packed(e.bases, e.hist, e.opts.maxSegmentSize, first)
    {
      var r := FileDo(e, calls[i], m.State(), first);
      var s := m.Do(calls[i]);
      fromFile, fromMemory := fromFile + [r], fromMemory + [s];
    }
  }

  /** Two engines opened on nothing start alike. */
  method OpenBoth(capacity: int, options: Options) returns (e: FileStorageEngine, m: MemoryStorageEngine)
    requires capacity > 0
    ensures fresh(e) && fresh(m) && StandsFor(e, m.State()) && Packed(e.bases, e.hist, e.opts.maxSegmentSize, 0)
  {
    ghost var left, on;
    var err, f;
    err, f, left, on := FileStorageEngine.Open(map[], 0, capacity, options, true, map[], []);
    e := f;
    m := new MemoryStorageEngine(capacity);
    OpenedEmpty(e);
  }

  lemma OpenedEmpty(e: FileStorageEngine)
    requires e.Valid() && e.walOpen
             && e.Ready(FileStorageEngine.Created(map[]), FileStorageEngine.Held(map[], map[]), []) && e.saved == 0
    ensures e.Working() && e.rooted && e.hist == [] && e.checkpoint == 0 && e.maxID == 0
  {
    hide Parse, Concat, FileStorageEngine.Valid, FileStorageEngine.Survived, Pruned;
    var dir := FileStorageEngine.Created(map[]);
    assert 0 in dir && dir[0] == [];
    assert Parse([]) == [] by {
      FileStorageEngine.NothingMore([]);
    }
    assert e.found == [0] by {
      assert 0 in e.found;
      assert forall i :: 0 <= i < |e.found| ==> e.found[i] in dir;
    }
    assert e.found[..0] == [];
    assert Flatten(dir, e.found) == Flatten(dir, []) + Parse([]);
  }
}
