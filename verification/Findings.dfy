/**
 * Where the design falls short of its promise, shown on runs of the engine itself.  Both runs end in a record that was
 * durable, that no ReadBatch ever handed out, and that the engine will not hand out after its last start: a checkpoint
 * saved over a record that was lost hides the next record appended in its place.
 */
module Findings {
  import opened Bytes
  import opened Results
  import opened Records
  import opened Frames
  import opened Wal
  import opened IndexState
  import opened Crashes
  import opened Recovery
  import opened Spool
  import opened FileStorage

  /** A record that any reader takes back. */
  ghost predicate Plain(rec: Record) {
    Encodable(rec) && Whole(Encode(rec))
  }

  lemma PlainDecodes(rec: Record)
    requires Plain(rec)
    ensures Decode(Encode(rec)).Ok? && Parse(Encode(rec)) == [Encode(rec)] && Concat([Encode(rec)]) == Encode(rec)
  {
    assert Encode(rec) + [] == Encode(rec);
    RoundTrip(rec, []);
    hide Encode, Decode;
    ConcatOne(Encode(rec));
    ParseAll([Encode(rec)]);
  }

  /** An engine on a reliable machine over one segment file with the log `hist`. */
  ghost predicate Stands(e: FileStorageEngine, hist: seq<Frame>, checkpoint: nat, saved: nat)
    reads e
  {
    && e.Valid() && e.walOpen && !e.closed && e.reliable && e.Sound() && e.maxCapacity >= 1
    && e.opts.maxSegmentSize <= 0
    && e.bases == [0] && e.hist == hist && e.checkpoint == checkpoint && e.saved == saved
  }

  /** What the disk of such an engine looks like. */
  lemma OnDisk(e: FileStorageEngine, hist: seq<Frame>, checkpoint: nat, saved: nat)
    requires Stands(e, hist, checkpoint, saved)
    ensures 0 in e.files && 0 in e.synced && e.files.Keys == {0} && e.synced.Keys == {0}
    ensures TailSafe(e.Here(hist)) && Journey(e.past) && e.past != [] && e.past[|e.past| - 1] == e.Here(hist)
    ensures e.baseOffset == 0 && e.activeSegBase == 0 && e.Legible() && e.bases == [0] && e.saved == saved
    ensures e.files[0] <= Concat(hist) && e.synced[0] <= |e.files[0]|
    ensures Durable(e.Here(hist)) == FramesIn(hist, e.synced[0])
  {
    e.Stand();
    e.SoundIsSafe();
    e.Bounds();
    var m := e.Here(hist);
    assert hist[0..] == hist;
    assert Last(m.bases) == 0;
    assert forall b :: b in m.bases <==> b == 0;
  }

  /** Opens the one segment file with the frames `fs`, of which `n` bytes are on the medium. */
  method Start(dir: map<nat, seq<byte>>, meta: nat, capacity: int, options: Options, ghost kept: map<nat, nat>,
               ghost before: seq<Moment>, ghost fs: seq<Frame>, ghost n: nat) returns (e: FileStorageEngine)
    requires capacity >= 1 && options.maxSegmentSize <= 0 && (forall b :: b in dir ==> b == 0)
    requires FileStorageEngine.Resumes(before, dir, kept, meta)
    requires FileStorageEngine.Created(dir) == map[0 := Concat(fs)] && FileStorageEngine.Held(dir, kept) == map[0 := n]
    requires AllWhole(fs)
    ensures fresh(e) && Stands(e, fs, Min(meta, |fs|), meta) && e.handed == Min(meta, |fs|)
    ensures e.maxCapacity == capacity && e.opts == FileStorageEngine.Normal(options)
    ensures 0 in e.files && e.files[0] == Concat(fs) && 0 in e.synced && e.synced[0] == Min(n, |Concat(fs)|)
    ensures e.forced <==> n >= |Concat(fs)|
  {
    hide FileStorageEngine.Valid, FileStorageEngine.Resumes, FileStorageEngine.Opened;
    ghost var left, on;
    var err, s;
    err, s, left, on := FileStorageEngine.Open(dir, meta, capacity, options, true, kept, before);
    e := s;
    ParseAll(fs);
    Found(e, map[0 := Concat(fs)], map[0 := n], fs, before);
  }

  lemma Found(e: FileStorageEngine, dir: map<nat, seq<byte>>, kept: map<nat, nat>, fs: seq<Frame>, before: seq<Moment>)
    requires e.Ready(dir, kept, before) && dir.Keys == {0} && Parse(dir[0]) == fs && e.opts.maxSegmentSize <= 0
    ensures e.bases == [0] && e.hist == fs && e.Sound() && e.checkpoint == e.handed == Min(e.saved, |fs|)
    ensures e.files == Trimmed(dir) && e.synced == Clipped(kept, e.files)
  {
    hide Parse, Concat, TailSafe, Durable, StrongJourney;
    assert 0 in dir;
    assert e.found == [0] by {
      assert 0 in e.found;
      assert forall i :: 0 <= i < |e.found| ==> e.found[i] in dir;
    }
    assert e.found[..0] == [];
    assert Flatten(dir, []) == [];
    assert Flatten(dir, e.found) == Flatten(dir, e.found[..0]) + Parse(dir[0]);
    assert e.hist[0..] == e.hist;
  }

  /** The batch of one that holds the record of frame `f` at offset 0. */
  ghost predicate Only(batch: seq<Record>, f: Frame) {
    Decode(f).Ok? && batch == [Decode(f).value.(offset := 0)]
  }

  lemma OneBatch(f: Frame)
    requires Decode(f).Ok?
    ensures Batch([f], 0, 1).Ok? && Only(Batch([f], 0, 1).value, f)
    ensures Batch([f], 1, 1) == Ok([])
  {
    hide Decode;
    assert ValidRun([f], 1, 1) == [];
  }

  /** Reads the only record of the log. */
  method ReadOnly(e: FileStorageEngine, ghost f: Frame) returns (batch: seq<Record>)
    requires Stands(e, [f], 0, 0) && Decode(f).Ok?
    modifies e
    ensures Stands(e, [f], 0, 0) && Only(batch, f) && e.handed >= 1
    ensures e.synced == old(e.synced)
  {
    hide FileStorageEngine.Valid, Decode, FileStorageEngine.Covered;
    OnDisk(e, [f], 0, 0);
    OneBatch(f);
    var r := e.ReadBatch(1);
    batch := r.value;
  }

  /** Reads the only record of the log and commits it. */
  method Deliver(e: FileStorageEngine, ghost f: Frame) returns (batch: seq<Record>)
    requires Stands(e, [f], 0, 0) && Decode(f).Ok? && e.opts.policy != SyncBatchCommit
    modifies e
    ensures Stands(e, [f], 1, 1) && Only(batch, f)
    ensures e.synced == old(e.synced)
  {
    hide FileStorageEngine.Valid, Decode, FileStorageEngine.Covered, Only;
    batch := ReadOnly(e, f);
    OnDisk(e, [f], 0, 0);
    var err := e.Commit(0);
  }

  /** The power fails, and leaves `file` of the one segment file, at least as much as was on the medium. */
  lemma Outage(e: FileStorageEngine, hist: seq<Frame>, checkpoint: nat, saved: nat, file: seq<byte>)
    requires Stands(e, hist, checkpoint, saved) && 0 in e.files && 0 in e.synced
    requires file <= e.files[0] && e.synced[0] <= |file|
    ensures FileStorageEngine.Resumes(e.past, map[0 := file], map[0 := |file|], saved)
  {
    hide TailSafe, Journey, FileStorageEngine.Valid, Stands, Stops;
    OnDisk(e, hist, checkpoint, saved);
    CutOne(e.Here(hist), file);
  }

  lemma CutOne(m: Moment, file: seq<byte>)
    requires TailSafe(m) && m.bases == [0] && 0 in m.files && 0 in m.synced
    requires file <= m.files[0] && m.synced[0] <= |file|
    ensures Stops(m, map[0 := file], map[0 := |file|]) && PowerCut(m, map[0 := file], map[0 := |file|])
  {
    hide TailSafe;
  }

  /** Sees to it that the whole log is on the medium. */
  method Force(e: FileStorageEngine, ghost hist: seq<Frame>, ghost checkpoint: nat, ghost saved: nat)
    requires Stands(e, hist, checkpoint, saved) && (e.opts.policy == SyncEveryRecord ==> e.forced)
    modifies e
    ensures Stands(e, hist, checkpoint, saved) && e.handed == old(e.handed)
    ensures TailSafe(e.Here(e.hist)) && Durable(e.Here(e.hist)) == |hist|
  {
    hide FileStorageEngine.Valid, TailSafe, Durable;
    if e.opts.policy == SyncEveryRecord {
      e.ForcedExactly();
    } else {
      var err := e.Flush();
    }
  }

  /** Appends a record. */
  method Put(e: FileStorageEngine, rec: Record, ghost hist: seq<Frame>, ghost checkpoint: nat, ghost saved: nat)
    requires Stands(e, hist, checkpoint, saved) && Plain(rec) && |hist| - checkpoint < e.maxCapacity
    modifies e
    ensures Stands(e, hist + [Encode(rec)], checkpoint, saved) && e.handed == old(e.handed)
    ensures if e.opts.policy == SyncEveryRecord then e.forced && e.ForcedLast(e.hist, old(e.synced))
            else e.synced == old(e.synced)
  {
    hide FileStorageEngine.Valid, FileStorageEngine.ForcedLast, FileStorageEngine.Overhung, FileStorageEngine.IdsKnown;
    hide Encode, Whole, AppendOutcome;
    var r := e.Append(rec);
    OutcomeFacts(hist, e.hist, checkpoint, e.maxCapacity, true, rec, r);
    e.Scalars();
  }

  /** A disk whose one record is durable holds all of it, on the medium. */
  lemma OneInFull(d: FileStorageEngine, g: Frame, checkpoint: nat, saved: nat)
    requires Stands(d, [g], checkpoint, saved) && TailSafe(d.Here(d.hist)) && Durable(d.Here(d.hist)) == 1
    ensures 0 in d.files && 0 in d.synced && d.files[0] == g == Concat([g]) && d.synced[0] == |g|
  {
    OnDisk(d, [g], checkpoint, saved);
    ConcatOne(g);
    hide TailSafe, FileStorageEngine.Valid, Durable;
    assert FramesIn([g], d.synced[0]) == 1;
  }

  /**
   * The power fails with the only record on the medium and the checkpoint file beyond it; the new engine reads
   * nothing.
   */
  method Reopen(d: FileStorageEngine, ghost g: Frame, capacity: int, options: Options) returns (last: seq<Record>)
    requires Stands(d, [g], 0, 1) && Whole(g) && Decode(g).Ok?
    requires TailSafe(d.Here(d.hist)) && Durable(d.Here(d.hist)) == 1
    requires capacity >= 1 && options.maxSegmentSize <= 0
    ensures last == []
  {
    hide FileStorageEngine.Valid, FileStorageEngine.Resumes, Decode, Whole, Concat, Durable, TailSafe;
    OneInFull(d, g, 0, 1);
    Outage(d, [g], 0, 1, d.files[0]);
    OneBatch(g);
    var file := d.files[0];
    assert map[0 := file] != map[] by {
      assert 0 in map[0 := file];
    }
    var c := Start(map[0 := file], 1, capacity, options, map[0 := |file|], d.past, [g], |file|);
    OnDisk(c, [g], 1, 1);
    var b := c.ReadBatch(1);
    last := b.value;
  }

  lemma Nothing()
    ensures Concat([]) == [] && AllWhole([])
    ensures FileStorageEngine.Resumes([], map[], map[], 0)
    ensures FileStorageEngine.Created(map[0 := []]) == map[0 := []]
  {
    var dir: map<nat, seq<byte>> := map[0 := []];
    assert 0 in dir;
  }

  /**
   * The one record of the log is committed and not on the medium; the power fails.  `g` is appended in its place and
   * forced to the medium; the power fails again.  The last engine reads nothing, although `g` is on the medium (`m`
   * is the disk then) and was handed out to nobody: its offset is 0, and no offset at or above `handed` was.
   */
  method Replace(e: FileStorageEngine, ghost f: Frame, g: Record, capacity: int, options: Options)
    returns (last: seq<Record>, ghost m: Moment, ghost handed: nat)
    requires Stands(e, [f], 1, 1) && 0 in e.synced && e.synced[0] == 0
    requires Plain(g) && capacity >= 1 && options.maxSegmentSize <= 0
    ensures last == []
    ensures TailSafe(m) && m.hist == [Encode(g)] && Durable(m) == 1 && m.saved == 1 && handed == 0
  {
    hide FileStorageEngine.Valid, FileStorageEngine.Resumes, Encode, Decode, Whole, Concat, TailSafe, Durable;
    hide FileStorageEngine.ForcedLast;
    PlainDecodes(g);
    Nothing();
    assert [] + [Encode(g)] == [Encode(g)];
    OnDisk(e, [f], 1, 1);
    Outage(e, [f], 1, 1, []);
    var d := Start(map[0 := []], 1, capacity, options, map[0 := 0], e.past, [], 0);
    Put(d, g, [], 0, 1);
    Force(d, [Encode(g)], 0, 1);
    m, handed := d.Here(d.hist), d.handed;
    last := Reopen(d, Encode(g), capacity, options);
  }

  /**
   * SyncInterval, the default.  `f` is appended, delivered and committed before the flusher comes; the power fails
   * and takes it, and the record appended in its place is never delivered.
   */
  method IntervalSkips(f: Record, g: Record, capacity: int, options: Options)
    returns (first: seq<Record>, last: seq<Record>, ghost m: Moment, ghost handed: nat)
    requires Plain(f) && Plain(g) && capacity >= 1 && options.policy == SyncInterval && options.maxSegmentSize <= 0
    ensures Only(first, Encode(f)) && last == []
    ensures TailSafe(m) && m.hist == [Encode(g)] && Durable(m) == 1 && m.saved == 1 && handed == 0
  {
    hide FileStorageEngine.Valid, FileStorageEngine.Resumes, Encode, Decode, Whole, Concat, TailSafe, Durable, Only;
    PlainDecodes(f);
    Nothing();
    assert [] + [Encode(f)] == [Encode(f)];
    var e := Start(map[], 0, capacity, options, map[], [], [], 0);
    Put(e, f, [], 0, 0);
    first := Deliver(e, Encode(f));
    last, m, handed := Replace(e, Encode(f), g, capacity, options);
  }

  /**
   * SyncEveryRecord.  The process dies in the middle of the append of `f`, behind the flush and before the fsync: the
   * operating system has all of `f`, the medium has nothing.  The restart finds it, and forces nothing: it is
   * delivered and committed; the power fails and takes it, and the record appended in its place is never delivered.
   */
  method ProcessDeathSkips(f: Record, g: Record, capacity: int, options: Options)
    returns (first: seq<Record>, last: seq<Record>, ghost death: Moment, ghost m: Moment, ghost handed: nat)
    requires Plain(f) && Plain(g) && capacity >= 1 && options.policy == SyncEveryRecord && options.maxSegmentSize <= 0
    ensures Only(first, Encode(f)) && last == []
    ensures death.hist == [Encode(f)] && death.files == map[0 := Encode(f)] && death.synced == map[0 := 0]
    ensures TailSafe(m) && m.hist == [Encode(g)] && Durable(m) == 1 && m.saved == 1 && handed == 0
  {
    hide FileStorageEngine.Valid, FileStorageEngine.Resumes, Encode, Decode, Whole, Concat, TailSafe, Durable, Only;
    hide FileStorageEngine.ForcedLast;
    PlainDecodes(f);
    Nothing();
    assert [] + [Encode(f)] == [Encode(f)];
    var e := Start(map[], 0, capacity, options, map[], [], [], 0);
    OnDisk(e, [], 0, 0);
    ghost var was := e.synced;
    Put(e, f, [], 0, 0);
    var dir := e.files;
    death := MidAppend(e, Encode(f), was);
    var d := Start(dir, 0, capacity, options, map[0 := 0], e.past[..|e.past| - 1], [Encode(f)], 0);
    first := Deliver(d, Encode(f));
    last, m, handed := Replace(d, Encode(f), g, capacity, options);
  }

  /** The disk just before the fsync of the first append, and what the death of the process leaves of it. */
  lemma MidAppend(e: FileStorageEngine, f: Frame, was: map<nat, nat>) returns (death: Moment)
    requires Stands(e, [f], 0, 0) && e.opts.policy == SyncEveryRecord && e.forced && e.ForcedLast([f], was)
    requires was.Keys == {0} && was[0] == 0 && f != []
    ensures |e.past| >= 2 && death == e.past[|e.past| - 2] && death.hist == [f]
    ensures death.files == e.files == map[0 := f] && death.synced == map[0 := 0]
    ensures FileStorageEngine.Created(e.files) == e.files && FileStorageEngine.Held(e.files, map[0 := 0]) == map[0 := 0]
    ensures FileStorageEngine.Resumes(e.past[..|e.past| - 1], e.files, map[0 := 0], 0)
    ensures Concat([f]) == f
  {
    hide Journey, Durable;
    e.ForcedExactly();
    OnDisk(e, [f], 0, 0);
    OneInFull(e, f, 0, 0);
    death := e.past[|e.past| - 2];
    var before := e.past[..|e.past| - 1];
    JourneyPrefix(e.past, |e.past| - 1);
    assert before[|before| - 1] == death;
    assert 0 in e.files;
    ArrivedIsSafe(before, death);
  }

  // ----- When it does not happen.

  /**
   * The whole log is committed.  The checkpoint stays safe from every later stop exactly when every record was on the
   * medium, or the policy puts it there; under SyncEveryRecord, exactly when nothing of the active file was left
   * unforced.
   */
  method CommitAll(e: FileStorageEngine, last: nat) returns (err: Option<Error>)
    requires e.Valid() && e.Strong() && !e.closed && e.checkpoint <= last == |e.hist| - 1
    modifies e
    ensures e.Valid()
    ensures e.activeSegBase in old(e.files) && e.activeSegBase in old(e.synced) && old(TailSafe(e.Here(e.hist)))
    ensures err == None ==>
              (e.Strong() <==> e.opts.policy == SyncBatchCommit || old(Durable(e.Here(e.hist)) == |e.hist|))
    ensures err == None && e.opts.policy == SyncEveryRecord ==>
              (e.Strong() <==> old(e.synced[e.activeSegBase] == |e.files[e.activeSegBase]|))
  {
    hide FileStorageEngine.Valid, TailSafe, Durable, FileStorageEngine.Covered, FileStorageEngine.Here;
    e.Scalars();
    Committing(e);
    err := e.Commit(last);
  }

  /** A flush before the commit is enough under every policy. */
  method FlushThenCommit(e: FileStorageEngine, offset: nat) returns (err: Option<Error>)
    requires e.Valid() && e.Strong() && !e.closed && offset < |e.hist|
    modifies e
    ensures e.Valid() && e.Strong()
    ensures err == None ==> e.checkpoint > offset
  {
    hide FileStorageEngine.Valid, TailSafe, Durable;
    err := e.Flush();
    if err == None {
      err := e.Commit(offset);
    }
  }

  lemma Committing(e: FileStorageEngine)
    requires e.Valid() && e.Strong() && e.walOpen
    ensures e.activeSegBase in e.files && e.activeSegBase in e.synced && TailSafe(e.Here(e.hist))
    ensures e.Covered(|e.hist|) <==> Durable(e.Here(e.hist)) == |e.hist|
    ensures e.opts.policy == SyncEveryRecord ==>
              (e.Covered(|e.hist|) <==> e.synced[e.activeSegBase] == |e.files[e.activeSegBase]|)
  {
    hide FileStorageEngine.Valid, TailSafe, Durable;
    e.Stand();
    e.SoundIsSafe();
    DurableInLog(e.Here(e.hist));
    if e.opts.policy == SyncEveryRecord {
      e.ForcedExactly();
    }
  }

  lemma DurableInLog(m: Moment)
    requires TailSafe(m)
    ensures Durable(m) <= |m.hist|
  {
  }

  /** After a power cut the recovered part of every file is on the medium: nothing is left unforced. */
  lemma NothingUnforced(m: Moment, dir: map<nat, seq<byte>>, kept: map<nat, nat>, b: nat)
    requires TailSafe(m) && PowerCut(m, dir, kept) && b in m.bases
    ensures b in dir && b in kept && kept[b] >= |Concat(Parse(dir[b]))|
  {
    hide TailSafe, Parse, Concat;
    ParseIsAPrefix(dir[b]);
  }

  // ----- Twice failed.

  /**
   * How an entry of the index comes to name bytes that were never its record's.  `g` is in the buffer when the next
   * append fails, behind `p` bytes of it: the rollback leaves these bytes, and no entry.  The next append rotates, to
   * the segment file that is there already, and writes `f` from its front on, in the buffer.  The append after it
   * fails at once: the rollback finds the file long enough for `f`, and keeps its entry; but the file holds the front
   * of `g`.
   */
  lemma GarbledRun(c: Config, f: Frame, g: Frame, p: nat)
    returns (s0: Store, s1: Store, s2: Store, s3: Store, s4: Store)
    requires 0 < |f| <= p < |g| && g[..|f|] != f && c.capacity >= 1
    requires c.maxSegmentSize > 0 && p + |f| > c.maxSegmentSize
    ensures Laid(c, s0) && Placed(s0) && s0.hist == [g] && s0.active == 0 && Cut(s0, s1, g[..p], 0, g[..p])
    ensures s1.writePos > 0 && s1.writePos + |f| > c.maxSegmentSize && Turned(s1, s2) && Lengthened(s2, s3, f)
    ensures Placed(s3) && s3.active == 0 && 0 in s3.files && Cut(s3, s4, s3.files[0], 1, g[..|f|])
    ensures Laid(c, s4) && !Placed(s4) && s4.hist == [f] && |s4.records| == 1 && s4.files == map[0 := g[..|f|]]
    ensures s4.records[0] == OffsetPos(0, 0, 0, |f|)
  {
    s0, s1, s2 := FrontLeft(c, g, p);
    hide Laid, Placed, EntryPlaced, Cut, Turned, Lengthened;
    s3 := FrontWritten(c, s2, f, g[..p]);
    assert g[..p][..|f|] == g[..|f|];
    s4 := FrontKept(c, s3, f, g[..p]);
  }

  /** The first failure leaves `p` bytes of `g` and no record; rotation turns to the same file, at its front. */
  lemma FrontLeft(c: Config, g: Frame, p: nat) returns (s0: Store, s1: Store, s2: Store)
    requires 0 < p < |g| && c.capacity >= 1
    ensures Laid(c, s0) && Placed(s0) && s0.hist == [g] && s0.active == 0 && Cut(s0, s1, g[..p], 0, g[..p])
    ensures s1.writePos == p && Turned(s1, s2)
    ensures s2 == Store([0], map[0 := g[..p]], map[0 := 0], 0, [], 0, 0, 0, 0, 0, [], [], 0, true, 0, 0, true, false)
  {
    s0 := Store([0], map[0 := []], map[0 := 0], 0, g, 0, |g|, 0, 0, 0, [OffsetPos(0, 0, 0, |g|)], [g],
                0, true, 0, 0, true, false);
    s1 := s0.(files := map[0 := g[..p]], buffer := [], cursor := p, writePos := p, records := [], hist := []);
    s2 := s1.(cursor := 0, writePos := 0);
    hide Laid, Placed;
    FirstEntry(c, s0, g);
    assert g[..p][..|g[..p]|] == g[..p];
    assert s0.hist[..0] == [] && s0.records[..0] == [];
  }

  /** `f` is written into the buffer, to go to the front of the file. */
  lemma FrontWritten(c: Config, s: Store, f: Frame, junk: seq<byte>) returns (t: Store)
    requires s == Store([0], map[0 := junk], map[0 := 0], 0, [], 0, 0, 0, 0, 0, [], [], 0, true, 0, 0, true, false)
    requires |f| > 0 && c.capacity >= 1
    ensures Lengthened(s, t, f) && Laid(c, t) && Placed(t)
    ensures t == s.(buffer := f, writePos := |f|, records := [OffsetPos(0, 0, 0, |f|)], hist := [f])
  {
    t := s.(buffer := f, writePos := |f|, records := [OffsetPos(0, 0, 0, |f|)], hist := [f]);
    hide Laid, Placed;
    FirstEntry(c, t, f);
    assert 0 in s.files && s.files == s.files[0 := s.files[0]];
  }

  /** The rollback of a write that failed at once keeps the entry of `f`, and the front of what the file held. */
  lemma FrontKept(c: Config, s: Store, f: Frame, junk: seq<byte>) returns (t: Store)
    requires Laid(c, s) && s.files == map[0 := junk] && s.active == s.base == 0 && s.cursor == 0 && s.writePos == |f|
    requires s.records == [OffsetPos(0, 0, 0, |f|)] && s.hist == [f] && |f| <= |junk| && junk[..|f|] != f
    ensures Cut(s, t, junk, 1, junk[..|f|]) && Laid(c, t) && !Placed(t)
    ensures t.hist == [f] && t.records == s.records && t.files == map[0 := junk[..|f|]]
  {
    t := s.(files := map[0 := junk[..|f|]], buffer := [], cursor := |f|);
    assert s.hist[..1] == s.hist && s.records[..1] == s.records;
    hide Laid;
    LaidCut(c, s, t, junk, 1, junk[..|f|]);
    assert !EntryPlaced(t, 0) by {
      assert Stream(t) == junk[..|f|];
    }
  }

  /** An engine with one record, in the buffer. */
  lemma FirstEntry(c: Config, s: Store, f: Frame)
    requires s.bases == [0] && s.files.Keys == {0} && s.buffer == f && s.cursor == 0 && s.writePos == |f|
    requires s.active == s.base == s.checkpoint == s.handed == 0 && s.records == [OffsetPos(0, 0, 0, |f|)]
    requires s.hist == [f] && c.capacity >= 1 && |f| > 0
    ensures Laid(c, s) && Placed(s)
  {
    assert 0 in s.files;
    assert Stream(s) == f;
    assert EntryLaid(s, 0) && EntryPlaced(s, 0);
  }
}
