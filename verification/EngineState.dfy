/** The invariant of the running storage engine, and the steps its operations take. */
module EngineState {
  import opened Bytes
  import opened Frames
  import opened Wal
  import opened Crashes
  import opened IndexState

  /** The engine's log is clean: its segment files and its buffer hold exactly the frames of the log. */
  ghost predicate EngineOk(c: Config, s: Store) {
    && Live(s) && Forced(s.bases, s.files, s.synced)
    && s.active == Last(s.bases) && s.base == s.bases[0] && s.cursor == |s.files[s.active]|
    && s.checkpoint <= s.saved
    && s.handed <= Reach(s.bases, s.hist, |s.files[s.active]|)
    && (c.policy == SyncEveryRecord ==> s.buffer == [] && (s.forced ==> s.synced[s.active] == |s.files[s.active]|))
  }

  /**
   * The invariant: offsets always, the bytes under the index unless the log is garbled, and a clean log unless a
   * rollback has torn it.
   */
  ghost predicate Sane(c: Config, s: Store, garbled: bool, torn: bool) {
    Laid(c, s) && (!garbled ==> Placed(s)) && (!torn ==> EngineOk(c, s)) && (garbled ==> torn)
  }

  /** The disk under the engine, with `h` as the frames handed to the log. */
  ghost function DiskOf(s: Store, h: seq<Frame>): Moment {
    Moment(s.bases, s.files, s.synced, s.saved, h)
  }

  /** The facts about the active segment that every operation starts from. */
  lemma Shape(c: Config, s: Store)
    requires EngineOk(c, s)
    ensures Chain(s.bases) && s.active == Last(s.bases) && s.base == s.bases[0] <= s.active <= |s.hist|
    ensures s.active in s.files && s.active in s.synced && s.cursor == |s.files[s.active]|
    ensures s.files[s.active] + s.buffer == Concat(s.hist[s.active..])
    ensures s.files[s.active] <= Concat(s.hist[s.active..])
    ensures s.writePos == |s.files[s.active]| + |s.buffer|
    ensures s.base + |s.records| == |s.hist|
    ensures s.synced[s.active] <= |s.files[s.active]|
    ensures s.handed <= |s.hist|
  {
  }

  /** Bytes move from the buffer to the file. */
  lemma OkFlush(c: Config, s: Store, t: Store)
    requires EngineOk(c, s) && s.active in t.files
    requires t == s.(files := s.files[s.active := t.files[s.active]], buffer := t.buffer, cursor := |t.files[s.active]|)
    requires s.files[s.active] <= t.files[s.active]
    requires t.files[s.active] + t.buffer == s.files[s.active] + s.buffer
    ensures EngineOk(c, t)
  {
    LiveFlush(s, t);
    ForcedGrow(s.bases, s.files, s.synced, t.files[s.active]);
    ReachMonotone(s.bases, s.hist, |s.files[s.active]|, |t.files[s.active]|);
  }

  /** The active file is forced to the medium. */
  lemma OkSync(c: Config, s: Store, t: Store)
    requires EngineOk(c, s) && s.active in s.files
    requires t == s.(synced := s.synced[s.active := |s.files[s.active]|], forced := t.forced)
    ensures EngineOk(c, t)
  {
    assert s.files == s.files[s.active := s.files[s.active]];
    ForcedGrow(s.bases, s.files, s.synced, s.files[s.active]);
    LiveFlush(s, t);
  }

  /** A new segment is opened behind a flushed and forced one. */
  lemma OkRotate(c: Config, s: Store, t: Store)
    requires EngineOk(c, s) && s.buffer == [] && s.writePos > 0
    requires s.synced[s.active] == |s.files[s.active]|
    requires t == s.(bases := s.bases + [|s.hist|], files := s.files[|s.hist| := []], synced := s.synced[|s.hist| := 0],
                     active := |s.hist|, cursor := 0, writePos := 0)
    ensures s.active < |s.hist| && EngineOk(c, t)
  {
    LiveRotate(s, t);
    ForcedRotate(s.bases, s.files, s.synced, |s.hist|);
  }

  /** The next offset names no segment yet. */
  lemma NextIsNew(c: Config, s: Store)
    requires EngineOk(c, s) && s.writePos > 0
    ensures s.active < |s.hist| && |s.hist| !in s.files
  {
    assert s.hist[|s.hist|..] == [];
    assert forall i :: 0 <= i < |s.bases| ==> s.bases[i] <= Last(s.bases);
  }

  /** The oldest segment, wholly below the checkpoint, is removed. */
  lemma OkDrop(c: Config, s: Store, t: Store)
    requires EngineOk(c, s) && |s.bases| >= 2 && s.bases[1] <= s.checkpoint
    requires s.bases[1] - s.bases[0] <= |s.records|
    requires t == s.(bases := s.bases[1..], files := s.files - {s.bases[0]}, synced := s.synced - {s.bases[0]},
                     records := s.records[s.bases[1] - s.bases[0]..], base := s.bases[1])
    ensures EngineOk(c, t)
  {
    LiveDrop(s, t);
    ForcedDrop(s.bases, s.files, s.synced);
    assert Last(t.bases) == Last(s.bases) != s.bases[0];
  }

  lemma EveryRecordForced(c: Config, s: Store)
    requires EngineOk(c, s)
    ensures c.policy == SyncEveryRecord ==>
              s.buffer == [] && s.active in s.synced && s.active in s.files
              && (s.forced ==> s.synced[s.active] == |s.files[s.active]|)
  {
  }

  lemma SavedCovers(c: Config, s: Store)
    requires EngineOk(c, s)
    ensures s.checkpoint <= s.saved
  {
  }

  /** A frame has been written behind the others. */
  lemma OkAppend(c: Config, s: Store, t: Store, f: Frame)
    requires EngineOk(c, s) && |f| > 0 && s.active in t.files
    requires t == s.(files := s.files[s.active := t.files[s.active]], buffer := t.buffer, cursor := |t.files[s.active]|,
                     synced := t.synced, forced := t.forced, writePos := s.writePos + |f|, hist := s.hist + [f],
                     records := s.records + [OffsetPos(|s.hist|, s.active, s.writePos, |f|)])
    requires t.synced == s.synced || t.synced == s.synced[s.active := |t.files[s.active]|]
    requires s.files[s.active] <= t.files[s.active]
    requires t.files[s.active] + t.buffer == s.files[s.active] + s.buffer + f
    requires c.policy == SyncEveryRecord ==> t.buffer == [] && t.synced == s.synced[s.active := |t.files[s.active]|]
    ensures EngineOk(c, t)
  {
    LiveAppend(s, t, f);
    ForcedGrow(s.bases, s.files, s.synced, t.files[s.active]);
    ReachMonotone(s.bases, s.hist, |s.files[s.active]|, |t.files[s.active]|);
    ReachGrow(s.bases, s.hist, f, |t.files[s.active]|);
  }

  lemma ReachGrow(bases: seq<nat>, hist: seq<Frame>, f: Frame, k: nat)
    requires |bases| >= 1 && Last(bases) <= |hist|
    ensures Reach(bases, hist, k) <= Reach(bases, hist + [f], k)
  {
    assert (hist + [f])[Last(bases)..] == hist[Last(bases)..] + [f];
    FramesInMore(hist[Last(bases)..], [f], k);
  }

  lemma {:induction false} FramesInMore(fs: seq<Frame>, more: seq<Frame>, k: nat)
    ensures FramesIn(fs, k) <= FramesIn(fs + more, k)
    decreases |fs|
  {
    if fs != [] && k >= |fs[0]| {
      assert (fs + more)[1..] == fs[1..] + more;
      FramesInMore(fs[1..], more, k - |fs[0]|);
    }
  }

  /** A batch has been handed out from a flushed log. */
  lemma OkHanded(c: Config, s: Store, t: Store)
    requires EngineOk(c, s) && s.buffer == [] && s.handed <= t.handed <= |s.hist|
    requires t == s.(handed := t.handed)
    ensures EngineOk(c, t)
  {
    assert s.files[s.active] + [] == s.files[s.active];
    ReachAll(s.bases, s.hist);
  }

  /** The checkpoint has moved forward. */
  lemma OkCommit(c: Config, s: Store, t: Store)
    requires EngineOk(c, s)
    requires t == s.(checkpoint := t.checkpoint, saved := t.checkpoint, orderly := t.orderly)
    ensures EngineOk(c, t)
  {
  }

  /** Everything flushed reaches to the end of the log. */
  lemma FlushedReach(c: Config, s: Store)
    requires EngineOk(c, s) && s.buffer == [] && s.active in s.files
    ensures Reach(s.bases, s.hist, |s.files[s.active]|) == |s.hist|
  {
    assert s.files[s.active] + [] == s.files[s.active];
    ReachAll(s.bases, s.hist);
  }

  // ----- Undoing a failed append.

  lemma ActiveEntry(c: Config, s: Store, i: nat)
    requires EngineOk(c, s) && i < |s.records|
    ensures s.base + i < |s.hist|
    ensures s.records[i].segBase == s.active <==> s.active <= s.base + i
    ensures s.records[i].segBase == s.active ==>
              s.records[i].pos + s.records[i].length == |Concat(s.hist[s.active..s.base + i + 1])|
  {
    var o := s.base + i;
    SegOfActive(s.bases, o);
    if s.active <= o {
      SliceAt(s.hist, s.active, o, |s.hist|);
    }
  }

  /** They are exactly the entries of the records that lie wholly within `target`. */
  lemma KeptIsReach(c: Config, s: Store, target: nat, keep: nat)
    requires EngineOk(c, s) && KeptBy(s, target, keep)
    ensures s.base + keep == Reach(s.bases, s.hist, target)
  {
    var n := s.base + keep;
    if keep < |s.records| {
      ActiveEntry(c, s, keep);
      ReachSpec(s.bases, s.hist, target, n + 1);
    }
    if keep > 0 && s.active < n {
      ActiveEntry(c, s, keep - 1);
      ReachSpec(s.bases, s.hist, target, n);
    }
  }

  /** No record that ReadBatch handed out is dropped; none at all when the earlier bytes had reached the file. */
  lemma CutKeepsHanded(c: Config, s: Store, file: seq<byte>)
    requires EngineOk(c, s) && s.active in s.files && s.files[s.active] <= file
    ensures s.handed <= Reach(s.bases, s.hist, CutAt(s, file))
    ensures s.writePos <= |file| ==> Reach(s.bases, s.hist, CutAt(s, file)) == |s.hist|
  {
    ReachMonotone(s.bases, s.hist, |s.files[s.active]|, |file|);
    ReachAll(s.bases, s.hist);
  }

  /** When the cut falls on the end of a record, the engine goes on as if the lost records had never been appended. */
  lemma OkCut(c: Config, s: Store, t: Store, file: seq<byte>, data: seq<byte>, keep: nat)
    requires EngineOk(c, s) && s.active in s.files && KeptBy(s, CutAt(s, file), keep)
    requires s.files[s.active] <= file <= s.files[s.active] + s.buffer + data
    requires CutAt(s, file) == |Concat(s.hist[s.active..Reach(s.bases, s.hist, CutAt(s, file))])|
    requires t == s.(files := s.files[s.active := file[..CutAt(s, file)]], buffer := [], cursor := CutAt(s, file),
                     writePos := CutAt(s, file), records := s.records[..keep], hist := s.hist[..s.base + keep])
    ensures EngineOk(c, t)
    ensures t.files[s.active] == Concat(s.hist[s.active..s.base + keep])
  {
    var target, n := CutAt(s, file), s.base + keep;
    KeptIsReach(c, s, target, keep);
    CutKeepsHanded(c, s, file);
    CutBytes(s.hist, s.active, n, s.files[s.active] + s.buffer, file, data);
    assert Last(s.bases) in s.bases;
    LiveCut(s, t, n);
    ForcedGrow(s.bases, s.files, s.synced, t.files[s.active]);
    ReachPrefix(s.bases, s.hist, n, target);
  }

  lemma CutBytes(hist: seq<Frame>, a: nat, n: nat, full: seq<byte>, file: seq<byte>, data: seq<byte>)
    requires a <= n <= |hist| && full == Concat(hist[a..]) && file <= full + data
    requires |Concat(hist[a..n])| <= |file|
    ensures file[..|Concat(hist[a..n])|] == Concat(hist[a..n])
  {
    assert hist[a..] == hist[a..n] + hist[n..];
    ConcatAppend(hist[a..n], hist[n..]);
  }

  /** The cut falls on the end of a record. */
  ghost predicate CleanCut(s: Store, file: seq<byte>)
    requires |s.bases| >= 1 && s.active == Last(s.bases) <= |s.hist|
  {
    CutAt(s, file) == |Concat(s.hist[s.active..Reach(s.bases, s.hist, CutAt(s, file))])|
  }

  /** What a rollback of a failed write of `data` does to a clean log, when `file` is what the write left behind. */
  lemma Undo(c: Config, s: Store, t: Store, file: seq<byte>, data: seq<byte>, past: seq<Moment>)
    requires EngineOk(c, s) && s.active in s.files && KeptBy(s, CutAt(s, file), |t.records|)
    requires s.files[s.active] <= file <= s.files[s.active] + s.buffer + data
    requires t == s.(files := s.files[s.active := file[..CutAt(s, file)]], buffer := [], cursor := CutAt(s, file),
                     writePos := CutAt(s, file), records := s.records[..|t.records|],
                     hist := s.hist[..s.base + |t.records|])
    ensures |s.bases| >= 1 && s.active == Last(s.bases) <= |s.hist|
    ensures |t.hist| == Reach(s.bases, s.hist, CutAt(s, file))
    ensures CleanCut(s, file) ==> EngineOk(c, t)
    ensures CleanCut(s, file) ==>
              Follows(past, DiskOf(s.(files := s.files[s.active := file]), s.hist + [data]), DiskOf(t, t.hist))
  {
    KeptIsReach(c, s, CutAt(s, file), |t.records|);
    var n := s.base + |t.records|;
    assert n == |s.hist| ==> s.hist[..n] == s.hist && s.hist[s.active..n] == s.hist[s.active..];
    if CleanCut(s, file) {
      OkCut(c, s, t, file, data, |t.records|);
      UndoPast(c, s, t, file, data, past);
    }
  }

  lemma UndoPast(c: Config, s: Store, t: Store, file: seq<byte>, data: seq<byte>, past: seq<Moment>)
    requires EngineOk(c, s) && s.active in s.files && s.active in t.files && s.active <= |t.hist| <= |s.hist|
    requires s.files[s.active] <= file
    requires t.files == s.files[s.active := file[..CutAt(s, file)]] && t.hist == s.hist[..|t.hist|]
    requires t.files[s.active] == Concat(s.hist[s.active..|t.hist|])
    requires t.bases == s.bases && t.synced == s.synced && t.saved == s.saved
    ensures Follows(past, DiskOf(s.(files := s.files[s.active := file]), s.hist + [data]), DiskOf(t, t.hist))
  {
    var n := |t.hist|;
    assert (s.hist + [data])[..n] == s.hist[..n];
    assert (s.hist + [data])[s.active..n] == s.hist[s.active..n];
    var a := DiskOf(s.(files := s.files[s.active := file]), s.hist + [data]);
    var b := DiskOf(t, t.hist);
    assert b.files == a.files[s.active := b.files[s.active]];
    PastCut(past, a, b, n);
  }

  /** Before a write: there is room in the log for the bytes of one more frame behind the buffer. */
  lemma Announced(c: Config, s: Store, data: Frame, past: seq<Moment>)
    requires EngineOk(c, s)
    ensures s.active in s.files && s.active in s.synced && s.active == Last(s.bases) <= |s.hist + [data]|
    ensures s.files[s.active] + s.buffer + data == Concat((s.hist + [data])[s.active..])
    ensures s.files[s.active] + (s.buffer + data) <= Concat((s.hist + [data])[s.active..])
    ensures Whole(data) ==> Follows(past, DiskOf(s, s.hist), DiskOf(s, s.hist + [data]))
  {
    assert (s.hist + [data])[s.active..] == s.hist[s.active..] + [data];
    ConcatSnoc(s.hist[s.active..], data);
    assert s.files[s.active] + (s.buffer + data) == s.files[s.active] + s.buffer + data;
    if Whole(data) {
      PastAnnounce(past, DiskOf(s, s.hist), DiskOf(s, s.hist + [data]), data);
    }
  }

  // ----- The steps of the whole invariant.

  lemma SaneShape(c: Config, s: Store, garbled: bool, torn: bool)
    requires Sane(c, s, garbled, torn)
    ensures Chain(s.bases) && s.active == Last(s.bases) && s.base == s.bases[0] <= s.active <= |s.hist|
    ensures s.active in s.files && s.cursor <= |s.files[s.active]| && s.cursor + |s.buffer| == s.writePos
    ensures s.base + |s.records| == |s.hist| && s.handed <= |s.hist|
    ensures !torn ==> EngineOk(c, s) && s.cursor == |s.files[s.active]|
  {
    LaidShape(c, s);
  }

  /** Bytes of the buffer move to the file. */
  lemma SaneFlush(c: Config, s: Store, t: Store, garbled: bool, torn: bool)
    requires Sane(c, s, garbled, torn) && s.active in t.files
    requires t == s.(files := s.files[s.active := t.files[s.active]], buffer := t.buffer, cursor := t.cursor)
    requires s.cursor <= t.cursor <= |t.files[s.active]|
    requires s.active in s.files && s.cursor <= |s.files[s.active]| && Stream(t) == Stream(s)
    requires s.cursor == |s.files[s.active]| ==>
               t.cursor == |t.files[s.active]| && s.files[s.active] <= t.files[s.active]
    ensures Sane(c, t, garbled, torn)
  {
    hide Laid, Placed, EngineOk;
    SaneShape(c, s, garbled, torn);
    LaidFlush(c, s, t);
    if !torn {
      WholeStream(s);
      WholeStream(t);
      OkFlush(c, s, t);
    }
  }

  lemma WholeStream(s: Store)
    requires s.active in s.files && s.cursor == |s.files[s.active]|
    ensures Stream(s) == s.files[s.active] + s.buffer
  {
    assert s.files[s.active][..s.cursor] == s.files[s.active];
  }

  /** The active file is forced to the medium. */
  lemma SaneSync(c: Config, s: Store, t: Store, garbled: bool, torn: bool)
    requires Sane(c, s, garbled, torn) && s.active in s.files
    requires t == s.(synced := s.synced[s.active := |s.files[s.active]|], forced := t.forced)
    ensures Sane(c, t, garbled, torn)
  {
    hide Laid, Placed, EngineOk;
    SaneShape(c, s, garbled, torn);
    assert s.files == s.files[s.active := s.files[s.active]];
    LaidFlush(c, s, t);
    if !torn {
      OkSync(c, s, t);
    }
  }

  /** The engine turns to the next segment. */
  lemma SaneRotate(c: Config, s: Store, t: Store, garbled: bool, torn: bool)
    requires Sane(c, s, garbled, torn) && s.buffer == [] && s.writePos > 0 && Turned(s, t)
    requires !torn ==>
      && s.active in s.synced && s.active in s.files && s.synced[s.active] == |s.files[s.active]|
      && (|s.hist| !in s.files ==> t.synced == s.synced[|s.hist| := 0])
    ensures Sane(c, t, garbled, torn)
    ensures forall i :: 0 <= i < |t.records| ==> t.records[i].segBase != t.active
    ensures !torn ==> s.active < |s.hist| && |s.hist| !in s.files
  {
    hide Laid, Placed, EngineOk;
    LaidRotate(c, s, t);
    if !torn {
      NextIsNew(c, s);
      OkRotate(c, s, t);
    }
  }

  /** The oldest segment, wholly below the checkpoint, is removed. */
  lemma SaneDrop(c: Config, s: Store, t: Store, garbled: bool, torn: bool)
    requires Sane(c, s, garbled, torn) && Shortened(s, t) && s.bases[1] <= s.checkpoint
    requires !torn ==> t.synced == s.synced - {s.bases[0]}
    ensures Sane(c, t, garbled, torn)
  {
    hide Laid, Placed, EngineOk;
    LaidDrop(c, s, t);
    if !torn {
      OkDrop(c, s, t);
    }
  }

  /** A frame has been written behind the others. */
  lemma SaneAppend(c: Config, s: Store, t: Store, f: Frame, garbled: bool, torn: bool)
    requires Sane(c, s, garbled, torn) && Lengthened(s, t, f) && |f| > 0 && |s.hist| - s.checkpoint < c.capacity
    requires c.maxSegmentSize > 0 ==> s.writePos == 0 || s.writePos + |f| <= c.maxSegmentSize
    requires s.active in s.files && s.cursor <= |s.files[s.active]| && Stream(t) == Stream(s) + f
    requires s.cursor == |s.files[s.active]| ==>
               t.cursor == |t.files[s.active]| && s.files[s.active] <= t.files[s.active]
    requires if c.policy == SyncEveryRecord then t.buffer == [] && t.synced == s.synced[s.active := |t.files[s.active]|]
             else t.synced == s.synced
    ensures Sane(c, t, garbled, torn)
  {
    hide Laid, Placed, EngineOk;
    SaneShape(c, s, garbled, torn);
    LaidAppend(c, s, t, f);
    if !torn {
      WholeStream(s);
      WholeStream(t);
      OkAppend(c, s, t, f);
    }
  }

  /** A batch has been handed out from a flushed log. */
  lemma SaneHanded(c: Config, s: Store, t: Store, garbled: bool, torn: bool)
    requires Sane(c, s, garbled, torn) && s.buffer == [] && s.handed <= t.handed <= |s.hist|
             && t == s.(handed := t.handed)
    ensures Sane(c, t, garbled, torn)
  {
    hide Laid, Placed, EngineOk;
    LaidHanded(c, s, t);
    if !torn {
      OkHanded(c, s, t);
    }
  }

  /** The checkpoint has moved forward. */
  lemma SaneCommit(c: Config, s: Store, t: Store, garbled: bool, torn: bool)
    requires Sane(c, s, garbled, torn) && s.checkpoint < t.checkpoint
    requires t == s.(checkpoint := t.checkpoint, saved := t.checkpoint, orderly := t.orderly)
    requires t.orderly ==> s.orderly && t.checkpoint <= s.handed
    ensures Sane(c, t, garbled, torn)
  {
    hide Laid, Placed, EngineOk;
    LaidCommit(c, s, t);
    if !torn {
      OkCommit(c, s, t);
    }
  }

  /**
   * What a failed append leaves of the engine at `s`, when the write has left `file` behind with its first `flushed`
   * bytes written: exactly the entries of sealed segments and those wholly inside the cut file are kept, among them
   * every record that ReadBatch handed out, and all of them if the earlier bytes had reached the file.  The log is
   * torn when the cut falls inside a record, or the file was `uncut`; and garbled when an entry is kept that had not
   * reached the file.
   */
  ghost predicate RolledBack(s: Store, file: seq<byte>, flushed: nat, uncut: bool, was: (bool, bool),
                             hist: seq<Frame>, garbled: bool, torn: bool) {
    && |s.bases| >= 1 && s.active == Last(s.bases) <= |s.hist|
    && s.base <= |hist| && hist <= s.hist && s.handed <= |hist|
    && (forall i: nat {:trigger s.records[i]} :: i < |s.records| ==>
          (s.base + i < |hist| <==> s.records[i].segBase != s.active || End(s.records[i]) <= CutAt(s, file)))
    && (s.writePos <= |file| ==> hist == s.hist)
    && (garbled <==> was.0 || Unflushed(s, |hist| - s.base, flushed))
    && (torn <==> was.1 || uncut || !CleanCut(s, file))
    && (!was.1 ==> |hist| == Reach(s.bases, s.hist, CutAt(s, file)) && (s.writePos <= |file| ==> torn == uncut))
  }

  lemma RolledBackFacts(s: Store, file: seq<byte>, flushed: nat, uncut: bool, was: (bool, bool), hist: seq<Frame>,
                        garbled: bool, torn: bool)
    requires RolledBack(s, file, flushed, uncut, was, hist, garbled, torn)
    ensures hist <= s.hist && s.handed <= |hist| && (was.0 ==> garbled) && (was.1 || uncut ==> torn)
    ensures s.writePos <= |file| ==> hist == s.hist && (!was.1 ==> torn == uncut)
    ensures garbled ==> was.0 || flushed < CutAt(s, file)
  {
    if garbled && !was.0 {
      var i: nat :| i < |hist| - s.base && i < |s.records| && s.records[i].segBase == s.active
        && End(s.records[i]) > flushed;
      assert s.base + i < |hist|;
    }
  }

  /** The same without the particulars of the write that failed. */
  ghost predicate Abandoned(s: Store, uncut: bool, was: (bool, bool), hist: seq<Frame>, garbled: bool, torn: bool) {
    && (exists file, flushed :: RolledBack(s, file, flushed, uncut, was, hist, garbled, torn))
    && (garbled && !was.0 ==> AtRisk(s))
    && (!was.1 && s.buffer == [] ==> hist == s.hist && torn == uncut)
  }

  lemma AbandonedFacts(s: Store, uncut: bool, was: (bool, bool), hist: seq<Frame>, garbled: bool, torn: bool)
    requires Abandoned(s, uncut, was, hist, garbled, torn)
    ensures hist <= s.hist && s.handed <= |hist| && (was.0 ==> garbled) && (was.1 || uncut ==> torn)
    ensures garbled && !was.0 ==> AtRisk(s)
    ensures !was.1 && s.buffer == [] ==> hist == s.hist && torn == uncut
  {
    hide RolledBack, AtRisk;
    var file, flushed :| RolledBack(s, file, flushed, uncut, was, hist, garbled, torn);
    RolledBackFacts(s, file, flushed, uncut, was, hist, garbled, torn);
  }

  lemma SaneCut(c: Config, s: Store, t: Store, file: seq<byte>, left: seq<byte>, flushed: nat, data: seq<byte>,
                garbled: bool, torn: bool)
    requires Sane(c, s, garbled, torn) && Cut(s, t, file, |t.records|, left) && s.cursor <= flushed <= |file|
    requires s.active in s.files && s.cursor <= |s.files[s.active]| && file[..flushed] <= Stream(s) + data
    requires !torn ==> s.files[s.active] <= file && flushed == |file|
    ensures |s.bases| >= 1 && s.active == Last(s.bases) <= |s.hist|
    ensures var uncut := |left| > CutAt(s, file);
      && Sane(c, t, garbled || Unflushed(s, |t.records|, flushed), torn || uncut || !CleanCut(s, file))
      && RolledBack(s, file, flushed, uncut, (garbled, torn), t.hist, garbled || Unflushed(s, |t.records|, flushed),
                    torn || uncut || !CleanCut(s, file))
  {
    hide Placed, EngineOk, CleanCut, Reach;
    SaneShape(c, s, garbled, torn);
    CutKeeps(c, s, file, |t.records|);
    LaidCut(c, s, t, file, |t.records|, left);
    if !garbled && !Unflushed(s, |t.records|, flushed) {
      PlacedCut(c, s, t, file, |t.records|, left, flushed, data);
    }
    if !torn {
      assert file[..|file|] == file;
      CleanCutDone(c, s, t.(files := s.files[s.active := file[..CutAt(s, file)]]), file, data);
    }
  }

  lemma CleanCutDone(c: Config, s: Store, t: Store, file: seq<byte>, data: seq<byte>)
    requires EngineOk(c, s) && Cut(s, t, file, |t.records|, file[..CutAt(s, file)]) && s.active in s.files
    requires s.cursor == |s.files[s.active]|
    requires s.files[s.active] <= file <= Stream(s) + data
    ensures |s.bases| >= 1 && s.active == Last(s.bases) <= |s.hist|
    ensures |t.hist| == Reach(s.bases, s.hist, CutAt(s, file)) && (CleanCut(s, file) ==> EngineOk(c, t))
    ensures s.writePos <= |file| ==> CleanCut(s, file)
  {
    WholeStream(s);
    hide EngineOk, Reach;
    Undo(c, s, t, file, data, []);
    if s.writePos <= |file| {
      Shape(c, s);
      CutKeepsHanded(c, s, file);
      assert s.hist[s.active..|s.hist|] == s.hist[s.active..];
    }
  }

  // ----- The size of a segment.

  /** Where the records of segment number `i` end. */
  ghost function SegEnd(bases: seq<nat>, hist: seq<Frame>, i: nat): nat
    requires i < |bases|
  {
    if i + 1 < |bases| then bases[i + 1] else |hist|
  }

  /** The bytes of segment number `i`, in its file and, if it is the active one, in the buffer. */
  ghost function SegBytes(s: Store, i: nat): seq<byte>
    requires i < |s.bases| && s.bases[i] in s.files
  {
    s.files[s.bases[i]] + if i + 1 < |s.bases| then [] else s.buffer
  }

  /** The last entry of a segment ends where its bytes do; it is at the front only if it is the only one. */
  lemma LastEntry(s: Store, i: nat)
    requires Live(s) && i < |s.bases| && s.bases[i] < SegEnd(s.bases, s.hist, i)
    ensures s.bases[i] in s.files && s.bases[0] <= s.bases[i] < SegEnd(s.bases, s.hist, i) <= |s.hist|
    ensures var e := s.records[SegEnd(s.bases, s.hist, i) - 1 - s.bases[0]];
      End(e) == |SegBytes(s, i)| && (e.pos == 0 <==> s.bases[i] + 1 == SegEnd(s.bases, s.hist, i))
  {
    hide Live, SegBytes, Concat, SegOf;
    var b, end := s.bases[i], SegEnd(s.bases, s.hist, i);
    SegmentIs(s, i);
    LastOfSegment(s.bases, s.hist, i);
    assert s.records[end - 1 - s.bases[0]] == Entry(s.bases, s.hist, s.bases[0] + (end - 1 - s.bases[0])) by {
      EntryOf(s, end - 1 - s.bases[0]);
    }
    SliceAt(s.hist, b, end - 1, end);
    if b < end - 1 {
      SliceAt(s.hist, b, b, end - 1);
      FrameNotEmpty(s, b);
    } else {
      assert s.hist[b..end - 1] == [];
      NoFrames();
    }
  }

  lemma NoFrames()
    ensures Concat([]) == []
  {
  }

  lemma EntryOf(s: Store, k: nat)
    requires Live(s) && k < |s.records|
    ensures s.bases[0] + k < |s.hist| && s.records[k] == Entry(s.bases, s.hist, s.bases[0] + k)
  {
    hide Sealed, Entry;
  }

  lemma FrameNotEmpty(s: Store, o: nat)
    requires Live(s) && s.bases[0] <= o < |s.hist|
    ensures |s.hist[o]| > 0
  {
    hide Sealed, Indexed, Entry;
  }

  lemma LastOfSegment(bases: seq<nat>, hist: seq<Frame>, i: nat)
    requires Chain(bases) && i < |bases| && bases[i] < SegEnd(bases, hist, i)
    ensures SegOf(bases, SegEnd(bases, hist, i) - 1) == bases[i]
  {
    var j := SegOfNeighbour(bases, SegEnd(bases, hist, i) - 1);
  }

  /** The bytes of a segment are its frames. */
  lemma SegmentIs(s: Store, i: nat)
    requires Live(s) && i < |s.bases| && s.bases[i] < SegEnd(s.bases, s.hist, i)
    ensures Chain(s.bases) && s.bases[0] <= s.bases[i] && s.bases[i] in s.files
    ensures SegEnd(s.bases, s.hist, i) <= |s.hist| && s.bases[0] + |s.records| == |s.hist|
    ensures SegBytes(s, i) == Concat(s.hist[s.bases[i]..SegEnd(s.bases, s.hist, i)])
  {
    hide Entry;
    var b := s.bases[i];
    assert b in s.bases;
    if i + 1 < |s.bases| {
      assert SealedAt(s.bases, s.files, s.hist, i) && s.bases[i + 1] in s.bases;
      assert s.bases[i + 1] <= Last(s.bases);
      assert s.files[b] + [] == s.files[b];
    } else {
      assert s.hist[b..] == s.hist[b..|s.hist|];
    }
  }

  /**
   * A segment that holds more than one record, the last of them written since start-up, is no larger than the limit:
   * only a record that is larger by itself makes a larger segment, which then holds nothing else.
   */
  lemma SegmentFits(c: Config, s: Store, i: nat)
    requires Laid(c, s) && EngineOk(c, s) && c.maxSegmentSize > 0 && i < |s.bases|
    requires SegEnd(s.bases, s.hist, i) > s.inherited && SegEnd(s.bases, s.hist, i) >= s.bases[i] + 2
    ensures s.bases[i] in s.files && |SegBytes(s, i)| <= c.maxSegmentSize
  {
    hide Keyed, EntryLaid, InLine;
    LastEntry(s, i);
    var k := SegEnd(s.bases, s.hist, i) - 1 - s.bases[0];
    assert s.records[k] == Entry(s.bases, s.hist, s.bases[0] + k);
  }

  /**
   * No segment that was begun behind `first` could have been spared: its first frame did not fit behind the segment
   * before it.
   */
  ghost predicate Packed(bases: seq<nat>, hist: seq<Frame>, limit: int, first: nat) {
    forall i :: 0 <= i && i + 1 < |bases| && bases[i + 1] > first ==> NoRoom(bases, hist, limit, i)
  }

  ghost predicate NoRoom(bases: seq<nat>, hist: seq<Frame>, limit: int, i: nat)
    requires i + 1 < |bases|
  {
    && bases[i] <= bases[i + 1] < |hist|
    && |Concat(hist[bases[i]..bases[i + 1]])| + |hist[bases[i + 1]]| > limit
  }

  /** An append that begins a segment only behind one which holds something and has no room keeps it so. */
  lemma PackedAppend(bases: seq<nat>, hist: seq<Frame>, frame: Frame, pos: nat, limit: int, first: nat)
    requires Packed(bases, hist, limit, first) && Chain(bases) && Last(bases) <= |hist|
    requires pos == |Concat(hist[Last(bases)..])|
    ensures Packed(if limit > 0 && pos > 0 && pos + |frame| > limit then bases + [|hist|] else bases, hist + [frame],
                   limit, first)
  {
    hide Concat;
    var more := if limit > 0 && pos > 0 && pos + |frame| > limit then bases + [|hist|] else bases;
    var h := hist + [frame];
    forall i | 0 <= i && i + 1 < |more| && more[i + 1] > first
      ensures NoRoom(more, h, limit, i)
    {
      if i + 1 < |bases| {
        assert NoRoom(bases, hist, limit, i);
        assert h[bases[i]..bases[i + 1]] == hist[bases[i]..bases[i + 1]];
      } else {
        assert h[bases[i]..|hist|] == hist[Last(bases)..];
      }
    }
  }

  lemma PackedDrop(bases: seq<nat>, hist: seq<Frame>, limit: int, first: nat, k: nat)
    requires Packed(bases, hist, limit, first) && k <= |bases|
    ensures Packed(bases[k..], hist, limit, first)
  {
    forall i | 0 <= i && i + 1 < |bases[k..]| && bases[k..][i + 1] > first
      ensures NoRoom(bases[k..], hist, limit, i)
    {
      assert NoRoom(bases, hist, limit, i + k);
    }
  }
}
