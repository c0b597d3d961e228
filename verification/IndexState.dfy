/**
 * The index of the running storage engine.  Its offsets, its order and its count hold after every operation, failed
 * ones included; so do the bytes that its entries name, unless a rollback has kept an entry that never reached the
 * file.
 */
module IndexState {
  import opened Bytes
  import opened Frames
  import opened Wal

  /** Where an index entry ends in its segment. */
  function End(e: OffsetPos): nat {
    e.pos + e.length
  }

  /** The bytes written to the active segment since it was opened: those in the file and those in the buffer. */
  ghost function Stream(s: Store): seq<byte>
    requires s.active in s.files && s.cursor <= |s.files[s.active]|
  {
    s.files[s.active][..s.cursor] + s.buffer
  }

  /** Segments written under rotation: a record that is not the first of its segment ends within the size limit. */
  ghost predicate Sized(limit: int, inherited: nat, records: seq<OffsetPos>) {
    limit > 0 ==>
      forall i :: 0 <= i < |records| && records[i].offset >= inherited ==>
        records[i].pos == 0 || records[i].pos + records[i].length <= limit
  }

  /** Entry `i` has the offset and the segment of its place, and lies within what was written there. */
  ghost predicate EntryLaid(s: Store, i: nat)
    requires i < |s.records| && |s.bases| >= 1
  {
    var e := s.records[i];
    && e.offset == s.base + i && e.segBase == SegOf(s.bases, s.base + i) && e.segBase in s.files
    && if e.segBase == s.active then End(e) <= s.writePos && (e.offset < s.handed ==> End(e) <= s.cursor)
       else End(e) <= |s.files[e.segBase]|
  }

  /** Entries of the active segment lie behind one another. */
  ghost predicate InLine(records: seq<OffsetPos>, active: nat) {
    forall i, j :: 0 <= i < j < |records| && records[i].segBase == active == records[j].segBase ==>
      End(records[i]) <= records[j].pos
  }

  /** The offset invariant. */
  ghost predicate Laid(c: Config, s: Store) {
    && Chain(s.bases) && Keyed(s.files, s.bases) && s.active == Last(s.bases) && s.base == s.bases[0]
    && s.base + |s.records| == |s.hist| && s.active <= |s.hist|
    && s.handed <= |s.hist| && (s.orderly ==> Max(s.checkpoint, s.base) <= s.handed)
    && (s.rooted ==> s.base <= s.checkpoint)
    && |s.hist| - s.checkpoint <= Max(c.capacity, s.backlog)
    && s.cursor + |s.buffer| == s.writePos && s.cursor <= |s.files[s.active]|
    && (forall i: nat :: i < |s.records| ==> EntryLaid(s, i))
    && InLine(s.records, s.active) && Sized(c.maxSegmentSize, s.inherited, s.records)
  }

  /** The bytes that entry `i` names are its frame. */
  ghost predicate EntryPlaced(s: Store, i: nat)
    requires i < |s.records| && s.active in s.files && s.cursor <= |s.files[s.active]|
  {
    var e := s.records[i];
    && s.base + i < |s.hist| && e.segBase in s.files
    && var bytes := if e.segBase == s.active then Stream(s) else s.files[e.segBase];
       End(e) <= |bytes| && bytes[e.pos..End(e)] == s.hist[s.base + i]
  }

  ghost predicate Placed(s: Store) {
    && s.active in s.files && s.cursor <= |s.files[s.active]|
    && forall i: nat :: i < |s.records| ==> EntryPlaced(s, i)
  }

  /** The facts that every operation starts from. */
  lemma LaidShape(c: Config, s: Store)
    requires Laid(c, s)
    ensures Chain(s.bases) && s.active == Last(s.bases) && s.base == s.bases[0] <= s.active <= |s.hist|
    ensures s.active in s.files && s.cursor <= |s.files[s.active]| && s.cursor + |s.buffer| == s.writePos
    ensures s.base + |s.records| == |s.hist| && s.handed <= |s.hist|
    ensures (s.orderly ==> Max(s.checkpoint, s.base) <= s.handed) && (s.rooted ==> s.base <= s.checkpoint)
    ensures |s.hist| - s.checkpoint <= Max(c.capacity, s.backlog)
  {
  }

  // ----- What the operations keep.

  /** Bytes move from the buffer to the file. */
  lemma LaidFlush(c: Config, s: Store, t: Store)
    requires Laid(c, s) && s.active in t.files
    requires t == s.(files := s.files[s.active := t.files[s.active]], buffer := t.buffer, cursor := t.cursor,
                     synced := t.synced,
                     forced := t.forced)
    requires s.cursor <= t.cursor <= |t.files[s.active]| && t.cursor + |t.buffer| == s.cursor + |s.buffer|
    ensures Laid(c, t)
    ensures Placed(s) && Stream(t) == Stream(s) ==> Placed(t)
  {
    forall i: nat | i < |t.records| ensures EntryLaid(t, i) {
      assert EntryLaid(s, i);
    }
    if Placed(s) && Stream(t) == Stream(s) {
      forall i: nat | i < |t.records| ensures EntryPlaced(t, i) {
        assert EntryPlaced(s, i);
      }
    }
  }

  /**
   * The engine turns to the segment named by the end of the log: a new one, or the one there, which holds no record.
   */
  ghost predicate Turned(s: Store, t: Store) {
    && t == s.(bases := t.bases, files := t.files, synced := t.synced, active := |s.hist|, cursor := 0, writePos := 0)
    && (|s.hist| in s.files ==> t.bases == s.bases && t.files == s.files)
    && (|s.hist| !in s.files ==> t.bases == s.bases + [|s.hist|] && t.files == s.files[|s.hist| := []])
  }

  lemma LaidRotate(c: Config, s: Store, t: Store)
    requires Laid(c, s) && s.buffer == [] && Turned(s, t)
    ensures Laid(c, t)
    ensures Placed(s) ==> Placed(t)
    ensures |s.hist| in s.files ==> |s.hist| == s.active
    ensures forall i :: 0 <= i < |t.records| ==> t.records[i].segBase != t.active
  {
    TurnedShape(s, t);
    forall i: nat | i < |t.records|
      ensures EntryLaid(t, i) && t.records[i].segBase < t.active && (Placed(s) ==> EntryPlaced(t, i))
    {
      EntryTurned(c, s, t, i);
    }
    hide EntryLaid, EntryPlaced, Turned, Chain, Keyed;
  }

  lemma TurnedShape(s: Store, t: Store)
    requires Chain(s.bases) && Keyed(s.files, s.bases) && s.active == Last(s.bases) <= |s.hist| && Turned(s, t)
    ensures Chain(t.bases) && Keyed(t.files, t.bases) && t.active == Last(t.bases) && t.bases[0] == s.bases[0]
    ensures |s.hist| in s.files ==> |s.hist| == s.active
    ensures t.active in t.files
  {
    LastIsGreatest(s.bases);
  }

  lemma EntryTurned(c: Config, s: Store, t: Store, i: nat)
    requires Laid(c, s) && s.buffer == [] && Turned(s, t) && i < |s.records| && t.active in t.files
    requires |s.bases| >= 1 && |t.bases| >= 1
    ensures EntryLaid(t, i) && t.records[i].segBase < t.active
    ensures Placed(s) ==> EntryPlaced(t, i)
  {
    hide Keyed, InLine, Sized, EntryPlaced, SegOf, Chain;
    assert EntryLaid(s, i);
    TurnedSegment(s, t, s.base + i);
    if Placed(s) {
      TurnedPlace(s, t, i);
    }
  }

  lemma TurnedSegment(s: Store, t: Store, o: nat)
    requires Chain(s.bases) && s.bases[0] <= o < |s.hist| && Turned(s, t)
    ensures |t.bases| >= 1 && SegOf(t.bases, o) == SegOf(s.bases, o) <= o
  {
    SegOfSpec(s.bases, o);
    if |s.hist| !in s.files {
      SegOfGrow(s.bases, |s.hist|, o);
    }
  }

  lemma TurnedPlace(s: Store, t: Store, i: nat)
    requires Placed(s) && s.buffer == [] && Turned(s, t) && t.active in t.files && i < |s.records|
    requires s.records[i].segBase < t.active
    ensures EntryPlaced(t, i)
  {
    assert EntryPlaced(s, i);
    var e := s.records[i];
    if e.segBase == s.active {
      assert Stream(s) == s.files[s.active][..s.cursor];
      assert s.files[s.active][..s.cursor][e.pos..End(e)] == s.files[s.active][e.pos..End(e)];
    }
  }

  lemma LastIsGreatest(bases: seq<nat>)
    requires Chain(bases)
    ensures forall b :: b in bases ==> b <= Last(bases)
  {
  }

  /** The oldest segment goes with its entries. */
  ghost predicate Shortened(s: Store, t: Store) {
    && |s.bases| >= 2 && 0 <= s.bases[1] - s.bases[0] <= |s.records|
    && t == s.(bases := s.bases[1..], files := s.files - {s.bases[0]}, synced := t.synced,
               records := s.records[s.bases[1] - s.bases[0]..], base := s.bases[1])
  }

  lemma LaidDrop(c: Config, s: Store, t: Store)
    requires Laid(c, s) && Shortened(s, t) && s.bases[1] <= s.checkpoint
    ensures Laid(c, t)
    ensures Placed(s) ==> Placed(t)
  {
    KeyedDrop(s.files, s.bases);
    var d := s.bases[1] - s.bases[0];
    assert Last(t.bases) == Last(s.bases) != s.bases[0];
    forall i: nat | i < |t.records| ensures EntryLaid(t, i) && (Placed(s) ==> EntryPlaced(t, i)) {
      EntryShortened(c, s, t, i);
    }
    hide EntryLaid, EntryPlaced, Keyed;
  }

  lemma EntryShortened(c: Config, s: Store, t: Store, i: nat)
    requires Laid(c, s) && Shortened(s, t) && i < |t.records| && |t.bases| >= 1
    requires s.active != s.bases[0] && s.active in t.files
    ensures EntryLaid(t, i)
    ensures Placed(s) ==> EntryPlaced(t, i)
  {
    hide Keyed, InLine, Sized, EntryPlaced, SegOf;
    var d := s.bases[1] - s.bases[0];
    assert t.records[i] == s.records[d + i] && EntryLaid(s, d + i);
    SegOfDrop(s.bases, s.base + (d + i));
    SegOfFirst(s.bases, s.base + (d + i));
    if Placed(s) {
      ShortenedPlace(s, t, i);
    }
  }

  lemma ShortenedPlace(s: Store, t: Store, i: nat)
    requires Placed(s) && Shortened(s, t) && i < |t.records| && t.active in t.files
             && t.records[i].segBase != s.bases[0]
    requires s.active != s.bases[0] && s.base == s.bases[0]
    ensures EntryPlaced(t, i)
  {
    var d := s.bases[1] - s.bases[0];
    assert EntryPlaced(s, d + i) && t.records[i] == s.records[d + i];
  }

  /** A frame has been written behind the others. */
  ghost predicate Lengthened(s: Store, t: Store, f: Frame) {
    && t == s.(files := t.files, buffer := t.buffer, cursor := t.cursor, synced := t.synced,
               forced := t.forced, writePos := s.writePos + |f|, hist := s.hist + [f],
               records := s.records + [OffsetPos(|s.hist|, s.active, s.writePos, |f|)])
    && s.active in t.files && t.files == s.files[s.active := t.files[s.active]]
    && s.cursor <= t.cursor <= |t.files[s.active]| && t.cursor + |t.buffer| == t.writePos
  }

  lemma LaidAppend(c: Config, s: Store, t: Store, f: Frame)
    requires Laid(c, s) && Lengthened(s, t, f) && |s.hist| - s.checkpoint < c.capacity
    requires c.maxSegmentSize > 0 ==> s.writePos == 0 || s.writePos + |f| <= c.maxSegmentSize
    ensures Laid(c, t)
    ensures Placed(s) && Stream(t) == Stream(s) + f ==> Placed(t)
  {
    forall i: nat | i < |t.records|
      ensures EntryLaid(t, i) && (Placed(s) && Stream(t) == Stream(s) + f ==> EntryPlaced(t, i))
    {
      EntryLengthened(c, s, t, f, i);
    }
    InLineGrows(c, s, t.records[|s.records|]);
    hide EntryLaid, EntryPlaced, Chain, InLine;
  }

  lemma EntryLengthened(c: Config, s: Store, t: Store, f: Frame, i: nat)
    requires Laid(c, s) && Lengthened(s, t, f) && i < |t.records|
    ensures EntryLaid(t, i)
    ensures Placed(s) && Stream(t) == Stream(s) + f ==> EntryPlaced(t, i)
  {
    hide InLine, Sized, EntryPlaced, Stream;
    if i < |s.records| {
      assert EntryLaid(s, i);
    } else {
      SegOfActive(s.bases, |s.hist|);
    }
    if Placed(s) && Stream(t) == Stream(s) + f {
      LengthenedPlace(s, t, f, i);
    }
  }

  lemma LengthenedPlace(s: Store, t: Store, f: Frame, i: nat)
    requires Placed(s) && Lengthened(s, t, f) && i < |t.records| && s.cursor + |s.buffer| == s.writePos
    requires s.base + |s.records| == |s.hist| && Stream(t) == Stream(s) + f
    ensures EntryPlaced(t, i)
  {
    assert |Stream(s)| == s.writePos;
    if i < |s.records| {
      assert EntryPlaced(s, i) && t.records[i] == s.records[i];
    }
  }

  lemma InLineGrows(c: Config, s: Store, e: OffsetPos)
    requires Laid(c, s) && e.pos == s.writePos
    ensures InLine(s.records + [e], s.active)
  {
    hide Keyed, Sized;
    var more := s.records + [e];
    forall i, j | 0 <= i < j < |more| && more[i].segBase == s.active == more[j].segBase
      ensures End(more[i]) <= more[j].pos
    {
      assert EntryLaid(s, i);
    }
  }

  /** A batch has been handed out from a flushed log. */
  lemma LaidHanded(c: Config, s: Store, t: Store)
    requires Laid(c, s) && s.buffer == [] && s.handed <= t.handed <= |s.hist| && t == s.(handed := t.handed)
    ensures Laid(c, t)
    ensures Placed(s) ==> Placed(t)
  {
    forall i: nat | i < |t.records| ensures EntryLaid(t, i) {
      assert EntryLaid(s, i);
    }
    if Placed(s) {
      forall i: nat | i < |t.records| ensures EntryPlaced(t, i) {
        assert EntryPlaced(s, i);
      }
    }
  }

  /** The checkpoint has moved forward. */
  lemma LaidCommit(c: Config, s: Store, t: Store)
    requires Laid(c, s) && s.checkpoint < t.checkpoint
    requires t == s.(checkpoint := t.checkpoint, saved := t.saved, orderly := t.orderly)
    requires t.orderly ==> s.orderly && t.checkpoint <= s.handed
    ensures Laid(c, t)
    ensures Placed(s) ==> Placed(t)
  {
    forall i: nat | i < |t.records| ensures EntryLaid(t, i) {
      assert EntryLaid(s, i);
    }
    if Placed(s) {
      forall i: nat | i < |t.records| ensures EntryPlaced(t, i) {
        assert EntryPlaced(s, i);
      }
    }
  }

  // ----- Undoing a failed append.

  /**
   * The index entries that a rollback to `target` bytes keeps: it drops entries of the active segment from the end
   * while they reach beyond `target`.
   */
  ghost predicate KeptBy(s: Store, target: nat, keep: nat) {
    && keep <= |s.records|
    && (keep > 0 && s.records[keep - 1].segBase == s.active ==> End(s.records[keep - 1]) <= target)
    && forall i :: keep <= i < |s.records| ==> s.records[i].segBase == s.active && End(s.records[i]) > target
  }

  /** Where a rollback cuts: back to the start of the failed record, or to the end of the file if that is nearer. */
  ghost function CutAt(s: Store, file: seq<byte>): nat {
    if |file| < s.writePos then |file| else s.writePos
  }

  /** The first `flushed` bytes of the file are what was written; an entry kept beyond them never reached the file. */
  ghost predicate Unflushed(s: Store, keep: nat, flushed: nat) {
    exists i: nat :: i < keep && i < |s.records| && s.records[i].segBase == s.active && End(s.records[i]) > flushed
  }

  /** What is left of a file that was to be cut to `n` bytes: those, or all of it if it could not be cut. */
  ghost predicate Remains(file: seq<byte>, n: nat, left: seq<byte>) {
    n <= |file| && (left == file[..n] || left == file)
  }

  /** The engine after a rollback that keeps `keep` entries and leaves `left` of the file. */
  ghost predicate Cut(s: Store, t: Store, file: seq<byte>, keep: nat, left: seq<byte>) {
    && KeptBy(s, CutAt(s, file), keep) && s.base + keep <= |s.hist| && Remains(file, CutAt(s, file), left)
    && t == s.(files := s.files[s.active := left], buffer := [], cursor := CutAt(s, file),
               writePos := CutAt(s, file), records := s.records[..keep], hist := s.hist[..s.base + keep])
  }

  /**
   * A rollback from any state keeps exactly the entries of sealed segments and those that lie wholly inside the cut
   * file, among them every record that ReadBatch handed out, and all of them if the earlier bytes had reached the
   * file.
   */
  lemma CutKeeps(c: Config, s: Store, file: seq<byte>, keep: nat)
    requires Laid(c, s) && KeptBy(s, CutAt(s, file), keep) && s.cursor <= |file|
    ensures s.handed <= s.base + keep && s.active <= s.base + keep <= |s.hist|
    ensures forall i: nat {:trigger s.records[i]} :: i < |s.records| ==>
              (i < keep <==> s.records[i].segBase != s.active || End(s.records[i]) <= CutAt(s, file))
    ensures s.writePos <= |file| ==> keep == |s.records|
  {
    hide Keyed, Sized;
    LastIsGreatest(s.bases);
    if keep < |s.records| {
      assert EntryLaid(s, keep);
      SegOfActive(s.bases, s.base + keep);
    }
    if keep > 0 {
      assert EntryLaid(s, keep - 1);
      SegOfActive(s.bases, s.base + (keep - 1));
    }
    forall i: nat | i < keep && s.records[i].segBase == s.active ensures End(s.records[i]) <= CutAt(s, file) {
      assert EntryLaid(s, i);
      SegOfActive(s.bases, s.base + i);
      assert i < keep - 1 ==> End(s.records[i]) <= s.records[keep - 1].pos;
    }
  }

  lemma LaidCut(c: Config, s: Store, t: Store, file: seq<byte>, keep: nat, left: seq<byte>)
    requires Laid(c, s) && Cut(s, t, file, keep, left) && s.cursor <= |file|
    ensures Laid(c, t)
  {
    CutKeeps(c, s, file, keep);
    forall i: nat | i < |t.records| ensures EntryLaid(t, i) {
      assert EntryLaid(s, i) && t.records[i] == s.records[i];
    }
    hide EntryLaid, KeptBy;
  }

  /** The entries kept still name their frames if all of them had reached the file. */
  lemma PlacedCut(c: Config, s: Store, t: Store, file: seq<byte>, keep: nat, left: seq<byte>, flushed: nat,
                  data: seq<byte>)
    requires Laid(c, s) && Placed(s) && Cut(s, t, file, keep, left) && s.cursor <= flushed <= |file|
    requires file[..flushed] <= Stream(s) + data && !Unflushed(s, keep, flushed)
    ensures Placed(t)
  {
    CutKeeps(c, s, file, keep);
    assert left[..CutAt(s, file)] == file[..CutAt(s, file)];
    forall i: nat | i < |t.records| ensures EntryPlaced(t, i) {
      assert EntryPlaced(s, i) && EntryLaid(s, i) && t.records[i] == s.records[i];
      var e := s.records[i];
      if e.segBase == s.active {
        assert End(e) <= flushed && End(e) <= CutAt(s, file);
        SamePlace(file, Stream(s), data, flushed, CutAt(s, file), e.pos, End(e));
      }
    }
  }

  /** Entry `i` reaches beyond what was written to its file, into bytes that the file held before. */
  ghost predicate Overhangs(s: Store, i: nat) {
    && i < |s.records| && s.active in s.files
    && s.records[i].segBase == s.active && s.cursor < End(s.records[i]) <= |s.files[s.active]|
  }

  /** A failed append may leave an entry in the index that never reached the file. */
  ghost predicate AtRisk(s: Store) {
    exists i: nat :: Overhangs(s, i)
  }

  lemma OnlyAtRisk(c: Config, s: Store, file: seq<byte>, flushed: nat, keep: nat)
    requires Laid(c, s) && KeptBy(s, CutAt(s, file), keep) && s.active in s.files
    requires s.cursor <= flushed <= |file| && |file| == Max(|s.files[s.active]|, flushed)
    ensures Unflushed(s, keep, flushed) ==> AtRisk(s)
  {
    CutKeeps(c, s, file, keep);
    if Unflushed(s, keep, flushed) {
      var i: nat :| i < keep && i < |s.records| && s.records[i].segBase == s.active && End(s.records[i]) > flushed;
      assert Overhangs(s, i);
    }
  }

  /** A write that fails at once has this effect exactly when an entry overhangs. */
  lemma GarblesExactly(c: Config, s: Store, keep: nat)
    requires Laid(c, s) && s.active in s.files && KeptBy(s, CutAt(s, s.files[s.active]), keep)
    ensures Unflushed(s, keep, s.cursor) <==> AtRisk(s)
  {
    LaidShape(c, s);
    OnlyAtRisk(c, s, s.files[s.active], s.cursor, keep);
    CutKeeps(c, s, s.files[s.active], keep);
    if AtRisk(s) {
      var i: nat :| Overhangs(s, i);
      assert EntryLaid(s, i);
    }
  }

  lemma SamePlace(file: seq<byte>, stream: seq<byte>, data: seq<byte>, flushed: nat, cut: nat, lo: nat, hi: nat)
    requires lo <= hi <= flushed <= |file| && hi <= cut <= |file| && hi <= |stream| && file[..flushed] <= stream + data
    ensures file[..cut][lo..hi] == stream[lo..hi]
  {
    forall i | lo <= i < hi ensures file[i] == stream[i] {
      assert file[i] == file[..flushed][i] == (stream + data)[i];
    }
  }

  // ----- Reading and pruning.

  /** In a flushed log an entry that is placed names the bytes of its frame in its file. */
  lemma PlacedReads(c: Config, s: Store, i: nat)
    requires Laid(c, s) && s.buffer == [] && i < |s.records|
    ensures s.base + i < |s.hist| && s.records[i].offset == s.base + i
    ensures var e := s.records[i]; e.segBase in s.files && End(e) <= |s.files[e.segBase]|
    ensures Placed(s) ==> var e := s.records[i]; s.files[e.segBase][e.pos..End(e)] == s.hist[s.base + i]
  {
    assert EntryLaid(s, i);
    var e := s.records[i];
    if Placed(s) {
      assert EntryPlaced(s, i);
      if e.segBase == s.active {
        assert Stream(s) == s.files[s.active][..s.cursor];
        assert s.files[s.active][..s.cursor][e.pos..End(e)] == s.files[s.active][e.pos..End(e)];
      }
    }
  }

  /** What the index says about the oldest segment. */
  lemma FirstSegment(c: Config, s: Store)
    requires Laid(c, s) && s.records != []
    ensures s.records[0].segBase == s.active <==> |s.bases| == 1
    ensures |s.bases| >= 2 ==>
      var d := s.bases[1] - s.bases[0];
      && 1 <= d <= |s.records| && s.records[0].segBase == s.bases[0]
      && (forall i :: 0 <= i < |s.records| ==> (s.records[i].segBase == s.bases[0] <==> i < d))
      && s.records[d - 1].offset == s.bases[1] - 1
      && (if d < |s.records| then s.records[d].offset else s.active) == s.bases[1]
  {
    hide InLine, Sized, Keyed;
    assert EntryLaid(s, 0);
    SegOfActive(s.bases, s.bases[0]);
    if |s.bases| >= 2 {
      assert s.bases[1] <= Last(s.bases);
      forall i: nat | i < |s.records|
        ensures s.records[i].segBase == s.bases[0] <==> i < s.bases[1] - s.bases[0]
        ensures s.records[i].offset == s.base + i
      {
        assert EntryLaid(s, i);
        SegOfFirst(s.bases, s.bases[0] + i);
      }
    }
  }

  lemma {:induction false} BasesSpread(bases: seq<nat>, i: nat)
    requires Chain(bases) && 1 <= i < |bases|
    ensures bases[i] >= bases[1] + (i - 1)
  {
    if i > 1 {
      BasesSpread(bases, i - 1);
    }
  }

  /** After pruning there is at most one segment more than there are uncommitted records. */
  lemma FewSegments(bases: seq<nat>, checkpoint: nat, end: nat)
    requires Chain(bases) && Last(bases) <= end && (|bases| == 1 || bases[1] > checkpoint)
    ensures |bases| <= Max(0, end - checkpoint) + 1
  {
    if |bases| > 1 {
      BasesSpread(bases, |bases| - 1);
    }
  }
}
