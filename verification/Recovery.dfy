/** What recovery makes of a directory: the frames it reads, the index it builds, and the log they stand for. */
module Recovery {
  import opened Bytes
  import opened Records
  import opened Frames
  import opened Wal
  import opened Crashes
  import opened IndexState
  import opened EngineState

  /** The index of one recovered segment. */
  ghost function IndexOf(fs: seq<Frame>, b: nat): (r: seq<OffsetPos>)
    ensures |r| == |fs|
  {
    seq(|fs|, i requires 0 <= i < |fs| => OffsetPos(b + i, b, |Concat(fs[..i])|, |fs[i]|))
  }

  lemma IndexOfSnoc(fs: seq<Frame>, b: nat, f: Frame)
    ensures IndexOf(fs + [f], b) == IndexOf(fs, b) + [OffsetPos(b + |fs|, b, |Concat(fs)|, |f|)]
  {
    forall i | 0 <= i < |fs| ensures (fs + [f])[..i] == fs[..i] {
    }
    assert (fs + [f])[..|fs|] == fs;
  }

  function IdOf(f: Frame): uint64 {
    if |f| >= HEADER_SIZE then ClaimedId(f) else 0
  }

  /** The highest identifier among the frames, or `m` if that is higher. */
  function MaxId(fs: seq<Frame>, m: uint64): uint64 {
    if fs == [] then m
    else
      var n := MaxId(fs[..|fs| - 1], m);
      var id := IdOf(fs[|fs| - 1]);
      if id > n then id else n
  }

  lemma {:induction false} MaxIdSpec(fs: seq<Frame>, m: uint64)
    ensures MaxId(fs, m) >= m && forall i :: 0 <= i < |fs| ==> IdOf(fs[i]) <= MaxId(fs, m)
    ensures MaxId(fs, m) == m || exists i :: 0 <= i < |fs| && IdOf(fs[i]) == MaxId(fs, m)
  {
    hide IdOf;
    if fs != [] {
      var n := |fs| - 1;
      MaxIdSpec(fs[..n], m);
      forall i | 0 <= i < |fs| ensures IdOf(fs[i]) <= MaxId(fs, m) {
        if i < n {
          assert fs[i] == fs[..n][i];
        }
      }
      if MaxId(fs, m) != m {
        if MaxId(fs, m) == IdOf(fs[n]) {
        } else {
          var i :| 0 <= i < n && IdOf(fs[..n][i]) == MaxId(fs[..n], m);
          assert fs[i] == fs[..n][i];
        }
      }
    }
  }

  lemma MaxIdSnoc(fs: seq<Frame>, m: uint64, f: Frame)
    ensures MaxId(fs + [f], m) == if IdOf(f) > MaxId(fs, m) then IdOf(f) else MaxId(fs, m)
  {
    assert (fs + [f])[..|fs|] == fs;
  }

  lemma {:induction false} MaxIdAppend(fs: seq<Frame>, gs: seq<Frame>, m: uint64)
    ensures MaxId(fs + gs, m) == MaxId(gs, MaxId(fs, m))
  {
    if gs == [] {
      assert fs + gs == fs;
    } else {
      var n := |gs| - 1;
      assert fs + gs == (fs + gs[..n]) + [gs[n]];
      MaxIdSnoc(fs + gs[..n], m, gs[n]);
      MaxIdAppend(fs, gs[..n], m);
    }
  }

  /** The frames of all the segments, in order. */
  ghost function Flatten(dir: map<nat, seq<byte>>, bases: seq<nat>): seq<Frame>
    requires forall b :: b in bases ==> b in dir
  {
    if bases == [] then [] else Flatten(dir, bases[..|bases| - 1]) + Parse(dir[bases[|bases| - 1]])
  }

  ghost function IndexAll(dir: map<nat, seq<byte>>, bases: seq<nat>): seq<OffsetPos>
    requires forall b :: b in bases ==> b in dir
  {
    if bases == [] then []
    else IndexAll(dir, bases[..|bases| - 1]) + IndexOf(Parse(dir[bases[|bases| - 1]]), bases[|bases| - 1])
  }

  /** Every segment but the last is read back with exactly as many records as its successor's name says. */
  ghost predicate Contiguous(dir: map<nat, seq<byte>>, bases: seq<nat>) {
    forall i: nat :: i + 1 < |bases| ==> ReadsTo(dir, bases, i)
  }

  ghost predicate ReadsTo(dir: map<nat, seq<byte>>, bases: seq<nat>, i: nat) {
    i + 1 < |bases| && bases[i] in dir && bases[i] + |Parse(dir[bases[i]])| == bases[i + 1]
  }

  /** The directory after every segment has been truncated to its valid frames. */
  ghost function Trimmed(dir: map<nat, seq<byte>>): (files: map<nat, seq<byte>>)
    ensures files.Keys == dir.Keys
  {
    map b | b in dir :: Concat(Parse(dir[b]))
  }

  ghost function Trim(dir: map<nat, seq<byte>>, bases: seq<nat>): map<nat, seq<byte>> {
    map b | b in bases && b in dir :: Concat(Parse(dir[b]))
  }

  /** The recovered segments `bases` make a log: segment files, index and frames agree. */
  ghost predicate MakesLog(dir: map<nat, seq<byte>>, bases: seq<nat>, hist: seq<Frame>)
    requires forall b :: b in bases ==> b in dir
  {
    && Sealed(bases, Trim(dir, bases), hist)
    && hist[Last(bases)..] == Parse(dir[Last(bases)])
    && Indexed(bases, IndexAll(dir, bases), hist)
  }

  lemma LogEnd(dir: map<nat, seq<byte>>, bases: seq<nat>, hist: seq<Frame>)
    requires forall b :: b in bases ==> b in dir
    ensures MakesLog(dir, bases, hist) ==> Chain(bases) && |hist| == Last(bases) + |Parse(dir[Last(bases)])|
  {
  }

  /** One more segment, named by the end of the log so far. */
  lemma IndexedSegment(bases: seq<nat>, records: seq<OffsetPos>, hist: seq<Frame>, fs: seq<Frame>)
    requires Chain(bases) && Indexed(bases, records, hist) && Last(bases) == |hist|
    ensures Indexed(bases, records + IndexOf(fs, |hist|), hist + fs)
  {
    var all, more := records + IndexOf(fs, |hist|), hist + fs;
    forall i | 0 <= i < |all| ensures all[i] == Entry(bases, more, bases[0] + i) {
      if i < |records| {
        OldEntry(bases, hist, fs, bases[0] + i);
      } else {
        NewEntry(bases, hist, fs, bases[0] + i);
      }
    }
  }

  lemma OldEntry(bases: seq<nat>, hist: seq<Frame>, fs: seq<Frame>, o: nat)
    requires Chain(bases) && bases[0] <= o < |hist|
    ensures Entry(bases, hist, o) == Entry(bases, hist + fs, o)
  {
    assert hist[..o + 1] == (hist + fs)[..o + 1];
    EntrySame(bases, hist, hist + fs, o);
  }

  lemma NewEntry(bases: seq<nat>, hist: seq<Frame>, fs: seq<Frame>, o: nat)
    requires Chain(bases) && Last(bases) == |hist| <= o < |hist| + |fs| && bases[0] <= o
    ensures IndexOf(fs, |hist|)[o - |hist|] == Entry(bases, hist + fs, o)
  {
    SegOfActive(bases, o);
    BehindSlice(hist, fs, o);
  }

  lemma BehindSlice(hist: seq<Frame>, fs: seq<Frame>, o: nat)
    requires |hist| <= o <= |hist| + |fs|
    ensures (hist + fs)[|hist|..o] == fs[..o - |hist|]
  {
    var a, b := (hist + fs)[|hist|..o], fs[..o - |hist|];
    assert |a| == |b|;
    forall i | 0 <= i < |a| ensures a[i] == b[i] {
    }
  }

  lemma {:induction false} ContiguousMakesLog(dir: map<nat, seq<byte>>, all: seq<nat>, bases: seq<nat>,
                                              pruned: seq<Frame>)
    requires Chain(all) && Keyed(dir, all) && Contiguous(dir, all) && |pruned| == all[0]
    requires 1 <= |bases| <= |all| && bases == all[..|bases|]
    ensures forall b :: b in bases ==> b in dir
    ensures MakesLog(dir, bases, pruned + Flatten(dir, bases))
    decreases |bases|
  {
    hide MakesLog;
    var n := |bases| - 1;
    assert forall b :: b in bases ==> b in all;
    if n == 0 {
      FirstMakesLog(dir, bases, pruned);
    } else {
      ContiguousMakesLog(dir, all, bases[..n], pruned);
      assert ReadsTo(dir, all, n - 1);
      assert Last(bases[..n]) == all[n - 1] && Last(bases) == all[n] && bases == bases[..n] + [all[n]];
      LogEnd(dir, bases[..n], pruned + Flatten(dir, bases[..n]));
      NextMakesLog(dir, bases[..n], all[n], pruned + Flatten(dir, bases[..n]));
      assert pruned + Flatten(dir, bases) == pruned + Flatten(dir, bases[..n]) + Parse(dir[all[n]]);
    }
  }

  lemma FirstMakesLog(dir: map<nat, seq<byte>>, bases: seq<nat>, pruned: seq<Frame>)
    requires |bases| == 1 && bases[0] in dir && |pruned| == bases[0]
    ensures MakesLog(dir, bases, pruned + Flatten(dir, bases))
  {
    var b := bases[0];
    var fs := Parse(dir[b]);
    FirstParts(dir, bases);
    assert bases == [b];
    assert Indexed(bases, [], pruned);
    IndexedSegment(bases, [], pruned, fs);
    assert [] + IndexOf(fs, b) == IndexOf(fs, b);
  }

  lemma FirstParts(dir: map<nat, seq<byte>>, bases: seq<nat>)
    requires |bases| == 1 && bases[0] in dir
    ensures Flatten(dir, bases) == Parse(dir[bases[0]])
    ensures IndexAll(dir, bases) == IndexOf(Parse(dir[bases[0]]), bases[0])
  {
    hide Parse, IndexOf;
    assert bases[..0] == [];
    assert Flatten(dir, []) == [] && IndexAll(dir, []) == [];
    var fs, es := Parse(dir[bases[0]]), IndexOf(Parse(dir[bases[0]]), bases[0]);
    assert [] + fs == fs && [] + es == es;
  }

  lemma NextMakesLog(dir: map<nat, seq<byte>>, bases: seq<nat>, b: nat, hist: seq<Frame>)
    requires Chain(bases) && (forall x :: x in bases ==> x in dir) && b in dir
    requires MakesLog(dir, bases, hist) && b == |hist| > Last(bases)
    ensures forall x :: x in bases + [b] ==> x in dir
    ensures MakesLog(dir, bases + [b], hist + Parse(dir[b]))
  {
    var cs, fs := bases + [b], Parse(dir[b]);
    var files, more := Trim(dir, bases), Trim(dir, cs);
    assert cs[..|bases|] == bases;
    SealedRotate(bases, files, hist);
    assert (hist + fs)[..|hist|] == hist[..|hist|];
    assert forall x :: x in bases ==> x != b by {
      forall i | 0 <= i < |bases| ensures bases[i] <= Last(bases) {
      }
    }
    SealedSame(cs, files[b := []], more, hist, hist + fs, |hist|);
    assert (hist + fs)[b..] == fs;
    IndexedRotate(bases, IndexAll(dir, bases), hist);
    IndexedSegment(cs, IndexAll(dir, bases), hist, fs);
  }

  lemma {:induction false} IndexLength(dir: map<nat, seq<byte>>, bases: seq<nat>)
    requires forall b :: b in bases ==> b in dir
    ensures |IndexAll(dir, bases)| == |Flatten(dir, bases)|
  {
    if bases != [] {
      IndexLength(dir, bases[..|bases| - 1]);
    }
  }

  lemma OneMoment(m: Moment)
    ensures TailSafe(m) ==> Journey([m])
    ensures CheckpointSafe(m) ==> StrongJourney([m])
  {
  }

  /** The engine as recovery leaves it, when what was on the medium before is still there. */
  ghost predicate Restarted(dir: map<nat, seq<byte>>, kept: map<nat, nat>, pruned: seq<Frame>, t: Store) {
    && Chain(t.bases) && Keyed(dir, t.bases) && Contiguous(dir, t.bases) && |pruned| == t.bases[0]
    && t.hist == pruned + Flatten(dir, t.bases) && t.records == IndexAll(dir, t.bases)
    && t.files == Trimmed(dir) && Measured(dir, kept) && t.synced == Clipped(kept, t.files) && t.buffer == []
    && t.active == Last(t.bases) && t.base == t.bases[0] && t.active in t.files && t.active in t.synced
    && t.cursor == t.writePos == |t.files[t.active]|
    && t.checkpoint <= t.saved && t.handed == Max(t.checkpoint, t.base) && t.checkpoint <= |t.hist|
    && t.backlog == |t.hist| - t.checkpoint && t.inherited == |t.hist|
    && (t.rooted ==> t.base <= t.checkpoint) && (t.forced ==> t.synced[t.active] == |t.files[t.active]|)
  }

  /** `kept` bytes of each file are on the medium: all of every one but the last. */
  ghost predicate Measured(dir: map<nat, seq<byte>>, kept: map<nat, nat>) {
    && kept.Keys == dir.Keys && (forall b :: b in dir ==> kept[b] <= |dir[b]|)
    && forall b, c :: b in dir && c in dir && b < c ==> kept[b] == |dir[b]|
  }

  lemma RecoveredOk(c: Config, dir: map<nat, seq<byte>>, kept: map<nat, nat>, pruned: seq<Frame>, t: Store)
    requires Restarted(dir, kept, pruned, t)
    ensures Sane(c, t, false, false)
    ensures forall o :: t.bases[0] <= o < |t.hist| ==> Whole(t.hist[o])
  {
    RecoveredLive(dir, kept, pruned, t);
    RecoveredForced(dir, kept, t);
    hide Contiguous, Parse, Concat, FramesIn, IndexAll, Flatten, Whole, Live, Forced, Trimmed, Clipped, Measured;
    assert Reach(t.bases, t.hist, |t.files[t.active]|) >= t.handed;
    LiveIsSane(c, t);
  }

  lemma RecoveredLive(dir: map<nat, seq<byte>>, kept: map<nat, nat>, pruned: seq<Frame>, t: Store)
    requires Restarted(dir, kept, pruned, t)
    ensures Live(t) && Last(t.bases) <= |t.hist| && Reach(t.bases, t.hist, |t.files[t.active]|) == |t.hist|
    ensures forall o :: t.bases[0] <= o < |t.hist| ==> Whole(t.hist[o])
  {
    hide Contiguous, Parse, Concat, FramesIn, IndexAll, Flatten, Whole, Clipped, Measured;
    assert t.bases == t.bases[..|t.bases|];
    ContiguousMakesLog(dir, t.bases, t.bases, pruned);
    assert Trim(dir, t.bases) == t.files;
    FlattenWhole(dir, t.bases);
    assert t.files[t.active] + [] == t.files[t.active];
    ReachAll(t.bases, t.hist);
    WholeIsNonEmpty(Flatten(dir, t.bases));
  }

  lemma RecoveredForced(dir: map<nat, seq<byte>>, kept: map<nat, nat>, t: Store)
    requires Chain(t.bases) && Keyed(dir, t.bases) && t.files == Trimmed(dir) && Measured(dir, kept)
    requires t.synced == Clipped(kept, t.files)
    ensures Forced(t.bases, t.files, t.synced)
  {
    hide Parse, Concat;
    forall b | b in dir ensures |t.files[b]| <= |dir[b]| {
      ParseIsAPrefix(dir[b]);
    }
    forall i | 0 <= i < |t.bases| - 1 ensures t.synced[t.bases[i]] == |t.files[t.bases[i]]| {
      assert t.bases[i] in dir && Last(t.bases) in dir && t.bases[i] < Last(t.bases);
    }
  }

  /** The index of a clean, flushed log. */
  lemma LiveIsSane(c: Config, t: Store)
    requires EngineOk(c, t) && t.buffer == [] && t.handed <= |t.hist|
    requires |t.hist| - t.checkpoint <= Max(c.capacity, t.backlog) && t.inherited == |t.hist|
    requires (t.orderly ==> Max(t.checkpoint, t.base) <= t.handed) && (t.rooted ==> t.base <= t.checkpoint)
    ensures Sane(c, t, false, false)
  {
    Shape(c, t);
    forall i: nat | i < |t.records| ensures EntryLaid(t, i) && EntryPlaced(t, i) && t.records[i].offset < t.inherited {
      LiveEntry(c, t, i);
    }
    forall i, j | 0 <= i < j < |t.records| && t.records[i].segBase == t.active == t.records[j].segBase
      ensures End(t.records[i]) <= t.records[j].pos
    {
      LiveInLine(c, t, i, j);
    }
    hide EntryLaid, EntryPlaced, EngineOk, Chain;
    assert Keyed(t.files, t.bases) by {
      LiveParts(t);
    }
  }

  lemma LiveEntry(c: Config, t: Store, i: nat)
    requires EngineOk(c, t) && t.buffer == [] && i < |t.records|
    ensures EntryLaid(t, i) && EntryPlaced(t, i) && t.records[i].offset == t.base + i < |t.hist|
  {
    Shape(c, t);
    EntryReads(t, t.base + i);
    WholeStream(t);
    assert t.files[t.active] + [] == t.files[t.active];
  }

  lemma LiveInLine(c: Config, t: Store, i: nat, j: nat)
    requires EngineOk(c, t) && i < j < |t.records| && t.records[i].segBase == t.active == t.records[j].segBase
    ensures End(t.records[i]) <= t.records[j].pos
  {
    ActiveEntry(c, t, i);
    ActiveEntry(c, t, j);
    var a, m, n := t.active, t.base + i + 1, t.base + j;
    assert t.hist[a..n] == t.hist[a..m] + t.hist[m..n];
    ConcatAppend(t.hist[a..m], t.hist[m..n]);
  }

  /** The recovered disk survives crashes, unless the checkpoint file names a place before the oldest segment. */
  lemma RecoveredSafe(c: Config, t: Store)
    requires EngineOk(c, t) && t.buffer == []
    requires forall o :: t.bases[0] <= o < |t.hist| ==> Whole(t.hist[o])
    ensures TailSafe(DiskOf(t, t.hist)) <==> t.base <= t.saved
    ensures t.active in t.synced && t.active in t.files
    ensures t.base <= t.saved && t.synced[t.active] == |t.files[t.active]| ==> Durable(DiskOf(t, t.hist)) == |t.hist|
  {
    Shape(c, t);
    FlushedReach(c, t);
    hide Live, Concat, Whole, Reach;
    assert Live(t);
    LiveParts(t);
  }

  lemma LiveParts(t: Store)
    requires Live(t)
    ensures Sealed(t.bases, t.files, t.hist)
  {
  }

  lemma WholeIsNonEmpty(fs: seq<Frame>)
    requires AllWhole(fs)
    ensures NonEmpty(fs, 0)
  {
  }

  lemma {:induction false} FlattenWhole(dir: map<nat, seq<byte>>, bases: seq<nat>)
    requires forall b :: b in bases ==> b in dir
    ensures AllWhole(Flatten(dir, bases))
  {
    if bases != [] {
      FlattenWhole(dir, bases[..|bases| - 1]);
      ParseIsAPrefix(dir[bases[|bases| - 1]]);
    }
  }

  // ----- After a crash.

  lemma {:induction false} CrashFlatten(m: Moment, dir: map<nat, seq<byte>>, k: nat)
    requires TailSafe(m) && Crash(m, dir) && k < |m.bases|
    ensures forall b :: b in m.bases[..k] ==> b in dir
    ensures m.bases[0] <= m.bases[k] <= |m.hist|
    ensures m.hist[..m.bases[0]] + Flatten(dir, m.bases[..k]) == m.hist[..m.bases[k]]
    decreases k
  {
    hide TailSafe, Crash, Parse, Chain;
    CrashShape(m, dir);
    var bs := m.bases[..k];
    if k > 0 {
      CrashFlatten(m, dir, k - 1);
      CrashSegment(m, dir, k - 1);
      assert bs[..k - 1] == m.bases[..k - 1] && bs[k - 1] == m.bases[k - 1];
      JoinSlices(m.hist, Flatten(dir, m.bases[..k - 1]), m.bases[0], m.bases[k - 1], m.bases[k]);
    } else {
      assert bs == [];
    }
  }

  lemma JoinSlices(hist: seq<Frame>, fs: seq<Frame>, lo: nat, mid: nat, hi: nat)
    requires lo <= mid <= hi <= |hist| && hist[..lo] + fs == hist[..mid]
    ensures hist[..lo] + (fs + hist[mid..hi]) == hist[..hi]
  {
    assert hist[..lo] + (fs + hist[mid..hi]) == hist[..mid] + hist[mid..hi];
  }

  lemma CrashShape(m: Moment, dir: map<nat, seq<byte>>)
    requires TailSafe(m) && Crash(m, dir)
    ensures Chain(m.bases) && Keyed(dir, m.bases)
    ensures forall i :: 0 <= i < |m.bases| ==> m.bases[0] <= m.bases[i] <= |m.hist|
  {
    forall i | 0 <= i < |m.bases| ensures m.bases[0] <= m.bases[i] <= |m.hist| {
      assert m.bases[i] <= Last(m.bases);
    }
  }

  lemma CrashSegment(m: Moment, dir: map<nat, seq<byte>>, i: nat)
    requires TailSafe(m) && Crash(m, dir) && i + 1 < |m.bases|
    ensures m.bases[i] in dir && m.bases[i] <= m.bases[i + 1] <= |m.hist|
    ensures Parse(dir[m.bases[i]]) == m.hist[m.bases[i]..m.bases[i + 1]]
    ensures dir[m.bases[i]] == Concat(Parse(dir[m.bases[i]]))
  {
    CrashRecovery(m, dir);
    assert SealedAt(m.bases, dir, m.hist, i);
  }

  lemma CrashEnd(m: Moment, dir: map<nat, seq<byte>>) returns (n: nat)
    requires TailSafe(m) && Crash(m, dir)
    ensures |m.bases| >= 1 && Last(m.bases) in dir && Last(m.bases) <= n <= |m.hist| && Durable(m) <= n
    ensures n == Reach(m.bases, m.hist, |dir[Last(m.bases)]|)
    ensures Parse(dir[Last(m.bases)]) == m.hist[Last(m.bases)..n]
  {
    CrashRecovery(m, dir);
    n := Reach(m.bases, m.hist, |dir[Last(m.bases)]|);
  }

  lemma CrashContiguous(m: Moment, dir: map<nat, seq<byte>>)
    requires TailSafe(m) && Crash(m, dir)
    ensures Contiguous(dir, m.bases)
  {
    hide TailSafe, Crash, Parse, Concat;
    forall i: nat | i + 1 < |m.bases| ensures ReadsTo(dir, m.bases, i) {
      CrashSegment(m, dir, i);
    }
  }

  lemma CrashTrimmed(m: Moment, dir: map<nat, seq<byte>>, n: nat)
    requires TailSafe(m) && Crash(m, dir) && Chain(m.bases) && Keyed(dir, m.bases)
    requires Last(m.bases) <= n <= |m.hist| && Parse(dir[Last(m.bases)]) == m.hist[Last(m.bases)..n]
    ensures Trimmed(dir) == dir[Last(m.bases) := Concat(m.hist[Last(m.bases)..n])]
  {
    hide TailSafe, Crash, Parse, Concat;
    forall b | b in dir && b != Last(m.bases) ensures Concat(Parse(dir[b])) == dir[b] {
      var i :| 0 <= i < |m.bases| && m.bases[i] == b;
      CrashSegment(m, dir, i);
    }
  }

  /** After a crash the directory still makes one log: the log before it, cut to `n` records. */
  lemma CrashMakesLog(m: Moment, dir: map<nat, seq<byte>>) returns (n: nat)
    requires TailSafe(m) && Crash(m, dir)
    ensures Chain(m.bases) && Keyed(dir, m.bases) && Contiguous(dir, m.bases)
    ensures m.bases[0] <= Last(m.bases) <= n <= |m.hist| && Durable(m) <= n
    ensures n == Reach(m.bases, m.hist, |dir[Last(m.bases)]|)
    ensures m.hist[..m.bases[0]] + Flatten(dir, m.bases) == m.hist[..n]
    ensures Trimmed(dir) == dir[Last(m.bases) := Concat(m.hist[Last(m.bases)..n])]
  {
    hide TailSafe, Crash, Reach, Parse, Concat, Contiguous;
    CrashShape(m, dir);
    var t, k := Last(m.bases), |m.bases| - 1;
    n := CrashEnd(m, dir);
    CrashContiguous(m, dir);
    CrashTrimmed(m, dir, n);
    CrashFlatten(m, dir, k);
    assert m.bases[..k] + [t] == m.bases;
    JoinSlices(m.hist, Flatten(dir, m.bases[..k]), m.bases[0], t, n);
  }

  /** Sorted without repetition, the same bases in the same order. */
  lemma {:induction false} SortedUnique(a: seq<nat>, b: seq<nat>)
    requires forall i, j :: 0 <= i < j < |a| ==> a[i] < a[j]
    requires forall i, j :: 0 <= i < j < |b| ==> b[i] < b[j]
    requires forall x :: x in a <==> x in b
    ensures a == b
    decreases |a|
  {
    assert |a| > 0 ==> a[0] in b;
    assert |b| > 0 ==> b[0] in a;
    if a != [] {
      var m, n := |a| - 1, |b| - 1;
      assert a[m] in b && b[n] in a;
      assert a[m] == b[n];
      forall x ensures x in a[..m] <==> x in b[..n] {
        if x in a[..m] {
          assert x in a && x != a[m];
          assert x in b;
        }
        if x in b[..n] {
          assert x in b && x != b[n];
          assert x in a;
        }
      }
      SortedUnique(a[..m], b[..n]);
      assert a == a[..m] + [a[m]] && b == b[..n] + [b[n]];
    }
  }

  /** The stop, and then recovery, as steps of the disk. */
  lemma ResumeSteps(a: Moment, dir: map<nat, seq<byte>>, kept: map<nat, nat>, m: Moment, b: Moment, n: nat)
    requires TailSafe(a) && Stops(a, dir, kept)
    requires |a.bases| >= 1 && Last(a.bases) in dir && Last(a.bases) <= n <= |a.hist|
    requires n == Reach(a.bases, a.hist, |dir[Last(a.bases)]|) && m == a.(files := dir, synced := kept)
    requires b == a.(files := dir[Last(a.bases) := Concat(a.hist[Last(a.bases)..n])],
                     synced := Clipped(kept, b.files), hist := a.hist[..n])
    ensures Keeps(a, m) && Keeps(m, b) && m.saved == a.saved == b.saved
    ensures CheckpointSafe(m) ==> CheckpointSafe(b) && b.saved <= |b.hist|
  {
    StopStep(a, m);
    hide Stops, Reach, Sealed, Crash;
    RecoverStep(m, b);
  }

  /** ... and of the run. */
  lemma ResumeRun(before: seq<Moment>, dir: map<nat, seq<byte>>, kept: map<nat, nat>, m: Moment, b: Moment, n: nat)
    requires before != [] && Journey(before)
    requires TailSafe(before[|before| - 1]) && Stops(before[|before| - 1], dir, kept)
    requires var a := before[|before| - 1];
      && |a.bases| >= 1 && Last(a.bases) in dir && Last(a.bases) <= n <= |a.hist|
      && n == Reach(a.bases, a.hist, |dir[Last(a.bases)]|)
      && m == a.(files := dir, synced := kept)
      && b == a.(files := dir[Last(a.bases) := Concat(a.hist[Last(a.bases)..n])], synced := Clipped(kept, b.files),
                 hist := a.hist[..n])
    ensures Journey(before + [m, b]) && TailSafe(b)
    ensures StrongJourney(before) ==> StrongJourney(before + [m, b]) && CheckpointSafe(b) && b.saved <= |b.hist|
  {
    hide TailSafe, Keeps, Stops, Reach, Journey, StrongJourney, Concat, Clipped;
    var a := before[|before| - 1];
    ResumeSteps(a, dir, kept, m, b, n);
    JourneyStep(before, m);
    JourneyStep(before + [m], b);
    assert before + [m] + [b] == before + [m, b];
    ArrivedIsSafe(before + [m], m);
    ArrivedIsSafe(before + [m, b], b);
  }
}
