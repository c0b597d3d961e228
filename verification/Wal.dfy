/**
 * The shape of a segmented log.  A log is a sequence of frames numbered from offset 0;
 * segment files hold consecutive runs of them and are named by the offset of their first frame.
 */
module Wal {
  import opened Bytes
  import opened Frames

  datatype SyncPolicy = SyncEveryRecord | SyncBatchCommit | SyncInterval

  datatype OffsetPos = OffsetPos(offset: nat, segBase: nat, pos: nat, length: nat)

  /** Segment bases in increasing order; the last segment is the active one. */
  ghost predicate Chain(bases: seq<nat>) {
    |bases| >= 1 && forall i, j :: 0 <= i < j < |bases| ==> bases[i] < bases[j]
  }

  function Last(bases: seq<nat>): nat
    requires |bases| >= 1
  {
    bases[|bases| - 1]
  }

  ghost predicate Keyed<T>(m: map<nat, T>, bases: seq<nat>) {
    forall b :: b in m <==> b in bases
  }

  /** The base of the segment that holds offset `o`: the greatest base not above it. */
  function SegOf(bases: seq<nat>, o: nat): (b: nat)
    requires |bases| >= 1
    ensures b in bases
  {
    if |bases| == 1 || Last(bases) <= o then Last(bases) else SegOf(bases[..|bases| - 1], o)
  }

  /** The index entry of offset `o`. */
  ghost function Entry(bases: seq<nat>, hist: seq<Frame>, o: nat): OffsetPos
    requires |bases| >= 1 && o < |hist|
  {
    var b := SegOf(bases, o);
    OffsetPos(o, b, if b <= o then |Concat(hist[b..o])| else 0, |hist[o]|)
  }

  // ----- The running engine.

  datatype Config = Config(capacity: int, policy: SyncPolicy, maxSegmentSize: int)

  /**
   * The storage engine's directory and fields, with the frames `hist` that it stands for (arbitrary below `bases[0]`,
   * where they are pruned), and what has happened since it was opened: no offset at or above `handed` was handed out,
   * `orderly` commits named handed-out offsets only, and it was opened with `backlog` uncommitted records, `inherited`
   * records in all, and, when `rooted`, with no committed offset missing below the oldest segment.  When `forced`,
   * nothing written under SyncEveryRecord waits to be forced to the medium.
   */
  datatype Store = Store(
    bases: seq<nat>, files: map<nat, seq<byte>>, synced: map<nat, nat>, saved: nat,
    buffer: seq<byte>, cursor: nat, writePos: nat, checkpoint: nat, active: nat, base: nat,
    records: seq<OffsetPos>, hist: seq<Frame>,
    handed: nat, orderly: bool, backlog: nat, inherited: nat, rooted: bool, forced: bool)

  /** Segment number `i`, which is not the active one, holds exactly its frames. */
  ghost predicate SealedAt(bases: seq<nat>, files: map<nat, seq<byte>>, hist: seq<Frame>, i: nat) {
    && i + 1 < |bases| && bases[i] in files && bases[i] <= bases[i + 1] <= |hist|
    && files[bases[i]] == Concat(hist[bases[i]..bases[i + 1]])
  }

  /** Sealed segments hold exactly their frames; `hist` reaches the active segment. */
  ghost predicate Sealed(bases: seq<nat>, files: map<nat, seq<byte>>, hist: seq<Frame>) {
    && Chain(bases) && Keyed(files, bases) && Last(bases) <= |hist|
    && forall i: nat :: i < |bases| - 1 ==> SealedAt(bases, files, hist, i)
  }

  ghost predicate Indexed(bases: seq<nat>, records: seq<OffsetPos>, hist: seq<Frame>)
    requires |bases| >= 1
  {
    && bases[0] + |records| == |hist|
    && forall i :: 0 <= i < |records| ==> records[i] == Entry(bases, hist, bases[0] + i)
  }

  ghost predicate NonEmpty(fs: seq<Frame>, from: nat) {
    forall o :: from <= o < |fs| ==> |fs[o]| > 0
  }

  ghost predicate Live(s: Store) {
    && Sealed(s.bases, s.files, s.hist)
    && s.files[Last(s.bases)] + s.buffer == Concat(s.hist[Last(s.bases)..])
    && s.writePos == |Concat(s.hist[Last(s.bases)..])|
    && Indexed(s.bases, s.records, s.hist)
    && NonEmpty(s.hist, s.bases[0])
  }

  /** `synced` counts bytes of each file that are on the medium: all of a sealed one, a part of the active one. */
  ghost predicate Forced(bases: seq<nat>, files: map<nat, seq<byte>>, synced: map<nat, nat>) {
    && |bases| >= 1 && Keyed(synced, bases) && Keyed(files, bases)
    && (forall i :: 0 <= i < |bases| - 1 ==> synced[bases[i]] == |files[bases[i]]|)
    && synced[Last(bases)] <= |files[Last(bases)]|
  }

  lemma ForcedGrow(bases: seq<nat>, files: map<nat, seq<byte>>, synced: map<nat, nat>, f: seq<byte>)
    requires Chain(bases) && Forced(bases, files, synced) && |f| >= synced[Last(bases)]
    ensures Forced(bases, files[Last(bases) := f], synced)
    ensures Forced(bases, files[Last(bases) := f], synced[Last(bases) := |f|])
  {
  }

  lemma ForcedRotate(bases: seq<nat>, files: map<nat, seq<byte>>, synced: map<nat, nat>, b: nat)
    requires Chain(bases) && Forced(bases, files, synced) && synced[Last(bases)] == |files[Last(bases)]|
    requires b > Last(bases)
    ensures Forced(bases + [b], files[b := []], synced[b := 0])
  {
    var cs, fs, ns := bases + [b], files[b := []], synced[b := 0];
    forall i | 0 <= i < |cs| - 1 ensures ns[cs[i]] == |fs[cs[i]]| {
      assert cs[i] == bases[i] && bases[i] <= Last(bases) && bases[i] in bases;
    }
  }

  lemma ForcedDrop(bases: seq<nat>, files: map<nat, seq<byte>>, synced: map<nat, nat>)
    requires Chain(bases) && Forced(bases, files, synced) && |bases| >= 2
    ensures Forced(bases[1..], files - {bases[0]}, synced - {bases[0]})
  {
    KeyedDrop(files, bases);
    KeyedDrop(synced, bases);
    var cs := bases[1..];
    forall i | 0 <= i < |cs| ensures cs[i] != bases[0] && cs[i] == bases[i + 1] && cs[i] in bases {
    }
  }

  lemma {:induction false} SegOfSpec(bases: seq<nat>, o: nat)
    requires Chain(bases) && bases[0] <= o
    ensures SegOf(bases, o) <= o
    ensures forall b :: b in bases && b <= o ==> b <= SegOf(bases, o)
  {
    var n := |bases| - 1;
    if n > 0 && Last(bases) > o {
      SegOfSpec(bases[..n], o);
      forall b | b in bases && b <= o ensures b in bases[..n] {
        var i :| 0 <= i < |bases| && bases[i] == b;
        assert bases[..n][i] == b;
      }
    }
  }

  /** Dropping the oldest segment leaves every later offset where it was. */
  lemma {:induction false} SegOfDrop(bases: seq<nat>, o: nat)
    requires Chain(bases) && |bases| >= 2 && bases[1] <= o
    ensures SegOf(bases[1..], o) == SegOf(bases, o)
  {
    var n := |bases| - 1;
    if Last(bases) > o {
      assert bases[..n][1] <= o;
      SegOfDrop(bases[..n], o);
      assert bases[1..][..n - 1] == bases[..n][1..];
      assert Last(bases[1..]) == Last(bases);
    }
  }

  /** Adding a segment leaves every offset below it where it was. */
  lemma SegOfGrow(bases: seq<nat>, b: nat, o: nat)
    requires Chain(bases) && o < b
    ensures SegOf(bases + [b], o) == SegOf(bases, o)
  {
    assert (bases + [b])[..|bases|] == bases;
  }

  lemma SegOfFirst(bases: seq<nat>, o: nat)
    requires Chain(bases) && |bases| >= 2 && bases[0] <= o
    ensures SegOf(bases, o) == bases[0] <==> o < bases[1]
  {
    SegOfSpec(bases, o);
    if SegOf(bases, o) != bases[0] {
      var i :| 0 <= i < |bases| && bases[i] == SegOf(bases, o);
      assert bases[1] <= bases[i];
    }
  }

  lemma SegOfActive(bases: seq<nat>, o: nat)
    requires Chain(bases) && bases[0] <= o
    ensures SegOf(bases, o) == Last(bases) <==> Last(bases) <= o
  {
    SegOfSpec(bases, o);
  }

  /** The place of the segment that holds `o`: the next one starts above it. */
  lemma SegOfNeighbour(bases: seq<nat>, o: nat) returns (i: nat)
    requires Chain(bases) && bases[0] <= o
    ensures i < |bases| && bases[i] == SegOf(bases, o) <= o
    ensures i + 1 < |bases| ==> o < bases[i + 1]
  {
    SegOfSpec(bases, o);
    i :| 0 <= i < |bases| && bases[i] == SegOf(bases, o);
    assert i + 1 < |bases| ==> bases[i + 1] in bases && bases[i] < bases[i + 1];
  }

  /** An entry depends only on the log up to and including its own frame. */
  lemma EntrySame(bases: seq<nat>, hist: seq<Frame>, more: seq<Frame>, o: nat)
    requires Chain(bases) && bases[0] <= o < |hist| && o < |more| && hist[..o + 1] == more[..o + 1]
    ensures Entry(bases, hist, o) == Entry(bases, more, o)
  {
    SegOfSpec(bases, o);
    var b := SegOf(bases, o);
    assert hist[b..o] == hist[..o + 1][b..o] == more[..o + 1][b..o] == more[b..o];
    assert hist[o] == hist[..o + 1][o] == more[..o + 1][o] == more[o];
  }

  /** A sealed segment depends only on the log below the next base. */
  lemma SealedSame(bases: seq<nat>, files: map<nat, seq<byte>>, others: map<nat, seq<byte>>,
                   hist: seq<Frame>, more: seq<Frame>, n: nat)
    requires Sealed(bases, files, hist) && Keyed(others, bases)
    requires Last(bases) <= n <= |hist| && n <= |more| && hist[..n] == more[..n]
    requires forall b :: b in bases && b != Last(bases) ==> others[b] == files[b]
    ensures Sealed(bases, others, more)
  {
    forall i: nat | i < |bases| - 1 ensures SealedAt(bases, others, more, i) {
      assert SealedAt(bases, files, hist, i);
      assert bases[i] in bases && bases[i] < Last(bases) && bases[i + 1] <= Last(bases);
      SameSlice(hist, more, n, bases[i], bases[i + 1]);
    }
  }

  lemma SameSlice(hist: seq<Frame>, more: seq<Frame>, n: nat, b: nat, c: nat)
    requires b <= c <= n <= |hist| && n <= |more| && hist[..n] == more[..n]
    ensures hist[b..c] == more[b..c]
  {
    assert hist[b..c] == hist[..n][b..c];
    assert more[b..c] == more[..n][b..c];
  }

  lemma SliceAt(fs: seq<Frame>, lo: nat, o: nat, hi: nat)
    requires lo <= o < hi <= |fs|
    ensures var at := |Concat(fs[lo..o])|;
            at + |fs[o]| <= |Concat(fs[lo..hi])| && Concat(fs[lo..hi])[at..at + |fs[o]|] == fs[o]
    ensures |Concat(fs[lo..o + 1])| == |Concat(fs[lo..o])| + |fs[o]|
  {
    var at := |Concat(fs[lo..o])|;
    assert fs[lo..hi] == fs[lo..o] + ([fs[o]] + fs[o + 1..hi]);
    ConcatAppend(fs[lo..o], [fs[o]] + fs[o + 1..hi]);
    ConcatAppend([fs[o]], fs[o + 1..hi]);
    ConcatOne(fs[o]);
    assert fs[lo..o + 1] == fs[lo..o] + [fs[o]];
    ConcatSnoc(fs[lo..o], fs[o]);
    assert Concat(fs[lo..hi]) == Concat(fs[lo..o]) + fs[o] + Concat(fs[o + 1..hi]);
  }

  /** An index entry points at exactly the bytes of its frame. */
  lemma EntryReads(s: Store, o: nat)
    requires Live(s) && s.buffer == [] && s.bases[0] <= o < |s.hist|
    ensures var e := Entry(s.bases, s.hist, o);
            && e.segBase in s.files && e.pos + e.length <= |s.files[e.segBase]|
            && s.files[e.segBase][e.pos..e.pos + e.length] == s.hist[o]
  {
    var i := SegOfNeighbour(s.bases, o);
    if i + 1 < |s.bases| {
      assert SealedAt(s.bases, s.files, s.hist, i);
      SliceAt(s.hist, s.bases[i], o, s.bases[i + 1]);
    } else {
      assert s.files[Last(s.bases)] + [] == s.files[Last(s.bases)];
      assert s.hist[Last(s.bases)..] == s.hist[Last(s.bases)..|s.hist|];
      SliceAt(s.hist, s.bases[i], o, |s.hist|);
    }
  }

  /** One more frame at the end of the active segment. */
  lemma LiveAppend(s: Store, t: Store, f: Frame)
    requires Live(s) && |f| > 0 && t.bases == s.bases && Keyed(t.files, t.bases)
    requires forall b :: b in s.bases && b != Last(s.bases) ==> t.files[b] == s.files[b]
    requires t.files[Last(s.bases)] + t.buffer == s.files[Last(s.bases)] + s.buffer + f
    requires t.writePos == s.writePos + |f| && t.hist == s.hist + [f]
    requires t.records == s.records + [OffsetPos(|s.hist|, Last(s.bases), s.writePos, |f|)]
    ensures Live(t)
  {
    var a := Last(s.bases);
    assert t.hist[a..] == s.hist[a..] + [f];
    ConcatSnoc(s.hist[a..], f);
    assert Indexed(t.bases, t.records, t.hist) by {
      SegOfActive(s.bases, |s.hist|);
      assert t.hist[a..|s.hist|] == s.hist[a..];
      forall i | 0 <= i < |t.records| ensures t.records[i] == Entry(t.bases, t.hist, t.bases[0] + i) {
        if i < |s.records| {
          EntrySame(s.bases, s.hist, t.hist, s.bases[0] + i);
        }
      }
    }
    assert t.hist[..|s.hist|] == s.hist[..|s.hist|];
    SealedSame(s.bases, s.files, t.files, s.hist, t.hist, |s.hist|);
  }

  /** Bytes moving from the buffer to the file. */
  lemma LiveFlush(s: Store, t: Store)
    requires Live(s) && Last(s.bases) in t.files && t.files == s.files[Last(s.bases) := t.files[Last(s.bases)]]
    requires t.bases == s.bases && t.hist == s.hist && t.records == s.records && t.writePos == s.writePos
    requires t.files[Last(s.bases)] + t.buffer == s.files[Last(s.bases)] + s.buffer
    ensures Live(t)
  {
    SealedSame(s.bases, s.files, t.files, s.hist, s.hist, |s.hist|);
  }

  /** Opening a new, empty active segment at the end of the log. */
  lemma SealedRotate(bases: seq<nat>, files: map<nat, seq<byte>>, hist: seq<Frame>)
    requires Sealed(bases, files, hist) && Last(bases) < |hist|
    requires files[Last(bases)] == Concat(hist[Last(bases)..])
    ensures Sealed(bases + [|hist|], files[|hist| := []], hist)
  {
    var cs, more := bases + [|hist|], files[|hist| := []];
    assert hist[Last(bases)..] == hist[Last(bases)..|hist|];
    forall i: nat | i < |cs| - 1 ensures SealedAt(cs, more, hist, i) {
      if i < |bases| - 1 {
        assert SealedAt(bases, files, hist, i);
        assert bases[i] < Last(bases);
      }
    }
  }

  lemma LiveRotate(s: Store, t: Store)
    requires Live(s) && s.buffer == [] && s.writePos > 0
    requires t.bases == s.bases + [|s.hist|] && t.files == s.files[|s.hist| := []] && t.buffer == [] && t.writePos == 0
    requires t.hist == s.hist && t.records == s.records
    ensures Last(s.bases) < |s.hist| && Live(t)
  {
    var a := Last(s.bases);
    assert s.hist[|s.hist|..] == [];
    assert s.files[a] + [] == s.files[a];
    SealedRotate(s.bases, s.files, s.hist);
    assert t.hist[|s.hist|..] == [];
    IndexedRotate(s.bases, s.records, s.hist);
  }

  lemma IndexedRotate(bases: seq<nat>, records: seq<OffsetPos>, hist: seq<Frame>)
    requires Chain(bases) && Indexed(bases, records, hist)
    ensures Indexed(bases + [|hist|], records, hist)
  {
    forall i | 0 <= i < |records| ensures records[i] == Entry(bases + [|hist|], hist, bases[0] + i) {
      SegOfGrow(bases, |hist|, bases[0] + i);
    }
  }

  /** Removing the oldest segment. */
  lemma SealedDrop(bases: seq<nat>, files: map<nat, seq<byte>>, hist: seq<Frame>)
    requires Sealed(bases, files, hist) && |bases| >= 2
    ensures Sealed(bases[1..], files - {bases[0]}, hist)
  {
    KeyedDrop(files, bases);
    var cs, left := bases[1..], files - {bases[0]};
    forall i: nat | i < |cs| - 1 ensures SealedAt(cs, left, hist, i) {
      assert SealedAt(bases, files, hist, i + 1);
    }
  }

  lemma KeyedDrop<T>(m: map<nat, T>, bases: seq<nat>)
    requires Chain(bases) && Keyed(m, bases)
    ensures Keyed(m - {bases[0]}, bases[1..])
  {
    forall x ensures x in bases[1..] <==> x in bases && x != bases[0] {
      if x in bases && x != bases[0] {
        var i :| 0 <= i < |bases| && bases[i] == x;
        assert bases[1..][i - 1] == x;
      }
      if x in bases[1..] {
        var i :| 0 <= i < |bases[1..]| && bases[1..][i] == x;
        assert bases[i + 1] == x;
      }
    }
  }

  lemma LiveDrop(s: Store, t: Store)
    requires Live(s) && |s.bases| >= 2
    requires t.bases == s.bases[1..] && t.files == s.files - {s.bases[0]}
    requires t.hist == s.hist && t.buffer == s.buffer && t.writePos == s.writePos
    requires s.bases[1] - s.bases[0] <= |s.records| && t.records == s.records[s.bases[1] - s.bases[0]..]
    ensures Live(t)
  {
    hide SealedAt, Concat, Entry;
    SealedDrop(s.bases, s.files, s.hist);
    assert Last(t.bases) == Last(s.bases) != s.bases[0];
    IndexedDrop(s.bases, s.records, s.hist);
  }

  lemma IndexedDrop(bases: seq<nat>, records: seq<OffsetPos>, hist: seq<Frame>)
    requires Chain(bases) && |bases| >= 2 && Indexed(bases, records, hist) && bases[1] - bases[0] <= |records|
    ensures Indexed(bases[1..], records[bases[1] - bases[0]..], hist)
  {
    hide Entry;
    var d := bases[1] - bases[0];
    forall i: nat | i < |records[d..]| ensures records[d..][i] == Entry(bases[1..], hist, bases[1] + i) {
      assert records[d..][i] == records[d + i] == Entry(bases, hist, bases[0] + (d + i));
      EntryDrop(bases, hist, bases[1] + i);
    }
  }

  lemma EntryDrop(bases: seq<nat>, hist: seq<Frame>, o: nat)
    requires Chain(bases) && |bases| >= 2 && bases[1] <= o < |hist|
    ensures Entry(bases[1..], hist, o) == Entry(bases, hist, o)
  {
    hide SegOf;
    SegOfDrop(bases, o);
  }

  /** The number of log records that lie wholly within the first `k` bytes of the active segment, and before it. */
  ghost function Reach(bases: seq<nat>, hist: seq<Frame>, k: nat): (n: nat)
    requires |bases| >= 1 && Last(bases) <= |hist|
    ensures Last(bases) <= n <= |hist|
  {
    Last(bases) + FramesIn(hist[Last(bases)..], k)
  }

  lemma ReachMonotone(bases: seq<nat>, hist: seq<Frame>, j: nat, k: nat)
    requires |bases| >= 1 && Last(bases) <= |hist| && j <= k
    ensures Reach(bases, hist, j) <= Reach(bases, hist, k)
  {
    FramesInMonotone(hist[Last(bases)..], j, k);
  }

  lemma ReachSpec(bases: seq<nat>, hist: seq<Frame>, k: nat, n: nat)
    requires |bases| >= 1 && Last(bases) <= n <= |hist| && NonEmpty(hist, Last(bases))
    ensures n <= Reach(bases, hist, k) <==> |Concat(hist[Last(bases)..n])| <= k
  {
    var a := Last(bases);
    FramesInSpec(hist[a..], k, n - a);
    assert hist[a..][..n - a] == hist[a..n];
  }

  lemma ReachAll(bases: seq<nat>, hist: seq<Frame>)
    requires |bases| >= 1 && Last(bases) <= |hist|
    ensures Reach(bases, hist, |Concat(hist[Last(bases)..])|) == |hist|
  {
    FramesInAll(hist[Last(bases)..]);
  }

  /** Bytes that end within a prefix of the log count the same in the whole log. */
  lemma ReachPrefix(bases: seq<nat>, hist: seq<Frame>, n: nat, k: nat)
    requires |bases| >= 1 && Last(bases) <= n <= |hist| && NonEmpty(hist, Last(bases))
    requires k <= |Concat(hist[Last(bases)..n])|
    ensures Reach(bases, hist[..n], k) == Reach(bases, hist, k)
  {
    var a := Last(bases);
    assert hist[a..] == hist[a..n] + hist[n..];
    assert hist[..n][a..] == hist[a..n];
    FramesInExtend(hist[a..n], hist[n..], k);
  }

  /** Cutting the active segment back to the end of one of its frames. */
  lemma LiveCut(s: Store, t: Store, n: nat)
    requires Live(s) && Last(s.bases) <= n <= |s.hist|
    requires t.bases == s.bases && t.hist == s.hist[..n] && t.records == s.records[..n - s.bases[0]]
    requires Keyed(t.files, t.bases)
    requires forall b :: b in s.bases && b != Last(s.bases) ==> t.files[b] == s.files[b]
    requires t.files[Last(s.bases)] == Concat(s.hist[Last(s.bases)..n]) && t.buffer == []
    requires t.writePos == |t.files[Last(s.bases)]|
    ensures Live(t)
  {
    var a := Last(s.bases);
    assert t.hist[a..] == s.hist[a..n];
    forall o | s.bases[0] <= o < n ensures Entry(s.bases, t.hist, o) == Entry(s.bases, s.hist, o) {
      EntrySame(s.bases, s.hist, t.hist, o);
    }
    SealedSame(s.bases, s.files, t.files, s.hist, t.hist, n);
  }
}
