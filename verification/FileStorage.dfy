/**
 * FileStorageEngine of storage_file.go, over a directory whose files are byte sequences.  Every call on the operating
 * system may fail unless the environment is `reliable`; a failing write may still have written any part of its bytes.
 */
module FileStorage {
  import opened Bytes
  import opened Results
  import opened Records
  import opened Frames
  import opened Wal
  import opened Crashes
  import opened IndexState
  import opened EngineState
  import opened Recovery
  import opened Spool

  datatype Options = Options(bufferSize: nat, policy: SyncPolicy, maxSegmentSize: int)

  /** A file after `p` has been written at `at`. */
  function Overwrite(file: seq<byte>, at: nat, p: seq<byte>): seq<byte>
    requires at <= |file|
  {
    file[..at] + p + if at + |p| < |file| then file[at + |p|..] else []
  }

  /** A file `f` with the next write at `c` has become `g` with the next write at `d`. */
  ghost predicate Grows(f: seq<byte>, c: nat, g: seq<byte>, d: nat) {
    c <= |f| && c <= d <= |g| && |g| == Max(|f|, d) && f[..c] <= g[..d] && (c == |f| ==> f <= g)
  }

  lemma GrowsSelf(f: seq<byte>, c: nat)
    ensures c <= |f| ==> Grows(f, c, f, c)
  {
  }

  lemma GrowsOn(f: seq<byte>, c: nat, g: seq<byte>, d: nat, h: seq<byte>, e: nat)
    requires Grows(f, c, g, d) && Grows(g, d, h, e)
    ensures Grows(f, c, h, e)
  {
    assert f[..c] <= g[..d] <= h[..e];
  }

  lemma OverwriteGrows(file: seq<byte>, at: nat, p: seq<byte>)
    requires at <= |file|
    ensures Grows(file, at, Overwrite(file, at, p), at + |p|)
    ensures Overwrite(file, at, p)[..at + |p|] == file[..at] + p
    ensures at == |file| ==> Overwrite(file, at, p) == file + p
  {
  }

  /** What a write did not take is still to come. */
  lemma Taken(done: seq<byte>, p: seq<byte>, n: nat)
    requires n <= |p|
    ensures done + p[..n] + p[n..] == done + p
    ensures done + p[..n] + [] + p[n..] == done + [] + p
    ensures done + p[..n] <= done + p
  {
  }

  lemma Regroup(a: seq<byte>, b: seq<byte>, c: seq<byte>)
    ensures a + (b + c) == a + b + c
  {
  }

  /** Filling the buffer with the front of `p` leaves the same bytes in the same order. */
  lemma FillBuffer(done: seq<byte>, buffer: seq<byte>, p: seq<byte>, n: nat)
    requires n <= |p|
    ensures done + (buffer + p[..n]) + p[n..] == done + buffer + p
    ensures done + (buffer + p[..n]) <= done + (buffer + p)
  {
    assert buffer + p == buffer + p[..n] + p[n..];
  }

  /** The first `k` segments are gone, each of them sealed and wholly below the checkpoint. */
  ghost predicate PrunedSome(was: seq<nat>, bases: seq<nat>, checkpoint: nat, k: nat) {
    && k < |was| && bases == was[k..]
    && forall i :: 0 < i <= k ==> was[i] <= checkpoint
  }

  lemma PrunedNone(was: seq<nat>, checkpoint: nat)
    ensures was != [] ==> PrunedSome(was, was, checkpoint, 0)
  {
  }

  lemma PrunedStep(was: seq<nat>, b: seq<nat>, c: seq<nat>, checkpoint: nat, k: nat)
    requires PrunedSome(was, b, checkpoint, k) && |b| >= 2 && b[1] <= checkpoint && c == b[1..]
    ensures PrunedSome(was, c, checkpoint, k + 1)
  {
  }

  /** ... and the oldest one left either is the active one or still holds an uncommitted record. */
  ghost predicate Pruned(was: seq<nat>, bases: seq<nat>, checkpoint: nat, k: nat) {
    PrunedSome(was, bases, checkpoint, k) && (|bases| == 1 || (|bases| >= 2 && bases[1] > checkpoint))
  }

  /** What one Append may do to the log. */
  ghost predicate AppendOutcome(was: seq<Frame>, hist: seq<Frame>, checkpoint: nat, capacity: int, reliable: bool,
                                rec: Record, r: Result<nat>) {
    if |was| - checkpoint >= capacity then r == Err(SpoolFull) && hist == was
    else if |rec.topic| > MAX_TOPIC then r == Err(PreconditionViolated) && hist == was
    else if r.Ok? then r.value == |was| && hist == was + [Encode(rec)]
    else !reliable && r == Err(StorageUnavailable) && hist <= was
  }

  lemma OutcomeFacts(was: seq<Frame>, hist: seq<Frame>, checkpoint: nat, capacity: int, reliable: bool, rec: Record,
                     r: Result<nat>)
    requires AppendOutcome(was, hist, checkpoint, capacity, reliable, rec, r)
    ensures if r.Ok? then hist == was + [Encode(rec)] else hist <= was && (reliable ==> hist == was)
    ensures reliable && |was| - checkpoint < capacity && |rec.topic| <= MAX_TOPIC ==> r.Ok?
    ensures r.Err? ==>
              || (r.error == SpoolFull && |was| - checkpoint >= capacity && hist == was)
              || (r.error == PreconditionViolated && |rec.topic| > MAX_TOPIC)
              || (!reliable && r.error == StorageUnavailable)
  {
    hide Encode;
  }

  lemma PrunedAlready(bases: seq<nat>, checkpoint: nat)
    requires |bases| == 1
    ensures Pruned(bases, bases, checkpoint, 0)
  {
  }

  /** No frame of the live log has an identifier above `m`. */
  ghost predicate Named(hist: seq<Frame>, base: nat, m: uint64) {
    forall o :: base <= o < |hist| ==> IdOf(hist[o]) <= m
  }

  lemma NamedPrefix(hist: seq<Frame>, base: nat, m: uint64, n: nat)
    requires Named(hist, base, m) && n <= |hist|
    ensures Named(hist[..n], base, m)
  {
  }

  lemma NamedSnoc(hist: seq<Frame>, base: nat, m: uint64, f: Frame)
    requires Named(hist, base, m)
    ensures Named(hist + [f], base, if IdOf(f) > m then IdOf(f) else m)
  {
    hide IdOf;
  }

  lemma NamedFound(pruned: seq<Frame>, fs: seq<Frame>)
    ensures Named(pruned + fs, |pruned|, MaxId(fs, 0))
  {
    MaxIdSpec(fs, 0);
  }

  /** A frame carries the identifier of its record. */
  lemma EncodedId(rec: Record)
    ensures IdOf(Encode(rec)) == rec.id
  {
    assert Encode(rec) + [] == Encode(rec);
    EncodeLayout(rec, []);
    Radices();
    FieldRoundTrip(rec.id, 8);
  }

  /** One frame further in recovery. */
  lemma RecoverFrame(file: seq<byte>, at: nat, fs: seq<Frame>)
    requires at < |file| && HeadAccepted(file[at..]) && Concat(fs) == file[..at]
    requires Parse(file) == fs + Parse(file[at..])
    ensures var f := file[at..][..ClaimedLength(file[at..])];
      && at + |f| <= |file| && |f| == ClaimedLength(file[at..]) && ClaimedId(file[at..]) == IdOf(f)
      && Concat(fs + [f]) == file[..at + |f|]
      && Parse(file) == fs + [f] + Parse(file[at + |f|..])
  {
    hide Parse, Concat, ClaimedId, IdOf, ClaimedLength;
    var rest := file[at..];
    HeadFrame(rest);
    var f := rest[..ClaimedLength(rest)];
    ConcatSnoc(fs, f);
    assert file[..at] + f == file[..at + |f|];
    assert rest[|f|..] == file[at + |f|..];
    assert fs + ([f] + Parse(file[at + |f|..])) == fs + [f] + Parse(file[at + |f|..]);
  }

  lemma HeadFrame(rest: seq<byte>)
    requires HeadAccepted(rest)
    ensures var f := rest[..ClaimedLength(rest)];
      |f| == ClaimedLength(rest) && ClaimedId(rest) == IdOf(f) && Parse(rest) == [f] + Parse(rest[|f|..])
  {
    var f := rest[..ClaimedLength(rest)];
    assert f[7..15] == rest[7..15];
  }

  /** The first `i` segments have been recovered, the others are as they were in `dir`, with `kept` on the medium. */
  ghost predicate RecoveredSome(dir: map<nat, seq<byte>>, kept: map<nat, nat>, bs: seq<nat>, i: nat,
                                files: map<nat, seq<byte>>, synced: map<nat, nat>) {
    && Keyed(files, bs) && Keyed(synced, bs) && Keyed(dir, bs) && Keyed(kept, bs)
    && forall j :: 0 <= j < |bs| ==>
         if j < i then files[bs[j]] == Concat(Parse(dir[bs[j]])) && synced[bs[j]] == Min(kept[bs[j]], |files[bs[j]]|)
         else files[bs[j]] == dir[bs[j]] && synced[bs[j]] == kept[bs[j]]
  }

  lemma RecoveredNone(bs: seq<nat>, files: map<nat, seq<byte>>, synced: map<nat, nat>)
    requires Keyed(files, bs) && Keyed(synced, bs)
    ensures RecoveredSome(files, synced, bs, 0, files, synced)
  {
  }

  lemma RecoveredNext(dir: map<nat, seq<byte>>, kept: map<nat, nat>, bs: seq<nat>, i: nat,
                      files: map<nat, seq<byte>>, synced: map<nat, nat>)
    requires Chain(bs) && i < |bs| && RecoveredSome(dir, kept, bs, i, files, synced)
    ensures bs[i] in files && bs[i] in synced && bs[i] in dir && files[bs[i]] == dir[bs[i]]
    ensures var f := Concat(Parse(files[bs[i]]));
      RecoveredSome(dir, kept, bs, i + 1, files[bs[i] := f], synced[bs[i] := Min(synced[bs[i]], |f|)])
  {
    hide Concat, Parse;
  }

  lemma RecoveredAll(dir: map<nat, seq<byte>>, kept: map<nat, nat>, bs: seq<nat>,
                     files: map<nat, seq<byte>>, synced: map<nat, nat>)
    requires RecoveredSome(dir, kept, bs, |bs|, files, synced)
    ensures files == Trimmed(dir) && synced == Clipped(kept, files)
  {
    hide Concat, Parse;
    forall b | b in dir ensures files[b] == Concat(Parse(dir[b])) && synced[b] == Min(kept[b], |files[b]|) {
      var j :| 0 <= j < |bs| && bs[j] == b;
    }
  }

  lemma {:induction false} LeastExists(s: set<nat>)
    requires s != {}
    ensures exists b :: b in s && forall x :: x in s ==> b <= x
    decreases |s|
  {
    var c :| c in s;
    if s - {c} != {} {
      LeastExists(s - {c});
      var b :| b in s - {c} && forall x :: x in s - {c} ==> b <= x;
      var d := if b < c then b else c;
      assert d in s && forall x :: x in s ==> d <= x by {
        assert forall x :: x in s ==> x == c || x in s - {c};
      }
    } else {
      assert s == {c};
    }
  }

  lemma FirstIsLast(bases: seq<nat>)
    requires Chain(bases)
    ensures bases[0] == Last(bases) <==> |bases| == 1
  {
  }

  class FileStorageEngine {
    const maxCapacity: int
    const opts: Options
    const reliable: bool

    // The directory.
    var files: map<nat, seq<byte>>      // the segment files, by base offset, as the operating system serves them
    var saved: nat                      // checkpoint.meta, 0 while it does not exist
    ghost var synced: map<nat, nat>     // how much of each file has been forced to the medium

    // The engine.
    var walOpen: bool                   // walFile and writer are not nil
    var cursor: nat                     // where the next write to walFile lands
    var buffer: seq<byte>               // the bytes in the bufio.Writer
    var stuck: bool                     // the bufio.Writer remembers a failed write
    var writePos: nat
    var checkpoint: nat
    var activeSegBase: nat
    var baseOffset: nat
    var records: seq<OffsetPos>
    var maxID: uint64
    var closed: bool
    var closeDone: bool
    var closeErr: Option<Error>

    // For the argument.
    ghost var bases: seq<nat>           // the bases of the segment files, oldest first
    ghost var hist: seq<Frame>          // the log: every frame it holds, at its offset; arbitrary below bases[0]
    ghost var known: seq<Frame>         // every frame found at start-up or appended since
    ghost var past: seq<Moment>         // the disk after every call that changed it, through all crashes
    ghost var handed: nat               // ReadBatch has handed out no offset at or above this
    ghost var backlog: nat              // the uncommitted records found at start-up
    ghost var inherited: nat            // the end of the log found at start-up
    ghost var found: seq<nat>           // the segment files found at start-up
    ghost var joined: bool              // they made one log
    ghost var rooted: bool              // no offset between checkpoint and oldest segment was missing then
    ghost var torn: bool                // a rollback has left part of a frame behind, or could not cut the file
    ghost var uncut: bool               // ... and the last one could not
    ghost var garbled: bool             // a rollback has kept an entry whose bytes never reached the file
    ghost var exposed: bool             // a frame was appended that recovery would refuse
    ghost var orderly: bool             // every commit named an offset that ReadBatch handed out
    ghost var durable: bool             // every checkpoint that was saved named records on the medium only
    ghost var forced: bool              // under SyncEveryRecord nothing is left unforced from before start-up

    ghost function Cfg(): Config
    {
      Config(maxCapacity, opts.policy, opts.maxSegmentSize)
    }

    ghost function Snap(): Store
      reads `bases, `files, `synced, `saved, `buffer, `cursor, `writePos, `checkpoint, `activeSegBase, `baseOffset
      reads `records, `hist, `handed, `orderly, `backlog, `inherited, `rooted, `forced
    {
      Store(bases, files, synced, saved, buffer, cursor, writePos, checkpoint, activeSegBase, baseOffset,
            records, hist, handed, orderly, backlog, inherited, rooted, forced)
    }

    /** The disk now, with `h` as the frames handed to the log. */
    ghost function Here(h: seq<Frame>): Moment
      reads `bases, `files, `synced, `saved
    {
      Moment(bases, files, synced, saved, h)
    }

    /** The segment file is open, and the segments found made one log: the offsets are right. */
    ghost predicate Numbered()
      reads `walOpen, `joined
    {
      walOpen && joined
    }

    /** ... and the index names the bytes of its frames. */
    ghost predicate Legible()
      reads `walOpen, `joined, `garbled
    {
      Numbered() && !garbled
    }

    /** ... and no rollback has torn the log. */
    ghost predicate Working()
      reads `walOpen, `joined, `torn
    {
      Numbered() && !torn
    }

    /** Every crash so far, and a crash now, is survived. */
    ghost predicate Sound()
      reads `joined, `torn, `exposed
    {
      joined && !torn && !exposed
    }

    /** ... and the checkpoint never promises a record that a crash could take away. */
    ghost predicate Strong()
      reads `joined, `torn, `exposed, `durable
    {
      Sound() && durable
    }

    ghost predicate FdOk()
      reads `walOpen, `activeSegBase, `files, `cursor
    {
      walOpen ==> activeSegBase in files && cursor <= |files[activeSegBase]|
    }

    ghost predicate BufOk()
      reads `buffer, `stuck
    {
      |buffer| <= opts.bufferSize && opts.bufferSize > 0 && (reliable ==> !stuck)
    }

    /** The greatest identifier is known, and no record of the log has a greater one. */
    ghost predicate IdsKnown()
      reads `maxID, `known, `joined, `hist, `baseOffset
    {
      maxID == MaxId(known, 0) && (joined ==> Named(hist, baseOffset, maxID))
    }

    ghost predicate Recorded()
      reads `joined, `torn, `exposed, `durable
      reads `past, `bases, `files, `synced, `saved, `hist, `baseOffset, `checkpoint
    {
      && (Sound() ==> Arrived(past, Here(hist)) && baseOffset <= checkpoint)
      && (Strong() ==> ArrivedStrong(past, Here(hist)) && checkpoint == saved)
    }

    ghost predicate Valid()
      reads this
    {
      && FdOk() && BufOk() && (closed || walOpen) && IdsKnown()
      && (Numbered() ==> Sane(Cfg(), Snap(), garbled, torn))
      && Recorded()
    }

    /**
     * What Valid says of an earlier state `s` of an open engine and its run, as long as the flags are what they were.
     */
    ghost predicate StoodAt(s: Store, before: seq<Moment>)
      reads `joined, `garbled, `torn, `exposed, `durable
    {
      && (joined ==> Sane(Cfg(), s, garbled, torn))
      && (Sound() ==> Arrived(before, DiskOf(s, s.hist)) && s.base <= s.checkpoint)
      && (Strong() ==> ArrivedStrong(before, DiskOf(s, s.hist)) && s.checkpoint == s.saved)
    }

    /** The fields that writing to the active segment leaves alone are what they were at `s`. */
    ghost predicate Unwritten(s: Store)
      reads `bases, `saved, `checkpoint, `activeSegBase, `baseOffset, `handed, `orderly, `backlog, `inherited, `rooted
    {
      && bases == s.bases && saved == s.saved && checkpoint == s.checkpoint && activeSegBase == s.active
      && baseOffset == s.base && handed == s.handed && orderly == s.orderly && backlog == s.backlog
      && inherited == s.inherited && rooted == s.rooted
    }

    /** An entry of the index reaches beyond what was written to the active file since it was opened. */
    ghost predicate Overhung()
      reads `bases, `files, `synced, `saved, `buffer, `cursor, `writePos, `checkpoint, `activeSegBase, `baseOffset
      reads `records, `hist, `handed, `orderly, `backlog, `inherited, `rooted, `forced
    {
      AtRisk(Snap())
    }

    lemma SnapFields(s: Store)
      requires s == Snap()
      ensures Unwritten(s) && files == s.files && synced == s.synced && buffer == s.buffer && cursor == s.cursor
      ensures writePos == s.writePos && records == s.records && hist == s.hist && forced == s.forced
      ensures Overhung() <==> AtRisk(s)
      ensures Untouched(s) && Elsewhere(s) && Unhanded(s) && Uncommitted(s)
    {
    }

    lemma Stand()
      requires Valid() && walOpen
      ensures StoodAt(Snap(), past) && FdOk() && BufOk() && IdsKnown()
      ensures activeSegBase in files && cursor <= |files[activeSegBase]|
      ensures joined ==>
        && Chain(bases) && activeSegBase == Last(bases) && baseOffset == bases[0] <= activeSegBase <= |hist|
        && cursor + |buffer| == writePos && baseOffset + |records| == |hist| && handed <= |hist|
      ensures Working() ==> activeSegBase in synced && cursor == |files[activeSegBase]|
    {
      hide Arrived, ArrivedStrong, Sane, EngineOk, IdsKnown, BufOk;
      if joined {
        SaneShape(Cfg(), Snap(), garbled, torn);
        if !torn {
          Shape(Cfg(), Snap());
        }
      }
    }

    /** A step to the present state that keeps the invariant and carries the run on makes it valid. */
    lemma Step(s: Store, before: seq<Moment>)
      requires StoodAt(s, before) && walOpen && FdOk() && BufOk() && IdsKnown()
      requires joined ==> Sane(Cfg(), Snap(), garbled, torn)
      requires Sound() ==> Follows(before, DiskOf(s, s.hist), Here(hist)) && past == before + [Here(hist)]
      requires Sound() ==> baseOffset <= checkpoint && saved == s.saved && checkpoint == s.checkpoint
      ensures Valid()
    {
      hide Arrived, ArrivedStrong, Sane, IdsKnown, BufOk;
    }

    /** Everything that makes the engine valid. */
    lemma Assembled()
      requires walOpen && FdOk() && BufOk() && IdsKnown()
      requires joined ==> Sane(Cfg(), Snap(), garbled, torn)
      requires Sound() ==> Arrived(past, Here(hist)) && baseOffset <= checkpoint
      requires Strong() ==> ArrivedStrong(past, Here(hist)) && checkpoint == saved
      ensures Valid()
    {
      hide Arrived, ArrivedStrong, Sane, IdsKnown, BufOk;
    }

    lemma Scalars()
      requires Valid()
      ensures BufOk() && FdOk() && (closed || walOpen) && IdsKnown()
    {
      hide Recorded, Sane, IdsKnown, BufOk;
    }

    // ----- The operating system.

    /** The bytes written to the active file since it was opened. */
    ghost function Head(): seq<byte>
      requires activeSegBase in files && cursor <= |files[activeSegBase]|
      reads `activeSegBase, `files, `cursor
    {
      files[activeSegBase][..cursor]
    }

    /** write(2) on the active segment. */
    method OsWrite(p: seq<byte>, ghost h: seq<Frame>) returns (n: nat, ok: bool)
      requires walOpen && FdOk()
      modifies `files, `cursor, `past
      ensures n <= |p| && (ok ==> n == |p|) && (reliable ==> ok)
      ensures FdOk() && files == old(files)[activeSegBase := files[activeSegBase]]
      ensures Grows(old(files[activeSegBase]), old(cursor), files[activeSegBase], cursor)
              && Head() == old(Head()) + p[..n]
      ensures past == old(past) + [Here(h)]
      ensures old(Arrived(past, Here(h)) && Appendable(p, h)) ==> Arrived(past, Here(h))
      ensures old(ArrivedStrong(past, Here(h)) && Appendable(p, h)) ==> ArrivedStrong(past, Here(h))
    {
      n, ok := |p|, true;
      if !reliable {
        var k: nat :| k <= |p|;
        n := k;
        ok := *;
        ok := ok && n == |p|;
      }
      ghost var before := Here(h);
      OverwriteGrows(files[activeSegBase], cursor, p[..n]);
      files := files[activeSegBase := Overwrite(files[activeSegBase], cursor, p[..n])];
      cursor := cursor + n;
      if old(Appendable(p, h)) {
        Taken(old(files[activeSegBase]), p, n);
        PastGrow(past, before, Here(h));
      }
      past := past + [Here(h)];
    }

    /** The bytes `p` continue the active file towards the frames of `h`. */
    ghost predicate Appendable(p: seq<byte>, h: seq<Frame>)
      reads `bases, `files, `synced, `cursor, `activeSegBase
    {
      && |bases| >= 1 && activeSegBase == Last(bases) <= |h| && activeSegBase in files && activeSegBase in synced
      && cursor == |files[activeSegBase]|
      && files[activeSegBase] + p <= Concat(h[activeSegBase..])
    }

    /** fsync(2) on the active segment. */
    method OsSync(ghost h: seq<Frame>) returns (ok: bool)
      requires walOpen && FdOk()
      modifies `synced, `past
      ensures reliable ==> ok
      ensures !ok ==> unchanged(`synced) && unchanged(`past)
      ensures ok ==> synced == old(synced)[activeSegBase := |files[activeSegBase]|] && past == old(past) + [Here(h)]
      ensures old(Arrived(past, Here(h)) && Appendable([], h)) ==> Arrived(past, Here(h))
      ensures old(ArrivedStrong(past, Here(h)) && Appendable([], h)) ==> ArrivedStrong(past, Here(h))
    {
      ok := true;
      if !reliable {
        ok := *;
      }
      if ok {
        ghost var before := Here(h);
        synced := synced[activeSegBase := |files[activeSegBase]|];
        if old(Appendable([], h)) {
          assert files[activeSegBase] + [] == files[activeSegBase];
          assert files == files[activeSegBase := files[activeSegBase]];
          PastGrow(past, before, Here(h));
        }
        past := past + [Here(h)];
      }
    }

    // ----- bufio.Writer.

    /** Flush: hands the buffer to the operating system, keeping what it did not take. */
    method BufFlush(ghost h: seq<Frame>) returns (ok: bool)
      requires walOpen && FdOk()
      modifies `files, `cursor, `past, `buffer, `stuck
      ensures FdOk() && |buffer| <= old(|buffer|)
      ensures reliable && !old(stuck) ==> ok
      ensures ok ==> buffer == []
      ensures ok == !stuck
      ensures files == old(files)[activeSegBase := files[activeSegBase]]
      ensures Grows(old(files[activeSegBase]), old(cursor), files[activeSegBase], cursor)
      ensures Head() + buffer == old(Head() + buffer)
      ensures old(buffer == []) ==> buffer == [] && unchanged(`files) && cursor == old(cursor) && unchanged(`past)
      ensures old(past) <= past
      ensures old(Appendable(buffer, h)) ==> Appendable(buffer, h)
      ensures old(Arrived(past, Here(h)) && Appendable(buffer, h)) ==> Arrived(past, Here(h))
      ensures old(ArrivedStrong(past, Here(h)) && Appendable(buffer, h)) ==> ArrivedStrong(past, Here(h))
    {
      hide Arrived, ArrivedStrong;
      GrowsSelf(files[activeSegBase], cursor);
      if stuck {
        return false;
      }
      if |buffer| == 0 {
        return true;
      }
      ghost var done := Head();
      var n;
      n, ok := OsWrite(buffer, h);
      Taken(done, buffer, n);
      if old(Appendable(buffer, h)) {
        WholeHead(old(files[activeSegBase]), old(cursor), files[activeSegBase], cursor);
      }
      buffer := buffer[n..];
      stuck := !ok;
    }

    static lemma WholeHead(f: seq<byte>, c: nat, g: seq<byte>, d: nat)
      requires Grows(f, c, g, d) && c == |f|
      ensures f[..c] == f && d == |g| && g[..d] == g
    {
    }

    /**
     * One round of Write's loop: a large piece goes straight through an empty buffer, else the buffer is filled and
     * flushed.
     */
    method BufRound(p: seq<byte>, ghost h: seq<Frame>) returns (rest: seq<byte>, ok: bool)
      requires walOpen && FdOk() && |buffer| <= opts.bufferSize && opts.bufferSize > 0
      requires !stuck && |p| > opts.bufferSize - |buffer|
      modifies `files, `cursor, `past, `buffer, `stuck
      ensures FdOk() && |buffer| <= opts.bufferSize && ok == !stuck && (reliable ==> ok)
      ensures |rest| < |p| || (|rest| == |p| && (ok ==> |buffer| < old(|buffer|)))
      ensures old(buffer) == [] ==> buffer == []
      ensures files == old(files)[activeSegBase := files[activeSegBase]]
      ensures Grows(old(files[activeSegBase]), old(cursor), files[activeSegBase], cursor)
      ensures Head() + buffer + rest == old(Head() + buffer) + p
      ensures old(past) <= past
      ensures old(Arrived(past, Here(h)) && Appendable(buffer + p, h)) ==> Arrived(past, Here(h))
      ensures old(ArrivedStrong(past, Here(h)) && Appendable(buffer + p, h)) ==> ArrivedStrong(past, Here(h))
    {
      hide Arrived, ArrivedStrong, Grows;
      ghost var done := Head();
      if |buffer| == 0 {
        assert buffer + p == p;
        var n;
        n, ok := OsWrite(p, h);
        Taken(done, p, n);
        stuck := !ok;
        rest := p[n..];
      } else {
        var n := opts.bufferSize - |buffer|;
        rest := p[n..];
        FillBuffer(done, buffer, p, n);
        FillBuffer(files[activeSegBase], buffer, p, n);
        buffer := buffer + p[..n];
        ok := BufFlush(h);
      }
    }

    /** Write: rounds until the rest fits the buffer. */
    method BufWrite(data: seq<byte>, ghost h: seq<Frame>) returns (ok: bool)
      requires walOpen && FdOk() && |buffer| <= opts.bufferSize && opts.bufferSize > 0
      modifies `files, `cursor, `past, `buffer, `stuck
      ensures FdOk() && |buffer| <= opts.bufferSize
      ensures ok == !stuck && (reliable && !old(stuck) ==> ok)
      ensures !old(stuck) && old(|buffer|) + |data| <= opts.bufferSize ==>
                ok && buffer == old(buffer) + data && unchanged(`files) && unchanged(`past)
      ensures files == old(files)[activeSegBase := files[activeSegBase]]
      ensures Grows(old(files[activeSegBase]), old(cursor), files[activeSegBase], cursor)
      ensures Head() <= old(Head() + buffer) + data && (ok ==> Head() + buffer == old(Head() + buffer) + data)
      ensures old(past) <= past
      ensures old(Arrived(past, Here(h)) && Appendable(buffer + data, h)) ==> Arrived(past, Here(h))
      ensures old(ArrivedStrong(past, Here(h)) && Appendable(buffer + data, h)) ==> ArrivedStrong(past, Here(h))
    {
      hide Arrived, ArrivedStrong, Grows;
      var p := data;
      ok := !stuck;
      ghost var file, at := files[activeSegBase], cursor;
      ghost var all := Head() + buffer + data;
      ghost var fits := |buffer| + |data| <= opts.bufferSize && !stuck;
      ghost var room := Appendable(buffer + data, h);
      ghost var sound := Arrived(past, Here(h)) && room;
      ghost var strong := ArrivedStrong(past, Here(h)) && room;
      GrowsSelf(file, at);
      while |p| > opts.bufferSize - |buffer| && ok
        invariant FdOk() && |buffer| <= opts.bufferSize
        invariant ok == !stuck && (reliable && !old(stuck) ==> ok)
        invariant files == old(files)[activeSegBase := files[activeSegBase]]
        invariant Grows(file, at, files[activeSegBase], cursor)
        invariant Head() + buffer + p == all
        invariant fits ==> ok && p == data && buffer == old(buffer) && unchanged(`files) && unchanged(`past)
        invariant old(past) <= past
        invariant sound ==> Arrived(past, Here(h))
        invariant strong ==> ArrivedStrong(past, Here(h))
        decreases |p|, ok, |buffer|
      {
        if room {
          StillRoom(file, at, buffer + p, all, h, old(Head()), old(buffer), data);
        }
        ghost var mid, from := files[activeSegBase], cursor;
        p, ok := BufRound(p, h);
        GrowsOn(file, at, mid, from, files[activeSegBase], cursor);
      }
      if ok {
        Regroup(Head(), buffer, p);
        buffer := buffer + p;
      }
    }

    /** Bytes that were to follow the file still do when some of them have moved to it. */
    lemma StillRoom(file: seq<byte>, at: nat, rest: seq<byte>, all: seq<byte>, h: seq<Frame>,
                    done: seq<byte>, was: seq<byte>, data: seq<byte>)
      requires walOpen && FdOk() && Grows(file, at, files[activeSegBase], cursor) && at == |file| && done == file[..at]
      requires |bases| >= 1 && activeSegBase == Last(bases) <= |h| && activeSegBase in synced
      requires all == done + was + data && file + (was + data) <= Concat(h[activeSegBase..])
      requires Head() + rest == all
      ensures Appendable(rest, h)
    {
      WholeHead(file, at, files[activeSegBase], cursor);
      Regroup(done, was, data);
    }

    // ----- Steps shared by the operations.

    /** What BufFlush asks of an engine. */
    lemma CanFlush()
      requires Valid() && walOpen
      ensures FdOk() && BufOk() && IdsKnown()
      ensures Working() ==> Appendable(buffer, hist)
      ensures Sound() ==> Arrived(past, Here(hist)) && baseOffset <= checkpoint
      ensures Strong() ==> ArrivedStrong(past, Here(hist)) && checkpoint == saved
      ensures joined ==> Sane(Cfg(), Snap(), garbled, torn)
    {
      hide Arrived, ArrivedStrong, Sane, EngineOk, IdsKnown, BufOk;
      if Working() {
        SaneShape(Cfg(), Snap(), garbled, torn);
        Shape(Cfg(), Snap());
      }
    }

    /** The buffer has moved to the file, or a part of it. */
    lemma Flushed(s: Store)
      requires walOpen && FdOk() && BufOk() && IdsKnown()
      requires joined ==> Sane(Cfg(), s, garbled, torn)
      requires s.active in s.files && s.active in files && files == s.files[s.active := files[s.active]]
      requires Grows(s.files[s.active], s.cursor, files[s.active], cursor)
      requires files[s.active][..cursor] + buffer == s.files[s.active][..s.cursor] + s.buffer
      requires Unwritten(s) && writePos == s.writePos && synced == s.synced && records == s.records && hist == s.hist
      requires forced == s.forced
      requires Sound() ==> Arrived(past, Here(hist)) && baseOffset <= checkpoint
      requires Strong() ==> ArrivedStrong(past, Here(hist)) && checkpoint == saved
      ensures Valid()
    {
      hide Arrived, ArrivedStrong, Sane, IdsKnown, BufOk;
      if joined {
        SaneFlush(Cfg(), s, Snap(), garbled, torn);
      }
    }

    /** Flushes the buffer if there is anything in it. */
    method FlushBuffer() returns (ok: bool)
      requires Valid() && walOpen
      modifies `files, `cursor, `past, `buffer, `stuck
      ensures old(past) <= past
      ensures Valid()
      ensures reliable ==> ok
      ensures ok ==> buffer == []
      ensures files == old(files)[activeSegBase := files[activeSegBase]]
      ensures old(buffer == []) ==> unchanged(`files) && unchanged(`past)
    {
      hide Arrived, ArrivedStrong, Sane, Appendable, Valid, IdsKnown;
      CanFlush();
      ok := true;
      if |buffer| > 0 {
        ghost var s := Snap();
        ok := BufFlush(hist);
        Flushed(s);
      }
    }

    /** Forces the active segment to the medium. */
    method SyncWal() returns (ok: bool)
      requires Valid() && walOpen
      modifies `synced, `past, `forced
      ensures old(past) <= past
      ensures Valid()
      ensures reliable ==> ok
      ensures ok ==> synced == old(synced)[activeSegBase := |files[activeSegBase]|] && forced
      ensures !ok ==> unchanged(`synced) && unchanged(`past) && forced == old(forced)
    {
      hide Arrived, ArrivedStrong, Sane, EngineOk, Valid, IdsKnown, Appendable;
      ghost var s := Snap();
      CanFlush();
      if Working() {
        NothingToAppend();
      }
      ok := OsSync(hist);
      forced := forced || ok;
      Synced(s, ok);
    }

    /** The active file has been forced, if that did not fail. */
    lemma Synced(s: Store, ok: bool)
      requires walOpen && FdOk() && BufOk() && IdsKnown()
      requires joined ==> Sane(Cfg(), s, garbled, torn)
      requires s.active in s.files && files == s.files && buffer == s.buffer && cursor == s.cursor
      requires synced == if ok then s.synced[s.active := |s.files[s.active]|] else s.synced
      requires Unwritten(s) && writePos == s.writePos && records == s.records && hist == s.hist
      requires forced == (s.forced || ok)
      requires Sound() ==> Arrived(past, Here(hist)) && baseOffset <= checkpoint
      requires Strong() ==> ArrivedStrong(past, Here(hist)) && checkpoint == saved
      ensures Valid()
    {
      hide Arrived, ArrivedStrong, Sane, IdsKnown, BufOk;
      if joined && ok {
        SaneSync(Cfg(), s, Snap(), garbled, torn);
      }
    }

    lemma NothingToAppend()
      requires walOpen && FdOk() && Appendable(buffer, hist)
      ensures Appendable([], hist)
    {
      assert files[activeSegBase] + [] == files[activeSegBase];
    }

    /** Flush: everything appended so far reaches the medium. */
    method Flush() returns (err: Option<Error>)
      requires Valid()
      modifies `files, `cursor, `past, `buffer, `stuck, `synced, `forced
      ensures old(past) <= past
      ensures Valid()
      ensures closed ==> err == Some(StorageUnavailable)
      ensures err != None ==> err == Some(StorageUnavailable)
      ensures reliable && !closed ==> err == None
      ensures err == None && Sound() ==> TailSafe(Here(hist)) && Durable(Here(hist)) == |hist|
      ensures old(forced) ==> forced
      ensures err == None ==> activeSegBase in files && synced == old(synced)[activeSegBase := |files[activeSegBase]|]
    {
      hide Arrived, ArrivedStrong, Sane, Valid;
      if closed {
        return Some(StorageUnavailable);
      }
      Scalars();
      var ok := FlushBuffer();
      if !ok {
        return Some(StorageUnavailable);
      }
      ok := SyncWal();
      if !ok {
        return Some(StorageUnavailable);
      }
      Scalars();
      AllForced();
      return None;
    }

    /** With an empty buffer and the active file forced to the medium, the whole log is durable. */
    lemma AllForced()
      requires Valid() && walOpen && buffer == []
      requires activeSegBase in files && activeSegBase in synced && synced[activeSegBase] == |files[activeSegBase]|
      ensures Sound() ==> TailSafe(Here(hist)) && Durable(Here(hist)) == |hist|
    {
      hide Arrived, ArrivedStrong, EngineOk;
      if Working() {
        Shape(Cfg(), Snap());
        FlushedReach(Cfg(), Snap());
        ArrivedIsSafe(past, Here(hist));
      }
    }

    /** Of a sound engine, the disk survives a crash. */
    lemma SoundIsSafe()
      requires Valid() && Sound()
      ensures TailSafe(Here(hist)) && Journey(past) && past != [] && past[|past| - 1] == Here(hist)
      ensures Strong() ==> StrongJourney(past)
    {
      hide Sane;
      ArrivedIsSafe(past, Here(hist));
    }

    /** Under SyncEveryRecord the whole log is durable exactly when nothing of the active file is left unforced. */
    lemma ForcedExactly()
      requires Valid() && walOpen && Sound() && opts.policy == SyncEveryRecord
      ensures TailSafe(Here(hist)) && activeSegBase in files && activeSegBase in synced
      ensures Durable(Here(hist)) == |hist| <==> synced[activeSegBase] == |files[activeSegBase]|
      ensures forced ==> Durable(Here(hist)) == |hist|
    {
      hide Arrived, ArrivedStrong, EngineOk, TailSafe;
      Stand();
      SoundIsSafe();
      Shape(Cfg(), Snap());
      EveryRecordForced(Cfg(), Snap());
      assert files[activeSegBase] + [] == files[activeSegBase];
      DurableInFull(Here(hist));
    }

    /** O_CREATE on a segment file. */
    method OsCreate(b: nat) returns (ok: bool)
      modifies `files, `synced, `bases, `past
      ensures reliable ==> ok
      ensures !ok ==> unchanged(`files) && unchanged(`synced) && unchanged(`bases) && unchanged(`past)
      ensures ok && b !in old(files) ==>
                files == old(files)[b := []] && synced == old(synced)[b := 0] && bases == old(bases) + [b]
      ensures ok && b in old(files) ==> unchanged(`files) && unchanged(`synced) && unchanged(`bases)
      ensures ok ==> b in files && past == old(past) + [Here(hist)]
    {
      ok := true;
      if !reliable {
        ok := *;
      }
      if ok {
        if b !in files {
          files, synced, bases := files[b := []], synced[b := 0], bases + [b];
        }
        past := past + [Here(hist)];
      }
    }

    /** Opens the next segment behind a flushed and forced one, or closes the engine if that fails. */
    method OpenSegment(nextOffset: nat) returns (ok: bool)
      requires Valid() && walOpen && !closed && buffer == []
      requires activeSegBase in synced && synced[activeSegBase] == |files[activeSegBase]|
      requires joined ==> nextOffset == |hist| && writePos > 0
      modifies `files, `synced, `bases, `past, `cursor, `stuck, `writePos, `activeSegBase, `walOpen, `closed
      ensures old(past) <= past
      ensures Valid()
      ensures reliable ==> ok
      ensures ok ==> walOpen && !closed && writePos == 0 && !stuck && activeSegBase == nextOffset
      ensures ok && joined ==>
                Turned(old(Snap()), Snap()) && forall i :: 0 <= i < |records| ==> records[i].segBase != activeSegBase
      ensures ok && Working() ==> nextOffset !in old(files)
      ensures !ok ==> closed && !walOpen
    {
      hide Valid, StoodAt, Chain, Last, Concat, IdsKnown;
      Stand();
      ghost var s, before := Snap(), past;
      ok := OsCreate(nextOffset);
      if ok {
        UseSegment(nextOffset, s, before);
      } else {
        activeSegBase, walOpen, closed := nextOffset, false, true;
        Bricked(s, before);
      }
    }

    /** The fields that opening a segment leaves alone are what they were at `s`. */
    ghost predicate Elsewhere(s: Store)
      reads `saved, `checkpoint, `baseOffset, `records, `hist, `handed, `orderly, `backlog, `inherited, `rooted, `forced
    {
      && saved == s.saved && checkpoint == s.checkpoint && baseOffset == s.base && records == s.records
      && hist == s.hist
      && handed == s.handed && orderly == s.orderly && backlog == s.backlog && inherited == s.inherited
      && rooted == s.rooted && forced == s.forced
    }

    /** The segment file `b` is there now: a new one, or the one that was there. */
    ghost predicate Entered(s: Store, b: nat)
      reads `bases, `files, `synced
    {
      && b in files
      && (b !in s.files ==> files == s.files[b := []] && synced == s.synced[b := 0] && bases == s.bases + [b])
      && (b in s.files ==> files == s.files && synced == s.synced && bases == s.bases)
    }

    /** Turns the writer to a new segment file. */
    method UseSegment(b: nat, ghost s: Store, ghost before: seq<Moment>)
      requires StoodAt(s, before) && walOpen && buffer == [] && opts.bufferSize > 0 && IdsKnown()
      requires s.active in s.files && s.active in s.synced && s.synced[s.active] == |s.files[s.active]|
      requires joined ==> b == |s.hist| && s.writePos > 0
      requires Entered(s, b) && past == before + [Here(hist)]
      requires Elsewhere(s) && buffer == s.buffer
      modifies `activeSegBase, `cursor, `stuck, `writePos
      ensures Valid() && writePos == 0 && !stuck && activeSegBase == b
      ensures joined ==> Turned(s, Snap()) && forall i :: 0 <= i < |records| ==> records[i].segBase != activeSegBase
      ensures Working() ==> b !in s.files
    {
      hide Valid, StoodAt, Chain, Last, Concat, IdsKnown, Elsewhere, Here, Turned, Snap, Entered;
      activeSegBase, cursor, stuck, writePos := b, 0, false, 0;
      Rotated(s, before, b);
    }

    lemma Rotated(s: Store, before: seq<Moment>, b: nat)
      requires StoodAt(s, before) && walOpen && buffer == [] && !stuck && opts.bufferSize > 0 && IdsKnown()
      requires s.active in s.files && s.active in s.synced && s.synced[s.active] == |s.files[s.active]|
      requires joined ==> b == |s.hist| && s.writePos > 0
      requires Entered(s, b) && past == before + [Here(hist)]
      requires Elsewhere(s) && buffer == s.buffer && activeSegBase == b && cursor == 0 && writePos == 0
      ensures Valid()
      ensures joined ==> Turned(s, Snap()) && forall i :: 0 <= i < |records| ==> records[i].segBase != activeSegBase
      ensures Working() ==> b !in s.files
    {
      hide Arrived, ArrivedStrong, EngineOk, IdsKnown, Sane;
      if joined {
        SaneRotate(Cfg(), s, Snap(), garbled, torn);
        if !torn {
          SaneShape(Cfg(), s, garbled, torn);
          Shape(Cfg(), s);
          assert s.files[s.active] + [] == s.files[s.active];
          PastRotate(before, DiskOf(s, s.hist), Here(hist));
        }
      }
      Step(s, before);
    }

    lemma Bricked(s: Store, before: seq<Moment>)
      requires StoodAt(s, before) && !walOpen && closed && past == before && BufOk() && IdsKnown()
      requires Elsewhere(s) && Here(hist) == DiskOf(s, s.hist)
      ensures Valid()
    {
      hide Arrived, ArrivedStrong, Sane, IdsKnown;
    }

    /**
     * Seals the active segment and opens the next one, named by the next offset.  If the old segment cannot be flushed
     * or forced nothing else happens; if the new one cannot be opened the engine is closed.  The file of that name
     * may be there already, left by a rollback: then no entry of the index is in it.
     */
    method RotateSegment(nextOffset: nat) returns (ok: bool)
      requires Valid() && walOpen && !closed
      requires joined ==> nextOffset == |hist| && writePos > 0
      modifies `files, `synced, `bases, `past, `cursor, `buffer, `stuck, `writePos, `activeSegBase, `walOpen, `closed
      modifies `forced
      ensures old(past) <= past
      ensures Valid()
      ensures reliable ==> ok
      ensures ok ==> walOpen && !closed && writePos == 0 && buffer == [] && !stuck && activeSegBase == nextOffset
      ensures ok && joined ==> forall i :: 0 <= i < |records| ==> records[i].segBase != activeSegBase
      ensures ok && joined ==> bases == if nextOffset in old(files) then old(bases) else old(bases) + [nextOffset]
      ensures ok && Working() ==> nextOffset !in old(files)
      ensures old(forced) ==> forced
      ensures !ok ==> closed || (walOpen && writePos == old(writePos) && activeSegBase == old(activeSegBase))
      ensures closed <==> !walOpen
    {
      hide Arrived, ArrivedStrong, Sane, Valid;
      Scalars();
      ok := FlushBuffer();
      if ok {
        ok := SyncWal();
        if ok {
          Scalars();
          ok := OpenSegment(nextOffset);
        }
      }
    }

    /** unlink(2) on the oldest segment file. */
    method OsRemove(b: nat)
      modifies `files, `synced, `bases, `past
      ensures files == old(files) - {b} && synced == old(synced) - {b}
      ensures bases == if old(bases) != [] && old(bases)[0] == b then old(bases)[1..] else old(bases)
      ensures past == old(past) + [Here(hist)]
    {
      files, synced := files - {b}, synced - {b};
      bases := if bases != [] && bases[0] == b then bases[1..] else bases;
      past := past + [Here(hist)];
    }

    /** How many index entries at the front belong to segment `b`. */
    method CountFront(b: nat) returns (n: nat)
      ensures n <= |records| && forall i :: 0 <= i < n ==> records[i].segBase == b
      ensures n < |records| ==> records[n].segBase != b
    {
      n := 0;
      while n < |records| && records[n].segBase == b
        invariant n <= |records| && forall i :: 0 <= i < n ==> records[i].segBase == b
      {
        n := n + 1;
      }
    }

    /** One round of pruning: removes the oldest segment if it is sealed and wholly below the checkpoint. */
    method PruneOne() returns (more: bool)
      requires Valid() && walOpen && records != []
      modifies `files, `synced, `bases, `past, `records, `baseOffset
      ensures old(past) <= past
      ensures Valid()
      ensures more ==> |records| < |old(records)|
      ensures joined && more ==> |old(bases)| >= 2 && old(bases)[1] <= checkpoint && bases == old(bases)[1..]
      ensures joined ==> baseOffset == old(baseOffset) || baseOffset <= checkpoint
      ensures !more ==> unchanged(`bases) && unchanged(`records) && unchanged(`files) && baseOffset == old(baseOffset)
      ensures joined && !more ==> |bases| == 1 || (|bases| >= 2 && bases[1] > checkpoint)
    {
      hide Valid;
      FrontSegment();
      var firstSegBase := records[0].segBase;
      if firstSegBase == activeSegBase {
        return false;
      }
      var segEndIdx := CountFront(firstSegBase);
      var lastRecordInSeg := records[segEndIdx - 1];
      if lastRecordInSeg.offset >= checkpoint {
        return false;
      }
      DropFront(firstSegBase, segEndIdx);
      return true;
    }

    /** The fields that pruning leaves alone are what they were at `s`. */
    ghost predicate Untouched(s: Store)
      reads `saved, `buffer, `cursor, `writePos, `checkpoint, `activeSegBase, `hist, `handed, `orderly, `backlog,
          `inherited
      reads `rooted, `forced
    {
      && saved == s.saved && buffer == s.buffer && cursor == s.cursor && writePos == s.writePos
      && checkpoint == s.checkpoint && activeSegBase == s.active && hist == s.hist && handed == s.handed
      && orderly == s.orderly && backlog == s.backlog && inherited == s.inherited && rooted == s.rooted
      && forced == s.forced
    }

    /** Removes the oldest segment `b` with its `n` index entries. */
    method DropFront(b: nat, n: nat)
      requires Valid() && walOpen && 1 <= n <= |records| && b != activeSegBase
      requires joined ==>
        && |bases| >= 2 && bases[0] == b && bases[1] <= checkpoint && n == bases[1] - bases[0]
        && (if n < |records| then records[n].offset else activeSegBase) == bases[1]
      modifies `files, `synced, `bases, `past, `records, `baseOffset
      ensures Valid() && old(past) <= past && records == old(records)[n..]
      ensures joined ==> bases == old(bases)[1..] && baseOffset == old(bases)[1]
    {
      hide Valid, StoodAt, Chain, Last, Concat, MaxId, Named, Snap, Here, DiskOf, BufOk, Untouched, Elsewhere, Unhanded;
      hide Uncommitted;
      Stand();
      ghost var s, before := Snap(), past;
      assert Untouched(s) && bases == s.bases && files == s.files && synced == s.synced && records == s.records by {
        SnapFields(s);
      }
      NamesLater(n);
      OsRemove(b);
      ForgetFront(n);
      Dropped(s, before);
    }

    /** The identifiers known are known still when the log begins later. */
    lemma NamesLater(n: nat)
      requires Valid() && walOpen && 1 <= n <= |records|
      requires joined ==> (if n < |records| then records[n].offset else activeSegBase) >= baseOffset
      ensures maxID == MaxId(known, 0)
      ensures joined ==> Named(hist, if n < |records| then records[n].offset else activeSegBase, maxID)
    {
      hide Sane, Recorded, IdOf;
    }

    method ForgetFront(n: nat)
      requires n <= |records|
      modifies `records, `baseOffset
      ensures records == old(records)[n..]
      ensures baseOffset == if n < |old(records)| then old(records)[n].offset else activeSegBase
    {
      records := records[n..];
      baseOffset := if |records| > 0 then records[0].offset else activeSegBase;
    }

    lemma FrontSegment()
      requires Valid() && walOpen && records != []
      ensures joined ==>
                |bases| >= 1 && bases[0] == baseOffset && (records[0].segBase == activeSegBase <==> |bases| == 1)
      ensures joined && |bases| >= 2 ==>
        var d := bases[1] - bases[0];
        && 1 <= d <= |records| && records[0].segBase == bases[0] && records[d - 1].offset == bases[1] - 1
        && (forall i :: 0 <= i < |records| ==> (records[i].segBase == bases[0] <==> i < d))
        && (if d < |records| then records[d].offset else activeSegBase) == bases[1]
    {
      hide Recorded, Laid, EngineOk, Placed;
      if joined {
        SaneShape(Cfg(), Snap(), garbled, torn);
        FirstSegment(Cfg(), Snap());
      }
    }

    lemma Dropped(s: Store, before: seq<Moment>)
      requires StoodAt(s, before) && walOpen && FdOk() && BufOk() && IdsKnown()
      requires past == before + [Here(hist)]
      requires Untouched(s)
      requires joined ==>
        && |s.bases| >= 2 && s.bases[1] <= checkpoint && bases == s.bases[1..]
        && files == s.files - {s.bases[0]} && synced == s.synced - {s.bases[0]}
        && 0 <= s.bases[1] - s.bases[0] <= |s.records| && records == s.records[s.bases[1] - s.bases[0]..]
        && baseOffset == s.bases[1]
      ensures Valid()
    {
      hide Arrived, ArrivedStrong, EngineOk, Sane, IdsKnown;
      if joined {
        SaneDrop(Cfg(), s, Snap(), garbled, torn);
        if !torn {
          SaneShape(Cfg(), s, garbled, torn);
          SavedCovers(Cfg(), s);
          PastRemove(before, DiskOf(s, s.hist), Here(hist));
        }
      }
      Step(s, before);
    }

    lemma HasSegments()
      requires Valid() && Numbered()
      ensures bases != [] && baseOffset == bases[0] && (records == [] ==> |bases| == 1)
    {
      hide Recorded, Laid, EngineOk, Placed;
      SaneShape(Cfg(), Snap(), garbled, torn);
      FirstIsLast(bases);
    }

    /** Removes every sealed segment that lies wholly below the checkpoint, and no other. */
    method PruneCommittedSegments() returns (ghost k: nat)
      requires Valid() && walOpen
      modifies `files, `synced, `bases, `past, `records, `baseOffset
      ensures old(past) <= past
      ensures Valid()
      ensures joined ==> Pruned(old(bases), bases, checkpoint, k)
      ensures joined ==> baseOffset == old(baseOffset) || baseOffset <= checkpoint
    {
      hide Valid, PrunedSome;
      k := 0;
      ghost var was := bases;
      if joined {
        HasSegments();
        PrunedNone(was, checkpoint);
      }
      var more := true;
      while |records| > 0 && more
        invariant Valid()
        invariant old(past) <= past
        invariant joined ==> PrunedSome(was, bases, checkpoint, k)
        invariant joined && !more ==> |bases| == 1 || (|bases| >= 2 && bases[1] > checkpoint)
        invariant joined ==> baseOffset == old(baseOffset) || baseOffset <= checkpoint
        decreases |records|, more
      {
        ghost var b := bases;
        more := PruneOne();
        if more {
          if joined {
            PrunedStep(was, b, bases, checkpoint, k);
          }
          k := k + 1;
        }
      }
      if joined && records == [] {
        HasSegments();
      }
    }

    /** Prunes a segmented log. */
    method PruneIfSegmented()
      requires Valid() && walOpen
      modifies `files, `synced, `bases, `past, `records, `baseOffset
      ensures old(past) <= past
      ensures Valid()
      ensures joined && opts.maxSegmentSize > 0 ==>
                (exists k :: Pruned(old(bases), bases, checkpoint, k)) && |bases| <= Max(0, |hist| - checkpoint) + 1
      ensures joined ==> baseOffset == old(baseOffset) || baseOffset <= checkpoint
      ensures opts.maxSegmentSize <= 0 ==> unchanged(`bases) && unchanged(`synced) && unchanged(`files)
    {
      hide Valid, PrunedSome;
      if opts.maxSegmentSize > 0 && |records| > 0 {
        ghost var k := PruneCommittedSegments();
      } else if joined && records == [] {
        HasSegments();
        PrunedAlready(bases, checkpoint);
      }
      if joined && opts.maxSegmentSize > 0 {
        PrunedFew();
      }
    }

    lemma PrunedFew()
      requires Valid() && Numbered()
      ensures |bases| == 1 || (|bases| >= 2 && bases[1] > checkpoint) ==> |bases| <= Max(0, |hist| - checkpoint) + 1
    {
      hide Recorded, EngineOk, Placed, Laid;
      SaneShape(Cfg(), Snap(), garbled, torn);
      if |bases| == 1 || bases[1] > checkpoint {
        FewSegments(bases, checkpoint, |hist|);
      }
    }

    // ----- Append.

    /** ftruncate(2), which may fail, and lseek(2) on the active segment, to no more than its length. */
    method OsTruncate(target: nat)
      requires walOpen && FdOk() && target <= |files[activeSegBase]|
      modifies `files, `cursor
      ensures FdOk() && files == old(files)[activeSegBase := files[activeSegBase]] && cursor == target
      ensures Remains(old(files[activeSegBase]), target, files[activeSegBase])
      ensures reliable ==> |files[activeSegBase]| == target
    {
      var ok := true;
      if !reliable {
        ok := *;
      }
      if ok {
        files := files[activeSegBase := files[activeSegBase][..target]];
      } else {
        assert files == files[activeSegBase := files[activeSegBase]];
      }
      cursor := target;
    }

    /**
     * Undoes a failed append: the file is cut to `pos` or to its own end, never extended, the buffer is dropped, and so
     * are the trailing index entries that reach beyond the cut.  The next write goes there even if cutting has failed.
     */
    method RollbackTo(pos: nat)
      requires walOpen && FdOk()
      modifies `files, `cursor, `buffer, `stuck, `writePos, `records
      ensures writePos == cursor == if |old(files[activeSegBase])| < pos then |old(files[activeSegBase])| else pos
      ensures buffer == [] && !stuck && FdOk() && files == old(files)[activeSegBase := files[activeSegBase]]
      ensures Remains(old(files[activeSegBase]), writePos, files[activeSegBase])
      ensures reliable ==> |files[activeSegBase]| == writePos
      ensures |records| <= |old(records)| && records == old(records)[..|records|]
      ensures KeptBy(old(Snap()), writePos, |records|)
    {
      var target := pos;
      if |files[activeSegBase]| < target {
        target := |files[activeSegBase]|;
      }
      buffer, stuck := [], false;
      OsTruncate(target);
      writePos := target;
      var keep := |records|;
      while keep > 0 && records[keep - 1].segBase == activeSegBase
        && records[keep - 1].pos + records[keep - 1].length > target
        invariant 0 <= keep <= |records|
        invariant forall i :: keep <= i < |records| ==>
                    records[i].segBase == activeSegBase && records[i].pos + records[i].length > target
      {
        keep := keep - 1;
      }
      records := records[..keep];
    }

    /** Hands a frame to the writer and, under SyncEveryRecord, on to the medium. */
    method WriteFrame(data: seq<byte>, ghost h: seq<Frame>) returns (ok: bool)
      requires walOpen && FdOk() && |buffer| <= opts.bufferSize && opts.bufferSize > 0
      modifies `files, `cursor, `past, `buffer, `stuck, `synced
      ensures old(past) <= past
      ensures FdOk() && |buffer| <= opts.bufferSize
      ensures reliable && !old(stuck) ==> ok && !stuck
      ensures files == old(files)[activeSegBase := files[activeSegBase]]
      ensures Grows(old(files[activeSegBase]), old(cursor), files[activeSegBase], cursor)
      ensures Head() <= old(Head() + buffer) + data && (ok ==> Head() + buffer == old(Head() + buffer) + data)
      ensures !ok || opts.policy != SyncEveryRecord ==> unchanged(`synced)
      ensures ok && opts.policy == SyncEveryRecord ==>
                buffer == [] && synced == old(synced)[activeSegBase := |files[activeSegBase]|]
      ensures old(Arrived(past, Here(h)) && Appendable(buffer + data, h)) ==>
                Arrived(past, Here(h))
                && (ok && opts.policy == SyncEveryRecord ==> ForcedLast(h, old(synced)))
      ensures old(ArrivedStrong(past, Here(h)) && Appendable(buffer + data, h)) ==> ArrivedStrong(past, Here(h))
    {
      hide Arrived, ArrivedStrong, Grows, ForcedLast, Appendable;
      ghost var file, at, done, was := files[activeSegBase], cursor, Head(), buffer;
      ghost var room := Appendable(buffer + data, h);
      if room {
        RoomIs(buffer + data, h);
      }
      ok := BufWrite(data, h);
      if ok && opts.policy == SyncEveryRecord {
        if room {
          StillRoom(file, at, buffer, done + was + data, h, done, was, data);
        }
        ghost var mid, from := files[activeSegBase], cursor;
        ok := ForceFrame(h);
        GrowsOn(file, at, mid, from, files[activeSegBase], cursor);
      }
    }

    lemma RoomIs(p: seq<byte>, h: seq<Frame>)
      requires Appendable(p, h)
      ensures |bases| >= 1 && activeSegBase == Last(bases) <= |h| && activeSegBase in files && activeSegBase in synced
      ensures cursor == |files[activeSegBase]| && files[activeSegBase] + p <= Concat(h[activeSegBase..])
      ensures Appendable([], h)
    {
      assert files[activeSegBase] + [] == files[activeSegBase];
    }

    /** Flushes the writer and forces the file. */
    method ForceFrame(ghost h: seq<Frame>) returns (ok: bool)
      requires walOpen && FdOk()
      modifies `files, `cursor, `past, `buffer, `stuck, `synced
      ensures old(past) <= past
      ensures FdOk() && |buffer| <= old(|buffer|)
      ensures reliable && !old(stuck) ==> ok && !stuck
      ensures files == old(files)[activeSegBase := files[activeSegBase]]
      ensures Grows(old(files[activeSegBase]), old(cursor), files[activeSegBase], cursor)
      ensures Head() + buffer == old(Head() + buffer)
      ensures !ok ==> unchanged(`synced)
      ensures ok ==> buffer == [] && synced == old(synced)[activeSegBase := |files[activeSegBase]|]
      ensures old(Arrived(past, Here(h)) && Appendable(buffer, h)) ==>
                Arrived(past, Here(h)) && (ok ==> ForcedLast(h, old(synced)))
      ensures old(ArrivedStrong(past, Here(h)) && Appendable(buffer, h)) ==> ArrivedStrong(past, Here(h))
    {
      hide Arrived, ArrivedStrong, Grows, Appendable;
      ok := BufFlush(h);
      if ok {
        if Appendable(buffer, h) {
          RoomIs(buffer, h);
        }
        ArrivedThere(past, Here(h));
        ok := OsSync(h);
      }
    }

    static lemma ArrivedThere(past: seq<Moment>, m: Moment)
      ensures Arrived(past, m) ==> past != [] && past[|past| - 1] == m
    {
    }

    /** The last step was to force the active file: before it, only `was` was on the medium. */
    ghost predicate ForcedLast(h: seq<Frame>, was: map<nat, nat>)
      reads `past, `bases, `files, `synced, `saved
    {
      |past| >= 2 && past[|past| - 2] == Here(h).(synced := was)
    }

    /**
     * The engine stands where it stood at `s`, but for what a failed write of `data` has put into the file and
     * buffer.
     */
    ghost predicate MidWrite(s: Store, data: seq<byte>)
      reads this
    {
      && Sane(Cfg(), s, garbled, torn) && s.active in files && s.active in s.files
      && files == s.files[s.active := files[s.active]]
      && Grows(s.files[s.active], s.cursor, files[s.active], cursor)
      && files[s.active][..cursor] <= s.files[s.active][..s.cursor] + s.buffer + data
      && Unwritten(s) && writePos == s.writePos && synced == s.synced && records == s.records && hist == s.hist
      && forced == s.forced
    }

    /** ... and the write has put all of it there. */
    ghost predicate Written(s: Store, data: seq<byte>)
      reads this
    {
      && Sane(Cfg(), s, garbled, torn) && s.active in files && s.active in s.files
      && files == s.files[s.active := files[s.active]]
      && Grows(s.files[s.active], s.cursor, files[s.active], cursor)
      && files[s.active][..cursor] + buffer == s.files[s.active][..s.cursor] + s.buffer + data
      && (if opts.policy == SyncEveryRecord then buffer == [] && synced == s.synced[s.active := |files[s.active]|]
          else synced == s.synced)
      && Unwritten(s) && writePos == s.writePos && records == s.records && hist == s.hist && forced == s.forced
    }

    /** The failing end of Append, for any state of the engine: see RolledBack for what is left. */
    method UndoAppend(pos: nat, ghost s: Store, ghost data: seq<byte>)
      requires walOpen && FdOk() && opts.bufferSize > 0 && !reliable && pos == writePos && IdsKnown()
      requires joined ==> MidWrite(s, data)
      requires Sound() ==> Arrived(past, Here(hist + [data])) && baseOffset <= checkpoint
      requires Strong() ==> ArrivedStrong(past, Here(hist + [data])) && checkpoint == saved
      modifies `files, `cursor, `past, `buffer, `stuck, `writePos, `records, `hist, `torn, `garbled, `uncut
      ensures old(past) <= past
      ensures Valid() && buffer == []
      ensures writePos <= |files[activeSegBase]| <= |old(files)[activeSegBase]|
      ensures uncut <==> writePos < |files[activeSegBase]|
      ensures !joined ==> torn == old(torn) && garbled == old(garbled)
      ensures joined ==>
                RolledBack(s, old(files)[activeSegBase], old(cursor), uncut, (old(garbled), old(torn)), hist, garbled,
                    torn)
      ensures joined ==> hist <= s.hist && s.handed <= |hist| && (old(garbled) ==> garbled) && (old(torn) ==> torn)
      ensures joined && s.writePos <= |old(files)[activeSegBase]| ==> hist == s.hist && torn == (old(torn) || uncut)
      ensures joined && garbled && !old(garbled) ==> AtRisk(s)
      ensures joined ==> Abandoned(s, uncut, (old(garbled), old(torn)), hist, garbled, torn)
    {
      hide Sane, Reach, CleanCut, RolledBack, Arrived, ArrivedStrong, Valid, IdsKnown, AtRisk, Grows;
      ghost var file, flushed, was := files[activeSegBase], cursor, (garbled, torn);
      RollbackTo(pos);
      Reconcile(s, data, file, flushed);
      if joined {
        RolledBackFacts(s, file, flushed, uncut, was, hist, garbled, torn);
        IsAbandoned(s, file, flushed, was);
      }
    }

    /** A clean log whose buffer was empty had all of its bytes in the file. */
    lemma IsAbandoned(s: Store, file: seq<byte>, flushed: nat, was: (bool, bool))
      requires Sane(Cfg(), s, was.0, was.1) && s.active in s.files && Grows(s.files[s.active], s.cursor, file, flushed)
      requires RolledBack(s, file, flushed, uncut, was, hist, garbled, torn) && (garbled && !was.0 ==> AtRisk(s))
      ensures Abandoned(s, uncut, was, hist, garbled, torn)
    {
      hide Sane, RolledBack, AtRisk;
      SaneShape(Cfg(), s, was.0, was.1);
      RolledBackFacts(s, file, flushed, uncut, was, hist, garbled, torn);
    }

    /** The fields after RollbackTo, when the failed write had left `file` behind with `flushed` bytes written. */
    ghost predicate CutBack(s: Store, data: seq<byte>, file: seq<byte>, flushed: nat)
      reads `bases, `saved, `checkpoint, `activeSegBase, `baseOffset, `handed, `orderly, `backlog, `inherited, `rooted
      reads `files, `buffer, `cursor, `writePos, `records, `synced, `forced
    {
      && s.active in s.files && s.active in files && |records| <= |s.records|
      && KeptBy(s, CutAt(s, file), |records|) && Grows(s.files[s.active], s.cursor, file, flushed)
      && file[..flushed] <= s.files[s.active][..s.cursor] + s.buffer + data
      && files == s.files[s.active := files[s.active]] && Remains(file, CutAt(s, file), files[s.active])
      && buffer == [] && cursor == writePos == CutAt(s, file)
      && records == s.records[..|records|] && Unwritten(s) && synced == s.synced && forced == s.forced
    }

    static lemma GrowsBounds(f: seq<byte>, c: nat, g: seq<byte>, d: nat)
      requires Grows(f, c, g, d)
      ensures c <= |f| && c <= d <= |g| && |g| == Max(|f|, d) && (c == |f| ==> f <= g && d == |g|)
    {
    }

    /** Takes the lost records out of the log. */
    ghost method Reconcile(s: Store, data: seq<byte>, file: seq<byte>, flushed: nat)
      requires walOpen && FdOk() && opts.bufferSize > 0 && !stuck && buffer == [] && IdsKnown()
      requires joined ==> Sane(Cfg(), s, garbled, torn) && CutBack(s, data, file, flushed) && hist == s.hist
      requires Sound() ==> Arrived(past, DiskOf(s.(files := s.files[s.active := file]), s.hist + [data]))
                           && baseOffset <= checkpoint
      requires Strong() ==> ArrivedStrong(past, DiskOf(s.(files := s.files[s.active := file]), s.hist + [data]))
                            && checkpoint == saved
      modifies `past, `hist, `torn, `garbled, `uncut
      ensures old(past) <= past && Valid()
      ensures uncut <==> writePos < |files[activeSegBase]|
      ensures !joined ==> torn == old(torn) && garbled == old(garbled)
      ensures joined ==> RolledBack(s, file, flushed, uncut, (old(garbled), old(torn)), hist, garbled, torn)
      ensures joined && garbled && !old(garbled) ==> AtRisk(s)
    {
      hide Arrived, ArrivedStrong, Placed, EngineOk, Laid, Reach, KeptBy, CleanCut, RolledBack, Valid, DiskOf, Named;
      hide Grows, AtRisk;
      ghost var before, was := past, (garbled, torn);
      if joined {
        SaneShape(Cfg(), s, garbled, torn);
        GrowsBounds(s.files[s.active], s.cursor, file, flushed);
        CutKeeps(Cfg(), s, file, |records|);
        OnlyAtRisk(Cfg(), s, file, flushed, |records|);
        NamedPrefix(hist, baseOffset, maxID, baseOffset + |records|);
      }
      TakeOut(s, file, flushed, writePos < |files[activeSegBase]|);
      CutDone(s, data, file, flushed, before, was);
    }

    ghost method TakeOut(s: Store, file: seq<byte>, flushed: nat, more: bool)
      requires joined ==> |s.bases| >= 1 && s.active == Last(s.bases) <= |s.hist| && baseOffset + |records| <= |hist|
      modifies `past, `hist, `torn, `garbled, `uncut
      ensures hist == if joined then old(hist)[..baseOffset + |records|] else old(hist)
      ensures past == old(past) + [Here(hist)]
      ensures uncut == more
      ensures torn == (old(torn) || (joined && (uncut || !CleanCut(s, file))))
      ensures garbled == (old(garbled) || (joined && Unflushed(s, |records|, flushed)))
    {
      hide CleanCut, Unflushed;
      hist := if joined then hist[..baseOffset + |records|] else hist;
      past := past + [Here(hist)];
      uncut := more;
      torn := torn || (joined && (uncut || !CleanCut(s, file)));
      garbled := garbled || (joined && Unflushed(s, |records|, flushed));
    }

    /** The engine once the lost records are out of the log. */
    lemma CutDone(s: Store, data: seq<byte>, file: seq<byte>, flushed: nat, before: seq<Moment>, was: (bool, bool))
      requires walOpen && FdOk() && opts.bufferSize > 0 && !stuck && buffer == [] && IdsKnown()
      requires past == before + [Here(hist)] && (uncut <==> writePos < |files[activeSegBase]|)
      requires joined ==>
        && Sane(Cfg(), s, was.0, was.1) && CutBack(s, data, file, flushed) && s.base + |records| <= |s.hist|
        && hist == s.hist[..s.base + |records|] && |s.bases| >= 1 && s.active == Last(s.bases) <= |s.hist|
        && torn == (was.1 || uncut || !CleanCut(s, file)) && garbled == (was.0 || Unflushed(s, |records|, flushed))
      requires joined && !was.1 && !exposed ==>
        Arrived(before, DiskOf(s.(files := s.files[s.active := file]), s.hist + [data])) && baseOffset <= checkpoint
      requires joined && !was.1 && !exposed && durable ==>
        ArrivedStrong(before, DiskOf(s.(files := s.files[s.active := file]), s.hist + [data])) && checkpoint == saved
      ensures Valid()
      ensures joined ==> RolledBack(s, file, flushed, uncut, was, hist, garbled, torn)
    {
      hide Arrived, ArrivedStrong, Sane, Reach, KeptBy, CleanCut, RolledBack, Unflushed, Grows, IdsKnown;
      if joined {
        SaneShape(Cfg(), s, was.0, was.1);
        GrowsBounds(s.files[s.active], s.cursor, file, flushed);
        assert Stream(s) == s.files[s.active][..s.cursor] + s.buffer;
        SaneCut(Cfg(), s, Snap(), file, files[s.active], flushed, data, was.0, was.1);
        if !was.1 && !uncut {
          assert file[..|file|] == file && files[s.active] == file[..CutAt(s, file)];
          WholeStream(s);
          Undo(Cfg(), s, Snap(), file, data, before);
        }
      }
    }

    /** The log is about to grow by a frame. */
    ghost method Announce(data: seq<byte>)
      requires Valid() && walOpen
      modifies `past, `exposed
      ensures past == old(past) + [Here(hist + [data])] && exposed == (old(exposed) || !Whole(data))
      ensures joined ==> Sane(Cfg(), Snap(), garbled, torn)
      ensures FdOk() && BufOk() && IdsKnown()
      ensures Working() ==> Appendable(buffer + data, hist + [data])
      ensures Sound() ==> Arrived(past, Here(hist + [data])) && baseOffset <= checkpoint
      ensures Strong() ==> ArrivedStrong(past, Here(hist + [data])) && checkpoint == saved
    {
      hide Arrived, ArrivedStrong, Sane, Appendable, Whole, Valid, IdsKnown;
      CanFlush();
      if Working() {
        CanAppend(data);
      }
      exposed := exposed || !Whole(data);
      past := past + [Here(hist + [data])];
    }

    lemma CanAppend(data: seq<byte>)
      requires walOpen && FdOk() && Working() && Sane(Cfg(), Snap(), garbled, torn)
      ensures Appendable(buffer + data, hist + [data])
      ensures Whole(data) ==> Follows(past, Here(hist), Here(hist + [data]))
    {
      Shape(Cfg(), Snap());
      Announced(Cfg(), Snap(), data, past);
    }

    /** Announces a frame and writes it. */
    method StartWrite(data: seq<byte>) returns (ok: bool)
      requires Valid() && walOpen
      modifies `files, `cursor, `past, `buffer, `stuck, `synced, `exposed
      ensures old(past) <= past
      ensures FdOk() && (ok ==> BufOk()) && opts.bufferSize > 0 && IdsKnown()
      ensures reliable ==> ok
      ensures exposed == (old(exposed) || !Whole(data))
      ensures joined ==> if ok then Written(old(Snap()), data) else MidWrite(old(Snap()), data)
      ensures opts.policy != SyncEveryRecord ==> unchanged(`synced)
      ensures Sound() ==> Arrived(past, Here(hist + [data])) && baseOffset <= checkpoint
      ensures Sound() && ok && opts.policy == SyncEveryRecord ==>
                ForcedLast(hist + [data], old(synced))
      ensures Strong() ==> ArrivedStrong(past, Here(hist + [data])) && checkpoint == saved
    {
      hide Arrived, ArrivedStrong, Sane, Appendable, Whole, Written, MidWrite, Valid, IdsKnown, ForcedLast;
      hide Snap, Here, Unwritten, Untouched, Elsewhere, Unhanded, Uncommitted, Overhung, Grows;
      Scalars();
      ghost var s := Snap();
      SnapFields(s);
      Announce(data);
      ok := WriteFrame(data, hist + [data]);
      if joined {
        WriteDone(s, data, ok);
      }
    }

    lemma WriteDone(s: Store, data: seq<byte>, ok: bool)
      requires Sane(Cfg(), s, garbled, torn) && s.active in files && s.active in s.files
      requires files == s.files[s.active := files[s.active]]
               && Grows(s.files[s.active], s.cursor, files[s.active], cursor)
      requires files[s.active][..cursor] <= s.files[s.active][..s.cursor] + s.buffer + data
      requires ok ==> files[s.active][..cursor] + buffer == s.files[s.active][..s.cursor] + s.buffer + data
      requires ok ==>
                 if opts.policy == SyncEveryRecord
                 then buffer == [] && synced == s.synced[s.active := |files[s.active]|]
                 else synced == s.synced
      requires !ok ==> synced == s.synced
      requires Unwritten(s) && writePos == s.writePos && records == s.records && hist == s.hist && forced == s.forced
      ensures if ok then Written(s, data) else MidWrite(s, data)
    {
      hide Sane;
    }

    /** Takes a written frame into the index. */
    method AcceptFrame(newOffset: nat, id: uint64, data: seq<byte>, ghost s: Store)
      requires FdOk() && BufOk() && walOpen && IdsKnown() && data != [] && id == IdOf(data)
      requires joined ==> Written(s, data) && newOffset == |hist| && |hist| - checkpoint < maxCapacity
      requires opts.maxSegmentSize > 0 ==> writePos == 0 || writePos + |data| <= opts.maxSegmentSize
      requires Sound() ==> Arrived(past, Here(hist + [data])) && baseOffset <= checkpoint
      requires Strong() ==> ArrivedStrong(past, Here(hist + [data])) && checkpoint == saved
      modifies `writePos, `records, `hist, `maxID, `known, `forced
      ensures Valid()
      ensures hist == old(hist) + [data] && known == old(known) + [data]
      ensures forced == (old(forced) || opts.policy == SyncEveryRecord)
    {
      hide Arrived, ArrivedStrong, Sane, Valid, MaxId, Named, IdOf, Grows;
      MaxIdSnoc(known, 0, data);
      if joined {
        NamedSnoc(hist, baseOffset, maxID, data);
      }
      IndexFrame(newOffset, id, data);
      if joined {
        Accepted(s, data, old(records), old(writePos), old(hist), old(forced));
      }
      Assembled();
    }

    method IndexFrame(newOffset: nat, id: uint64, data: seq<byte>)
      modifies `writePos, `records, `hist, `maxID, `known, `forced
      ensures records == old(records) + [OffsetPos(newOffset, activeSegBase, old(writePos), |data|)]
      ensures writePos == old(writePos) + |data| && hist == old(hist) + [data] && known == old(known) + [data]
      ensures maxID == if id > old(maxID) then id else old(maxID)
      ensures forced == (old(forced) || opts.policy == SyncEveryRecord)
    {
      if id > maxID {
        maxID := id;
      }
      records := records + [OffsetPos(newOffset, activeSegBase, writePos, |data|)];
      writePos := writePos + |data|;
      hist, known, forced := hist + [data], known + [data], forced || opts.policy == SyncEveryRecord;
    }

    lemma Accepted(s: Store, data: seq<byte>, index: seq<OffsetPos>, pos: nat, was: seq<Frame>, wasForced: bool)
      requires Sane(Cfg(), s, garbled, torn) && data != [] && |s.hist| - s.checkpoint < maxCapacity
      requires s.active in files && s.active in s.files && files == s.files[s.active := files[s.active]]
      requires Grows(s.files[s.active], s.cursor, files[s.active], cursor)
      requires files[s.active][..cursor] + buffer == s.files[s.active][..s.cursor] + s.buffer + data
      requires if opts.policy == SyncEveryRecord then buffer == [] && synced == s.synced[s.active := |files[s.active]|]
               else synced == s.synced
      requires opts.maxSegmentSize > 0 ==> pos == 0 || pos + |data| <= opts.maxSegmentSize
      requires index == s.records && pos == s.writePos && was == s.hist && wasForced == s.forced
      requires records == index + [OffsetPos(|was|, activeSegBase, pos, |data|)]
      requires writePos == pos + |data| && hist == was + [data]
               && forced == (wasForced || opts.policy == SyncEveryRecord)
      requires Unwritten(s)
      ensures Sane(Cfg(), Snap(), garbled, torn)
    {
      hide Sane;
      SaneShape(Cfg(), s, garbled, torn);
      assert |Stream(Snap())| == |Stream(s)| + |data|;
      SaneAppend(Cfg(), s, Snap(), data, garbled, torn);
    }

    /** Where the ends of the log, the index, the file and the buffer are. */
    lemma Positions()
      requires Valid() && Numbered()
      ensures activeSegBase in files && cursor <= |files[activeSegBase]| && writePos == cursor + |buffer|
      ensures baseOffset + |records| == |hist| && handed <= |hist|
      ensures Working() ==> cursor == |files[activeSegBase]| && (opts.policy == SyncEveryRecord ==> buffer == [])
    {
      hide Recorded, EngineOk, Laid, Placed;
      SaneShape(Cfg(), Snap(), garbled, torn);
      if !torn {
        EveryRecordForced(Cfg(), Snap());
      }
    }

    /** The writing end of Append: `data` becomes the next record, or the write is undone. */
    method AppendFrame(newOffset: nat, id: uint64, data: seq<byte>) returns (ok: bool)
      requires Valid() && walOpen && data != [] && id == IdOf(data)
      requires joined ==> newOffset == |hist| && |hist| - checkpoint < maxCapacity
      requires opts.maxSegmentSize > 0 ==> writePos == 0 || writePos + |data| <= opts.maxSegmentSize
      modifies `files, `cursor, `past, `buffer, `stuck, `synced, `writePos, `records, `hist, `torn, `garbled, `exposed
      modifies `maxID, `known, `forced, `uncut
      ensures old(past) <= past
      ensures Valid()
      ensures reliable ==> ok
      ensures exposed == (old(exposed) || !Whole(data))
      ensures ok || !joined ==> torn == old(torn) && garbled == old(garbled)
      ensures ok ==> hist == old(hist) + [data] && known == old(known) + [data]
      ensures ok ==> forced == (old(forced) || opts.policy == SyncEveryRecord)
      ensures ok && Sound() && opts.policy == SyncEveryRecord ==> ForcedLast(hist, old(synced))
      ensures opts.policy != SyncEveryRecord ==> unchanged(`synced)
      ensures !ok ==> maxID == old(maxID) && unchanged(`known) && forced == old(forced)
      ensures !ok && joined ==> Abandoned(old(Snap()), uncut, (old(garbled), old(torn)), hist, garbled, torn)
      ensures ok ==> uncut == old(uncut)
    {
      hide Arrived, ArrivedStrong, Sane, RolledBack, Valid, Written, MidWrite, IdOf, AtRisk, ForcedLast, IdsKnown;
      hide Abandoned;
      hide Snap, Here, Whole, Unwritten, Overhung, Sound, Strong, Untouched, Elsewhere, BufOk, FdOk, Unhanded;
      hide Uncommitted;
      ghost var s := Snap();
      SnapFields(s);
      if joined {
        Positions();
      }
      ok := StartWrite(data);
      if ok {
        AcceptFrame(newOffset, id, data, s);
      } else {
        Abandon(s, data);
      }
    }

    /** Undoes the write of `data`. */
    method Abandon(ghost s: Store, ghost data: seq<byte>)
      requires walOpen && FdOk() && opts.bufferSize > 0 && !reliable && IdsKnown()
      requires joined ==> MidWrite(s, data)
      requires Sound() ==> Arrived(past, Here(hist + [data])) && baseOffset <= checkpoint
      requires Strong() ==> ArrivedStrong(past, Here(hist + [data])) && checkpoint == saved
      modifies `files, `cursor, `past, `buffer, `stuck, `writePos, `records, `hist, `torn, `garbled, `uncut
      ensures Valid() && old(past) <= past
      ensures !joined ==> torn == old(torn) && garbled == old(garbled)
      ensures joined ==> Abandoned(s, uncut, (old(garbled), old(torn)), hist, garbled, torn)
    {
      hide Valid, IdsKnown, Abandoned, RolledBack, MidWrite, AtRisk, Arrived, ArrivedStrong;
      Unmoved(s, data);
      UndoAppend(writePos, s, data);
    }

    lemma Unmoved(s: Store, data: seq<byte>)
      requires joined ==> MidWrite(s, data)
      ensures joined ==> s.writePos == writePos && s.handed == handed
    {
      hide Sane;
    }

    lemma NotOverhung()
      requires joined ==> forall i :: 0 <= i < |records| ==> records[i].segBase != activeSegBase
      ensures joined ==> !Overhung()
    {
    }

    /** Rotates if `n` bytes more do not fit the active segment. */
    method MakeRoom(newOffset: nat, n: nat) returns (ok: bool)
      requires Valid() && walOpen && !closed
      requires joined ==> newOffset == |hist|
      modifies `files, `synced, `bases, `past, `cursor, `buffer, `stuck, `writePos, `activeSegBase, `walOpen, `closed
      modifies `forced
      ensures old(past) <= past
      ensures Valid()
      ensures reliable ==> ok
      ensures ok ==> walOpen && !closed
      ensures ok && opts.maxSegmentSize > 0 ==> writePos == 0 || writePos + n <= opts.maxSegmentSize
      ensures ok && joined && Overhung() ==> old(Overhung())
      ensures ok && Working() && bases == old(bases) ==> unchanged(`synced)
      ensures old(forced) ==> forced
      ensures opts.maxSegmentSize <= 0 || old(writePos) == 0 || old(writePos) + n <= opts.maxSegmentSize ==>
                ok && unchanged(`bases, `activeSegBase, `writePos, `synced)
      ensures ok && opts.maxSegmentSize > 0 && old(writePos) > 0 && old(writePos) + n > opts.maxSegmentSize ==>
                activeSegBase == newOffset && writePos == 0 && (Working() ==> bases == old(bases) + [newOffset])
    {
      hide Valid, Overhung;
      ok := true;
      if opts.maxSegmentSize > 0 && writePos > 0 && writePos + n > opts.maxSegmentSize {
        ok := RotateSegment(newOffset);
        if ok {
          NotOverhung();
        }
      }
    }

    /** AppendFrame, with what a failure means for the log. */
    method WriteRecord(newOffset: nat, id: uint64, data: seq<byte>) returns (ok: bool)
      requires Valid() && walOpen && data != [] && id == IdOf(data)
      requires joined ==> newOffset == |hist| && |hist| - checkpoint < maxCapacity && handed <= |hist|
      requires opts.maxSegmentSize > 0 ==> writePos == 0 || writePos + |data| <= opts.maxSegmentSize
      modifies `files, `cursor, `past, `buffer, `stuck, `synced, `writePos, `records, `hist, `torn, `garbled, `exposed
      modifies `maxID, `known, `forced, `uncut
      ensures old(past) <= past
      ensures Valid()
      ensures reliable ==> ok
      ensures if ok then hist == old(hist) + [data] && known == old(known) + [data]
              else maxID == old(maxID) && unchanged(`known)
      ensures joined ==> (!ok ==> hist <= old(hist)) && handed <= |hist|
      ensures exposed == (old(exposed) || !Whole(data)) && (old(torn) ==> torn) && (old(garbled) ==> garbled)
      ensures ok ==> torn == old(torn) && garbled == old(garbled)
      ensures joined && garbled && !old(garbled) ==> old(Overhung())
      ensures !ok && old(Working() && buffer == []) ==> unchanged(`hist) && torn == uncut
      ensures ok ==> uncut == old(uncut)
      ensures forced == (old(forced) || (ok && opts.policy == SyncEveryRecord))
      ensures ok && Sound() && opts.policy == SyncEveryRecord ==> ForcedLast(hist, old(synced))
      ensures opts.policy != SyncEveryRecord ==> unchanged(`synced)
    {
      hide Whole, Valid, ForcedLast, IdOf, AtRisk, Snap, Here, Overhung, Abandoned;
      hide Unwritten, Untouched, Elsewhere, Unhanded, Uncommitted;
      ghost var s, was := Snap(), (garbled, torn);
      SnapFields(s);
      ok := AppendFrame(newOffset, id, data);
      if !ok && joined {
        AbandonedFacts(s, uncut, was, hist, garbled, torn);
      }
    }

    /** Rotates if `data` does not fit the active segment, and writes it. */
    method AppendData(newOffset: nat, id: uint64, data: seq<byte>) returns (r: Result<nat>)
      requires Valid() && walOpen && !closed && data != [] && id == IdOf(data)
      requires joined ==> newOffset == |hist| && |hist| - checkpoint < maxCapacity
      modifies `files, `synced, `bases, `past, `cursor, `buffer, `stuck, `writePos, `activeSegBase, `walOpen, `closed
      modifies `records, `hist, `torn, `garbled, `exposed, `maxID, `known, `forced, `uncut
      ensures old(past) <= past
      ensures Valid()
      ensures if r.Ok? then r.value == newOffset && hist == old(hist) + [data] && !closed
              else r == Err(StorageUnavailable)
      ensures joined ==> (r.Err? ==> !reliable && hist <= old(hist)) && handed <= |hist|
      ensures r.Ok? ==> torn == old(torn) && garbled == old(garbled) && exposed == (old(exposed) || !Whole(data))
      ensures (old(torn) ==> torn) && (old(garbled) ==> garbled) && (old(exposed) ==> exposed)
              && (old(forced) ==> forced)
      ensures exposed ==> old(exposed) || !Whole(data)
      ensures if r.Ok? then known == old(known) + [data] else maxID == old(maxID) && unchanged(`known)
      ensures reliable ==> r.Ok?
      ensures joined && garbled && !old(garbled) ==> old(Overhung())
      ensures old(Working() && !uncut) && opts.policy == SyncEveryRecord && r.Err? ==>
                unchanged(`hist) && torn == uncut
      ensures r.Ok? ==> uncut == old(uncut)
      ensures r.Ok? && opts.policy == SyncEveryRecord ==> forced
      ensures r.Ok? && Sound() && opts.policy == SyncEveryRecord && bases == old(bases) ==>
                ForcedLast(hist, old(synced))
      ensures opts.maxSegmentSize <= 0 || old(writePos) == 0 || old(writePos) + |data| <= opts.maxSegmentSize ==>
                unchanged(`bases, `activeSegBase) && (opts.policy != SyncEveryRecord ==> unchanged(`synced))
      ensures r.Ok? && opts.maxSegmentSize > 0 && old(writePos) > 0
              && old(writePos) + |data| > opts.maxSegmentSize ==>
                activeSegBase == newOffset && (Working() ==> bases == old(bases) + [newOffset])
    {
      hide Whole, Valid, ForcedLast, IdOf, Here, Overhung;
      if joined {
        Positions();
      }
      var room := MakeRoom(newOffset, |data|);
      if !room {
        return Err(StorageUnavailable);
      }
      if joined {
        Positions();
      }
      var ok := WriteRecord(newOffset, id, data);
      if !ok {
        return Err(StorageUnavailable);
      }
      return Ok(newOffset);
    }

    /** A frame does not hold its offset. */
    static lemma SameFrame(rec: Record, offset: nat)
      ensures Encode(rec.(offset := offset)) == Encode(rec) != []
    {
    }

    /**
     * Appends a record, or says why not.  On a log that is joined its outcome, the offsets and what was handed out
     * are as they should be whatever failed before.  A new segment begins exactly when the active one holds something
     * and the record does not fit behind it.
     */
    method Append(rec: Record) returns (r: Result<nat>)
      requires Valid()
      modifies `files, `synced, `bases, `past, `cursor, `buffer, `stuck, `writePos, `activeSegBase, `walOpen, `closed
      modifies `records, `hist, `torn, `garbled, `exposed, `maxID, `known, `forced, `uncut
      ensures old(past) <= past
      ensures Valid()
      ensures old(closed) ==> r == Err(StorageUnavailable) && unchanged(`hist) && closed
      ensures old(closed) ==> torn == old(torn) && garbled == old(garbled) && unchanged(`past)
      ensures !old(closed) && joined ==>
                AppendOutcome(old(hist), hist, checkpoint, maxCapacity, reliable, rec, r) && handed <= |hist|
      ensures (old(torn) ==> torn) && (old(garbled) ==> garbled) && (old(exposed) ==> exposed)
              && (old(forced) ==> forced)
      ensures r.Ok? ==> torn == old(torn) && garbled == old(garbled) && !closed
      ensures r.Ok? ==> exposed == (old(exposed) || !Whole(Encode(rec)))
      ensures exposed ==> old(exposed) || (|rec.topic| <= MAX_TOPIC && !Whole(Encode(rec)))
      ensures if r.Ok? then known == old(known) + [Encode(rec)] else maxID == old(maxID) && unchanged(`known)
      ensures r.Ok? ==> maxID == if rec.id > old(maxID) then rec.id else old(maxID)
      ensures reliable ==> closed == old(closed) && torn == old(torn) && garbled == old(garbled)
      ensures joined && garbled && !old(garbled) ==> old(Overhung())
      ensures old(Working()) && opts.policy == SyncEveryRecord && r.Err? ==> unchanged(`hist) && torn == uncut
      ensures uncut ==> r.Err? && !reliable && !old(closed)
      ensures r.Ok? && opts.policy == SyncEveryRecord ==> forced
      ensures r.Ok? && Sound() && opts.policy == SyncEveryRecord && bases == old(bases) ==>
                ForcedLast(hist, old(synced))
      ensures opts.maxSegmentSize <= 0 || old(writePos) == 0 || old(writePos) + |Encode(rec)| <= opts.maxSegmentSize ==>
                unchanged(`bases, `activeSegBase) && (opts.policy != SyncEveryRecord ==> unchanged(`synced))
      ensures r.Err? && r.error != StorageUnavailable ==> unchanged(`files, `synced, `bases, `buffer, `records, `hist)
      ensures r.Ok? && joined && opts.maxSegmentSize > 0 && old(writePos) > 0
              && old(writePos) + |Encode(rec)| > opts.maxSegmentSize ==>
                activeSegBase == r.value && (Working() ==> bases == old(bases) + [r.value])
    {
      hide Whole, Valid, Encode, ForcedLast, IdOf, Overhung, IdsKnown, Here;
      if joined && walOpen {
        Positions();
      }
      Scalars();
      KnownIds();
      Forget();
      if closed {
        return Err(StorageUnavailable);
      }
      var uncommitted := baseOffset + |records| - checkpoint;
      if uncommitted >= maxCapacity {
        return Err(SpoolFull);
      }
      var newOffset := baseOffset + |records|;
      var encoded := MarshalBinary(rec.(offset := newOffset));
      if encoded.Err? {
        return Err(encoded.error);
      }
      SameFrame(rec, newOffset);
      EncodedId(rec);
      r := AppendData(newOffset, rec.id, encoded.value);
      if r.Ok? {
        IdAdded(old(known), old(maxID), rec);
      }
    }

    /** No append has failed to cut the file, since this one began. */
    ghost method Forget()
      requires Valid()
      modifies `uncut
      ensures Valid() && !uncut
    {
      hide Sane, Recorded, IdsKnown;
      uncut := false;
    }

    lemma IdAdded(was: seq<Frame>, m: uint64, rec: Record)
      requires Valid() && known == was + [Encode(rec)] && m == MaxId(was, 0)
      ensures maxID == if rec.id > m then rec.id else m
    {
      hide Sane, Recorded, MaxId, Encode, IdOf;
      EncodedId(rec);
      MaxIdSnoc(was, 0, Encode(rec));
    }

    // ----- Reading, committing, closing.

    /** Where an engine stands: every committed offset was handed out, and every such offset is in the log. */
    lemma Bounds()
      requires Valid() && joined && !closed
      ensures Numbered() && handed <= |hist| && baseOffset <= |hist|
      ensures (orderly ==> Max(checkpoint, baseOffset) <= handed) && (rooted ==> baseOffset <= checkpoint)
      ensures |hist| - checkpoint <= Max(maxCapacity, backlog) && (garbled ==> torn)
    {
      hide Recorded, EngineOk, Placed;
      LaidShape(Cfg(), Snap());
    }

    /** The offset invariant: it holds after every call, whatever failed, as long as the segment file is open. */
    lemma Offsets()
      requires Valid() && Numbered()
      ensures baseOffset + |records| == |hist| && (orderly ==> checkpoint <= baseOffset + |records|)
      ensures forall i :: 0 <= i < |records| ==> records[i].offset == baseOffset + i
      ensures forall i :: 0 <= i < |records| ==> records[i].segBase == SegOf(bases, baseOffset + i)
      ensures baseOffset + |records| - checkpoint <= Max(maxCapacity, backlog)
      ensures opts.maxSegmentSize > 0 ==>
                forall i :: 0 <= i < |records| && records[i].offset >= inherited && records[i].pos > 0 ==>
                  records[i].pos + records[i].length <= opts.maxSegmentSize
    {
      hide Recorded, EngineOk, Placed;
      LaidShape(Cfg(), Snap());
      forall i: nat | i < |records|
        ensures records[i].offset == baseOffset + i && records[i].segBase == SegOf(bases, baseOffset + i)
      {
        assert EntryLaid(Snap(), i);
      }
    }

    /** Of a log that is not torn, so do the segments written since start-up that hold more than one record. */
    lemma SegmentsFit(i: nat)
      requires Valid() && Working() && opts.maxSegmentSize > 0 && i < |bases|
      requires SegEnd(bases, hist, i) > inherited && SegEnd(bases, hist, i) >= bases[i] + 2
      ensures bases[i] in files && |SegBytes(Snap(), i)| <= opts.maxSegmentSize
    {
      hide Recorded, EngineOk, Placed, Laid, SegBytes;
      SegmentFits(Cfg(), Snap(), i);
    }

    /** The bytes of the active segment are its frames. */
    lemma ActiveBytes()
      requires Valid() && Working()
      ensures Chain(bases) && activeSegBase == Last(bases) <= |hist|
      ensures writePos == |Concat(hist[Last(bases)..])| && |hist| == baseOffset + |records|
    {
      hide Recorded, Placed, Concat;
      SaneShape(Cfg(), Snap(), garbled, torn);
    }

    /**
     * Of two segments that follow each other, the second begun behind `first`, the bytes of the first and the first
     * frame of the second together are more than the limit.
     */
    lemma SegmentsFilled(i: nat, first: nat)
      requires Valid() && Working() && Packed(bases, hist, opts.maxSegmentSize, first)
      requires i + 1 < |bases| && bases[i + 1] > first
      ensures bases[i] in files && bases[i + 1] < |hist|
      ensures |files[bases[i]]| + |hist[bases[i + 1]]| > opts.maxSegmentSize
    {
      hide Recorded, Placed, Laid, Concat;
      assert NoRoom(bases, hist, opts.maxSegmentSize, i);
      assert SealedAt(bases, files, hist, i);
    }

    lemma EntryHolds(i: nat)
      requires Valid() && Numbered() && buffer == [] && i < |records|
      ensures baseOffset + i < |hist| && records[i].offset == baseOffset + i
      ensures var e := records[i]; e.segBase in files && e.pos + e.length <= |files[e.segBase]|
      ensures Legible() ==>
        var e := records[i]; files[e.segBase][e.pos..e.pos + e.length] == hist[baseOffset + i]
    {
      hide Recorded, EngineOk, Placed, Laid;
      PlacedReads(Cfg(), Snap(), i);
    }

    /** Reads the file bytes that an index entry names: those of its frame, unless the log is garbled. */
    method ReadEntry(i: nat) returns (r: Result<Record>)
      requires Valid() && walOpen && i < |records| && buffer == []
      ensures joined ==> baseOffset + i < |hist|
      ensures joined ==> match r case Ok(rec) => rec.offset == baseOffset + i
                                 case Err(e) => e.CorruptAt? && e.offset == baseOffset + i
      ensures Legible() ==> r == match Decode(hist[baseOffset + i])
                                 case Ok(d) => Ok(d.(offset := baseOffset + i))
                                 case Err(e) => Err(CorruptAt(baseOffset + i, e))
    {
      hide Valid, Decode;
      if joined {
        EntryHolds(i);
      }
      var entry := records[i];
      if entry.segBase !in files || entry.pos + entry.length > |files[entry.segBase]| {
        return Err(StorageUnavailable);
      }
      var rec := new RecordVar();
      var err := rec.UnmarshalBinary(files[entry.segBase][entry.pos..entry.pos + entry.length]);
      if err.Some? {
        return Err(CorruptAt(entry.offset, err.value));
      }
      rec.offset := entry.offset;
      return Ok(Record(rec.offset, rec.id, rec.timestamp, rec.topic, rec.payload, rec.checksum));
    }

    /** The reading loop: the records at `[startIdx, endIdx)` of the index, up to the first that does not decode. */
    method ReadEntries(startIdx: nat, endIdx: nat) returns (r: Result<seq<Record>>)
      requires Valid() && walOpen && startIdx <= endIdx <= |records| && buffer == []
      ensures joined ==> Answers(r, baseOffset + startIdx, baseOffset + endIdx)
      ensures Legible() ==>
                baseOffset + endIdx <= |hist| && r == ReadRange(hist, baseOffset + startIdx, baseOffset + endIdx)
    {
      hide Valid, Decode, ValidRun, ReadRange;
      ghost var from, end := baseOffset + startIdx, baseOffset + endIdx;
      if joined {
        Positions();
      }
      var batch: seq<Record> := [];
      for i := startIdx to endIdx
        invariant |batch| == i - startIdx
        invariant joined ==> Consecutive(batch, from)
        invariant Legible() ==> batch + ValidRun(hist, baseOffset + i, end) == ValidRun(hist, from, end)
        invariant Legible() && batch != [] ==> Decode(hist[from]).Ok?
      {
        var next := ReadEntry(i);
        if Legible() {
          ReadRangeStep(hist, from, baseOffset + i, end, batch);
        }
        if next.Err? {
          if |batch| > 0 && next.error.CorruptAt? {
            return Ok(batch);
          }
          return Err(next.error);
        }
        batch := batch + [next.value];
      }
      if Legible() {
        RangeDone(hist, from, end, batch);
      }
      return Ok(batch);
    }

    /** Where the next batch of at most `maxCount` records ends. */
    ghost function BatchEnd(maxCount: nat): nat
      reads `checkpoint, `baseOffset, `hist
    {
      var from := Max(checkpoint, baseOffset);
      if from + maxCount > |hist| then |hist| else from + maxCount
    }

    /**
     * The next batch.  Whatever failed before, it holds the next records in order, or names the first as corrupt; and
     * its records are the decoded frames of the log unless the log is garbled.
     */
    method ReadBatch(maxCount: nat) returns (r: Result<seq<Record>>)
      requires Valid()
      modifies `files, `cursor, `past, `buffer, `stuck, `handed
      ensures old(past) <= past
      ensures Valid()
      ensures closed ==> r == Err(StorageUnavailable) && handed == old(handed)
      ensures !closed && joined ==>
                Answers(r, Max(checkpoint, baseOffset), BatchEnd(maxCount))
                  || (!reliable && r == Err(StorageUnavailable))
      ensures !closed && Legible() ==>
                r == Batch(hist, Max(checkpoint, baseOffset), maxCount) || (!reliable && r == Err(StorageUnavailable))
      ensures !closed && Legible() && reliable ==> r == Batch(hist, Max(checkpoint, baseOffset), maxCount)
      ensures handed >= old(handed) && (joined && !closed ==> handed <= |hist|)
      ensures joined && r.Ok? && r.value != [] ==> handed >= Max(checkpoint, baseOffset) + |r.value|
      ensures joined && r.Err? && r.error.CorruptAt? ==> handed >= r.error.offset + 1
    {
      hide ReadRange, Valid, Answers;
      Scalars();
      if closed {
        return Err(StorageUnavailable);
      }
      if joined {
        Positions();
      }
      var ok := FlushBuffer();
      if !ok {
        return Err(StorageUnavailable);
      }
      var startIdx := checkpoint - baseOffset;
      if startIdx < 0 {
        startIdx := 0;
      }
      if startIdx >= |records| {
        if joined {
          NothingToRead(hist, Max(checkpoint, baseOffset), BatchEnd(maxCount));
        }
        return Ok([]);
      }
      var endIdx := startIdx + maxCount;
      if endIdx > |records| {
        endIdx := |records|;
      }
      r := ReadEntries(startIdx, endIdx);
      HandOut(r, baseOffset + startIdx, baseOffset + endIdx);
    }

    static lemma NothingToRead(hist: seq<Frame>, from: nat, end: nat)
      requires end <= |hist| <= from
      ensures ReadRange(hist, from, end) == Ok([]) && Answers(Ok([]), from, end)
    {
    }

    /** Notes the offsets that a batch has handed out. */
    ghost method HandOut(r: Result<seq<Record>>, from: nat, end: nat)
      requires Valid() && walOpen && buffer == []
      requires joined ==> end <= |hist| && Answers(r, from, end)
      modifies `handed
      ensures Valid() && handed >= old(handed) && (joined ==> handed <= |hist|)
      ensures joined && r.Ok? && r.value != [] ==> handed >= from + |r.value|
      ensures joined && r.Err? ==> r.error.CorruptAt? && handed >= r.error.offset + 1
    {
      hide Valid, Sane, Snap, Here, IdsKnown, Arrived, ArrivedStrong, Unhanded, Untouched, Elsewhere, Uncommitted;
      hide Overhung;
      if joined {
        CanFlush();
        Positions();
        ghost var s := Snap();
        SnapFields(s);
        assert s.handed == handed;
        handed := Max(handed, match r case Ok(rs) => (if rs == [] then 0 else from + |rs|)
                                      case Err(CorruptAt(o, _)) => o + 1
                                      case _ => 0);
        HandedOut(s);
      }
    }

    /** The fields that reading leaves alone are what they were at `s`. */
    ghost predicate Unhanded(s: Store)
      reads `bases, `files, `synced, `saved, `buffer, `cursor, `writePos, `checkpoint, `activeSegBase, `baseOffset
      reads `records, `hist, `orderly, `backlog, `inherited, `rooted, `forced
    {
      && bases == s.bases && files == s.files && synced == s.synced && saved == s.saved && buffer == s.buffer
      && cursor == s.cursor && writePos == s.writePos && checkpoint == s.checkpoint && activeSegBase == s.active
      && baseOffset == s.base && records == s.records && hist == s.hist && orderly == s.orderly && backlog == s.backlog
      && inherited == s.inherited && rooted == s.rooted && forced == s.forced
    }

    lemma HandedOut(s: Store)
      requires walOpen && joined && FdOk() && BufOk() && IdsKnown() && Sane(Cfg(), s, garbled, torn)
      requires Unhanded(s) && buffer == [] && s.handed <= handed <= |hist|
      requires Sound() ==> Arrived(past, Here(hist)) && baseOffset <= checkpoint
      requires Strong() ==> ArrivedStrong(past, Here(hist)) && checkpoint == saved
      ensures Valid()
    {
      hide Arrived, ArrivedStrong, Sane, IdsKnown;
      SaneHanded(Cfg(), s, Snap(), garbled, torn);
    }

    /** The checkpoint file is replaced: written aside, forced, renamed. */
    method OsSave(c: nat) returns (ok: bool)
      modifies `saved, `past
      ensures reliable ==> ok
      ensures ok ==> saved == c && past == old(past) + [Here(hist)]
      ensures !ok ==> saved == old(saved) && unchanged(`past)
    {
      ok := true;
      if !reliable {
        ok := *;
      }
      if ok {
        saved := c;
        past := past + [Here(hist)];
      }
    }

    /** The checkpoint `c` names records on the medium only. */
    ghost predicate Covered(c: nat)
      reads `bases, `files, `synced, `saved, `hist
    {
      TailSafe(Here(hist)) && c <= Durable(Here(hist))
    }

    /** Under SyncBatchCommit everything appended is forced to the medium before the checkpoint moves. */
    method SyncBeforeCommit() returns (ok: bool)
      requires Valid() && walOpen
      modifies `files, `cursor, `past, `buffer, `stuck, `synced, `forced
      ensures old(past) <= past
      ensures Valid()
      ensures reliable ==> ok
      ensures opts.policy != SyncBatchCommit ==> ok && unchanged(`files) && unchanged(`synced) && unchanged(`past)
      ensures old(forced) ==> forced
      ensures ok && Sound() && opts.policy == SyncBatchCommit ==> forall c: nat :: Covered(c) <==> c <= |hist|
    {
      hide Arrived, ArrivedStrong, Sane, Valid, TailSafe, Durable;
      ok := true;
      if opts.policy == SyncBatchCommit {
        Scalars();
        ok := FlushBuffer();
        if ok {
          ok := SyncWal();
          if ok {
            Scalars();
            AllForced();
          }
        }
      }
    }

    /** Replaces the checkpoint file and then moves the checkpoint. */
    method SaveCheckpoint(c: nat) returns (ok: bool)
      requires Valid() && walOpen && c > checkpoint
      modifies `saved, `past, `checkpoint, `orderly, `durable
      ensures old(past) <= past
      ensures Valid()
      ensures reliable ==> ok
      ensures checkpoint == if ok then c else old(checkpoint)
      ensures saved == if ok then c else old(saved)
      ensures orderly == (old(orderly) && (ok ==> c <= handed))
      ensures durable == (old(durable) && (ok ==> old(Covered(c))))
    {
      hide Arrived, ArrivedStrong, Sane, TailSafe, Durable, Valid, IdsKnown, Snap, Here, Covered, Uncommitted, Overhung;
      ghost var s, before, covered := Snap(), past, Covered(c);
      SnapFields(s);
      CanFlush();
      Beneath(s, c);
      ok := OsSave(c);
      if ok {
        MoveCheckpoint(c, covered);
        Checkpointed(s, before);
      }
    }

    /** The same about the disk at `s`. */
    lemma Beneath(s: Store, c: nat)
      requires s == Snap()
      ensures DiskOf(s, s.hist) == Here(hist) && s.checkpoint == checkpoint && s.orderly == orderly
              && s.handed == handed
      ensures Covered(c) ==> TailSafe(DiskOf(s, s.hist)) && c <= Durable(DiskOf(s, s.hist))
    {
      hide TailSafe, Durable;
    }

    method MoveCheckpoint(c: nat, ghost covered: bool)
      modifies `checkpoint, `orderly, `durable
      ensures checkpoint == c && orderly == (old(orderly) && c <= handed) && durable == (old(durable) && covered)
    {
      checkpoint := c;
      orderly, durable := orderly && c <= handed, durable && covered;
    }

    /** The fields that a commit leaves alone are what they were at `s`. */
    ghost predicate Uncommitted(s: Store)
      reads `bases, `files, `synced, `buffer, `cursor, `writePos, `activeSegBase, `baseOffset
      reads `records, `hist, `handed, `backlog, `inherited, `rooted, `forced
    {
      && bases == s.bases && files == s.files && synced == s.synced && buffer == s.buffer && cursor == s.cursor
      && writePos == s.writePos && activeSegBase == s.active && baseOffset == s.base && records == s.records
      && hist == s.hist && handed == s.handed && backlog == s.backlog && inherited == s.inherited && rooted == s.rooted
      && forced == s.forced
    }

    lemma Checkpointed(s: Store, before: seq<Moment>)
      requires walOpen && FdOk() && BufOk() && IdsKnown()
      requires s.checkpoint < checkpoint && saved == checkpoint && orderly == (s.orderly && checkpoint <= s.handed)
      requires Uncommitted(s)
      requires past == before + [Here(hist)]
      requires joined ==> Sane(Cfg(), s, garbled, torn)
      requires Sound() ==> Arrived(before, DiskOf(s, s.hist)) && s.base <= s.checkpoint
      requires Strong() ==>
        && ArrivedStrong(before, DiskOf(s, s.hist)) && s.checkpoint == s.saved
        && TailSafe(DiskOf(s, s.hist)) && checkpoint <= Durable(DiskOf(s, s.hist))
      ensures Valid()
    {
      hide Arrived, ArrivedStrong, Sane, TailSafe, IdsKnown;
      if joined {
        SaneShape(Cfg(), s, garbled, torn);
        SaneCommit(Cfg(), s, Snap(), garbled, torn);
        if Sound() {
          PastSave(before, DiskOf(s, s.hist), Here(hist));
        }
      }
    }

    /**
     * Checkpoints every record up to and including `offset`.  The checkpoint stays safe from crashes exactly when these
     * records are on the medium at the time: always under SyncBatchCommit, and otherwise if something has forced them.
     */
    method Commit(offset: nat) returns (err: Option<Error>)
      requires Valid()
      modifies `files, `synced, `bases, `past, `cursor, `buffer, `stuck, `records, `baseOffset, `saved, `checkpoint
      modifies `orderly
      modifies `durable, `forced
      ensures old(past) <= past
      ensures Valid()
      ensures closed ==> err == Some(StorageUnavailable) && checkpoint == old(checkpoint)
      ensures !closed && offset + 1 <= old(checkpoint) ==> err == None && checkpoint == old(checkpoint)
      ensures err == None && !closed ==> checkpoint == Max(old(checkpoint), offset + 1)
      ensures err != None ==> err == Some(StorageUnavailable) && checkpoint == old(checkpoint)
      ensures reliable && !closed ==> err == None
      ensures if checkpoint > old(checkpoint) then saved == checkpoint else saved == old(saved)
      ensures orderly ==> old(orderly) && (checkpoint > old(checkpoint) ==> offset < handed)
      ensures old(orderly) && offset < handed ==> orderly
      ensures checkpoint > old(checkpoint) && Sound() ==>
                (durable <==> old(durable)
                              && if opts.policy == SyncBatchCommit then offset < |hist| else old(Covered(offset + 1)))
      ensures checkpoint == old(checkpoint) ==>
                durable == old(durable) && baseOffset == old(baseOffset) && unchanged(`bases, `records)
      ensures old(forced) ==> forced
      ensures joined ==> baseOffset == old(baseOffset) || baseOffset <= checkpoint
      ensures err == None && !closed && checkpoint > old(checkpoint) && joined && opts.maxSegmentSize > 0 ==>
                (exists k :: Pruned(old(bases), bases, checkpoint, k)) && |bases| <= Max(0, |hist| - checkpoint) + 1
      ensures opts.maxSegmentSize <= 0 ==> unchanged(`bases)
      ensures opts.maxSegmentSize <= 0 && opts.policy != SyncBatchCommit ==> unchanged(`synced) && unchanged(`files)
    {
      hide Valid, Pruned, TailSafe, Durable, IdsKnown, Covered;
      Scalars();
      if closed {
        return Some(StorageUnavailable);
      }
      var newCheckpoint := offset + 1;
      if newCheckpoint <= checkpoint {
        return None;
      }
      var ok := SyncBeforeCommit();
      if !ok {
        return Some(StorageUnavailable);
      }
      ok := SaveCheckpoint(newCheckpoint);
      if !ok {
        return Some(StorageUnavailable);
      }
      PruneIfSegmented();
      return None;
    }

    /** The records that await delivery; a checkpoint beyond the log counts as none. */
    method UncommittedCount() returns (r: Result<nat>)
      requires Valid()
      ensures closed ==> r == Err(StorageUnavailable)
      ensures !closed ==> r.Ok?
      ensures !closed && joined ==> r == Ok(Max(0, |hist| - checkpoint)) && r.value <= Max(maxCapacity, backlog)
    {
      hide Sane, Recorded, IdsKnown;
      if closed {
        return Err(StorageUnavailable);
      }
      if joined {
        Positions();
        Bounds();
      }
      var total := baseOffset + |records|;
      var count := total - checkpoint;
      if count < 0 {
        return Ok(0);
      }
      return Ok(count);
    }

    /**
     * The greatest identifier ever found or appended, 0 if there is none; so no record of the log has a greater one.
     */
    method LastID() returns (id: uint64)
      requires Valid()
      ensures forall i :: 0 <= i < |known| ==> IdOf(known[i]) <= id
      ensures id == 0 || exists i :: 0 <= i < |known| && IdOf(known[i]) == id
      ensures joined ==> forall o :: baseOffset <= o < |hist| ==> IdOf(hist[o]) <= id
      ensures id == maxID
    {
      hide Sane, Recorded, MaxId, IdOf;
      MaxIdSpec(known, 0);
      return maxID;
    }

    /**
     * Close flushes, forces and closes the segment file; a second Close finds nothing left to do and reports the same.
     * Without an error the whole log is durable.
     */
    method Close() returns (err: Option<Error>)
      requires Valid()
      modifies `closed, `closeDone, `closeErr, `files, `cursor, `past, `buffer, `stuck, `synced, `walOpen, `forced
      ensures old(past) <= past
      ensures Valid() && closed && closeDone && err == closeErr
      ensures old(closeDone) ==> unchanged(`past) && err == old(closeErr)
      ensures old(forced) ==> forced
      ensures !old(closeDone) && reliable ==> err == None
      ensures !old(closeDone) && old(walOpen) && err == None && Sound() ==>
                TailSafe(Here(hist)) && Durable(Here(hist)) == |hist|
    {
      hide Valid, TailSafe, Durable, IdsKnown;
      Scalars();
      if closeDone {
        MarkClosed(closeErr);
        return closeErr;
      }
      MarkClosed(None);
      if walOpen {
        var flushed := FlushBuffer();
        flushed := flushed && !stuck;
        var synced := SyncWal();
        Scalars();
        if flushed && synced {
          AllForced();
        }
        LetGo(if flushed && synced then None else Some(StorageUnavailable));
      }
      return closeErr;
    }

    method MarkClosed(e: Option<Error>)
      requires Valid()
      modifies `closed, `closeDone, `closeErr
      ensures Valid() && closed && closeDone && closeErr == e
    {
      hide Arrived, ArrivedStrong, Sane, IdsKnown;
      closed, closeDone, closeErr := true, true, e;
    }

    /** Closing the segment file ends the claims on the running engine, and leaves those on the disk. */
    method LetGo(e: Option<Error>)
      requires Valid() && walOpen && closed
      modifies `walOpen, `closeErr
      ensures Valid() && !walOpen && closeErr == e
    {
      hide Arrived, ArrivedStrong, Sane, IdsKnown;
      walOpen, closeErr := false, e;
    }

    // ----- Recovery.

    /** A call on the operating system. */
    method OsCall() returns (ok: bool)
      ensures reliable ==> ok
    {
      ok := true;
      if !reliable {
        ok := *;
      }
    }

    /** Truncates a segment file during recovery, if there is anything to cut off; nothing is forced. */
    method TrimFile(b: nat, n: nat) returns (ok: bool)
      requires b in files && b in synced && n <= |files[b]|
      modifies `files, `synced
      ensures reliable ==> ok
      ensures ok ==> files == old(files)[b := old(files[b])[..n]] && synced == old(synced)[b := Min(old(synced[b]), n)]
      ensures !ok ==> unchanged(`files) && unchanged(`synced) && n < |files[b]|
    {
      ok := true;
      if n < |files[b]| {
        ok := OsCall();
      }
      if ok {
        files, synced := files[b := files[b][..n]], synced[b := Min(synced[b], n)];
      }
    }

    /**
     * Reads one segment file from its start: indexes every frame up to the first that is cut short, has a bad magic or
     * version, or claims too much, and truncates the file there.  It fails, and leaves the file as it was, only if
     * there was something to cut off and that failed.
     */
    method RecoverSegment(b: nat) returns (end: nat, ok: bool)
      requires b in files && b in synced
      modifies `files, `synced, `records, `maxID
      ensures reliable ==> ok
      ensures ok ==> files == old(files)[b := Concat(Parse(old(files[b])))]
      ensures ok ==> synced == old(synced)[b := Min(old(synced[b]), |files[b]|)]
      ensures records == old(records) + IndexOf(Parse(old(files[b])), b)
      ensures maxID == MaxId(Parse(old(files[b])), old(maxID))
      ensures end == |Concat(Parse(old(files[b])))|
      ensures !ok ==> unchanged(`files) && unchanged(`synced) && end < |files[b]|
    {
      hide Parse, Concat, IndexOf, MaxId, IdOf, ClaimedLength, MagicOk;
      var file := files[b];
      var curPos, offsetCounter := 0, b;
      ghost var fs: seq<Frame> := [];
      StartsEmpty(file, b, maxID);
      while curPos < |file|
        invariant unchanged(`files) && unchanged(`synced)
        invariant 0 <= curPos <= |file| && offsetCounter == b + |fs|
        invariant Concat(fs) == file[..curPos]
        invariant Parse(file) == fs + Parse(file[curPos..])
        invariant records == old(records) + IndexOf(fs, b)
        invariant maxID == MaxId(fs, old(maxID))
        decreases |file| - curPos
      {
        var rest := file[curPos..];
        if |rest| < HEADER_SIZE {
          break;
        }
        if !MagicOk(rest) {
          break;
        }
        var n := ClaimedLength(rest);
        if n > MAX_RECOVERABLE {
          break;
        }
        if n > |rest| {
          break;
        }
        RecoverFrame(file, curPos, fs);
        IndexOfSnoc(fs, b, rest[..n]);
        MaxIdSnoc(fs, old(maxID), rest[..n]);
        var recID := ClaimedId(rest);
        if recID > maxID {
          maxID := recID;
        }
        records := records + [OffsetPos(offsetCounter, b, curPos, n)];
        offsetCounter := offsetCounter + 1;
        fs := fs + [rest[..n]];
        curPos := curPos + n;
      }
      NothingMore(file[curPos..]);
      assert fs + [] == fs;
      ok := TrimFile(b, curPos);
      return curPos, ok;
    }

    static lemma StartsEmpty(file: seq<byte>, b: nat, m: uint64)
      ensures Concat([]) == file[..0] && Parse(file) == [] + Parse(file[0..]) && IndexOf([], b) == []
              && MaxId([], m) == m
    {
      assert file[0..] == file;
    }

    static lemma NothingMore(rest: seq<byte>)
      ensures !HeadAccepted(rest) ==> Parse(rest) == []
    {
    }

    /** The bases of the directory's segment files, in increasing order. */
    static method SortedBases(dir: map<nat, seq<byte>>) returns (bs: seq<nat>)
      ensures Keyed(dir, bs) && forall i, j :: 0 <= i < j < |bs| ==> bs[i] < bs[j]
    {
      var rest := dir.Keys;
      bs := [];
      while rest != {}
        invariant rest <= dir.Keys && forall b :: b in dir <==> b in rest || b in bs
        invariant forall i, j :: 0 <= i < j < |bs| ==> bs[i] < bs[j]
        invariant forall b :: b in rest ==> forall i :: 0 <= i < |bs| ==> bs[i] < b
        decreases |rest|
      {
        var b := Least(rest);
        rest, bs := rest - {b}, bs + [b];
      }
    }

    static method Least(s: set<nat>) returns (b: nat)
      requires s != {}
      ensures b in s && forall x :: x in s ==> b <= x
    {
      LeastExists(s);
      b :| b in s && forall x :: x in s ==> b <= x;
    }

    /** The files are those of `dir`, cut behind their frames, and no more of them is on the medium than before. */
    ghost predicate OnlyTrimmed(dir: map<nat, seq<byte>>, kept: map<nat, nat>)
      reads `files, `synced
    {
      files == Trimmed(dir) && synced == Clipped(kept, files)
    }

    /** Recovers every segment in turn, until one cannot be opened or cut. */
    method RecoverSegments(bs: seq<nat>) returns (end: nat, ok: bool)
      requires Chain(bs) && Keyed(files, bs) && Keyed(synced, bs) && records == [] && maxID == 0
      modifies `files, `synced, `records, `maxID
      ensures reliable ==> ok
      ensures ok ==> OnlyTrimmed(old(files), old(synced))
      ensures ok ==> records == IndexAll(old(files), bs) && maxID == MaxId(Flatten(old(files), bs), 0)
      ensures ok ==> Last(bs) in files && end == |files[Last(bs)]|
      ensures !ok ==> exists i: nat :: i < |bs| && RecoveredSome(old(files), old(synced), bs, i, files, synced)
    {
      hide Parse, Concat, Trimmed, Clipped, MaxId, RecoveredSome;
      ghost var dir, kept := files, synced;
      StartsEmpty([], 0, 0);
      RecoveredNone(bs, files, synced);
      end, ok := 0, true;
      for i := 0 to |bs|
        invariant ok && RecoveredSome(dir, kept, bs, i, files, synced)
        invariant forall b :: b in bs[..i] ==> b in dir
        invariant records == IndexAll(dir, bs[..i]) && maxID == MaxId(Flatten(dir, bs[..i]), 0)
        invariant i > 0 ==> bs[i - 1] in files && end == |files[bs[i - 1]]|
      {
        RecoveredNext(dir, kept, bs, i, files, synced);
        ok := OsCall();
        if !ok {
          return;
        }
        ghost var half, on := files, synced;
        end, ok := RecoverSegment(bs[i]);
        if !ok {
          assert files == half && synced == on;
          return;
        }
        assert bs[..i + 1][..i] == bs[..i];
        MaxIdAppend(Flatten(dir, bs[..i]), Parse(dir[bs[i]]), 0);
      }
      assert bs[..|bs|] == bs;
      RecoveredAll(dir, kept, bs, files, synced);
    }

    /**
     * What Open has to find: after `before`, a run that has stopped and left these files, of which `kept` bytes are
     * on the medium; or else any files, with `kept` as a stop may leave it.
     */
    static ghost predicate Resumes(before: seq<Moment>, dir: map<nat, seq<byte>>, kept: map<nat, nat>, meta: nat) {
      if before == [] then Measured(dir, kept)
      else
        var a := before[|before| - 1];
        Journey(before) && TailSafe(a) && Stops(a, dir, kept) && meta == a.saved
    }

    /** A buffer size of 0 stands for the default. */
    static function Normal(options: Options): (r: Options)
      ensures r.bufferSize > 0
    {
      options.(bufferSize := if options.bufferSize == 0 then 128 * 1024 else options.bufferSize)
    }

    static lemma DefaultBuffer(options: Options)
      ensures Normal(options) == options.(bufferSize :=
                if options.bufferSize == 0 then 128 * 1024 else options.bufferSize)
    {
    }

    /** Opening an empty directory creates the first segment file. */
    static function Created(dir: map<nat, seq<byte>>): map<nat, seq<byte>> {
      if dir == map[] then map[0 := []] else dir
    }

    static ghost function Held(dir: map<nat, seq<byte>>, kept: map<nat, nat>): map<nat, nat> {
      if dir == map[] then map[0 := 0] else kept
    }

    /** The log that Open has found. */
    ghost predicate Opened(dir: map<nat, seq<byte>>, before: seq<Moment>)
      requires Chain(found) && Keyed(dir, found)
      reads `joined, `garbled, `torn, `found, `hist, `checkpoint, `handed, `inherited, `saved, `exposed, `orderly,
          `rooted
      reads `durable, `forced
    {
      && (joined <==> Contiguous(dir, found)) && !torn && !garbled && orderly
      && (joined ==> |hist| >= found[0] && hist[found[0]..] == Flatten(dir, found) && inherited == |hist|
                     && checkpoint == Min(saved, |hist|) && handed == Max(checkpoint, found[0]))
      && (Sound() ==> rooted)
      && (before == [] && joined ==> (Sound() <==> found[0] <= saved))
      && (before == [] && joined && found[0] <= saved <= |hist| && forced ==> Strong())
      && (before != [] ==> Survived(before))
    }

    /** ... after a stop: the log before it, cut behind its durable records, on the same run. */
    ghost predicate Survived(before: seq<Moment>)
      requires before != []
      reads `joined, `torn, `hist, `checkpoint, `saved, `exposed, `durable
    {
      var a := before[|before| - 1];
      && Sound() && TailSafe(a)
      && hist <= a.hist && Durable(a) <= |hist|
      && (StrongJourney(before) ==> Strong() && checkpoint == saved)
    }

    /** Every field, once the segments `found` of `dir` have been read. */
    ghost predicate Settled(dir: map<nat, seq<byte>>, kept: map<nat, nat>, pruned: seq<Frame>)
      reads this
    {
      && Chain(found) && Keyed(dir, found) && bases == found && Last(found) in files && |pruned| == found[0]
      && Measured(dir, kept) && OnlyTrimmed(dir, kept) && records == IndexAll(dir, found)
      && walOpen && activeSegBase == Last(found) && baseOffset == found[0]
      && cursor == writePos == |files[activeSegBase]|
      && buffer == [] && !stuck && opts.bufferSize > 0
      && joined == Contiguous(dir, found) && !torn && !garbled && hist == pruned + Flatten(dir, found)
      && known == Flatten(dir, found) && maxID == MaxId(known, 0)
      && checkpoint == Min(saved, |hist|) && handed == Max(checkpoint, baseOffset) && orderly
      && rooted == (baseOffset <= checkpoint) && backlog == |hist| - checkpoint && inherited == |hist|
      && exposed == (saved < baseOffset) && durable == (StrongJourney(past) && checkpoint == saved)
      && ForcedNow()
    }

    /** Whether anything of the active file is left unforced. */
    ghost predicate ForcedNow()
      reads `activeSegBase, `files, `synced, `forced
    {
      && activeSegBase in synced && activeSegBase in files
      && (forced <==> synced[activeSegBase] == |files[activeSegBase]|)
    }

    lemma SettledOk(dir: map<nat, seq<byte>>, kept: map<nat, nat>, pruned: seq<Frame>)
      requires Settled(dir, kept, pruned) && joined
      ensures Sane(Cfg(), Snap(), false, false) && hist[found[0]..] == Flatten(dir, found)
      ensures TailSafe(Here(hist)) <==> baseOffset <= saved
      ensures baseOffset <= saved && forced ==> Durable(Here(hist)) == |hist|
    {
      hide Trimmed, Clipped, Measured, IndexAll, Flatten, Contiguous, StrongJourney, Laid, EngineOk, Placed, TailSafe;
      hide Whole;
      hide Keyed, Chain, MaxId;
      RecoveredOk(Cfg(), dir, kept, pruned, Snap());
      RecoveredSafe(Cfg(), Snap());
    }

    lemma SettledIds(dir: map<nat, seq<byte>>, kept: map<nat, nat>, pruned: seq<Frame>)
      requires Settled(dir, kept, pruned)
      ensures IdsKnown()
    {
      hide Trimmed, Clipped, Measured, IndexAll, Contiguous, StrongJourney, MaxId;
      NamedFound(pruned, Flatten(dir, found));
    }

    lemma SettledFresh(dir: map<nat, seq<byte>>, kept: map<nat, nat>, pruned: seq<Frame>)
      requires Settled(dir, kept, pruned) && past == [Here(hist)]
      ensures Valid() && Opened(dir, [])
    {
      hide Trimmed, Clipped, Measured, IndexAll, Flatten, Contiguous, StrongJourney, Journey, Sane, TailSafe, MaxId;
      hide IdsKnown;
      SettledIds(dir, kept, pruned);
      if joined {
        SettledOk(dir, kept, pruned);
        OneMoment(Here(hist));
      }
    }

    /** The log below the oldest segment: what it was before the stop, or nothing known. */
    static ghost function PrunedPart(before: seq<Moment>, b: nat): (fs: seq<Frame>)
      ensures |fs| == b
    {
      if before == [] || |before[|before| - 1].hist| < b then seq(b, i => []) else before[|before| - 1].hist[..b]
    }

    /** The run of the disk that Open continues. */
    ghost predicate Resumed(dir: map<nat, seq<byte>>, kept: map<nat, nat>, before: seq<Moment>)
      reads `past, `bases, `files, `synced, `saved, `hist
    {
      past == if before == [] then [Here(hist)]
              else before + [before[|before| - 1].(files := dir, synced := kept), Here(hist)]
    }

    lemma SettledAfterStop(dir: map<nat, seq<byte>>, kept: map<nat, nat>, before: seq<Moment>)
      requires before != [] && Resumes(before, dir, kept, saved)
      requires found != [] && Settled(dir, kept, PrunedPart(before, found[0])) && Resumed(dir, kept, before)
      ensures Valid() && Opened(dir, before)
    {
      hide Trimmed, Clipped, Measured, IndexAll, Flatten, Contiguous, StrongJourney, Journey, Sane, TailSafe, Stops;
      hide MaxId;
      hide Resumes, Resumed, Keyed, PrunedPart, IdsKnown;
      RunGoesOn(dir, kept, before);
      SettledIds(dir, kept, PrunedPart(before, found[0]));
      SettledOk(dir, kept, PrunedPart(before, found[0]));
    }

    /** Recovery continues the run of the disk, with what the stop has left of the log. */
    lemma RunGoesOn(dir: map<nat, seq<byte>>, kept: map<nat, nat>, before: seq<Moment>)
      requires before != [] && Resumes(before, dir, kept, saved)
      requires found != [] && Settled(dir, kept, PrunedPart(before, found[0])) && Resumed(dir, kept, before)
      ensures joined && Arrived(past, Here(hist))
              && (StrongJourney(before) ==> ArrivedStrong(past, Here(hist)) && saved <= |hist|)
      ensures TailSafe(Here(hist)) && TailSafe(before[|before| - 1])
      ensures hist <= before[|before| - 1].hist && Durable(before[|before| - 1]) <= |hist|
    {
      hide Trimmed, Clipped, Measured, IndexAll, Flatten, Contiguous, StrongJourney, Journey, Sane, TailSafe, Crash;
      hide Stops;
      hide Reach, Concat, Parse, Durable, Sealed, MaxId, PrunedPart, Keyed, Chain;
      var a := before[|before| - 1];
      var n := LogFound(found, a, dir, kept, before);
      ResumeRun(before, dir, kept, past[|before|], Here(hist), n);
    }

    /** After a stop the segments found are those of the log, and hold it up to some record `n`. */
    static lemma LogFound(found: seq<nat>, a: Moment, dir: map<nat, seq<byte>>, kept: map<nat, nat>,
                          before: seq<Moment>)
      returns (n: nat)
      requires before != [] && a == before[|before| - 1] && TailSafe(a) && Stops(a, dir, kept)
      requires Chain(found) && Keyed(dir, found)
      ensures found == a.bases && Contiguous(dir, found) && Last(found) <= n <= |a.hist| && Durable(a) <= n
      ensures Last(found) in dir && n == Reach(a.bases, a.hist, |dir[Last(found)]|)
      ensures PrunedPart(before, found[0]) + Flatten(dir, found) == a.hist[..n]
      ensures Trimmed(dir) == dir[Last(found) := Concat(a.hist[Last(found)..n])]
    {
      hide TailSafe, Stops, Crash, Flatten, Contiguous, Trimmed, Durable, Reach, Concat;
      StopIsACrash(a, dir, kept);
      CrashShape(a, dir);
      SortedUnique(found, a.bases);
      n := CrashMakesLog(a, dir);
    }

    /** Points the writer at the end of the last segment and clamps the checkpoint to the recovered log. */
    method SetCursors(bs: seq<nat>, end: nat)
      requires |bs| >= 1
      modifies `walOpen, `cursor, `writePos, `activeSegBase, `baseOffset, `checkpoint
      ensures walOpen && activeSegBase == Last(bs) && cursor == writePos == end && baseOffset == bs[0]
      ensures checkpoint == if old(checkpoint) <= bs[0] + |records| then old(checkpoint) else bs[0] + |records|
    {
      walOpen, activeSegBase, cursor, writePos, baseOffset := true, Last(bs), end, end, bs[0];
      var totalRecovered := baseOffset + |records|;
      if checkpoint > totalRecovered {
        checkpoint := totalRecovered;
      }
    }

    /** What the recovered fields stand for. */
    ghost method Settle(bs: seq<nat>, dir: map<nat, seq<byte>>, kept: map<nat, nat>, before: seq<Moment>)
      requires Chain(bs) && Keyed(dir, bs) && Measured(dir, kept) && OnlyTrimmed(dir, kept)
      requires Last(bs) in files && Last(bs) in synced && records == IndexAll(dir, bs)
      requires walOpen && activeSegBase == Last(bs) && cursor == writePos == |files[Last(bs)]| && baseOffset == bs[0]
      requires checkpoint == if saved <= bs[0] + |records| then saved else bs[0] + |records|
      requires buffer == [] && !stuck && opts.bufferSize > 0 && |records| == |Flatten(dir, bs)|
      requires maxID == MaxId(Flatten(dir, bs), 0)
      modifies `bases, `hist, `known, `past, `handed, `backlog, `inherited, `joined, `garbled, `torn, `exposed, `orderly
      modifies `rooted, `durable, `forced, `found
      ensures found == bases == bs && Settled(dir, kept, PrunedPart(before, found[0])) && Resumed(dir, kept, before)
    {
      hide Trimmed, Clipped, Measured, IndexAll, Flatten, Contiguous, StrongJourney, PrunedPart, Last, Resumed, MaxId;
      hide Settled, ForcedNow, OnlyTrimmed;
      SettleLog(bs, PrunedPart(before, bs[0]) + Flatten(dir, bs), Flatten(dir, bs), Contiguous(dir, bs));
      SettleCounts();
      SettlePast(dir, kept, before);
      SettledAll(bs, dir, kept, before);
    }

    lemma SettledAll(bs: seq<nat>, dir: map<nat, seq<byte>>, kept: map<nat, nat>, before: seq<Moment>)
      requires Chain(bs) && Keyed(dir, bs) && bases == found == bs && Last(bs) in files && walOpen
      requires Measured(dir, kept) && OnlyTrimmed(dir, kept) && records == IndexAll(dir, bs)
      requires activeSegBase == Last(bs) && baseOffset == bs[0] && cursor == writePos == |files[activeSegBase]|
      requires buffer == [] && !stuck && opts.bufferSize > 0 && known == Flatten(dir, bs) && maxID == MaxId(known, 0)
      requires joined == Contiguous(dir, bs) && !torn && !garbled
               && hist == PrunedPart(before, bs[0]) + Flatten(dir, bs)
      requires checkpoint == Min(saved, |hist|) && handed == Max(checkpoint, baseOffset) && orderly
      requires rooted == (baseOffset <= checkpoint) && backlog == |hist| - checkpoint && inherited == |hist|
      requires exposed == (saved < baseOffset) && durable == (StrongJourney(past) && checkpoint == saved) && ForcedNow()
      ensures Settled(dir, kept, PrunedPart(before, bs[0]))
    {
      hide Trimmed, Clipped, Measured, IndexAll, Flatten, Contiguous, StrongJourney, PrunedPart, Last, MaxId, ForcedNow;
    }

    ghost method SettleLog(bs: seq<nat>, h: seq<Frame>, fs: seq<Frame>, whole: bool)
      modifies `bases, `hist, `known, `joined, `garbled, `torn, `found
      ensures bases == found == bs && hist == h && known == fs && joined == whole && !garbled && !torn
    {
      bases, found, hist, known, joined, garbled, torn := bs, bs, h, fs, whole, false, false;
    }

    ghost method SettleCounts()
      requires checkpoint <= |hist| && activeSegBase in files && activeSegBase in synced
      modifies `handed, `backlog, `inherited, `exposed, `orderly, `rooted, `forced
      ensures handed == Max(checkpoint, baseOffset) && orderly && rooted == (baseOffset <= checkpoint)
      ensures backlog == |hist| - checkpoint && inherited == |hist| && exposed == (saved < baseOffset)
      ensures ForcedNow()
    {
      handed, orderly, rooted := Max(checkpoint, baseOffset), true, baseOffset <= checkpoint;
      backlog, inherited, exposed := |hist| - checkpoint, |hist|, saved < baseOffset;
      forced := synced[activeSegBase] == |files[activeSegBase]|;
    }

    ghost method SettlePast(dir: map<nat, seq<byte>>, kept: map<nat, nat>, before: seq<Moment>)
      modifies `past, `durable
      ensures Resumed(dir, kept, before)
      ensures durable == (StrongJourney(past) && checkpoint == saved)
    {
      hide StrongJourney;
      past := if before == [] then [Here(hist)]
              else before + [before[|before| - 1].(files := dir, synced := kept), Here(hist)];
      durable := StrongJourney(past) && checkpoint == saved;
    }

    /**
     * What Open makes of the directory: its log is found, its highest identifier known, its committed segments
     * pruned.  It forces nothing: of each file at most what was on the medium before is there now.
     */
    ghost predicate Ready(dir: map<nat, seq<byte>>, kept: map<nat, nat>, before: seq<Moment>)
      reads this
    {
      && Chain(found) && Keyed(dir, found) && Keyed(kept, found) && Opened(dir, before) && before <= past
      && known == Flatten(dir, found) && maxID == MaxId(known, 0)
      && (forced <==> kept[Last(found)] >= |Concat(Parse(dir[Last(found)]))|)
      && (joined ==>
            if opts.maxSegmentSize > 0 then exists k :: Pruned(found, bases, checkpoint, k) else bases == found)
      && (opts.maxSegmentSize <= 0 ==> OnlyTrimmed(dir, kept))
    }

    /** The rest of recovery, once the segments have been read. */
    method FinishOpen(bs: seq<nat>, end: nat, ghost dir: map<nat, seq<byte>>, ghost kept: map<nat, nat>,
                      ghost before: seq<Moment>)
      requires Chain(bs) && Keyed(dir, bs) && Measured(dir, kept) && OnlyTrimmed(dir, kept)
      requires Last(bs) in files && Last(bs) in synced && records == IndexAll(dir, bs) && end == |files[Last(bs)]|
      requires checkpoint == saved && maxID == MaxId(Flatten(dir, bs), 0)
      requires buffer == [] && !stuck && opts.bufferSize > 0 && Resumes(before, dir, kept, saved)
      modifies `walOpen, `cursor, `writePos, `activeSegBase, `baseOffset, `checkpoint
      modifies `bases, `hist, `known, `past, `handed, `backlog, `inherited, `joined, `garbled, `torn, `exposed, `orderly
      modifies `rooted, `durable, `forced, `found
      ensures Valid() && walOpen && found == bs && bases == bs && Opened(dir, before) && before <= past
      ensures known == Flatten(dir, bs) && activeSegBase == Last(bs) && ForcedNow()
    {
      hide Trimmed, Clipped, Measured, IndexAll, Valid, Opened, Resumes, Flatten, MaxId, Settled, OnlyTrimmed;
      SetCursors(bs, end);
      IndexLength(dir, bs);
      Settle(bs, dir, kept, before);
      SettledFlags(dir, kept, PrunedPart(before, found[0]));
      if before == [] {
        SettledFresh(dir, kept, PrunedPart(before, found[0]));
      } else {
        SettledAfterStop(dir, kept, before);
      }
    }

    lemma SettledFlags(dir: map<nat, seq<byte>>, kept: map<nat, nat>, pruned: seq<Frame>)
      requires Settled(dir, kept, pruned)
      ensures activeSegBase == Last(found) && known == Flatten(dir, found) && ForcedNow()
    {
      hide Trimmed, Clipped, Measured, IndexAll, Contiguous, StrongJourney, MaxId, Flatten;
    }

    /** The fields as they are before recovery. */
    constructor (dir: map<nat, seq<byte>>, meta: nat, capacity: int, options: Options, reliable: bool,
                 ghost kept: map<nat, nat>)
      ensures maxCapacity == capacity && opts == Normal(options) && this.reliable == reliable
      ensures files == Created(dir) && synced == Held(dir, kept) && saved == checkpoint == meta
      ensures buffer == [] && !stuck && records == [] && maxID == 0 && !closed && !closeDone
    {
      maxCapacity, opts, this.reliable := capacity, Normal(options), reliable;
      files, synced := Created(dir), Held(dir, kept);
      saved, checkpoint := meta, meta;
      walOpen, cursor, buffer, stuck, writePos := false, 0, [], false, 0;
      activeSegBase, baseOffset, records, maxID, closed, closeDone, closeErr := 0, 0, [], 0, false, false, None;
      bases, hist, known, past, handed, backlog, inherited, found := [], [], [], [], 0, 0, 0, [];
      joined, rooted, torn, garbled := false, false, false, false;
      exposed, orderly, durable, forced, uncut := false, false, false, false, false;
    }

    /**
     * What an Open that failed has left: some of the files cut behind their frames, and after a stop nothing changed at
     * all.
     */
    static ghost predicate LeftBy(dir: map<nat, seq<byte>>, kept: map<nat, nat>, before: seq<Moment>,
                                  left: map<nat, seq<byte>>, on: map<nat, nat>) {
      if before != [] then left == dir && on == kept
      else (left == dir && on == kept) || HalfCut(Created(dir), Held(dir, kept), left, on)
    }

    static ghost predicate HalfCut(dir: map<nat, seq<byte>>, kept: map<nat, nat>, left: map<nat, seq<byte>>,
                                   on: map<nat, nat>) {
      && left.Keys == dir.Keys == on.Keys == kept.Keys
      && forall b :: b in dir ==>
           (left[b] == dir[b] || left[b] == Concat(Parse(dir[b]))) && on[b] == Min(kept[b], |left[b]|)
    }

    /**
     * Opens a directory of segment files `dir` with checkpoint file `meta`; single-file mode finds one file only.
     * `before` is the run of the disk up to the stop that left it so, and `kept` how much of each file is on the
     * medium.  An Open that fails leaves the files `left`, of which `on` is on the medium, and can be tried again.
     */
    static method Open(dir: map<nat, seq<byte>>, meta: nat, capacity: int, options: Options, reliable: bool,
                       ghost kept: map<nat, nat>, ghost before: seq<Moment>)
      returns (err: Option<Error>, e: FileStorageEngine?, ghost left: map<nat, seq<byte>>, ghost on: map<nat, nat>)
      requires Resumes(before, dir, kept, meta)
      requires options.maxSegmentSize <= 0 ==> forall b :: b in dir ==> b == 0
      ensures capacity <= 0 ==> err == Some(PreconditionViolated)
      ensures capacity > 0 ==> err == None || (err == Some(StorageUnavailable) && !reliable)
      ensures err != None ==> LeftBy(dir, kept, before, left, on) && Resumes(before, left, on, meta)
      ensures err != None && options.maxSegmentSize <= 0 ==> forall b :: b in left ==> b == 0
      ensures err == None ==>
                e != null && fresh(e) && e.Valid() && e.Ready(Created(dir), Held(dir, kept), before)
      ensures err == None ==>
                && e.maxCapacity == capacity && e.opts.bufferSize > 0 && e.opts == options.(bufferSize :=
                     if options.bufferSize == 0 then 128 * 1024 else options.bufferSize)
                && e.opts == Normal(options) && e.reliable == reliable && e.saved == meta
                && e.walOpen && !e.closed && !e.closeDone
    {
      hide *;
      hide LeftBy;
      left, on := dir, kept;
      NothingDone(dir, kept, before);
      DefaultBuffer(options);
      if capacity <= 0 {
        return Some(PreconditionViolated), null, left, on;
      }
      var made := true;
      if !reliable {
        made := *;
      }
      if !made {
        return Some(StorageUnavailable), null, left, on;
      }
      err := None;
      e := new FileStorageEngine(dir, meta, capacity, options, reliable, kept);
      CreatedHasFiles(dir, kept, before, meta);
      var ok := e.Recover(before);
      if !ok {
        left, on := e.files, e.synced;
        Retry(dir, kept, before, meta, left, on);
        return Some(StorageUnavailable), null, left, on;
      }
    }

    static lemma NothingDone(dir: map<nat, seq<byte>>, kept: map<nat, nat>, before: seq<Moment>)
      ensures LeftBy(dir, kept, before, dir, kept)
    {
    }

    /** What a failed recovery leaves can be opened again. */
    static lemma Retry(dir: map<nat, seq<byte>>, kept: map<nat, nat>, before: seq<Moment>, meta: nat,
                       left: map<nat, seq<byte>>, on: map<nat, nat>)
      requires Resumes(before, dir, kept, meta) && Created(dir) != map[]
      requires Measured(Created(dir), Held(dir, kept)) && HalfCut(Created(dir), Held(dir, kept), left, on)
      requires before != [] ==> left == Created(dir) && on == Held(dir, kept)
      ensures LeftBy(dir, kept, before, left, on) && Resumes(before, left, on, meta)
      ensures (forall b :: b in dir ==> b == 0) ==> forall b :: b in left ==> b == 0
    {
      hide TailSafe, Stops, Journey, Parse, Concat;
      if before != [] {
        StoppedHasFiles(dir, kept, before, meta);
      } else {
        forall b | b in left ensures |left[b]| <= |Created(dir)[b]| {
          ParseIsAPrefix(Created(dir)[b]);
        }
        assert Measured(left, on);
      }
    }

    static lemma StoppedHasFiles(dir: map<nat, seq<byte>>, kept: map<nat, nat>, before: seq<Moment>, meta: nat)
      requires Resumes(before, dir, kept, meta) && before != []
      ensures dir != map[]
    {
      var a := before[|before| - 1];
      StopIsACrash(a, dir, kept);
      assert Last(a.bases) in dir;
    }

    /** Recovery of the files and the checkpoint as they stand. */
    method Recover(ghost before: seq<Moment>) returns (ok: bool)
      requires records == [] && maxID == 0 && checkpoint == saved && buffer == [] && !stuck && opts.bufferSize > 0
      requires files != map[] && Measured(files, synced) && Resumes(before, files, synced, saved)
      modifies `files, `synced, `records, `maxID, `walOpen, `cursor, `writePos, `activeSegBase, `baseOffset, `checkpoint
      modifies `bases, `hist, `known, `past, `handed, `backlog, `inherited, `joined, `garbled, `torn, `exposed, `orderly
      modifies `rooted, `durable, `forced, `found
      ensures reliable ==> ok
      ensures ok ==> Valid() && walOpen && Ready(old(files), old(synced), before)
      ensures !ok ==> HalfCut(old(files), old(synced), files, synced) && saved == old(saved)
      ensures !ok && before != [] ==> unchanged(`files) && unchanged(`synced)
    {
      hide Flatten, IndexAll, Trimmed, Clipped, MaxId, Valid, Opened, Stops, TailSafe, Journey, Pruned, Resumes;
      hide Measured;
      hide Ready, IdsKnown, Parse, Concat, OnlyTrimmed, HalfCut, RecoveredSome, Named, Arrived, ArrivedStrong;
      ghost var dir, kept := files, synced;
      MeasuredKeys(dir, kept);
      var bs := SortedBases(files);
      HasBases(files, bs);
      var end;
      end, ok := RecoverSegments(bs);
      if !ok {
        ghost var i: nat :| i < |bs| && RecoveredSome(dir, kept, bs, i, files, synced);
        HalfDone(dir, kept, bs, i, files, synced);
        if before != [] {
          NotTouched(dir, kept, before, saved, bs, i, files, synced);
        }
        return;
      }
      FinishRecovery(bs, end, dir, kept, before);
    }

    /** The rest of recovery, pruning included. */
    method FinishRecovery(bs: seq<nat>, end: nat, ghost dir: map<nat, seq<byte>>, ghost kept: map<nat, nat>,
                          ghost before: seq<Moment>)
      requires Chain(bs) && Keyed(dir, bs) && Measured(dir, kept) && OnlyTrimmed(dir, kept) && kept.Keys == dir.Keys
      requires Last(bs) in files && records == IndexAll(dir, bs) && end == |files[Last(bs)]|
      requires checkpoint == saved && maxID == MaxId(Flatten(dir, bs), 0)
      requires buffer == [] && !stuck && opts.bufferSize > 0 && Resumes(before, dir, kept, saved)
      modifies `files, `synced, `records, `walOpen, `cursor, `writePos, `activeSegBase, `baseOffset, `checkpoint
      modifies `bases, `hist, `known, `past, `handed, `backlog, `inherited, `joined, `garbled, `torn, `exposed, `orderly
      modifies `rooted, `durable, `forced, `found
      ensures Valid() && walOpen && Ready(dir, kept, before)
    {
      hide Flatten, IndexAll, Trimmed, Clipped, MaxId, Valid, Opened, Stops, TailSafe, Journey, Pruned, Resumes;
      hide Measured, Ready, IdsKnown, Parse, Concat, OnlyTrimmed, Named, Arrived, ArrivedStrong;
      ClippedThere(dir, kept, bs);
      FinishOpen(bs, end, dir, kept, before);
      PruneIfSegmented();
      KnownIds();
      IsReady(dir, kept, before);
    }

    static lemma HalfDone(dir: map<nat, seq<byte>>, kept: map<nat, nat>, bs: seq<nat>, i: nat,
                          left: map<nat, seq<byte>>, on: map<nat, nat>)
      requires RecoveredSome(dir, kept, bs, i, left, on) && Measured(dir, kept)
      ensures HalfCut(dir, kept, left, on)
    {
      hide Parse, Concat;
      forall b | b in dir
        ensures (left[b] == dir[b] || left[b] == Concat(Parse(dir[b]))) && on[b] == Min(kept[b], |left[b]|)
      {
        var j :| 0 <= j < |bs| && bs[j] == b;
      }
    }

    /** After a stop only the last segment has anything to cut off. */
    static lemma NotTouched(dir: map<nat, seq<byte>>, kept: map<nat, nat>, before: seq<Moment>, meta: nat, bs: seq<nat>,
                            i: nat, left: map<nat, seq<byte>>, on: map<nat, nat>)
      requires before != [] && Resumes(before, dir, kept, meta) && Chain(bs) && Keyed(dir, bs) && Measured(dir, kept)
      requires i < |bs| && RecoveredSome(dir, kept, bs, i, left, on)
      ensures left == dir && on == kept
    {
      hide Parse, Concat, TailSafe, Stops, Journey, Contiguous, Flatten, Durable, Reach;
      ghost var n := LogFound(bs, before[|before| - 1], dir, kept, before);
      forall b | b in dir ensures left[b] == dir[b] && on[b] == kept[b] {
        var j :| 0 <= j < |bs| && bs[j] == b;
        if j < i {
          assert b != Last(bs);
          assert Trimmed(dir)[b] == dir[b];
        }
      }
    }

    lemma KnownIds()
      requires Valid()
      ensures maxID == MaxId(known, 0)
    {
      hide Recorded, Sane, MaxId;
    }

    lemma IsReady(dir: map<nat, seq<byte>>, kept: map<nat, nat>, before: seq<Moment>)
      requires Chain(found) && Keyed(dir, found) && Keyed(kept, found) && Opened(dir, before) && before <= past
      requires known == Flatten(dir, found) && maxID == MaxId(known, 0)
      requires forced <==> kept[Last(found)] >= |Concat(Parse(dir[Last(found)]))|
      requires joined ==> if opts.maxSegmentSize > 0 then exists k :: Pruned(found, bases, checkpoint, k)
                          else bases == found
      requires opts.maxSegmentSize <= 0 ==> OnlyTrimmed(dir, kept)
      ensures Ready(dir, kept, before)
    {
      hide Opened, Flatten, Trimmed, Clipped, MaxId, Pruned, Parse, Concat;
    }

    static lemma MeasuredKeys(dir: map<nat, seq<byte>>, kept: map<nat, nat>)
      requires Measured(dir, kept)
      ensures kept.Keys == dir.Keys
    {
    }

    lemma ClippedThere(dir: map<nat, seq<byte>>, kept: map<nat, nat>, bs: seq<nat>)
      requires OnlyTrimmed(dir, kept) && Keyed(dir, bs) && |bs| >= 1 && kept.Keys == dir.Keys
      ensures Last(bs) in files && Last(bs) in synced && Last(bs) in kept && Keyed(kept, bs)
      ensures synced[Last(bs)] == |files[Last(bs)]| <==> kept[Last(bs)] >= |Concat(Parse(dir[Last(bs)]))|
    {
      hide Trimmed, Clipped;
      ClippedAt(dir, kept, Last(bs));
      hide Parse, Concat;
    }

    static lemma ClippedAt(dir: map<nat, seq<byte>>, kept: map<nat, nat>, b: nat)
      requires b in dir && kept.Keys == dir.Keys
      ensures b in Trimmed(dir) && b in Clipped(kept, Trimmed(dir))
      ensures Clipped(kept, Trimmed(dir))[b] == |Trimmed(dir)[b]| <==> kept[b] >= |Concat(Parse(dir[b]))|
    {
      hide Parse, Concat;
    }

    static lemma HasBases(dir: map<nat, seq<byte>>, bs: seq<nat>)
      requires dir != map[] && Keyed(dir, bs)
      ensures |bs| >= 1
    {
      var b :| b in dir;
      assert b in bs;
    }

    static lemma CreatedHasFiles(dir: map<nat, seq<byte>>, kept: map<nat, nat>, before: seq<Moment>, meta: nat)
      requires Resumes(before, dir, kept, meta)
      ensures Created(dir) != map[] && Resumes(before, Created(dir), Held(dir, kept), meta)
      ensures Measured(Created(dir), Held(dir, kept))
    {
      assert dir == map[] ==> 0 in Created(dir);
      if before != [] {
        var a := before[|before| - 1];
        StopIsACrash(a, dir, kept);
        assert Last(a.bases) in dir;
        StopMeasured(a, dir, kept);
      }
    }

    static lemma StopMeasured(a: Moment, dir: map<nat, seq<byte>>, kept: map<nat, nat>)
      requires TailSafe(a) && Stops(a, dir, kept)
      ensures Measured(dir, kept)
    {
      StopIsACrash(a, dir, kept);
      hide TailSafe, Stops, Crash;
      assert Chain(a.bases) && Keyed(dir, a.bases) by {
        CrashShape(a, dir);
      }
      forall b, c | b in dir && c in dir && b < c ensures kept[b] == |dir[b]| {
        var i :| 0 <= i < |a.bases| && a.bases[i] == b;
        var j :| 0 <= j < |a.bases| && a.bases[j] == c;
      }
    }
  }
}
