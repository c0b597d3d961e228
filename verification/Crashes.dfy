/** What is on the disk of a segmented log at any moment, and what a crash at that moment can do to it. */
module Crashes {
  import opened Bytes
  import opened Frames
  import opened Wal

  // ----- The disk at one moment.

  /**
   * What the disk holds at one moment: the segment files, how many bytes of each have been forced to the medium, the
   * checkpoint file, and, for the argument, the frames handed to the log so far.
   */
  datatype Moment = Moment(
    bases: seq<nat>, files: map<nat, seq<byte>>, synced: map<nat, nat>, saved: nat, hist: seq<Frame>)

  /** Every sealed segment is on the medium in full, and the active one holds a byte prefix of its frames. */
  ghost predicate TailSafe(m: Moment) {
    && Sealed(m.bases, m.files, m.hist) && Keyed(m.synced, m.bases)
    && (forall i :: 0 <= i < |m.bases| - 1 ==> m.synced[m.bases[i]] == |m.files[m.bases[i]]|)
    && m.files[Last(m.bases)] <= Concat(m.hist[Last(m.bases)..])
    && m.synced[Last(m.bases)] <= |m.files[Last(m.bases)]|
    && m.bases[0] <= m.saved
    && (forall o :: m.bases[0] <= o < |m.hist| ==> Whole(m.hist[o]))
  }

  /** How many records of the log are on the medium. */
  ghost function Durable(m: Moment): nat
    requires TailSafe(m)
  {
    Reach(m.bases, m.hist, m.synced[Last(m.bases)])
  }

  /** The checkpoint file never promises a record that a crash could take away. */
  ghost predicate CheckpointSafe(m: Moment) {
    TailSafe(m) && m.saved <= Durable(m)
  }

  /** What a power cut may leave of the files: any byte prefix of each that is no shorter than its forced part. */
  ghost predicate Crash(m: Moment, files: map<nat, seq<byte>>)
    requires TailSafe(m)
  {
    && Keyed(files, m.bases)
    && forall b :: b in m.bases ==> files[b] <= m.files[b] && m.synced[b] <= |files[b]|
  }

  /** Every record is on the medium exactly when the bytes of all of them are. */
  lemma DurableInFull(m: Moment)
    requires TailSafe(m)
    ensures Durable(m) == |m.hist| <==> m.synced[Last(m.bases)] == |Concat(m.hist[Last(m.bases)..])|
  {
    var a := Last(m.bases);
    hide Sealed, Concat, Reach;
    assert NonEmpty(m.hist, a) by {
      assert forall o :: m.bases[0] <= o < |m.hist| ==> Whole(m.hist[o]);
    }
    ReachSpec(m.bases, m.hist, m.synced[a], |m.hist|);
    assert m.hist[a..|m.hist|] == m.hist[a..];
  }

  /** The power fails: what is left of the files is what the medium holds, `kept` bytes of each. */
  ghost predicate PowerCut(m: Moment, files: map<nat, seq<byte>>, kept: map<nat, nat>)
    requires TailSafe(m)
  {
    Crash(m, files) && Keyed(kept, m.bases) && forall b :: b in m.bases ==> kept[b] == |files[b]|
  }

  /**
   * The process dies: the operating system still has every byte it was given, and no more of them are on the medium.
   */
  ghost predicate ProcessDeath(m: Moment, files: map<nat, seq<byte>>, kept: map<nat, nat>) {
    files == m.files && kept == m.synced
  }

  /** The run stops at `m`, one way or the other, and leaves `files`, of which `kept` bytes are on the medium. */
  ghost predicate Stops(m: Moment, files: map<nat, seq<byte>>, kept: map<nat, nat>)
    requires TailSafe(m)
  {
    PowerCut(m, files, kept) || ProcessDeath(m, files, kept)
  }

  /** Either way: byte prefixes no shorter than what had been forced, and at least that much of them on the medium. */
  lemma StopIsACrash(m: Moment, files: map<nat, seq<byte>>, kept: map<nat, nat>)
    requires TailSafe(m) && Stops(m, files, kept)
    ensures Crash(m, files) && Keyed(kept, m.bases)
    ensures forall b :: b in m.bases ==> m.synced[b] <= kept[b] <= |files[b]|
    ensures forall i :: 0 <= i < |m.bases| - 1 ==> kept[m.bases[i]] == |files[m.bases[i]]|
  {
    forall b | b in m.bases ensures m.synced[b] <= |m.files[b]| {
      var i :| 0 <= i < |m.bases| && m.bases[i] == b;
    }
    assert forall i :: 0 <= i < |m.bases| ==> m.bases[i] in m.bases;
  }

  /**
   * The crash theorem for one moment: recovery reads back a prefix of the log, segment by segment, that holds every
   * durable record; and a safe checkpoint stays within it.
   */
  lemma CrashRecovery(m: Moment, files: map<nat, seq<byte>>)
    requires TailSafe(m) && Crash(m, files)
    ensures forall i: nat :: i < |m.bases| - 1 ==> SealedAt(m.bases, files, m.hist, i)
    ensures forall i: nat {:trigger SealedAt(m.bases, files, m.hist, i)} :: i < |m.bases| - 1 ==>
              Parse(files[m.bases[i]]) == m.hist[m.bases[i]..m.bases[i + 1]]
    ensures var a := Last(m.bases);
            var n := Reach(m.bases, m.hist, |files[a]|);
            && Parse(files[a]) == m.hist[a..n]
            && Durable(m) <= n <= |m.hist|
            && (CheckpointSafe(m) ==> m.bases[0] <= m.saved <= n)
  {
    forall i: nat | i < |m.bases| - 1
      ensures SealedAt(m.bases, files, m.hist, i)
      ensures Parse(files[m.bases[i]]) == m.hist[m.bases[i]..m.bases[i + 1]]
    {
      var b := m.bases[i];
      assert SealedAt(m.bases, m.files, m.hist, i);
      assert files[b] == m.files[b];
      ParseAll(m.hist[b..m.bases[i + 1]]);
    }
    var a := Last(m.bases);
    var k := |files[a]|;
    assert files[a] == Concat(m.hist[a..])[..k];
    ParseOfPrefix(m.hist[a..], k);
    assert m.hist[a..][..FramesIn(m.hist[a..], k)] == m.hist[a..Reach(m.bases, m.hist, k)];
    ReachMonotone(m.bases, m.hist, m.synced[a], k);
  }

  /** The least that a crash may leave. */
  ghost function Worst(m: Moment): map<nat, seq<byte>>
    requires TailSafe(m)
  {
    m.files[Last(m.bases) := m.files[Last(m.bases)][..m.synced[Last(m.bases)]]]
  }

  lemma WorstIsACrash(m: Moment)
    requires TailSafe(m)
    ensures Crash(m, Worst(m))
  {
    forall b | b in m.bases ensures Worst(m)[b] <= m.files[b] && m.synced[b] <= |Worst(m)[b]| {
      var i :| 0 <= i < |m.bases| && m.bases[i] == b;
    }
  }

  /** The checkpoint stays within the recovered log after every crash exactly when it is within the durable part now. */
  lemma CheckpointSafeExactly(m: Moment)
    requires TailSafe(m)
    ensures CheckpointSafe(m) <==>
              forall files :: Crash(m, files) ==>
                Last(m.bases) in files && m.saved <= Reach(m.bases, m.hist, |files[Last(m.bases)]|)
  {
    WorstIsACrash(m);
    forall files | Crash(m, files)
      ensures Last(m.bases) in files && Durable(m) <= Reach(m.bases, m.hist, |files[Last(m.bases)]|)
    {
      CrashRecovery(m, files);
    }
    assert |Worst(m)[Last(m.bases)]| == m.synced[Last(m.bases)];
  }

  // ----- Whole runs, crashes included.

  /** From `a` on to `b`, no durable record changed or left the log. */
  ghost predicate Keeps(a: Moment, b: Moment) {
    && TailSafe(a) && TailSafe(b)
    && Durable(a) <= Durable(b)
    && b.hist[..Durable(a)] == a.hist[..Durable(a)]
  }

  ghost predicate Journey(past: seq<Moment>) {
    var n := |past|;
    n > 0 ==> TailSafe(past[n - 1]) && (n > 1 ==> Journey(past[..n - 1]) && Keeps(past[n - 2], past[n - 1]))
  }

  ghost predicate StrongJourney(past: seq<Moment>) {
    var n := |past|;
    n > 0 ==>
      CheckpointSafe(past[n - 1])
      && (n > 1 ==> StrongJourney(past[..n - 1]) && Keeps(past[n - 2], past[n - 1])
                    && past[n - 2].saved <= past[n - 1].saved)
  }

  lemma JourneyStep(past: seq<Moment>, m: Moment)
    requires past != [] && Keeps(past[|past| - 1], m)
    ensures Journey(past) ==> Journey(past + [m])
    ensures StrongJourney(past) && CheckpointSafe(m) && past[|past| - 1].saved <= m.saved ==> StrongJourney(past + [m])
    ensures StrongJourney(past) && past[|past| - 1].saved == m.saved ==> StrongJourney(past + [m])
  {
    assert (past + [m])[..|past|] == past;
  }

  /** A journey cut short at any moment is a journey. */
  lemma {:induction false} JourneyPrefix(past: seq<Moment>, n: nat)
    requires n <= |past|
    ensures Journey(past) ==> Journey(past[..n])
    ensures StrongJourney(past) ==> StrongJourney(past[..n])
    decreases |past|
  {
    if n < |past| {
      JourneyPrefix(past[..|past| - 1], n);
      assert past[..|past| - 1][..n] == past[..n];
      assert |past| == 1 ==> past[..n] == [];
    } else {
      assert past[..n] == past;
    }
  }

  /** A record that was durable once stays in the log, at its offset and with its content, through every later crash. */
  lemma {:induction false} DurableForever(past: seq<Moment>, i: nat, j: nat)
    requires Journey(past) && i <= j < |past|
    ensures Keeps(past[i], past[j])
    decreases |past|
  {
    hide Keeps, TailSafe;
    var n := |past| - 1;
    var before := past[..n];
    if j < n {
      assert before[i] == past[i] && before[j] == past[j];
      DurableForever(before, i, j);
    } else if i < j {
      assert before[i] == past[i] && before[j - 1] == past[j - 1];
      DurableForever(before, i, j - 1);
      KeepsTransitive(past[i], past[j - 1], past[j]);
    } else {
      KeepsSelf(past[j]);
    }
  }

  lemma KeepsSelf(a: Moment)
    requires TailSafe(a)
    ensures Keeps(a, a)
  {
  }

  lemma KeepsTransitive(a: Moment, b: Moment, c: Moment)
    requires Keeps(a, b) && Keeps(b, c)
    ensures Keeps(a, c)
  {
    PrefixOfPrefix(c.hist, b.hist, Durable(b), Durable(a));
  }

  lemma PrefixOfPrefix(a: seq<Frame>, b: seq<Frame>, n: nat, k: nat)
    requires k <= n <= |a| && n <= |b| && a[..n] == b[..n]
    ensures a[..k] == b[..k]
  {
    assert a[..k] == a[..n][..k];
    assert b[..k] == b[..n][..k];
  }

  /** The saved checkpoint never goes back and never passes the durable end of the log. */
  lemma {:induction false} CheckpointForever(past: seq<Moment>, i: nat, j: nat)
    requires StrongJourney(past) && i <= j < |past|
    ensures CheckpointSafe(past[j]) && past[i].saved <= past[j].saved <= Durable(past[j])
    decreases |past|
  {
    hide Keeps, TailSafe;
    var n := |past| - 1;
    if j < n {
      CheckpointForever(past[..n], i, j);
    } else if i < j {
      CheckpointForever(past[..n], i, j - 1);
    }
  }

  // ----- The steps the disk takes.

  /** Announcing one more frame changes nothing on the disk. */
  lemma AnnounceStep(a: Moment, b: Moment, f: Frame)
    requires TailSafe(a) && b == a.(hist := a.hist + [f]) && Whole(f)
    ensures Keeps(a, b) && Durable(b) == Durable(a)
  {
    var t := Last(a.bases);
    assert b.hist[t..] == a.hist[t..] + [f];
    ConcatSnoc(a.hist[t..], f);
    FramesInExtend(a.hist[t..], [f], a.synced[t]);
    assert b.hist[..|a.hist|] == a.hist[..|a.hist|];
    SealedSame(a.bases, a.files, b.files, a.hist, b.hist, |a.hist|);
  }

  /** The active file grows by bytes of announced frames, or more of it is forced to the medium. */
  lemma GrowStep(a: Moment, b: Moment)
    requires TailSafe(a) && b == a.(files := b.files, synced := b.synced)
    requires Keyed(b.files, b.bases) && Keyed(b.synced, b.bases)
    requires forall x :: x in a.bases && x != Last(a.bases) ==> b.files[x] == a.files[x] && b.synced[x] == a.synced[x]
    requires a.synced[Last(a.bases)] <= b.synced[Last(a.bases)] <= |b.files[Last(a.bases)]|
    requires b.files[Last(a.bases)] <= Concat(a.hist[Last(a.bases)..])
    ensures Keeps(a, b)
  {
    SealedSame(a.bases, a.files, b.files, a.hist, b.hist, |a.hist|);
    ReachMonotone(a.bases, a.hist, a.synced[Last(a.bases)], b.synced[Last(a.bases)]);
  }

  /** A finished and forced segment is sealed by opening the next one. */
  lemma RotateStep(a: Moment, b: Moment)
    requires TailSafe(a) && Last(a.bases) < |a.hist|
    requires a.files[Last(a.bases)] == Concat(a.hist[Last(a.bases)..])
    requires a.synced[Last(a.bases)] == |a.files[Last(a.bases)]|
    requires b == a.(bases := a.bases + [|a.hist|], files := a.files[|a.hist| := []], synced := a.synced[|a.hist| := 0])
    ensures Keeps(a, b) && Durable(b) == Durable(a) == |a.hist|
  {
    ReachAll(a.bases, a.hist);
    SealedRotate(a.bases, a.files, a.hist);
    assert b.hist[|a.hist|..] == [];
    forall i | 0 <= i < |a.bases| ensures b.bases[i] == a.bases[i] && b.bases[i] < |a.hist| {
    }
  }

  /** Removing the oldest segment when the checkpoint has passed it. */
  lemma RemoveStep(a: Moment, b: Moment)
    requires TailSafe(a) && |a.bases| >= 2 && a.bases[1] <= a.saved
    requires b == a.(bases := a.bases[1..], files := a.files - {a.bases[0]}, synced := a.synced - {a.bases[0]})
    ensures Keeps(a, b) && Durable(b) == Durable(a)
  {
    SealedDrop(a.bases, a.files, a.hist);
    KeyedDrop(a.synced, a.bases);
    forall i | 0 <= i < |b.bases| - 1 ensures b.synced[b.bases[i]] == |b.files[b.bases[i]]| {
      assert b.bases[i] == a.bases[i + 1];
    }
  }

  /** Writing the checkpoint file. */
  lemma SaveStep(a: Moment, b: Moment)
    requires TailSafe(a) && b == a.(saved := b.saved) && a.bases[0] <= b.saved
    ensures Keeps(a, b) && Durable(b) == Durable(a)
  {
  }

  /** Cutting the active file back to the end of a frame, past everything that was forced to the medium. */
  lemma CutStep(a: Moment, b: Moment, n: nat)
    requires TailSafe(a) && Last(a.bases) <= n <= |a.hist|
    requires b == a.(hist := a.hist[..n], files := b.files, synced := b.synced)
    requires Keyed(b.files, b.bases) && Keyed(b.synced, b.bases)
    requires forall x :: x in a.bases && x != Last(a.bases) ==> b.files[x] == a.files[x] && b.synced[x] == a.synced[x]
    requires b.files[Last(a.bases)] <= Concat(a.hist[Last(a.bases)..n])
    requires a.synced[Last(a.bases)] <= |Concat(a.hist[Last(a.bases)..n])|
    requires Reach(a.bases, a.hist, a.synced[Last(a.bases)]) <= Reach(a.bases, a.hist, b.synced[Last(a.bases)])
    requires b.synced[Last(a.bases)] <= |b.files[Last(a.bases)]|
    ensures Keeps(a, b)
    ensures Durable(b) == Reach(a.bases, a.hist, b.synced[Last(a.bases)])
  {
    var t := Last(a.bases);
    assert b.hist[t..] == a.hist[t..n];
    ReachPrefix(a.bases, a.hist, n, b.synced[t]);
    SealedSame(a.bases, a.files, b.files, a.hist, b.hist, n);
    assert b.hist[..Durable(a)] == a.hist[..Durable(a)];
  }

  /** The run stops: files and medium are what the stop left. */
  lemma StopStep(a: Moment, b: Moment)
    requires TailSafe(a) && Stops(a, b.files, b.synced) && b == a.(files := b.files, synced := b.synced)
    ensures Keeps(a, b)
  {
    StopIsACrash(a, b.files, b.synced);
    forall i | 0 <= i < |a.bases| - 1 ensures b.files[b.bases[i]] == a.files[b.bases[i]] {
      assert a.bases[i] in a.bases;
    }
    SealedSame(a.bases, a.files, b.files, a.hist, b.hist, |a.hist|);
    ReachMonotone(a.bases, a.hist, a.synced[Last(a.bases)], b.synced[Last(a.bases)]);
  }

  /** How much of the files is on the medium once they have been cut to the lengths of `files`. */
  ghost function Clipped(kept: map<nat, nat>, files: map<nat, seq<byte>>): (synced: map<nat, nat>)
    ensures synced.Keys == kept.Keys * files.Keys
  {
    map b | b in files && b in kept :: if kept[b] < |files[b]| then kept[b] else |files[b]|
  }

  /**
   * `b` is the disk after recovery from what is at `a`: the end of the active file is cut behind its last whole
   * record.
   */
  ghost predicate Recovers(a: Moment, b: Moment)
    requires TailSafe(a)
  {
    var t := Last(a.bases);
    var n := Reach(a.bases, a.hist, |a.files[t]|);
    && b == a.(files := a.files[t := Concat(a.hist[t..n])], synced := b.synced, hist := a.hist[..n])
    && b.synced == Clipped(a.synced, b.files)
  }

  lemma RecoversSealed(a: Moment, b: Moment)
    requires TailSafe(a) && Recovers(a, b)
    ensures Sealed(b.bases, b.files, b.hist) && Keyed(b.synced, b.bases)
    ensures forall i :: 0 <= i < |b.bases| - 1 ==> b.synced[b.bases[i]] == |b.files[b.bases[i]]|
  {
    SealedSame(a.bases, a.files, b.files, a.hist, b.hist, |b.hist|);
    assert Keyed(b.synced, b.bases);
    forall i | 0 <= i < |b.bases| - 1 ensures b.synced[b.bases[i]] == |b.files[b.bases[i]]| {
      assert b.bases[i] in b.bases && b.bases[i] < Last(b.bases);
    }
  }

  lemma RecoversSafe(a: Moment, b: Moment)
    requires TailSafe(a) && Recovers(a, b)
    ensures TailSafe(b) && Durable(a) <= Durable(b) <= |b.hist|
  {
    var t := Last(a.bases);
    var n := |b.hist|;
    assert b.hist[t..] == a.hist[t..n];
    RecoversSealed(a, b);
    assert t in b.bases;
    if a.synced[t] <= |b.files[t]| {
      ReachPrefix(a.bases, a.hist, n, b.synced[t]);
    } else {
      ReachAll(b.bases, b.hist);
      ReachMonotone(a.bases, a.hist, a.synced[t], |a.files[t]|);
    }
  }

  /** Recovery forces nothing to the medium, and takes no durable record away. */
  lemma RecoverStep(a: Moment, b: Moment)
    requires TailSafe(a) && Recovers(a, b)
    ensures Keeps(a, b)
    ensures CheckpointSafe(a) ==> CheckpointSafe(b)
  {
    RecoversSafe(a, b);
    hide TailSafe, Reach;
    assert b.hist[..Durable(a)] == a.hist[..Durable(a)];
  }

  // ----- The same steps on the record of a run: each takes a run that has arrived at `a` on to `b`.

  /** `past` is a run that has arrived at the disk `m`. */
  ghost predicate Arrived(past: seq<Moment>, m: Moment) {
    past != [] && Journey(past) && past[|past| - 1] == m
  }

  /** ... with the checkpoint safe throughout. */
  ghost predicate ArrivedStrong(past: seq<Moment>, m: Moment) {
    past != [] && StrongJourney(past) && past[|past| - 1] == m
  }

  /** The run may go on from `a` to `b`. */
  ghost predicate Follows(past: seq<Moment>, a: Moment, b: Moment) {
    && (Arrived(past, a) ==> Arrived(past + [b], b))
    && (ArrivedStrong(past, a) ==> ArrivedStrong(past + [b], b))
  }

  lemma ArrivedIsSafe(past: seq<Moment>, m: Moment)
    ensures Arrived(past, m) ==> Journey(past) && TailSafe(m)
    ensures ArrivedStrong(past, m) ==> StrongJourney(past) && CheckpointSafe(m)
  {
  }

  lemma StrongIsJourney(past: seq<Moment>)
    ensures StrongJourney(past) ==> Journey(past)
  {
    if |past| > 1 {
      StrongIsJourney(past[..|past| - 1]);
    }
  }

  /** A step that keeps every durable record, and the checkpoint file as it is, carries a run on. */
  lemma PastStep(past: seq<Moment>, a: Moment, b: Moment)
    requires TailSafe(a) ==> Keeps(a, b) && b.saved == a.saved
    ensures Follows(past, a, b)
  {
    ArrivedIsSafe(past, a);
    if Arrived(past, a) || ArrivedStrong(past, a) {
      JourneyStep(past, b);
    }
  }

  lemma PastGrow(past: seq<Moment>, a: Moment, b: Moment)
    requires |a.bases| >= 1 && Last(a.bases) <= |a.hist|
    requires Last(a.bases) in a.files && Last(a.bases) in a.synced && a.bases == b.bases
    requires Last(a.bases) in b.files && Last(a.bases) in b.synced
    requires b.files == a.files[Last(a.bases) := b.files[Last(a.bases)]]
    requires b.synced == a.synced[Last(a.bases) := b.synced[Last(a.bases)]]
    requires b.saved == a.saved && b.hist == a.hist
    requires a.files[Last(a.bases)] <= b.files[Last(a.bases)] <= Concat(a.hist[Last(a.bases)..])
    requires b.synced[Last(a.bases)] == a.synced[Last(a.bases)] || b.synced[Last(a.bases)] == |b.files[Last(a.bases)]|
    ensures Follows(past, a, b)
  {
    if TailSafe(a) {
      GrowStep(a, b);
    }
    PastStep(past, a, b);
  }

  lemma PastAnnounce(past: seq<Moment>, a: Moment, b: Moment, f: Frame)
    requires b == a.(hist := a.hist + [f]) && Whole(f)
    ensures Follows(past, a, b)
  {
    if TailSafe(a) {
      AnnounceStep(a, b, f);
    }
    PastStep(past, a, b);
  }

  lemma PastRotate(past: seq<Moment>, a: Moment, b: Moment)
    requires |a.bases| >= 1 && Last(a.bases) < |a.hist| && Last(a.bases) in a.files && Last(a.bases) in a.synced
    requires a.files[Last(a.bases)] == Concat(a.hist[Last(a.bases)..])
    requires a.synced[Last(a.bases)] == |a.files[Last(a.bases)]|
    requires b == a.(bases := a.bases + [|a.hist|], files := a.files[|a.hist| := []], synced := a.synced[|a.hist| := 0])
    ensures Follows(past, a, b)
  {
    if TailSafe(a) {
      RotateStep(a, b);
    }
    PastStep(past, a, b);
  }

  lemma PastRemove(past: seq<Moment>, a: Moment, b: Moment)
    requires |a.bases| >= 2 && a.bases[1] <= a.saved
    requires b == a.(bases := a.bases[1..], files := a.files - {a.bases[0]}, synced := a.synced - {a.bases[0]})
    ensures Follows(past, a, b)
  {
    if TailSafe(a) {
      RemoveStep(a, b);
    }
    PastStep(past, a, b);
  }

  /** Saving a checkpoint is safe in the strong sense when it moves forward over records on the medium only. */
  lemma PastSave(past: seq<Moment>, a: Moment, b: Moment)
    requires b == a.(saved := b.saved) && |a.bases| >= 1 && a.bases[0] <= b.saved
    ensures Arrived(past, a) ==> Arrived(past + [b], b)
    ensures ArrivedStrong(past, a) && TailSafe(a) && a.saved <= b.saved <= Durable(a) ==> ArrivedStrong(past + [b], b)
  {
    ArrivedIsSafe(past, a);
    if TailSafe(a) && (Arrived(past, a) || ArrivedStrong(past, a)) {
      SaveStep(a, b);
      JourneyStep(past, b);
    }
  }

  /** Cutting the active file back, to no less than its forced part, and the log with it. */
  lemma PastCut(past: seq<Moment>, a: Moment, b: Moment, n: nat)
    requires |a.bases| >= 1 && Last(a.bases) <= n <= |a.hist|
    requires Last(a.bases) in a.files && Last(a.bases) in a.synced && Last(a.bases) in b.files
    requires b == a.(hist := a.hist[..n], files := a.files[Last(a.bases) := b.files[Last(a.bases)]])
    requires b.files[Last(a.bases)] <= Concat(a.hist[Last(a.bases)..n])
    requires a.synced[Last(a.bases)] <= |b.files[Last(a.bases)]|
    ensures Follows(past, a, b)
  {
    if TailSafe(a) {
      CutStep(a, b, n);
    }
    PastStep(past, a, b);
  }
}
