/**
 * The Engine of engine.go over the file storage: what producers put in, and what its one dispatcher does with it.  The
 * sink, the clock and the contexts answer as they like.  Between any two calls of the dispatcher on the storage others
 * come in: producers that draw an identifier or append the record they drew one for, the periodic flusher, and Close.
 * `arrivals`, `faults` and `slips` bound how often a record is appended, how often the sink fails, and how often a
 * commit fails behind a permanent rejection, so that every run is finite; rejections themselves are not bounded.
 */
module Dispatcher {
  import opened Bytes
  import opened Results
  import opened Records
  import opened Frames
  import opened Wal
  import opened Crashes
  import opened IndexState
  import opened EngineState
  import opened Recovery
  import opened Spool
  import opened Deliveries
  import opened Identifiers
  import opened FileStorage
  import Backoff

  /** Who comes in between two calls of the dispatcher. */
  datatype Who = Entering | Leaving | Flusher | Closer

  datatype Settings = Settings(batchSize: nat, maxPayloadSize: nat, backoff: Backoff.Config)

  predicate IsTransient(e: Error) {
    e == SinkUnavailable
  }

  /** The two logs agree on their first `n` frames. */
  ghost predicate SameBelow(a: seq<Frame>, b: seq<Frame>, n: nat) {
    n <= |a| && n <= |b| && a[..n] == b[..n]
  }

  lemma SameBelowLess(a: seq<Frame>, b: seq<Frame>, c: seq<Frame>, n: nat, m: nat)
    ensures SameBelow(a, b, n) && SameBelow(b, c, m) ==> SameBelow(a, c, Min(n, m))
  {
    if SameBelow(a, b, n) && SameBelow(b, c, m) {
      var k := Min(n, m);
      assert a[..k] == a[..n][..k] == b[..n][..k] == b[..k];
      assert b[..k] == b[..m][..k] == c[..m][..k] == c[..k];
    }
  }

  lemma Prefixes(a: seq<Frame>, b: seq<Frame>, n: nat, m: nat)
    requires a <= b || b <= a
    ensures n <= |a| && n <= |b| ==> SameBelow(a, b, n)
    ensures m <= |a| && m <= |b| ==> SameBelow(a, b, m)
  {
    if a <= b {
      assert forall k: nat :: k <= |a| ==> a[..k] == b[..|a|][..k] == b[..k];
    } else {
      assert forall k: nat :: k <= |b| ==> b[..k] == a[..|b|][..k] == a[..k];
    }
  }

  /** What others may see of an engine: its log, how it stands with the storage, and its bounds. */
  datatype View = View(hist: seq<Frame>, handed: nat, ebb: nat, garbled: bool, steady: bool, reliable: bool,
                       guarded: bool, closed: bool, arrivals: nat, faults: nat, slips: nat)

  /**
   * A run of the dispatcher: how it began, with the place of the account, the work, and the log's length then; `sure`
   * if no call on the storage could fail.
   */
  datatype Run = Run(was: View, pos: nat, work: int, end: nat, sure: bool)

  /**
   * What happens to the log behind the dispatcher's back: what was handed out stays, and so does what lies below
   * `ebb`; on a storage that stays steady everything does, and a guarded log stays guarded; once the engine is closed
   * nothing is added.
   */
  ghost predicate Onward(a: View, b: View) {
    && (a.garbled ==> b.garbled) && a.handed <= b.handed && SameBelow(a.hist, b.hist, a.handed)
    && b.ebb <= a.ebb && SameBelow(a.hist, b.hist, b.ebb)
    && (b.steady ==> a.steady) && (a.steady && b.steady ==> a.hist <= b.hist && b.ebb == a.ebb)
    && (a.reliable && a.steady ==> b.reliable && b.steady) && (a.guarded && b.steady ==> b.guarded)
    && (a.closed ==> b.closed && b.hist == a.hist && b.ebb == a.ebb && b.steady == a.steady)
    && b.arrivals <= a.arrivals && b.faults <= a.faults && b.slips <= a.slips
  }

  lemma OnwardSelf(a: View)
    requires a.handed <= |a.hist| && a.ebb <= |a.hist|
    ensures Onward(a, a)
  {
  }

  lemma OnwardOn(a: View, b: View, c: View)
    requires Onward(a, b) && Onward(b, c)
    ensures Onward(a, c)
  {
    hide SameBelow;
    SameBelowLess(a.hist, b.hist, c.hist, a.handed, b.handed);
    SameBelowLess(a.hist, b.hist, c.hist, b.ebb, c.ebb);
  }

  lemma OnwardFacts(a: View, b: View)
    requires Onward(a, b)
    ensures a.handed <= b.handed && b.ebb <= a.ebb && (a.garbled ==> b.garbled)
    ensures a.reliable && a.steady ==> b.reliable && b.steady
    ensures b.steady ==> a.steady && a.hist <= b.hist && b.ebb == a.ebb
    ensures b.faults <= a.faults && b.slips <= a.slips
  {
    hide SameBelow;
  }

  lemma OnwardKeeps(a: View, b: View)
    requires Onward(a, b)
    ensures (a.reliable && a.steady ==> b.reliable) && (a.guarded && b.steady ==> b.guarded)
  {
  }

  /** ... whatever is asked of the low water. */
  lemma OnwardDry(a: View, b: View)
    requires Onward(a, b)
    ensures Onward(a.(ebb := 0), b.(ebb := 0))
  {
  }

  /** Nothing happens to the log or its bounds but that more of it is handed out. */
  lemma OnwardStill(a: View, b: View)
    requires a.handed <= |a.hist| && a.ebb <= |a.hist| && a.handed <= b.handed
    requires b.hist == a.hist && b.ebb == a.ebb && b.closed == a.closed && b.arrivals == a.arrivals
    requires (a.garbled ==> b.garbled) && a.steady == b.steady && (a.reliable ==> b.reliable)
    requires (a.guarded ==> b.guarded) && b.faults <= a.faults && b.slips <= a.slips
    ensures Onward(a, b)
  {
  }

  /** The sink has been called since, and each failure of it but the one that is the answer was a transient one. */
  ghost predicate Calls(before: seq<Delivery>, now: seq<Delivery>, err: Option<Error>) {
    && before <= now
    && forall j :: |before| <= j < |now| && now[j].outcome.Failed? ==>
         now[j].outcome == Failed(SinkUnavailable) || (j == |now| - 1 && err == Some(now[j].outcome.error))
  }

  lemma CallsOn(a: seq<Delivery>, b: seq<Delivery>, c: seq<Delivery>, err: Option<Error>)
    requires Calls(a, b, None) && Calls(b, c, err)
    ensures Calls(a, c, err) && |a| <= |b|
    ensures err == Some(SinkUnavailable) ==> forall e :: Calls(a, c, e)
  {
  }

  lemma NoCalls(a: seq<Delivery>)
    ensures Calls(a, a, None)
  {
  }

  /** A batch of `n` records at `c` reaches at least as far as it could when the log had `end` records. */
  ghost predicate FillsFrom(c: nat, n: nat, end: nat, hist: seq<Frame>, maxCount: nat) {
    n <= maxCount && (n == maxCount || c + n >= end || (c + n < |hist| && Decode(hist[c + n]).Err?))
  }

  lemma FillsLater(c: nat, n: nat, end: nat, hist: seq<Frame>, maxCount: nat)
    ensures Fills(c, n, hist, maxCount) && end <= |hist| ==> FillsFrom(c, n, end, hist, maxCount)
  {
    hide Decode;
  }

  lemma FillsStill(c: nat, n: nat, end: nat, hist: seq<Frame>, more: seq<Frame>, maxCount: nat)
    ensures FillsFrom(c, n, end, hist, maxCount) && hist <= more ==> FillsFrom(c, n, end, more, maxCount)
  {
    hide Decode;
  }

  class Engine {
    const cfg: Settings
    const storage: FileStorageEngine
    var idCounter: uint64
    var closed: bool
    var draws: nat                 // how many identifiers have been drawn
    var pending: map<nat, Record>  // the Enqueues that have drawn and not appended, by the number of their draw
    var arrivals: nat              // records that producers will still append
    var faults: nat                // batches that the sink will still fail to take
    var slips: nat                 // commits that may still fail behind a permanent rejection
    ghost var roll: Roll           // every identifier drawn, and what has become of it
    ghost var sent: seq<Delivery>  // every call of the sink
    ghost var skips: seq<Skip>     // every record reported as corrupt
    ghost var marks: seq<(nat, nat)>   // for each moment of the disk, how many calls and reports there had been
    ghost var ebb: nat             // the least length that the log has had since the last flush began
    ghost const start: nat         // where the dispatcher began

    /** No write fault can make this storage lose a record of its log, as long as it can cut its file. */
    ghost predicate Steady()
      reads storage`torn
    {
      storage.reliable || (storage.opts.policy == SyncEveryRecord && !storage.torn)
    }

    /** The place of the next batch. */
    ghost function Pos(): nat
      reads storage`checkpoint, storage`baseOffset
    {
      Max(storage.checkpoint, storage.baseOffset)
    }

    ghost function Account(): Book
      reads `sent, `skips, storage`checkpoint, storage`baseOffset, storage`handed, storage`garbled
    {
      Book(sent, skips, start, Pos(), storage.handed, !storage.garbled)
    }

    ghost predicate Good()
      reads `sent, `skips, `marks, `ebb, storage
    {
      && storage.Valid() && cfg.batchSize > 0 && storage.joined && storage.orderly
      && (storage.closeDone ==> storage.closed)
      && Ledger(Account(), storage.hist) && ebb <= |storage.hist|
      && |marks| == |storage.past| && (storage.Strong() ==> Noted(Account(), marks, storage.past))
    }

    /** No call on the storage fails. */
    predicate Reliable()
      reads storage`closed
    {
      storage.reliable && !storage.closed
    }

    /** An Enqueue gets this far with it. */
    predicate Admissible(topic: seq<byte>, payload: seq<byte>) {
      topic != [] && 0 < |payload| <= cfg.maxPayloadSize
    }

    /** The identifiers are in order; and Close waits for the Enqueues under way, which hold the read lock. */
    ghost predicate IdsOk()
      reads `idCounter, `draws, `pending, `roll, `closed, storage`maxID, storage`hist
    {
      && RollOk(roll, idCounter, pending, storage.maxID, storage.hist) && draws == |roll.drawn|
      && (forall n: nat :: n in pending ==> Admissible(pending[n].topic, pending[n].payload))
      && (closed ==> pending == map[])
    }

    /**
     * The checkpoint is safe from every stop, and neither the policy nor the records to come can change that: under
     * SyncBatchCommit on a machine that loses no write, and under SyncEveryRecord on any that can cut its file.
     */
    ghost predicate Guarded()
      reads storage`joined, storage`torn, storage`exposed, storage`durable, storage`forced
    {
      && storage.Strong() && cfg.maxPayloadSize + MAX_TOPIC + HEADER_SIZE <= MAX_RECOVERABLE
      && match storage.opts.policy
         case SyncBatchCommit => storage.reliable
         case SyncEveryRecord => storage.forced
         case SyncInterval => false
    }

    ghost function Look(): View
      reads this, storage
    {
      View(storage.hist, storage.handed, ebb, storage.garbled, Steady(), Reliable(), Guarded(), closed,
           arrivals, faults, slips)
    }

    /**
     * In every interleaving, as long as the counter has not run over: the identifiers drawn are different, and above
     * the greatest one known at the start; the storage knows none above the counter; no two records of the log have
     * the same one, unless both were there at the start; and the record at `o` has one above all before it if and
     * only if no producer that drew later has its record before it.
     */
    lemma Identities(o: nat)
      requires IdsOk() && !Wrapped(roll) && roll.floor <= o < |storage.hist|
      ensures |roll.origins| == |storage.hist| && storage.maxID <= idCounter
      ensures forall n: nat :: n < |roll.drawn| ==> roll.first < roll.drawn[n] <= idCounter
      ensures forall m: nat, n: nat :: m < n < |roll.drawn| ==> roll.drawn[m] < roll.drawn[n]
      ensures forall p: nat :: roll.floor <= p < |storage.hist| && p != o && roll.origins[o].Some? ==>
                IdOf(storage.hist[p]) != IdOf(storage.hist[o])
      ensures roll.origins[o].Some? ==>
                ((forall p: nat :: roll.floor <= p < o ==> IdOf(storage.hist[p]) < IdOf(storage.hist[o])) <==>
                 (forall p: nat :: roll.floor <= p < o && roll.origins[p].Some? ==>
                    roll.origins[p].value < roll.origins[o].value))
    {
      hide RollOk, IdOf;
      CounterIs();
      RollShape(roll, idCounter, pending, storage.maxID, storage.hist);
      RollRises(roll, idCounter, pending, storage.maxID, storage.hist);
      forall p: nat | roll.floor <= p < |storage.hist| && p != o && roll.origins[o].Some?
        ensures IdOf(storage.hist[p]) != IdOf(storage.hist[o])
      {
        if p < o {
          LogApart(roll, idCounter, pending, storage.maxID, storage.hist, p, o);
        } else {
          LogApart(roll, idCounter, pending, storage.maxID, storage.hist, o, p);
        }
      }
      if roll.origins[o].Some? {
        AboveExactly(roll, idCounter, pending, storage.maxID, storage.hist, o);
      }
    }

    lemma CounterIs()
      requires IdsOk() && !Wrapped(roll)
      ensures draws == |roll.drawn| && idCounter == roll.first + draws >= storage.maxID
      ensures forall n: nat :: n in pending ==> n < draws
    {
      hide RollOk;
      RollCounts(roll, idCounter, pending, storage.maxID, storage.hist);
    }

    /** The work that is left: records to commit, records to come, and failures to come. */
    ghost function Work(): int
      reads `arrivals, `faults, `slips, storage`hist, storage`checkpoint, storage`baseOffset
    {
      |storage.hist| - Pos() + arrivals + faults + slips
    }

    /**
     * The engine starts where the storage stands, with its account and its identifiers in order if the segments found
     * made one log.
     */
    constructor (cfg: Settings, storage: FileStorageEngine, arrivals: nat, faults: nat, slips: nat)
      requires storage.Valid()
      ensures storage.joined && storage.orderly && !storage.closed && !storage.closeDone ==> Good()
      ensures storage.joined ==> IdsOk()
      ensures this.storage == storage && sent == [] && skips == [] && !closed && pending == map[]
      ensures idCounter == roll.first == storage.maxID && roll.drawn == [] && roll.floor == storage.baseOffset
      ensures start == Pos() && ebb == |storage.hist|
      ensures this.arrivals == arrivals && this.faults == faults && this.slips == slips
      ensures this.cfg.batchSize == (if cfg.batchSize == 0 then 100 else cfg.batchSize)
      ensures this.cfg.maxPayloadSize == (if cfg.maxPayloadSize == 0 then 1024 * 1024 else cfg.maxPayloadSize)
    {
      hide FileStorageEngine.Valid, Ledger, RollOk, IdOf;
      this.cfg := cfg.(batchSize := if cfg.batchSize == 0 then 100 else cfg.batchSize,
                       maxPayloadSize := if cfg.maxPayloadSize == 0 then 1024 * 1024 else cfg.maxPayloadSize);
      this.storage := storage;
      var initialID := storage.LastID();
      idCounter, draws, closed, pending, sent, skips := initialID, 0, false, map[], [], [];
      roll := Roll(initialID, storage.baseOffset, [], {}, seq(|storage.hist|, o => None));
      start, ebb := Max(storage.checkpoint, storage.baseOffset), |storage.hist|;
      marks := seq(|storage.past|, i => (0, 0));
      this.arrivals, this.faults, this.slips := arrivals, faults, slips;
      new;
      if storage.joined {
        RollStarts(initialID, storage.baseOffset, storage.hist);
      }
      if storage.joined && !storage.closed {
        storage.Bounds();
        if storage.orderly && !storage.closeDone {
          LedgerStarts(Account(), storage.hist);
          if storage.Strong() {
            BeforeStart();
          }
        }
      }
    }

    /** Nothing had to be settled before the start. */
    lemma BeforeStart()
      requires storage.Valid() && storage.Strong() && |marks| == |storage.past| && start >= storage.checkpoint
      requires forall j: nat :: j < |marks| ==> marks[j] == (0, 0)
      ensures Noted(Account(), marks, storage.past)
    {
      SavedBelow(storage, 0);
    }

    /** Notes the moments since `was`, when the account was `b`, with what has been sent and skipped by now. */
    ghost method Note(b: Book, was: seq<Moment>)
      requires storage.Valid() && was <= storage.past && |marks| == |was|
      requires b.sent <= sent && b.skips <= skips && b.start == start && Ledger(Account(), storage.hist)
      requires storage.Strong() ==> Noted(b, marks, was)
      modifies `marks
      ensures |marks| == |storage.past| && (storage.Strong() ==> Noted(Account(), marks, storage.past))
    {
      hide Ledger, Noted, FileStorageEngine.Valid;
      var before, more, mark := marks, storage.past, (|sent|, |skips|);
      marks := marks + seq(|more| - |was|, i => mark);
      if storage.Strong() {
        SavedBelow(storage, |was|);
        NotedStays(b, Account(), before, was);
        NotedGrows(Account(), storage.hist, before, was, marks, more);
      }
    }

    /** What a good engine says. */
    lemma Facts()
      requires Good()
      ensures storage.Valid() && cfg.batchSize > 0 && storage.joined && storage.orderly
      ensures storage.closeDone ==> storage.closed
      ensures Ledger(Account(), storage.hist) && start <= Pos() <= storage.handed <= |storage.hist|
              && ebb <= |storage.hist|
      ensures |marks| == |storage.past| && (storage.Strong() ==> Noted(Account(), marks, storage.past))
    {
      hide FileStorageEngine.Valid, Noted, Delivered, Passed, InOrder, AllLegible, SettledTo;
    }

    lemma IsGood()
      requires storage.Valid() && cfg.batchSize > 0 && storage.joined && storage.orderly
      requires storage.closeDone ==> storage.closed
      requires Ledger(Account(), storage.hist) && ebb <= |storage.hist|
      requires |marks| == |storage.past| && (storage.Strong() ==> Noted(Account(), marks, storage.past))
      ensures Good()
    {
      hide FileStorageEngine.Valid, Noted, Ledger;
    }

    lemma AccountIs(b: Book)
      requires b == Account()
      ensures b.sent == sent && b.skips == skips && b.start == start && b.at == Pos() && b.handed == storage.handed
      ensures b.legible == !storage.garbled
    {
    }

    /**
     * Brings the books up to date after a call on the storage that left the account, `b` before on the log `hist`,
     * where it was.
     */
    ghost method CatchUp(b: Book, hist: seq<Frame>, was: seq<Moment>)
      requires storage.Valid() && cfg.batchSize > 0 && storage.joined && storage.orderly
      requires storage.closeDone ==> storage.closed
      requires ebb <= |storage.hist|
      requires Ledger(b, hist) && b.sent == sent && b.skips == skips && b.start == start && b.at == Pos()
      requires (!storage.garbled ==> b.legible) && b.handed <= storage.handed && SameBelow(hist, storage.hist, b.handed)
      requires storage.handed <= |storage.hist| && |marks| == |was| && was <= storage.past
      requires storage.Strong() ==> Noted(b, marks, was)
      modifies `marks
      ensures Good()
    {
      hide FileStorageEngine.Valid, Ledger, Noted, Good;
      LedgerStays(b, hist, Account(), storage.hist);
      Note(b, was);
      IsGood();
    }

    /**
     * The first half of Enqueue: refuses the call, or draws an identifier for its record.  The refusals come in this
     * order: the context, the preconditions, a closed engine.
     */
    method Draw(topic: seq<byte>, payload: seq<byte>, now: int64, ctxDone: bool)
      returns (err: Option<Error>, n: nat)
      requires IdsOk()
      modifies `idCounter, `draws, `pending, `roll
      ensures IdsOk()
      ensures err == if ctxDone then Some(ContextDone)
                     else if topic == [] || payload == [] || |payload| > cfg.maxPayloadSize
                     then Some(PreconditionViolated)
                     else if closed then Some(SpoolerClosed) else None
      ensures err != None ==> idCounter == old(idCounter) && pending == old(pending) && roll == old(roll)
      ensures err == None ==>
                && n == |old(roll).drawn| && n !in old(pending)
                && idCounter == Succ(old(idCounter)) && roll == Drew(old(roll), idCounter)
                && pending == old(pending)[n := Record(0, idCounter, now, topic, payload, 0)]
    {
      hide RollOk;
      n := 0;
      if ctxDone {
        return Some(ContextDone), n;
      }
      if topic == [] {
        return Some(PreconditionViolated), n;
      }
      if |payload| == 0 {
        return Some(PreconditionViolated), n;
      }
      if |payload| > cfg.maxPayloadSize {
        return Some(PreconditionViolated), n;
      }
      if closed {
        return Some(SpoolerClosed), n;
      }
      var rec := Record(0, Succ(idCounter), now, topic, payload, 0);
      RollDraws(roll, idCounter, pending, storage.maxID, storage.hist, rec);
      n := draws;
      idCounter, draws, pending, roll := rec.id, draws + 1, pending[n := rec], Drew(roll, rec.id);
      return None, n;
    }

    /** Appends a record to the storage; the dispatcher's account is not touched. */
    method Put(rec: Record) returns (r: Result<nat>)
      requires Good()
      modifies storage, `marks, `ebb
      ensures Good()
      ensures Pos() == old(Pos()) && storage.handed == old(storage.handed)
      ensures storage.checkpoint == old(storage.checkpoint)
      ensures storage.maxID == if r.Ok? && rec.id > old(storage.maxID) then rec.id else old(storage.maxID)
      ensures old(storage.garbled) ==> storage.garbled
      ensures SameBelow(old(storage.hist), storage.hist, storage.handed)
      ensures ebb == Min(old(ebb), |storage.hist|) && SameBelow(old(storage.hist), storage.hist, ebb)
      ensures old(storage.closed) ==> r == Err(StorageUnavailable)
      ensures !old(storage.closed) ==>
                AppendOutcome(old(storage.hist), storage.hist, storage.checkpoint, storage.maxCapacity,
                    storage.reliable, rec, r)
      ensures if r.Ok? then storage.hist == old(storage.hist) + [Encode(rec)] else storage.hist <= old(storage.hist)
      ensures r.Err? ==> r.error == SpoolFull || r.error == PreconditionViolated || r.error == StorageUnavailable
      ensures (Steady() ==> old(Steady())) && (old(Steady()) ==> Steady() || storage.uncut)
      ensures old(Steady()) ==> old(storage.hist) <= storage.hist
      ensures old(Reliable()) ==> Reliable()
      ensures storage.exposed ==> old(storage.exposed) || (|rec.topic| <= MAX_TOPIC && !Whole(Encode(rec)))
      ensures storage.joined == old(storage.joined) && storage.durable == old(storage.durable)
      ensures (storage.reliable ==> storage.torn == old(storage.torn)) && (old(storage.forced) ==> storage.forced)
    {
      hide FileStorageEngine.Valid, Ledger, Noted, Encode, Good, SameBelow, AppendOutcome, Account, Whole;
      Facts();
      ghost var b, hist, was := Account(), storage.hist, storage.past;
      AccountIs(b);
      r := Add(rec);
      ebb := Min(ebb, |storage.hist|);
      Prefixes(hist, storage.hist, storage.handed, ebb);
      CatchUp(b, hist, was);
    }

    /** The call on the storage; the books are behind. */
    method Add(rec: Record) returns (r: Result<nat>)
      requires storage.Valid() && storage.joined
      modifies storage
      ensures storage.Valid() && old(storage.past) <= storage.past
      ensures storage.checkpoint == old(storage.checkpoint) && storage.baseOffset == old(storage.baseOffset)
      ensures storage.handed == old(storage.handed)
      ensures old(storage.handed <= |storage.hist|) ==> storage.handed <= |storage.hist|
      ensures storage.joined && storage.orderly == old(storage.orderly) && storage.durable == old(storage.durable)
      ensures storage.closeDone == old(storage.closeDone) && (old(storage.closed) ==> storage.closed)
      ensures storage.maxID == if r.Ok? && rec.id > old(storage.maxID) then rec.id else old(storage.maxID)
      ensures (old(storage.garbled) ==> storage.garbled) && (old(storage.torn) ==> storage.torn)
      ensures old(storage.exposed) ==> storage.exposed
      ensures old(storage.closed) ==> r == Err(StorageUnavailable)
      ensures !old(storage.closed) ==>
                AppendOutcome(old(storage.hist), storage.hist, storage.checkpoint, storage.maxCapacity,
                    storage.reliable, rec, r)
      ensures if r.Ok? then storage.hist == old(storage.hist) + [Encode(rec)] else storage.hist <= old(storage.hist)
      ensures r.Err? ==> r.error == SpoolFull || r.error == PreconditionViolated || r.error == StorageUnavailable
      ensures (Steady() ==> old(Steady())) && (old(Steady()) ==> Steady() || storage.uncut)
      ensures old(Steady()) ==> old(storage.hist) <= storage.hist
      ensures old(Reliable()) ==> Reliable()
      ensures storage.exposed ==> old(storage.exposed) || (|rec.topic| <= MAX_TOPIC && !Whole(Encode(rec)))
      ensures (storage.reliable ==> storage.torn == old(storage.torn)) && (old(storage.forced) ==> storage.forced)
    {
      hide FileStorageEngine.Valid, Encode, AppendOutcome, Whole, FileStorageEngine.Overhung;
      hide FileStorageEngine.ForcedLast, FileStorageEngine.Here, FileStorageEngine.Snap, FileStorageEngine.IdsKnown;
      ghost var hist := storage.hist;
      if !storage.closed {
        storage.Bounds();
      }
      r := storage.Append(rec);
      if !old(storage.closed) {
        OutcomeFacts(hist, storage.hist, storage.checkpoint, storage.maxCapacity, storage.reliable, rec, r);
      }
    }

    lemma IsGuarded()
      requires Guarded()
      ensures cfg.maxPayloadSize + MAX_TOPIC + HEADER_SIZE <= MAX_RECOVERABLE
      ensures storage.joined && !storage.torn && storage.durable && !storage.exposed
      ensures match storage.opts.policy
              case SyncBatchCommit => storage.reliable
              case SyncEveryRecord => storage.forced
              case SyncInterval => false
    {
    }

    lemma GuardedIsSteady()
      ensures Guarded() ==> Steady()
    {
    }

    /** A record within the limits does not endanger the log. */
    lemma StaysGuarded(rec: Record, wasExposed: bool)
      requires cfg.maxPayloadSize + MAX_TOPIC + HEADER_SIZE <= MAX_RECOVERABLE && |rec.payload| <= cfg.maxPayloadSize
      requires storage.joined && Steady() && storage.durable && !wasExposed
      requires storage.reliable ==> !storage.torn
      requires storage.exposed ==> wasExposed || (|rec.topic| <= MAX_TOPIC && !Whole(Encode(rec)))
      requires match storage.opts.policy
               case SyncBatchCommit => storage.reliable
               case SyncEveryRecord => storage.forced
               case SyncInterval => false
      ensures Guarded()
    {
      hide Whole;
      if |rec.topic| <= MAX_TOPIC {
        EncodedIsWhole(rec);
      }
    }

    /**
     * The second half: appends the record of draw `n`.  Its identifier is above all that the storage knew if and only
     * if no producer that drew later has appended before, as long as the counter has not run over.
     */
    method Store(n: nat) returns (r: Result<nat>)
      requires Good() && IdsOk() && n in pending
      modifies storage, `pending, `roll, `marks, `ebb
      ensures Good() && IdsOk() && pending == old(pending) - {n}
      ensures Pos() == old(Pos()) && storage.handed == old(storage.handed)
      ensures storage.checkpoint == old(storage.checkpoint) && Onward(old(Look()), Look())
      ensures storage.maxID == if r.Ok? && old(pending)[n].id > old(storage.maxID) then old(pending)[n].id
                               else old(storage.maxID)
      ensures old(storage.closed) ==> r == Err(StorageUnavailable)
      ensures !old(storage.closed) ==>
                AppendOutcome(old(storage.hist), storage.hist, storage.checkpoint, storage.maxCapacity,
                    storage.reliable, old(pending)[n], r)
      ensures if r.Ok? then storage.hist == old(storage.hist) + [Encode(old(pending)[n])]
              else storage.hist <= old(storage.hist)
      ensures |old(roll).origins| == |old(storage.hist)|
      ensures roll == if r.Ok? then Took(old(roll), n) else Fell(old(roll), |storage.hist|)
      ensures r.Ok? && !Wrapped(roll) ==>
                (old(pending)[n].id > old(storage.maxID)
                 <==> forall k: nat :: k in old(roll).stored ==> k < n)
      ensures r.Err? ==> r.error == SpoolFull || r.error == PreconditionViolated || r.error == StorageUnavailable
    {
      hide FileStorageEngine.Valid, Encode, Good, SameBelow, AppendOutcome, RollOk, IdOf, Guarded, Whole;
      Facts();
      var rec := pending[n];
      EncodedId(rec);
      if Guarded() {
        IsGuarded();
      }
      r := Put(rec);
      if old(Guarded()) && Steady() {
        StaysGuarded(rec, old(storage.exposed));
      }
      RollAppends(roll, idCounter, pending, old(storage.maxID), old(storage.hist), n, Encode(rec), r.Ok?,
                  storage.hist);
      roll, pending := if r.Ok? then Took(roll, n) else Fell(roll, |storage.hist|), pending - {n};
    }

    /** Closes the storage. */
    method Shut() returns (err: Option<Error>)
      requires Good()
      modifies storage, `marks
      ensures Good() && storage.closed
      ensures storage.hist == old(storage.hist) && Pos() == old(Pos()) && storage.handed == old(storage.handed)
      ensures storage.maxID == old(storage.maxID) && (old(Guarded()) ==> Guarded())
      ensures old(Reliable()) ==> err == None
      ensures !old(storage.closed) && err == None && storage.Sound() ==>
                TailSafe(storage.Here(storage.hist)) && Durable(storage.Here(storage.hist)) == |storage.hist|
    {
      hide FileStorageEngine.Valid, Ledger, Noted, Good, TailSafe, Durable;
      Facts();
      ghost var b, hist, was := Account(), storage.hist, storage.past;
      storage.Scalars();
      err := storage.Close();
      CatchUp(b, hist, was);
    }

    /** Forces the log to the medium, as the periodic flusher does. */
    method Force() returns (err: Option<Error>)
      requires Good()
      modifies storage, `marks
      ensures Good()
      ensures storage.hist == old(storage.hist) && Pos() == old(Pos()) && storage.handed == old(storage.handed)
      ensures storage.torn == old(storage.torn) && storage.garbled == old(storage.garbled)
      ensures storage.maxID == old(storage.maxID) && storage.closed == old(storage.closed)
      ensures storage.Strong() == old(storage.Strong()) && (old(Guarded()) ==> Guarded())
      ensures old(Reliable()) ==> err == None
      ensures err == None && storage.Sound() ==>
                TailSafe(storage.Here(storage.hist)) && Durable(storage.Here(storage.hist)) == |storage.hist|
    {
      hide FileStorageEngine.Valid, Ledger, Noted, Good, TailSafe, Durable;
      Facts();
      ghost var b, hist, was := Account(), storage.hist, storage.past;
      err := storage.Flush();
      CatchUp(b, hist, was);
    }

    /**
     * Takes a record in, or says why not.  Others come in between its two halves, and may overtake it: an accepted
     * record is then behind a record with a greater identifier.
     */
    method Enqueue(topic: seq<byte>, payload: seq<byte>, now: int64, ctxDone: bool) returns (err: Option<Error>)
      requires Good() && IdsOk()
      modifies storage, `idCounter, `draws, `pending, `roll, `closed, `arrivals, `marks, `ebb
      ensures Good() && IdsOk() && Onward(old(Look()), Look())
      ensures Pos() == old(Pos()) && storage.handed == old(storage.handed)
      ensures var refusal := if ctxDone then Some(ContextDone)
                             else if topic == [] || payload == [] || |payload| > cfg.maxPayloadSize
                             then Some(PreconditionViolated)
                             else if closed then Some(SpoolerClosed) else None;
        if refusal != None then err == refusal && storage.hist == old(storage.hist) && roll == old(roll)
        else err == None || err == Some(SpoolFull) || err == Some(PreconditionViolated)
             || err == Some(StorageUnavailable)
      ensures !ctxDone && Admissible(topic, payload) && !old(closed) && old(Reliable()) && err != None ==>
                || (err == Some(SpoolFull) && |storage.hist| - storage.checkpoint >= storage.maxCapacity)
                || (err == Some(PreconditionViolated) && |topic| > MAX_TOPIC)
      ensures err == None ==>
                && |storage.hist| > 0 && |roll.origins| == |storage.hist|
                && storage.hist[|storage.hist| - 1] == Encode(Record(0, Succ(old(idCounter)), now, topic, payload, 0))
                && roll.origins[|storage.hist| - 1] == Some(old(draws))
    {
      hide FileStorageEngine.Valid, Good, RollOk, Onward, Guarded, AppendOutcome, Encode;
      Facts();
      ghost var was := Look();
      OnwardSelf(was);
      var n;
      err, n := Draw(topic, payload, now, ctxDone);
      if err != None {
        return;
      }
      ghost var rec := pending[n];
      assert Look() == was;
      Others({n});
      ghost var mid := Look();
      OnwardFacts(was, mid);
      assert pending[n] == rec;
      var r := Store(n);
      OnwardOn(was, mid, Look());
      if mid.reliable {
        OutcomeFacts(mid.hist, storage.hist, storage.checkpoint, storage.maxCapacity, storage.reliable, rec, r);
      }
      RollShape(roll, idCounter, pending, storage.maxID, storage.hist);
      return if r.Ok? then None else Some(r.error);
    }

    /**
     * Others come in between two calls on the storage, as often as they like: producers draw, or append what they have
     * drawn for; the flusher forces the log; Close takes the write lock when no Enqueue holds the read lock.  The
     * Enqueues of `own` do not go on meanwhile.
     */
    method Others(own: set<nat>)
      requires Good() && IdsOk()
      modifies storage, `idCounter, `draws, `pending, `roll, `closed, `arrivals, `marks, `ebb
      ensures Good() && IdsOk() && Onward(old(Look()), Look())
      ensures Pos() == old(Pos()) && storage.handed == old(storage.handed) && Work() <= old(Work())
      ensures forall n :: n in own && n in old(pending) ==> n in pending && pending[n] == old(pending[n])
    {
      hide FileStorageEngine.Valid, Good, IdsOk, Onward, Guarded;
      Facts();
      ghost var was := Look();
      OnwardSelf(was);
      var steps: nat :| steps >= 0;
      for i := 0 to steps
        invariant Good() && IdsOk() && Onward(was, Look())
        invariant Pos() == old(Pos()) && storage.handed == old(storage.handed) && Work() <= old(Work())
        invariant forall n :: n in own && n in old(pending) ==> n in pending && pending[n] == old(pending[n])
      {
        ghost var mid := Look();
        Other(own);
        OnwardOn(was, mid, Look());
      }
    }

    /** One of the records that are still to come is appended. */
    method Take(n: nat) returns (r: Result<nat>)
      requires Good() && IdsOk() && n in pending && arrivals > 0
      modifies storage, `pending, `roll, `arrivals, `marks, `ebb
      ensures Good() && IdsOk() && Onward(old(Look()), Look()) && pending == old(pending) - {n}
      ensures Pos() == old(Pos()) && storage.handed == old(storage.handed) && Work() <= old(Work())
    {
      hide FileStorageEngine.Valid, Good, IdsOk, Onward, Guarded, AppendOutcome;
      ghost var was := Look();
      r := Store(n);
      ghost var mid := Look();
      arrivals := arrivals - 1;
      Fewer(was, mid);
    }

    lemma Fewer(a: View, b: View)
      requires Onward(a, b) && b.arrivals > 0
      ensures Onward(a, b.(arrivals := b.arrivals - 1))
    {
      hide SameBelow;
    }

    /** No Enqueue is admitted any more; none is under way. */
    method Bar()
      requires Good() && IdsOk() && pending == map[]
      modifies `closed
      ensures Good() && IdsOk() && closed && Look() == old(Look()).(closed := true)
      ensures !old(closed) ==> Onward(old(Look()), Look())
    {
      hide RollOk, FileStorageEngine.Valid, Good, Guarded;
      Facts();
      closed := true;
    }

    /** One step of one of the others. */
    method Other(own: set<nat>)
      requires Good() && IdsOk()
      modifies storage, `idCounter, `draws, `pending, `roll, `closed, `arrivals, `marks, `ebb
      ensures Good() && IdsOk() && Onward(old(Look()), Look())
      ensures Pos() == old(Pos()) && storage.handed == old(storage.handed) && Work() <= old(Work())
      ensures forall n :: n in own && n in old(pending) ==> n in pending && pending[n] == old(pending[n])
    {
      hide FileStorageEngine.Valid, Good, IdsOk, RollOk, Onward, Guarded, AppendOutcome;
      Facts();
      ghost var was := Look();
      OnwardSelf(was);
      var step: Who := *;
      match step
      case Entering =>
        var topic: seq<byte>, payload: seq<byte>, now: int64, ctxDone: bool := *, *, *, *;
        var err, n := Draw(topic, payload, now, ctxDone);
      case Leaving =>
        var ready := pending.Keys - own;
        if ready != {} && arrivals > 0 {
          var n :| n in ready;
          var r := Take(n);
        }
      case Flusher =>
        var err := Force();
        OnwardStill(was, Look());
      case Closer =>
        if !closed && pending == map[] {
          Bar();
        }
    }

    /** The sink answers.  It fails, or refuses for good on a machine where commits may fail, only while it may. */
    method Deliver(batch: seq<Record>, ghost at: nat, ghost legible: bool) returns (outcome: Outcome)
      modifies `faults, `slips, `sent
      ensures sent == old(sent) + [Delivery(at, batch, outcome, legible)]
      ensures faults == old(faults) - (if outcome.Failed? then 1 else 0)
      ensures slips == old(slips) - (if outcome == Permanent && !Reliable() then 1 else 0)
    {
      outcome := *;
      if outcome.Failed? {
        if faults > 0 {
          faults := faults - 1;
        } else {
          outcome := Accepted;
        }
      }
      if outcome == Permanent && !Reliable() {
        if slips > 0 {
          slips := slips - 1;
        } else {
          outcome := Accepted;
        }
      }
      sent := sent + [Delivery(at, batch, outcome, legible)];
    }

    /**
     * A batch at the place of the account: it starts exactly there, and so does a corrupt record that stops it; an
     * empty one means that the log ends there.
     */
    ghost predicate Given(r: Result<seq<Record>>)
      reads storage`checkpoint, storage`baseOffset, storage`hist, storage`handed, storage`garbled
    {
      match r
      case Ok(rs) =>
        if rs == [] then Pos() == |storage.hist|
        else
          && Consecutive(rs, Pos()) && |rs| <= cfg.batchSize && Pos() + |rs| <= storage.handed
          && (!storage.garbled ==>
                Fills(Pos(), |rs|, storage.hist, cfg.batchSize) && Faithful(Pos(), rs, storage.hist))
      case Err(CorruptAt(o, _)) =>
        o == Pos() < storage.handed && (!storage.garbled ==> o < |storage.hist| && Decode(storage.hist[o]).Err?)
      case Err(e) => e == StorageUnavailable
    }

    /** Reads the next batch. */
    method Read() returns (r: Result<seq<Record>>)
      requires Good()
      modifies storage, `marks
      ensures Good()
      ensures storage.hist == old(storage.hist) && Pos() == old(Pos()) && storage.handed >= old(storage.handed)
      ensures storage.torn == old(storage.torn) && storage.garbled == old(storage.garbled)
      ensures storage.maxID == old(storage.maxID) && storage.closed == old(storage.closed)
      ensures storage.Strong() == old(storage.Strong()) && (old(Guarded()) ==> Guarded())
      ensures Given(r) && (Reliable() && r.Err? ==> r.error.CorruptAt?)
    {
      hide FileStorageEngine.Valid, Ledger, Noted, Decode, Faithful, Fills, Batch, Good;
      Facts();
      ghost var b, hist, was := Account(), storage.hist, storage.past;
      r := storage.ReadBatch(cfg.batchSize);
      if !storage.closed {
        storage.Bounds();
        BatchIsFaithful(hist, Pos(), cfg.batchSize);
      }
      CatchUp(b, hist, was);
    }

    /** Under SyncEveryRecord a guarded log is on the medium. */
    lemma AllCovered()
      requires storage.Valid() && Guarded() && !storage.closed
      ensures storage.opts.policy == SyncEveryRecord ==> forall c: nat :: c <= |storage.hist| ==> storage.Covered(c)
    {
      hide TailSafe, Durable;
      if storage.opts.policy == SyncEveryRecord {
        storage.Scalars();
        storage.ForcedExactly();
      }
    }

    /** Commits up to `offset`, which the account must bear out. */
    method Advance(offset: nat) returns (err: Option<Error>)
      requires Good()
      requires Pos() <= offset < storage.handed && Ledger(Account().(at := offset + 1), storage.hist)
      modifies storage, `marks
      ensures Good()
      ensures storage.hist == old(storage.hist) && storage.handed == old(storage.handed)
      ensures storage.torn == old(storage.torn) && storage.garbled == old(storage.garbled)
      ensures storage.maxID == old(storage.maxID) && storage.closed == old(storage.closed)
      ensures old(Guarded()) ==> Guarded()
      ensures old(storage.Strong() && storage.Covered(offset + 1)) ==> storage.Strong()
      ensures Pos() == if err == None then offset + 1 else old(Pos())
      ensures err != None ==> err == Some(StorageUnavailable)
      ensures old(Reliable()) ==> err == None
    {
      hide FileStorageEngine.Valid, Ledger, Noted, Good;
      Facts();
      ghost var b, was, guarded := Account(), storage.past, Guarded();
      if guarded && !storage.closed {
        AllCovered();
      }
      err := storage.Commit(offset);
      Note(b, was);
      IsGood();
    }

    /**
     * What one round did, when it began at `c` with `before` sent and `told` reported: nothing, or the record at `c`
     * was reported as corrupt and skipped alone, or one batch from exactly `c` on went to the sink and was committed
     * if it was settled.  `commit` is what the storage answered to the commit, if there was one.
     */
    ghost predicate Round(c: nat, before: seq<Delivery>, told: seq<Skip>, drained: bool, err: Option<Error>,
                          commit: Option<Error>)
      reads `sent, `skips, storage`checkpoint, storage`baseOffset
    {
      if sent == before then
        if skips == told then !drained && Pos() == c && commit == None && err != Some(SinkUnavailable)
        else
          && |skips| == |told| + 1 && skips[..|told|] == told && skips[|told|].at == c
          && drained == (commit == None) && err == commit && Pos() == if commit == None then c + 1 else c
      else
        && skips == told && |sent| == |before| + 1 && sent[..|before|] == before
        && sent[|before|].at == c && 0 < |sent[|before|].batch| <= cfg.batchSize
        && var next := if commit == None then c + |sent[|before|].batch| else c;
           match sent[|before|].outcome
           case Accepted => drained == (commit == None) && err == commit && Pos() == next
           case Permanent => drained && err == None && Pos() == next
           case Failed(e) => !drained && err == Some(e) && commit == None && Pos() == c
    }

    /** The call of the sink number `n`, the last one, has failed with this error. */
    ghost predicate Blames(e: Error, n: nat)
      reads `sent
    {
      |sent| == n + 1 && sent[n].outcome == Failed(e)
    }

    /** The sink has refused the batch of this round for good. */
    ghost predicate Refused(before: seq<Delivery>)
      reads `sent
    {
      |sent| > |before| && sent[|before|].outcome == Permanent
    }

    lemma StandsStill(c: nat, before: seq<Delivery>, told: seq<Skip>, drained: bool, err: Option<Error>,
                      commit: Option<Error>)
      requires Round(c, before, told, drained, err, commit)
      ensures Pos() >= c && (drained ==> err == None) && before <= sent
      ensures drained ==> (Pos() == c <==> Refused(before) && commit != None)
    {
    }

    /** Others come in, and then the next batch is read. */
    method Next() returns (r: Result<seq<Record>>)
      requires Good() && IdsOk()
      modifies storage, `idCounter, `draws, `pending, `roll, `closed, `arrivals, `marks, `ebb
      ensures Good() && IdsOk() && Onward(old(Look()), Look())
      ensures Pos() == old(Pos()) && Work() <= old(Work())
      ensures Given(r) && (Reliable() && r.Err? ==> r.error.CorruptAt?)
    {
      hide IdsOk, Good, Onward, Given, Guarded, FileStorageEngine.Valid;
      ghost var was := Look();
      Others({});
      ghost var mid := Look();
      Facts();
      r := Read();
      OnwardStill(mid, Look());
      OnwardOn(was, mid, Look());
    }

    /** Whether a context is done; only one that can end ever is. */
    method CtxErr(mayEnd: bool) returns (done: bool)
      ensures done ==> mayEnd
    {
      done := *;
      done := done && mayEnd;
    }

    /**
     * One round.  A round that reports progress has made none exactly when the sink refused the batch for good and
     * the commit behind it failed: its answer is dropped.  Without progress and without error nothing was left to
     * deliver.
     */
    method DrainPendingBatches(ctxDone: bool) returns (drained: bool, err: Option<Error>, ghost commit: Option<Error>)
      requires Good() && IdsOk()
      modifies storage, `idCounter, `draws, `pending, `roll, `closed, `arrivals, `faults, `slips, `sent, `skips, `marks,
          `ebb
      ensures Good() && IdsOk() && Onward(old(Look()), Look())
      ensures Round(old(Pos()), old(sent), old(skips), drained, err, commit)
      ensures Pos() >= old(Pos()) && (drained ==> err == None)
      ensures drained ==> (Pos() == old(Pos()) <==> Refused(old(sent)) && commit != None)
      ensures slips == old(slips) - (if Refused(old(sent)) && commit != None then 1 else 0)
      ensures err == Some(SinkUnavailable) ==> faults < old(faults)
      ensures Work() <= old(Work()) && (drained || err == Some(SinkUnavailable) ==> Work() < old(Work()))
      ensures !drained && err == None ==> Pos() >= ebb
      ensures Steady() && !storage.garbled && |sent| > |old(sent)| ==>
                FillsFrom(sent[|old(sent)|].at, |sent[|old(sent)|].batch|, old(|storage.hist|), storage.hist,
                    cfg.batchSize)
      ensures old(sent) <= sent
      ensures old(Reliable()) && err != None ==>
        ctxDone || (Blames(err.value, |old(sent)|) && faults < old(faults) && Work() < old(Work()))
      ensures ctxDone ==> err == Some(ContextDone) && Look() == old(Look()) && Pos() == old(Pos()) && sent == old(sent)
    {
      hide Ledger, IdsOk, Decode, Faithful, FileStorageEngine.Valid, Fills, FillsFrom, Good, Round, Onward;
      hide Consecutive, Guarded;
      Facts();
      ghost var was := Look();
      OnwardSelf(was);
      commit := None;
      if ctxDone {
        Idle(Some(ContextDone));
        return false, Some(ContextDone), None;
      }
      var batch := Next();
      Facts();
      ghost var mid := Look();
      OnwardFacts(was, mid);
      if batch.Err? {
        if batch.error.CorruptAt? {
          drained, err, commit := SkipCorrupt(batch.error.offset);
          StandsStill(old(Pos()), old(sent), old(skips), drained, err, commit);
          OnwardOn(was, mid, Look());
          return;
        }
        Idle(Some(batch.error));
        return false, Some(batch.error), None;
      }
      if |batch.value| == 0 {
        Idle(None);
        return false, None, None;
      }
      ghost var c, hist := Pos(), storage.hist;
      FillsLater(c, |batch.value|, old(|storage.hist|), hist, cfg.batchSize);
      drained, err, commit := DeliverBatch(batch.value);
      FillsStill(c, |batch.value|, old(|storage.hist|), hist, storage.hist, cfg.batchSize);
      StandsStill(c, old(sent), old(skips), drained, err, commit);
      OnwardFacts(mid, Look());
      OnwardOn(was, mid, Look());
    }

    /** A round in which nothing was delivered and nothing skipped. */
    lemma Idle(err: Option<Error>)
      ensures err != Some(SinkUnavailable) ==> Round(Pos(), sent, skips, false, err, None)
    {
    }

    /** Skips exactly the record at the place of the account, which was reported as corrupt. */
    method SkipCorrupt(offset: nat) returns (drained: bool, err: Option<Error>, ghost commit: Option<Error>)
      requires Good() && IdsOk() && offset == Pos() < storage.handed
      requires !storage.garbled ==> offset < |storage.hist| && Decode(storage.hist[offset]).Err?
      modifies storage, `idCounter, `draws, `pending, `roll, `closed, `arrivals, `skips, `marks, `ebb
      ensures Good() && IdsOk() && Onward(old(Look()), Look())
      ensures Round(old(Pos()), sent, old(skips), drained, err, commit)
      ensures Pos() >= old(Pos()) && drained == (err == None) && err == commit
      ensures drained ==> Pos() == old(Pos()) + 1
      ensures Work() <= old(Work()) && (drained ==> Work() < old(Work()))
      ensures err != None ==> err == Some(StorageUnavailable)
      ensures old(Reliable()) ==> err == None
    {
      hide Ledger, IdsOk, Decode, FileStorageEngine.Valid, Good, Onward, Guarded;
      ghost var was := Look();
      Report(Skip(offset, !storage.garbled));
      Others({});
      Facts();
      LedgerSkips(Account(), storage.hist);
      ghost var mid := Look();
      OnwardFacts(was, mid);
      err := Advance(offset);
      OnwardStill(mid, Look());
      OnwardOn(was, mid, Look());
      drained, commit := err == None, err;
    }

    /** Notes a record reported as corrupt. */
    ghost method Report(s: Skip)
      requires Good() && s.at == Pos() && s.legible == !storage.garbled && Passed(s, storage.hist, storage.handed)
      modifies `skips
      ensures Good() && skips == old(skips) + [s]
    {
      hide Ledger, FileStorageEngine.Valid, Noted, Good, Passed;
      Facts();
      var b := Account();
      LedgerReports(b, storage.hist, s);
      skips := skips + [s];
      if storage.Strong() {
        NotedStays(b, Account(), marks, storage.past);
      }
      IsGood();
    }

    /** Hands a batch to the sink, and commits it if the sink has settled it. */
    method DeliverBatch(batch: seq<Record>) returns (drained: bool, err: Option<Error>, ghost commit: Option<Error>)
      requires Good() && IdsOk() && batch != [] && Consecutive(batch, Pos())
      requires |batch| <= cfg.batchSize && Pos() + |batch| <= storage.handed
      requires !storage.garbled ==> Faithful(Pos(), batch, storage.hist)
      modifies storage, `idCounter, `draws, `pending, `roll, `closed, `arrivals, `faults, `slips, `sent, `marks, `ebb
      ensures Good() && IdsOk() && Onward(old(Look()), Look())
      ensures Round(old(Pos()), old(sent), skips, drained, err, commit)
      ensures |sent| == |old(sent)| + 1 && sent[|old(sent)|].at == old(Pos()) && sent[|old(sent)|].batch == batch
      ensures slips == old(slips) - (if Refused(old(sent)) && commit != None then 1 else 0)
      ensures err == Some(SinkUnavailable) ==> faults < old(faults)
      ensures Work() <= old(Work()) && (drained || err == Some(SinkUnavailable) ==> Work() < old(Work()))
      ensures !drained ==> err != None
      ensures old(Reliable()) && err != None ==>
                Blames(err.value, |old(sent)|) && faults < old(faults) && Work() < old(Work())
    {
      hide Ledger, IdsOk, Faithful, FileStorageEngine.Valid, Good, Onward, Guarded, Consecutive;
      ghost var was := Look();
      commit := None;
      var outcome, sure := Hand(batch);
      if outcome.Failed? {
        return false, Some(outcome.error), None;
      }
      ghost var mid := Look();
      OnwardFacts(was, mid);
      var cErr := Settle(batch[|batch| - 1].offset, outcome, sure);
      commit := cErr;
      Back(was, mid, Look());
      if outcome == Permanent {
        return true, None, commit;
      }
      return cErr == None, cErr, commit;
    }

    /** Hands a batch to the sink; others come in meanwhile.  `sure` says that no commit can fail. */
    method Hand(batch: seq<Record>) returns (outcome: Outcome, sure: bool)
      requires Good() && IdsOk() && batch != [] && Consecutive(batch, Pos()) && Pos() + |batch| <= storage.handed
      requires !storage.garbled ==> Faithful(Pos(), batch, storage.hist)
      modifies storage, `idCounter, `draws, `pending, `roll, `closed, `arrivals, `faults, `slips, `sent, `marks, `ebb
      ensures Good() && IdsOk() && Onward(old(Look()), Look())
      ensures Pos() == old(Pos()) && storage.handed == old(storage.handed)
      ensures sent == old(sent) + [Delivery(Pos(), batch, outcome, !old(storage.garbled))]
      ensures faults == old(faults) - (if outcome.Failed? then 1 else 0)
      ensures slips == old(slips) - (if outcome == Permanent && !sure then 1 else 0)
      ensures Work() <= old(Work()) - (if outcome.Failed? || (outcome == Permanent && !sure) then 1 else 0)
      ensures sure == old(Reliable()) && (sure ==> Reliable())
    {
      hide Ledger, IdsOk, Faithful, FileStorageEngine.Valid, Good, Onward, Guarded, Consecutive;
      Facts();
      ghost var was := Look();
      sure := Reliable();
      outcome := Send(batch);
      ghost var mid := Look();
      OnwardStill(was, mid);
      Others({});
      OnwardOn(was, mid, Look());
      OnwardFacts(mid, Look());
    }

    /** Commits the batch that was sent last up to `offset`, its end; a rejection that is committed costs nothing. */
    method Settle(offset: nat, outcome: Outcome, sure: bool) returns (err: Option<Error>)
      requires Good() && IdsOk() && sent != [] && (sure ==> Reliable())
      requires var d := sent[|sent| - 1];
        && d.at == Pos() && d.outcome == outcome && !outcome.Failed? && d.batch != [] && Consecutive(d.batch, d.at)
        && offset == d.batch[|d.batch| - 1].offset
      modifies storage, `slips, `marks
      ensures Good() && IdsOk()
      ensures Look() == old(Look()).(slips := slips, guarded := Guarded()) && (old(Guarded()) ==> Guarded())
      ensures Pos() == old(Pos()) + if err == None then |sent[|sent| - 1].batch| else 0
      ensures slips == old(slips) + if outcome == Permanent && err == None && !sure then 1 else 0
      ensures (err != None ==> err == Some(StorageUnavailable)) && (sure ==> err == None)
      ensures 0 <= storage.handed <= |storage.hist| && ebb <= |storage.hist|
    {
      hide Ledger, RollOk, FileStorageEngine.Valid, Good, Guarded;
      Facts();
      LedgerAdvances(Account(), storage.hist);
      err := Advance(offset);
      if outcome == Permanent && err == None && !sure {
        slips := slips + 1;
      }
      Facts();
    }

    /** A commit moves nothing but the checkpoint; what a rejection had used up may come back. */
    lemma Back(a: View, b: View, c: View)
      requires Onward(a, b) && b.handed <= |b.hist| && b.ebb <= |b.hist|
      requires c == b.(slips := c.slips, guarded := c.guarded) && c.slips <= a.slips && (b.guarded ==> c.guarded)
      ensures Onward(a, c)
    {
      hide SameBelow;
    }

    /** The call of the sink, in the books. */
    method Send(batch: seq<Record>) returns (outcome: Outcome)
      requires Good() && batch != [] && Consecutive(batch, Pos()) && Pos() + |batch| <= storage.handed
      requires !storage.garbled ==> Faithful(Pos(), batch, storage.hist)
      modifies `faults, `slips, `sent
      ensures Good()
      ensures sent == old(sent) + [Delivery(Pos(), batch, outcome, !storage.garbled)]
      ensures faults == old(faults) - (if outcome.Failed? then 1 else 0)
      ensures slips == old(slips) - (if outcome == Permanent && !Reliable() then 1 else 0)
    {
      hide Ledger, FileStorageEngine.Valid, Noted, Good, Faithful, Consecutive;
      Facts();
      ghost var b := Account();
      outcome := Deliver(batch, Pos(), !storage.garbled);
      LedgerDelivers(b, storage.hist, Delivery(Pos(), batch, outcome, !storage.garbled));
      if storage.Strong() {
        NotedStays(b, Account(), marks, storage.past);
      }
      IsGood();
    }

    /** One round, and what it means for the work that is left. */
    method Turn(mayEnd: bool) returns (drained: bool, err: Option<Error>)
      requires Good() && IdsOk()
      modifies storage, `idCounter, `draws, `pending, `roll, `closed, `arrivals, `faults, `slips, `sent, `skips, `marks,
          `ebb
      ensures Good() && IdsOk() && Onward(old(Look()), Look())
      ensures Pos() >= old(Pos()) && faults <= old(faults) && slips <= old(slips) && 0 <= Work() <= old(Work())
      ensures drained ==> err == None && Pos() + old(slips) > old(Pos()) + slips && Work() < old(Work())
      ensures err == Some(SinkUnavailable) ==> faults < old(faults) && Work() < old(Work())
      ensures !drained && err == None ==> Pos() >= ebb
      ensures Calls(old(sent), sent, err)
      ensures old(Reliable()) && err != None ==>
        (mayEnd && err == Some(ContextDone))
        || (Blames(err.value, |old(sent)|) && faults < old(faults) && Work() < old(Work()))
    {
      hide Good, IdsOk, Onward, Refused, FillsFrom, Guarded;
      ghost var was := Look();
      ghost var commit;
      var ctxDone := CtxErr(mayEnd);
      drained, err, commit := DrainPendingBatches(ctxDone);
      OnwardFacts(was, Look());
      WorkIsNatural();
    }

    /**
     * Drains until nothing is left.  An answer without error is a barrier: every record that has been in the log
     * since the call has been committed, and on a storage that stays steady that is every record that was in the log
     * at the call.  Each round but the last advances, or is a failure of the sink, or is a rejection whose commit
     * failed; only the second kind waits, and the longer the more of them there have been in a row: `course` says which
     * rounds failed, and `row` how long the waits since the last success were.  A transient failure is never the
     * answer: on a storage that does not fail an error is that of the last call of the sink, or the end of the
     * context, or the end of the engine.
     */
    method DrainAll(mayEnd: bool)
      returns (err: Option<Error>, ghost course: seq<bool>, ghost waits: nat, ghost row: seq<int>)
      requires Good() && IdsOk()
      modifies storage, `idCounter, `draws, `pending, `roll, `closed, `arrivals, `faults, `slips, `sent, `skips, `marks,
          `ebb
      ensures Good() && IdsOk() && Onward(old(Look()).(ebb := old(|storage.hist|)), Look())
      ensures err == None ==> Pos() >= ebb
      ensures ebb <= old(|storage.hist|) && SameBelow(old(storage.hist), storage.hist, ebb)
      ensures Steady() ==> ebb == old(|storage.hist|)
      ensures Pos() >= old(Pos())
      ensures 0 < |course| <= (Pos() - old(Pos())) + (old(faults) - faults) + (old(slips) - slips) + 1
      ensures waits <= old(faults) - faults && Work() <= old(Work())
      ensures Backoff.Row(cfg.backoff, row) && |row| == Backoff.Lately(course[..|course| - 1]) + 1
      ensures err != Some(SinkUnavailable)
      ensures old(sent) <= sent && forall j :: |old(sent)| <= j < |sent| && sent[j].outcome.Failed? ==>
        sent[j].outcome == Failed(SinkUnavailable) || (j == |sent| - 1 && err == Some(sent[j].outcome.error))
      ensures old(Reliable()) && err != None ==>
        || (mayEnd && err == Some(ContextDone)) || (closed && err == Some(SpoolerClosed))
        || (|sent| > |old(sent)| && sent[|sent| - 1].outcome == Failed(err.value))
      ensures old(Reliable()) && !mayEnd && !closed
              && (forall j :: |old(sent)| <= j < |sent| && sent[j].outcome.Failed? ==>
                    sent[j].outcome == Failed(SinkUnavailable)) ==>
                err == None && Pos() >= ebb
    {
      hide Good, IdsOk, Onward, Guarded;
      Ebb();
      ghost var was := Look();
      err, course, waits, row := DrainRounds(mayEnd);
      Barrier(was, Look());
    }

    /** Where an error of a storage that does not fail comes from. */
    ghost predicate Explained(e: Error, mayEnd: bool, n: nat)
      reads `sent, `closed
    {
      || (mayEnd && e == ContextDone) || (closed && e == SpoolerClosed)
      || (|sent| > n && sent[|sent| - 1].outcome == Failed(e))
    }

    lemma Explains(err: Option<Error>, mayEnd: bool, n: nat, m: nat)
      requires n <= m
      ensures err.Some? && ((mayEnd && err == Some(ContextDone)) || Blames(err.value, m)) ==>
        Explained(err.value, mayEnd, n)
      ensures closed ==> Explained(SpoolerClosed, mayEnd, n)
      ensures mayEnd ==> Explained(ContextDone, mayEnd, n)
    {
    }

    lemma Barrier(a: View, b: View)
      requires Onward(a, b)
      ensures b.ebb <= a.ebb && SameBelow(a.hist, b.hist, b.ebb) && (b.steady ==> b.ebb == a.ebb)
    {
    }

    /**
     * Behind a transient failure: the wait, which the end of the engine or of the context cuts short, whichever the
     * select takes.
     */
    method Pause(ctxDone: bool, stopped: bool, current: Backoff.Duration, ghost row: seq<int>)
      returns (end: Option<Error>, next: Backoff.Duration, ghost more: seq<int>)
      requires Backoff.Row(cfg.backoff, row) && current == row[|row| - 1]
      ensures more == if end == None then row + [next] else row
      ensures Backoff.Row(cfg.backoff, more) && more != [] && next == more[|more| - 1]
      ensures end == if stopped then Some(SpoolerClosed) else if ctxDone then Some(ContextDone) else None
    {
      if stopped {
        return Some(SpoolerClosed), current, row;
      }
      if ctxDone {
        return Some(ContextDone), current, row;
      }
      next, more := NextWait(true, current, row);
      return None, next, more;
    }

    /** One round more of a drain that began at `was`, when `calls` had been made of the sink. */
    method NextRound(mayEnd: bool, ghost was: View, ghost calls: seq<Delivery>, ghost course: seq<bool>)
      returns (drained: bool, err: Option<Error>, ghost more: seq<bool>)
      requires Good() && IdsOk() && Onward(was, Look()) && Calls(calls, sent, None)
      modifies storage, `idCounter, `draws, `pending, `roll, `closed, `arrivals, `faults, `slips, `sent, `skips, `marks,
          `ebb
      ensures Good() && IdsOk() && Onward(was, Look()) && (old(Reliable()) ==> Reliable())
      ensures Pos() >= old(Pos()) && faults <= old(faults) && slips <= old(slips) && 0 <= Work() <= old(Work())
      ensures drained ==> err == None && Pos() + old(slips) > old(Pos()) + slips && Work() < old(Work())
      ensures err == Some(SinkUnavailable) ==> faults < old(faults) && Work() < old(Work())
      ensures !drained && err == None ==> Pos() >= ebb
      ensures Calls(calls, sent, err) && (err == Some(SinkUnavailable) ==> forall e :: Calls(calls, sent, e))
      ensures old(Reliable()) && err != None ==> Explained(err.value, mayEnd, |calls|)
      ensures closed ==> Explained(SpoolerClosed, mayEnd, |calls|)
      ensures mayEnd ==> Explained(ContextDone, mayEnd, |calls|)
      ensures more == course + [err.Some?]
      ensures Backoff.Lately(more) == if err.Some? then Backoff.Lately(course) + 1 else 0
    {
      hide Good, IdsOk, Onward, Guarded, Calls, Blames, Explained;
      ghost var mid, before := Look(), sent;
      drained, err := Turn(mayEnd);
      OnwardOn(was, mid, Look());
      OnwardFacts(mid, Look());
      CallsOn(calls, before, sent, err);
      Explains(err, mayEnd, |calls|, |before|);
      Backoff.LatelyOn(course, err.Some?);
      more := course + [err.Some?];
    }

    lemma Starts()
      requires Good()
      ensures Onward(Look(), Look())
    {
      hide Good, Guarded;
      Facts();
      OnwardSelf(Look());
    }

    /** The rounds of DrainAll. */
    method DrainRounds(mayEnd: bool)
      returns (err: Option<Error>, ghost course: seq<bool>, ghost waits: nat, ghost row: seq<int>)
      requires Good() && IdsOk()
      modifies storage, `idCounter, `draws, `pending, `roll, `closed, `arrivals, `faults, `slips, `sent, `skips, `marks,
          `ebb
      ensures Good() && IdsOk() && Onward(old(Look()), Look())
      ensures err == None ==> Pos() >= ebb
      ensures Pos() >= old(Pos())
      ensures 0 < |course| <= (Pos() - old(Pos())) + (old(faults) - faults) + (old(slips) - slips) + 1
      ensures waits <= old(faults) - faults && Work() <= old(Work())
      ensures Backoff.Row(cfg.backoff, row) && |row| == Backoff.Lately(course[..|course| - 1]) + 1
      ensures err != Some(SinkUnavailable) && Calls(old(sent), sent, err)
      ensures old(Reliable()) && err != None ==> Explained(err.value, mayEnd, |old(sent)|)
    {
      hide Good, IdsOk, Onward, Guarded, Calls, Blames, Explained, Backoff.Row, Backoff.Lately, Work, Look;
      WorkIsNatural();
      Starts();
      ghost var was := Look();
      NoCalls(sent);
      Backoff.RowStarts(cfg.backoff);
      var currentBackoff := cfg.backoff.initialBackoff;
      course, waits, row := [], 0, [currentBackoff];
      while true
        invariant Good() && IdsOk() && Work() >= 0 && Onward(was, Look())
        invariant Pos() >= old(Pos()) && faults <= old(faults) && slips <= old(slips)
        invariant |course| <= (Pos() - old(Pos())) + (old(faults) - faults) + (old(slips) - slips)
        invariant waits <= old(faults) - faults && Work() <= old(Work())
        invariant |row| == Backoff.Lately(course) + 1
        invariant Backoff.Row(cfg.backoff, row) && currentBackoff == row[|row| - 1]
        invariant Calls(old(sent), sent, None) && (old(Reliable()) ==> Reliable())
        decreases Work()
      {
        ghost var before := course;
        var drained;
        drained, err, course := NextRound(mayEnd, was, old(sent), course);
        assert course[..|course| - 1] == before;
        if err.Some? {
          if IsTransient(err.value) {
            var end;
            var ctxDone := CtxErr(mayEnd);
            var stopped: bool := *;
            end, currentBackoff, row := Pause(ctxDone, stopped && closed, currentBackoff, row);
            if end.Some? {
              return end, course, waits, row;
            }
            waits := waits + 1;
            continue;
          }
          return;
        }
        if !drained {
          return;
        }
        currentBackoff := cfg.backoff.initialBackoff;
        row := [currentBackoff];
      }
    }

    /** A flush begins: from now on the least length of the log counts. */
    ghost method Ebb()
      requires Good()
      modifies `ebb
      ensures Good() && ebb == |storage.hist| && Look() == old(Look()).(ebb := |storage.hist|)
    {
      hide Guarded, Ledger, FileStorageEngine.Valid, Noted, Good;
      Facts();
      ebb := |storage.hist|;
      IsGood();
    }

    lemma WorkIsNatural()
      requires Good()
      ensures Work() >= 0
    {
      hide Good;
      Facts();
    }

    /**
     * The first `turns` turns of the dispatcher's loop, or fewer if it is stopped, which it is behind a Close only.
     * The account holds throughout, what was handed out stays in the log, and a guarded log stays guarded; the
     * backoffs since the last success form a row.  A last drain without error leaves nothing in the log.  If the
     * storage does not fail, as many turns as there is work, and one more, commit every record that was in the log,
     * however often the sink fails, unless the engine is closed meanwhile.
     */
    method RunDispatcher(turns: nat)
      returns (currentBackoff: Backoff.Duration, ghost course: seq<bool>, ghost row: seq<int>, drained: bool)
      requires Good() && IdsOk()
      modifies storage, `idCounter, `draws, `pending, `roll, `closed, `arrivals, `faults, `slips, `sent, `skips, `marks,
          `ebb
      ensures Good() && IdsOk() && Onward(old(Look()).(ebb := 0), Look().(ebb := 0)) && Pos() >= old(Pos())
      ensures Backoff.Row(cfg.backoff, row) && currentBackoff == row[|row| - 1]
      ensures |course| <= turns && |row| == Backoff.Lately(course) + 1
      ensures drained ==> closed && Pos() == |storage.hist|
      ensures old(Reliable()) && turns > old(Work()) && (!closed || old(faults) == 0) ==> Pos() >= old(|storage.hist|)
    {
      hide Good, IdsOk, Guarded, UnderRun, Onward;
      Ebb();
      Facts();
      WorkIsNatural();
      ghost var run := Run(Look().(ebb := 0), Pos(), Work(), |storage.hist|, Reliable());
      RunBegins(run);
      currentBackoff := cfg.backoff.initialBackoff;
      course, row := [], [currentBackoff];
      drained := false;
      for i := 0 to turns
        invariant Good() && IdsOk() && !drained && UnderRun(run, i)
        invariant Backoff.Row(cfg.backoff, row) && currentBackoff == row[|row| - 1]
        invariant |course| == i && |row| == Backoff.Lately(course) + 1
      {
        var stopped, failed;
        stopped, failed, drained := Step(run, i);
        if stopped {
          RunEnds(run, turns);
          return;
        }
        currentBackoff, row := NextWait(failed, currentBackoff, row);
        Backoff.LatelyOn(course, failed);
        course := course + [failed];
      }
      RunEnds(run, turns);
    }

    /** The course of a run of `i` turns so far. */
    ghost predicate UnderRun(run: Run, i: nat)
      reads this, storage
    {
      && run.was.ebb == 0 && Onward(run.was, Look().(ebb := 0)) && Pos() >= run.pos && 0 <= Work()
      && (run.sure ==>
            Reliable() && ebb >= run.end && (Pos() >= run.end || Work() + i <= run.work))
    }

    lemma RunBegins(run: Run)
      requires Good() && Work() >= 0 && ebb == |storage.hist|
      requires run == Run(Look().(ebb := 0), Pos(), Work(), |storage.hist|, Reliable())
      ensures UnderRun(run, 0)
    {
      hide Good, Guarded, Onward;
      Facts();
      OnwardSelf(run.was);
    }

    lemma RunEnds(run: Run, turns: nat)
      requires exists i: nat ::
        && i <= turns && UnderRun(run, i)
        && (i == turns || !run.sure || Pos() >= run.end || (closed && run.was.faults > 0))
      ensures Onward(run.was, Look().(ebb := 0)) && Pos() >= run.pos
      ensures run.sure && turns > run.work && (!closed || run.was.faults == 0) ==> Pos() >= run.end
    {
      hide Onward, Guarded;
    }

    /** One turn more of the run. */
    method Step(ghost run: Run, ghost i: nat) returns (stopped: bool, failed: bool, drained: bool)
      requires Good() && IdsOk() && UnderRun(run, i)
      modifies storage, `idCounter, `draws, `pending, `roll, `closed, `arrivals, `faults, `slips, `sent, `skips, `marks,
          `ebb
      ensures Good() && IdsOk() && UnderRun(run, i + 1)
      ensures drained ==> stopped && closed && Pos() == |storage.hist|
      ensures stopped && run.sure ==> Pos() >= run.end || (closed && run.was.faults > 0)
    {
      hide Good, IdsOk, Onward, Guarded;
      OnwardFacts(run.was, Look().(ebb := 0));
      var request: bool, stop: bool, late: bool := *, *, *;
      var more, last, ack;
      stopped, failed, more, last, ack := OneTurn(run.was, request, stop, late);
      drained := last == Some(None);
    }

    /** The backoff grows with every failure in a row, and starts anew after a success. */
    method NextWait(failed: bool, current: Backoff.Duration, ghost row: seq<int>)
      returns (next: Backoff.Duration, ghost more: seq<int>)
      requires Backoff.Row(cfg.backoff, row) && current == row[|row| - 1]
      ensures Backoff.Row(cfg.backoff, more) && next == more[|more| - 1]
      ensures more == if failed then row + [next] else [cfg.backoff.initialBackoff]
    {
      next, more := cfg.backoff.initialBackoff, [cfg.backoff.initialBackoff];
      if failed {
        var source: nat := *;
        next := Backoff.CalculateNextBackoff(cfg.backoff, current, source);
        more := row + [next];
      }
    }

    /**
     * One turn of the loop, in the course of a run that began at `was`: a round, and then a flush request that has come
     * in, or the `last` drain, or a flush request that comes in `late`, while the dispatcher waits.  An answer `ack`
     * without error is a barrier as that of DrainAll is.
     */
    method OneTurn(ghost was: View, request: bool, stop: bool, late: bool)
      returns (stopped: bool, failed: bool, more: bool, last: Option<Option<Error>>, ack: Option<Option<Error>>)
      requires Good() && IdsOk() && was.ebb == 0 && Onward(was, Look().(ebb := 0))
      modifies storage, `idCounter, `draws, `pending, `roll, `closed, `arrivals, `faults, `slips, `sent, `skips, `marks,
          `ebb
      ensures Good() && IdsOk() && Onward(was, Look().(ebb := 0)) && Pos() >= old(Pos()) && 0 <= Work()
      ensures last == Some(None) ==> stopped && closed && Pos() == |storage.hist|
      ensures stopped && !failed ==> last.Some?
      ensures stopped ==> stop && closed
      ensures stop && old(closed) && (failed || (!request && !more)) ==> stopped
      ensures !failed && (request || (late && !more && !stopped)) ==> ack.Some?
      ensures ack.Some? ==> request || late
      ensures ack == Some(None) ==> Pos() >= ebb && (Steady() ==> ebb >= old(|storage.hist|))
      ensures old(Reliable()) ==>
                if failed then faults < old(faults)
                else Pos() + old(slips) > old(Pos()) + slips || Pos() >= old(ebb)
      ensures old(Reliable()) ==>
                && Reliable() && ebb >= old(ebb) && (Pos() >= old(ebb) || Work() < old(Work()))
                && (stopped ==> Pos() >= old(ebb) || (closed && old(faults) > 0))
    {
      hide Good, IdsOk, Onward, Guarded;
      ghost var mid := Look();
      var err;
      more, err := Turn(false);
      OnwardDry(mid, Look());
      OnwardOn(was, mid.(ebb := 0), Look().(ebb := 0));
      OnwardFacts(mid, Look());
      failed, last, ack := err.Some?, None, None;
      stopped := stop && closed;
      if failed {
        return;
      }
      Facts();
      if request {
        var answer := Answer(was);
        stopped, ack := false, Some(answer);
        return;
      }
      if more {
        stopped := false;
        return;
      }
      if stopped {
        var shutdown := Answer(was);
        last := Some(shutdown);
        return;
      }
      if late {
        var answer := Answer(was);
        ack := Some(answer);
      }
    }

    /** Drains for a flush request or for the last time, in the course of a run that began at `was`. */
    method Answer(ghost was: View) returns (err: Option<Error>)
      requires Good() && IdsOk() && was.ebb == 0 && Onward(was, Look().(ebb := 0))
      modifies storage, `idCounter, `draws, `pending, `roll, `closed, `arrivals, `faults, `slips, `sent, `skips, `marks,
          `ebb
      ensures Good() && IdsOk() && Onward(was, Look().(ebb := 0)) && Pos() >= old(Pos()) && 0 <= Work() <= old(Work())
      ensures old(Reliable()) ==> Reliable() && faults <= old(faults) && ebb == old(|storage.hist|)
      ensures old(closed) ==> closed && (err == None ==> Pos() == |storage.hist|)
      ensures (err == None ==> Pos() >= ebb) && (Steady() ==> old(Steady()) && ebb == old(|storage.hist|))
      ensures slips <= old(slips) && err != Some(SinkUnavailable)
      ensures old(Reliable()) && err != None ==>
        || err == Some(ContextDone) || err == Some(SpoolerClosed)
        || (|sent| > |old(sent)| && sent[|sent| - 1].outcome == Failed(err.value))
    {
      hide Good, IdsOk, Onward, Guarded;
      ghost var mid, course, waits, row := Look().(ebb := |storage.hist|), [], 0, [];
      err, course, waits, row := DrainAll(true);
      OnwardDry(mid, Look());
      OnwardOn(was, mid.(ebb := 0), Look().(ebb := 0));
      Ended(mid, Look());
      OnwardFacts(mid, Look());
      WorkIsNatural();
      Facts();
    }

    lemma Ended(a: View, b: View)
      requires Onward(a, b)
      ensures a.closed ==> b.closed && b.hist == a.hist && b.ebb == a.ebb && b.steady == a.steady
    {
    }

    /**
     * Close, once every Enqueue under way has returned: the dispatcher goes on for some turns and ends, and the storage
     * is closed.  Nothing is added to the log any more and nothing is lost from it; if the last drain had no error all
     * of it is settled, and if closing a storage that was still `open` had none all of it is on the medium.  A second
     * Close does nothing.
     */
    method Close(turns: nat) returns (err: Option<Error>, drained: bool, ghost open: bool)
      requires Good() && IdsOk() && (closed || pending == map[])
      modifies storage, `idCounter, `draws, `pending, `roll, `closed, `arrivals, `faults, `slips, `sent, `skips, `marks,
          `ebb
      ensures Good() && IdsOk() && closed && storage.hist == old(storage.hist) && Pos() >= old(Pos())
      ensures old(closed) ==> err == None && unchanged(storage) && unchanged(this)
      ensures drained ==> Pos() == |storage.hist|
      ensures !old(closed) ==> storage.closed && (old(Reliable()) ==> err == None && open)
      ensures open && err == None && storage.Sound() ==>
                TailSafe(storage.Here(storage.hist)) && Durable(storage.Here(storage.hist)) == |storage.hist|
      ensures old(Guarded()) ==> Guarded()
    {
      hide Good, IdsOk, Guarded, Onward, FileStorageEngine.Valid, TailSafe, Durable;
      if closed {
        return None, false, false;
      }
      GuardedIsSteady();
      Bar();
      ghost var was := Look().(ebb := 0);
      ghost var course, row;
      var currentBackoff;
      currentBackoff, course, row, drained := RunDispatcher(turns);
      Ended(was, Look().(ebb := 0));
      OnwardKeeps(was, Look().(ebb := 0));
      open := !storage.closed;
      err := Shut();
    }
  }

  /** Of a safe run, the saved checkpoint never passes the present one. */
  lemma SavedBelow(s: FileStorageEngine, from: nat)
    requires s.Valid() && s.Strong()
    ensures forall j: nat :: from <= j < |s.past| ==> s.past[j].saved <= s.checkpoint
  {
    hide StrongJourney, TailSafe;
    forall j: nat | from <= j < |s.past| ensures s.past[j].saved <= s.checkpoint {
      CheckpointForever(s.past, j, |s.past| - 1);
    }
  }

  /** What a safe run says of its disk at moment `k`. */
  lemma MomentOf(s: FileStorageEngine, k: nat)
    requires s.Valid() && s.Strong() && k < |s.past|
    ensures Journey(s.past[..k + 1]) && StrongJourney(s.past[..k + 1]) && s.past[..k + 1][k] == s.past[k]
    ensures TailSafe(s.past[k]) && s.past[k].saved <= Durable(s.past[k])
  {
    hide TailSafe;
    ArrivedIsSafe(s.past, s.Here(s.hist));
    JourneyPrefix(s.past, k + 1);
    CheckpointForever(s.past, k, k);
    StrongIsJourney(s.past[..k + 1]);
  }

  /** The record at `o` is in the log of `next` as it is in `hist`, and still to be delivered. */
  ghost predicate Charged(next: Engine, hist: seq<Frame>, o: nat)
    reads next, next.storage
  {
    next.start <= o < |next.storage.hist| && o < |hist| && next.storage.hist[o] == hist[o]
  }

  /** What engine `e` had settled by the moment `k` of its disk. */
  ghost predicate SettledBy(e: Engine, k: nat, o: nat)
    reads e
  {
    && k < |e.marks| && e.marks[k].0 <= |e.sent| && e.marks[k].1 <= |e.skips|
    && Settled(e.sent[..e.marks[k].0], e.skips[..e.marks[k].1], o)
  }

  /**
   * At least once, across a stop: at any moment `k` of the run of engine `e` the power fails or the process dies,
   * what is left of its directory is opened, and a new dispatcher begins where the checkpoint file says.  Every
   * record that was durable then and that the first one was charged with had been settled by it when the disk came to
   * `k`, or is in the new log, at its offset and with its content, and the new dispatcher is charged with it.  A
   * restart that fails leaves the directory as it was.
   */
  method Restart(e: Engine, ghost k: nat, dir: map<nat, seq<byte>>, ghost kept: map<nat, nat>, meta: nat, capacity: int,
                 options: Options, reliable: bool, cfg: Settings, arrivals: nat, faults: nat, slips: nat)
    returns (err: Option<Error>, next: Engine?, ghost left: map<nat, seq<byte>>, ghost on: map<nat, nat>)
    requires e.Good() && e.storage.Strong() && capacity > 0
    requires k < |e.storage.past| && TailSafe(e.storage.past[k]) && Stops(e.storage.past[k], dir, kept)
    requires meta == e.storage.past[k].saved
    requires options.maxSegmentSize <= 0 ==> forall b :: b in dir ==> b == 0
    ensures reliable ==> err == None
    ensures err != None ==> left == dir && on == kept
    ensures err == None ==>
              && next != null && fresh(next) && fresh(next.storage) && next.Good() && next.IdsOk()
              && next.storage.Strong() && next.storage.walOpen && next.start == meta && next.sent == []
              && next.skips == []
    ensures err == None ==>
              forall o: nat :: e.start <= o < Durable(e.storage.past[k]) ==>
                SettledBy(e, k, o) || Charged(next, e.storage.past[k].hist, o)
  {
    hide FileStorageEngine.Valid, StrongJourney, Journey, TailSafe, Stops, FileStorageEngine.Opened, Noted, Engine.Good;
    hide Settled, RollOk;
    e.Facts();
    MomentOf(e.storage, k);
    ghost var a, before := e.storage.past[k], e.storage.past[..k + 1];
    var s;
    err, s, left, on := FileStorageEngine.Open(dir, meta, capacity, options, reliable, kept, before);
    next := null;
    if err == None {
      Survivor(s, dir, kept, before);
      next := new Engine(cfg, s, arrivals, faults, slips);
      assert NotedAt(e.sent, e.skips, e.start, e.marks[k], a.saved) by {
        NotedThere(e, k);
      }
    }
  }

  lemma NotedThere(e: Engine, k: nat)
    requires Noted(e.Account(), e.marks, e.storage.past) && k < |e.marks|
    ensures NotedAt(e.sent, e.skips, e.start, e.marks[k], e.storage.past[k].saved)
  {
  }

  lemma Survivor(s: FileStorageEngine, dir: map<nat, seq<byte>>, kept: map<nat, nat>, before: seq<Moment>)
    requires before != [] && StrongJourney(before) && s.Valid()
    requires s.Ready(FileStorageEngine.Created(dir), FileStorageEngine.Held(dir, kept), before)
    ensures var a := before[|before| - 1];
      TailSafe(a) && s.hist <= a.hist && Durable(a) <= |s.hist| && s.Strong() && s.joined && s.orderly
      && s.checkpoint == s.saved >= s.baseOffset
  {
    hide EngineOk, Laid, Placed, TailSafe;
  }

  /**
   * Two producers, on a machine that fails nothing: one draws first and appends second.  Its record stands behind the
   * other's in the log and has the lower identifier, which is not above all that the storage knew.
   */
  method Overtaken(e: Engine, topic: seq<byte>, payload: seq<byte>, other: seq<byte>, more: seq<byte>, now: int64,
                   later: int64)
    requires e.Good() && e.IdsOk() && !e.closed && e.Reliable()
    requires |e.storage.hist| + 2 - e.storage.checkpoint <= e.storage.maxCapacity
    requires e.roll.first + |e.roll.drawn| + 2 < WIDTH
    requires e.Admissible(topic, payload) && e.Admissible(other, more) && |topic| <= MAX_TOPIC && |other| <= MAX_TOPIC
    modifies e, e.storage
    ensures e.Good() && e.IdsOk()
    ensures var n := |old(e.storage.hist)|;
      && |e.storage.hist| == n + 2 && e.storage.hist[..n] == old(e.storage.hist)
      && IdOf(e.storage.hist[n]) == old(e.idCounter) + 2 && IdOf(e.storage.hist[n + 1]) == old(e.idCounter) + 1
      && e.storage.maxID == IdOf(e.storage.hist[n])
  {
    hide FileStorageEngine.Valid, Engine.Good, Encode, SameBelow, Engine.Guarded, IdOf, AppendOutcome, Engine.IdsOk;
    hide RollOk;
    ghost var hist := e.storage.hist;
    e.CounterIs();
    var err, a := e.Draw(topic, payload, now, false);
    var b;
    err, b := e.Draw(other, more, later, false);
    ghost var x, y := e.pending[b], e.pending[a];
    e.CounterIs();
    EncodedId(x);
    EncodedId(y);
    var r := e.Store(b);
    OutcomeFacts(hist, e.storage.hist, e.storage.checkpoint, e.storage.maxCapacity, true, x, r);
    r := e.Store(a);
    OutcomeFacts(hist + [Encode(x)], e.storage.hist, e.storage.checkpoint, e.storage.maxCapacity, true, y, r);
  }

  /**
   * A round in which the flusher comes in behind the read: whatever the policy, a commit that follows names records on
   * the medium only, and what was safe from every stop stays so.  If nothing fails, such a round delivers and commits
   * what there is.
   */
  method FlushedRound(e: Engine) returns (batch: seq<Record>, flushed: Option<Error>, commit: Option<Error>)
    requires e.Good() && e.IdsOk()
    modifies e, e.storage
    ensures e.Good() && e.IdsOk() && e.storage.hist == old(e.storage.hist)
    ensures batch != [] && commit == None ==>
              e.Pos() == old(e.Pos()) + |batch| && (flushed == None && old(e.storage.Strong()) ==> e.storage.Strong())
    ensures e.Pos() > old(e.Pos()) ==> batch != [] && commit == None
    ensures old(e.Reliable() && e.faults == 0 && !e.storage.garbled && e.Pos() < |e.storage.hist|
                && Decode(e.storage.hist[e.Pos()]).Ok?) ==>
              batch != [] && flushed == None && commit == None
  {
    hide FileStorageEngine.Valid, Engine.Good, Engine.IdsOk, Ledger, TailSafe, Durable, Faithful, Decode;
    hide Engine.Guarded, Fills;
    e.Facts();
    batch, flushed, commit := [], None, Some(StorageUnavailable);
    var r := e.Read();
    if r.Err? || r.value == [] {
      return;
    }
    flushed := e.Force();
    var outcome := e.Send(r.value);
    if outcome.Failed? {
      return;
    }
    e.Facts();
    LedgerAdvances(e.Account(), e.storage.hist);
    commit := e.Advance(r.value[|r.value| - 1].offset);
    batch := r.value;
  }
}
