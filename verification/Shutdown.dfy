/**
 * The protocol of engine.go between producers, flushing clients, closing clients and the dispatcher.  One step is one
 * access to shared state or one channel operation.  Enqueue holds the read lock from its look at the closed flag to its
 * return; the write lock of Close covers its look and its write, which are one step here.
 */
module Shutdown {

  datatype EnqueuePhase = Entering | Admitted | Appended | Returned

  datatype FlushPhase = Asking | Offering | Waiting | Answered

  /** A Flush, the answers in its channel, and how many the dispatcher has sent in all. */
  datatype Flush = Flush(phase: FlushPhase, acks: nat, sent: nat)

  /** The channel of a flush request holds one answer. */
  const ACK_CAPACITY := 1

  datatype ClosePhase = Arriving | Signalling | Joining | Finished

  datatype Dispatcher =
    | Draining                // about to read a batch
    | Committing              // about to commit one
    | BackingOff
    | Polling(drained: bool)  // the select that does not wait
    | Idle                    // the select that waits
    | Serving(f: nat)         // draining for a flush
    | Acking(f: nat)
    | LastDrain
    | Exited

  datatype Engine = Engine(
    closed: bool, stopped: bool, storageCloses: nat, notified: bool,
    appended: nat, seen: nat,   // records appended, and those seen when the dispatcher last found nothing to read
    enqueues: seq<EnqueuePhase>, flushes: seq<Flush>, closers: seq<ClosePhase>, dispatcher: Dispatcher,
    misused: bool,              // the storage was used after it had been closed
    lateAppend: bool,           // a record was appended after Close had begun
    stoppedTwice: bool)         // the stop channel was closed twice

  datatype Found = Batch | Nothing | Failure

  datatype Step =
    | EnqueueCall | EnqueueEnter(j: nat) | Append(j: nat, ok: bool) | Notify(j: nat)
    | FlushCall | FlushEnter(f: nat) | Hand(f: nat) | TakeAck(f: nat) | SeeStop(f: nat) | ContextEnds(f: nat)
    | CloseCall | CloseEnter(c: nat) | Signal(c: nat) | Finish(c: nat)
    | Read(found: Found) | Commit(ok: bool) | BackoffEnds | BackoffStops | PollNothing
    | IdleStops | Wake | Tick | Serve | Served | Ack | DrainMore | DrainEnds

  /** An Enqueue that holds the read lock. */
  predicate Holds(p: EnqueuePhase) {
    p == Admitted || p == Appended
  }

  ghost predicate NoHolder(e: Engine) {
    forall j: nat :: j < |e.enqueues| ==> !Holds(e.enqueues[j])
  }

  ghost predicate Enabled(e: Engine, step: Step) {
    match step
    case EnqueueCall => true
    case EnqueueEnter(j) => j < |e.enqueues| && e.enqueues[j] == Entering
    case Append(j, _) => j < |e.enqueues| && e.enqueues[j] == Admitted
    case Notify(j) => j < |e.enqueues| && e.enqueues[j] == Appended
    case FlushCall => true
    case FlushEnter(f) => f < |e.flushes| && e.flushes[f].phase == Asking
    case Hand(f) => f < |e.flushes| && e.flushes[f].phase == Offering && (e.dispatcher.Polling? || e.dispatcher.Idle?)
    case TakeAck(f) => f < |e.flushes| && e.flushes[f].phase == Waiting && e.flushes[f].acks > 0
    case SeeStop(f) => f < |e.flushes| && (e.flushes[f].phase == Offering || e.flushes[f].phase == Waiting) && e.stopped
    case ContextEnds(f) => f < |e.flushes| && e.flushes[f].phase != Answered
    case CloseCall => true
    case CloseEnter(c) => c < |e.closers| && e.closers[c] == Arriving && NoHolder(e)
    case Signal(c) => c < |e.closers| && e.closers[c] == Signalling
    case Finish(c) => c < |e.closers| && e.closers[c] == Joining && e.dispatcher == Exited
    case Read(_) => e.dispatcher == Draining
    case Commit(_) => e.dispatcher == Committing
    case BackoffEnds => e.dispatcher == BackingOff
    case BackoffStops => e.dispatcher == BackingOff && e.stopped
    case PollNothing => e.dispatcher.Polling?
    case IdleStops => e.dispatcher == Idle && e.stopped
    case Wake => e.dispatcher == Idle && e.notified
    case Tick => e.dispatcher == Idle
    case Serve => e.dispatcher.Serving?
    case Served => e.dispatcher.Serving?
    case Ack => e.dispatcher.Acking? && e.dispatcher.f < |e.flushes| && e.flushes[e.dispatcher.f].acks < ACK_CAPACITY
    case DrainMore => e.dispatcher == LastDrain
    case DrainEnds => e.dispatcher == LastDrain
  }

  /** The storage is used. */
  function Using(e: Engine): Engine {
    e.(misused := e.misused || e.storageCloses > 0)
  }

  ghost function Do(e: Engine, step: Step): Engine
    requires Enabled(e, step)
  {
    match step
    case EnqueueCall => e.(enqueues := e.enqueues + [Entering])
    case EnqueueEnter(j) => e.(enqueues := e.enqueues[j := if e.closed then Returned else Admitted])
    case Append(j, ok) =>
      var u := Using(e).(lateAppend := e.lateAppend || e.closed);
      if ok then u.(appended := e.appended + 1, enqueues := e.enqueues[j := Appended])
      else u.(enqueues := e.enqueues[j := Returned])
    case Notify(j) => e.(notified := true, enqueues := e.enqueues[j := Returned])
    case FlushCall => e.(flushes := e.flushes + [Flush(Asking, 0, 0)])
    case FlushEnter(f) => e.(flushes := e.flushes[f := e.flushes[f].(phase := if e.closed then Answered else Offering)])
    case Hand(f) => e.(flushes := e.flushes[f := e.flushes[f].(phase := Waiting)], dispatcher := Serving(f))
    case TakeAck(f) => e.(flushes := e.flushes[f := e.flushes[f].(phase := Answered, acks := e.flushes[f].acks - 1)])
    case SeeStop(f) => e.(flushes := e.flushes[f := e.flushes[f].(phase := Answered)])
    case ContextEnds(f) => e.(flushes := e.flushes[f := e.flushes[f].(phase := Answered)])
    case CloseCall => e.(closers := e.closers + [Arriving])
    case CloseEnter(c) => e.(closed := true, closers := e.closers[c := if e.closed then Finished else Signalling])
    case Signal(c) => 
      e.(stopped := true, stoppedTwice := e.stoppedTwice || e.stopped, closers := e.closers[c := Joining])
    case Finish(c) => e.(storageCloses := e.storageCloses + 1, closers := e.closers[c := Finished])
    case Read(found) =>
      var u := Using(e);
      (match found
       case Batch => u.(dispatcher := Committing)
       case Nothing => u.(dispatcher := Polling(false), seen := e.appended)
       case Failure => u.(dispatcher := BackingOff))
    case Commit(ok) => Using(e).(dispatcher := if ok then Polling(true) else BackingOff)
    case BackoffEnds => e.(dispatcher := Draining)
    case BackoffStops => e.(dispatcher := Exited)
    case PollNothing => e.(dispatcher := if e.dispatcher.drained then Draining else Idle)
    case IdleStops => e.(dispatcher := LastDrain)
    case Wake => e.(dispatcher := Draining, notified := false)
    case Tick => e.(dispatcher := Draining)
    case Serve => Using(e)
    case Served => e.(dispatcher := Acking(e.dispatcher.f))
    case Ack =>
      var f := e.dispatcher.f;
      var answered := e.flushes[f].(acks := e.flushes[f].acks + 1, sent := e.flushes[f].sent + 1);
      e.(dispatcher := Draining, flushes := e.flushes[f := answered])
    case DrainMore => Using(e)
    case DrainEnds => e.(dispatcher := Exited)
  }

  const STARTED := Engine(false, false, 0, false, 0, 0, [], [], [], Draining, false, false, false)

  /** The engine after `steps`, in any interleaving; a step that cannot be taken is not taken. */
  ghost function After(steps: seq<Step>): Engine {
    if steps == [] then STARTED
    else
      var e := After(steps[..|steps| - 1]);
      if Enabled(e, steps[|steps| - 1]) then Do(e, steps[|steps| - 1]) else e
  }

  // ----- The invariant.

  /** The closers that have found the engine open: at most one, and as far as the flags say. */
  ghost predicate ClosersOk(e: Engine) {
    && (forall c: nat :: c < |e.closers| && UnderWay(e.closers[c]) ==> e.closed && e.storageCloses == 0)
    && (forall c: nat :: c < |e.closers| && e.closers[c] == Signalling ==> !e.stopped)
    && (forall c: nat :: c < |e.closers| && e.closers[c] == Joining ==> e.stopped)
    && (forall c: nat, d: nat :: c < d < |e.closers| ==> !(UnderWay(e.closers[c]) && UnderWay(e.closers[d])))
    && (e.stopped ==> e.closed) && (e.storageCloses > 0 ==> e.stopped && e.dispatcher == Exited) && e.storageCloses <= 1
  }

  predicate UnderWay(p: ClosePhase) {
    p == Signalling || p == Joining
  }

  /** A flush has been answered at most once; the one being served, never. */
  ghost predicate FlushesOk(e: Engine) {
    && (forall f: nat :: f < |e.flushes| ==> FlushOk(e.flushes[f]))
    && (e.dispatcher.Serving? || e.dispatcher.Acking? ==>
          && e.dispatcher.f < |e.flushes| && e.flushes[e.dispatcher.f].sent == 0
          && (e.flushes[e.dispatcher.f].phase == Waiting || e.flushes[e.dispatcher.f].phase == Answered))
  }

  predicate FlushOk(f: Flush) {
    f.acks <= f.sent <= 1 && (f.phase == Asking || f.phase == Offering ==> f.sent == 0)
  }

  /** An Enqueue is about to wake the dispatcher. */
  ghost predicate AboutToNotify(e: Engine) {
    exists j: nat :: j < |e.enqueues| && e.enqueues[j] == Appended
  }

  ghost predicate Inv(e: Engine) {
    && !e.misused && !e.lateAppend && !e.stoppedTwice
    && ClosersOk(e) && FlushesOk(e)
    && (e.closed ==> NoHolder(e))
    && e.seen <= e.appended
    && (e.seen < e.appended && (e.dispatcher == Idle || e.dispatcher == Polling(false)) ==>
      e.notified || AboutToNotify(e))
    && (e.dispatcher == LastDrain ==> e.stopped)
  }

  // ----- Every run.

  predicate OfEnqueue(step: Step) {
    step.EnqueueCall? || step.EnqueueEnter? || step.Append? || step.Notify?
  }

  predicate OfFlush(step: Step) {
    step.FlushCall? || step.FlushEnter? || step.Hand? || step.TakeAck? || step.SeeStop? || step.ContextEnds?
  }

  predicate OfClose(step: Step) {
    step.CloseCall? || step.CloseEnter? || step.Signal? || step.Finish?
  }

  /** The step is one of the dispatcher's own. */
  predicate OfDispatcher(step: Step) {
    step.Read? || step.Commit? || step.BackoffEnds? || step.BackoffStops? || step.PollNothing? || step.IdleStops?
    || step.Wake? || step.Tick? || step.Serve? || step.Served? || step.Ack? || step.DrainMore? || step.DrainEnds?
  }

  lemma EnqueueKeeps(e: Engine, step: Step)
    requires Inv(e) && Enabled(e, step) && OfEnqueue(step)
    ensures Inv(Do(e, step))
  {
    var t := Do(e, step);
    assert ClosersOk(t) && FlushesOk(t);
    if AboutToNotify(e) {
      var j: nat :| j < |e.enqueues| && e.enqueues[j] == Appended;
      assert t.enqueues[j] == Appended || t.notified;
    }
    if step.Append? && step.ok {
      assert t.enqueues[step.j] == Appended;
    }
  }

  lemma FlushKeeps(e: Engine, step: Step)
    requires Inv(e) && Enabled(e, step) && OfFlush(step)
    ensures Inv(Do(e, step))
  {
    hide FlushOk, NoHolder, AboutToNotify;
    var t := Do(e, step);
    assert t.enqueues == e.enqueues && t.closers == e.closers;
    SameEnqueues(e, t);
    assert ClosersOk(t);
    FlushesKept(e, step);
  }

  lemma SameEnqueues(e: Engine, t: Engine)
    requires t.enqueues == e.enqueues
    ensures NoHolder(e) == NoHolder(t) && AboutToNotify(e) == AboutToNotify(t)
  {
  }

  lemma FlushesKept(e: Engine, step: Step)
    requires FlushesOk(e) && Enabled(e, step) && OfFlush(step)
    ensures FlushesOk(Do(e, step))
  {
    hide ClosersOk, NoHolder;
  }

  lemma CloseKeeps(e: Engine, step: Step)
    requires Inv(e) && Enabled(e, step) && OfClose(step)
    ensures Inv(Do(e, step))
  {
    hide FlushOk, AboutToNotify, NoHolder;
    var t := Do(e, step);
    SameEnqueues(e, t);
  }

  lemma DispatcherKeeps(e: Engine, step: Step)
    requires Inv(e) && Enabled(e, step) && OfDispatcher(step)
    ensures Inv(Do(e, step))
  {
    DispatcherSparesClosers(e, step);
    DispatcherAnswersOnce(e, step);
    DispatcherWakes(e, step);
    DispatcherSparesOthers(e, step);
    hide Do, Enabled, AboutToNotify, NoHolder, ClosersOk, FlushesOk;
    SameEnqueues(e, Do(e, step));
  }

  lemma DispatcherSparesOthers(e: Engine, step: Step)
    requires Inv(e) && Enabled(e, step) && OfDispatcher(step)
    ensures var t := Do(e, step);
      && t.enqueues == e.enqueues && t.closers == e.closers && t.closed == e.closed && t.stopped == e.stopped
      && t.misused == e.misused && t.lateAppend == e.lateAppend && t.stoppedTwice == e.stoppedTwice
  {
    hide AboutToNotify, NoHolder, FlushesOk;
  }

  lemma DispatcherSparesClosers(e: Engine, step: Step)
    requires Inv(e) && Enabled(e, step) && OfDispatcher(step)
    ensures ClosersOk(Do(e, step))
  {
    hide FlushesOk, AboutToNotify, NoHolder;
  }

  lemma DispatcherAnswersOnce(e: Engine, step: Step)
    requires FlushesOk(e) && Enabled(e, step) && OfDispatcher(step)
    ensures FlushesOk(Do(e, step))
  {
    if step.Ack? {
      AckKeeps(e);
    } else {
      SameFlushes(e, step);
      assert step == Served ==> e.dispatcher.Serving?;
      hide Do, Enabled, FlushOk;
    }
  }

  lemma AckKeeps(e: Engine)
    requires FlushesOk(e) && Enabled(e, Ack)
    ensures FlushesOk(Do(e, Ack))
  {
    var f, t := e.dispatcher.f, Do(e, Ack);
    assert FlushOk(e.flushes[f]);
    assert FlushOk(t.flushes[f]);
  }

  lemma SameFlushes(e: Engine, step: Step)
    requires Enabled(e, step) && OfDispatcher(step) && !step.Ack?
    ensures var d, t := e.dispatcher, Do(e, step);
      && t.flushes == e.flushes
      && (t.dispatcher.Serving? || t.dispatcher.Acking? ==>
            (step == Serve && d.Serving? && t.dispatcher == d) || (step == Served && t.dispatcher == Acking(d.f)))
  {
    hide NoHolder;
    var t := Do(e, step);
    match step
    case Read(_) => assert !t.dispatcher.Serving? && !t.dispatcher.Acking?;
    case Commit(_) => assert !t.dispatcher.Serving? && !t.dispatcher.Acking?;
    case PollNothing => assert !t.dispatcher.Serving? && !t.dispatcher.Acking?;
    case _ =>
  }

  /** No wake-up is lost by the dispatcher itself. */
  lemma DispatcherWakes(e: Engine, step: Step)
    requires Inv(e) && Enabled(e, step) && OfDispatcher(step)
    ensures var t := Do(e, step);
      && t.seen <= t.appended && (t.dispatcher == LastDrain ==> t.stopped)
      && (t.seen < t.appended && (t.dispatcher == Idle || t.dispatcher == Polling(false)) ==>
            t.notified || AboutToNotify(t))
  {
    hide ClosersOk, FlushesOk, AboutToNotify, NoHolder;
    var t := Do(e, step);
    assert t.enqueues == e.enqueues;
    SameEnqueues(e, t);
    assert step.Read? ==> t.dispatcher != Idle && (t.dispatcher == Polling(false) ==> t.seen == t.appended);
    assert !step.Read? ==> t.dispatcher != Polling(false);
    assert t.dispatcher == Idle ==> step.PollNothing? && e.dispatcher == Polling(false);
  }

  lemma StepKeeps(e: Engine, step: Step)
    requires Inv(e) && Enabled(e, step)
    ensures Inv(Do(e, step))
  {
    hide Inv, Do, Enabled;
    if OfEnqueue(step) {
      EnqueueKeeps(e, step);
    } else if OfFlush(step) {
      FlushKeeps(e, step);
    } else if OfClose(step) {
      CloseKeeps(e, step);
    } else {
      DispatcherKeeps(e, step);
    }
  }

  lemma {:induction false} RunKeeps(steps: seq<Step>)
    ensures Inv(After(steps))
  {
    hide Do, Enabled, Inv;
    if steps == [] {
      StartKeeps();
    } else {
      RunKeeps(steps[..|steps| - 1]);
      var e := After(steps[..|steps| - 1]);
      if Enabled(e, steps[|steps| - 1]) {
        StepKeeps(e, steps[|steps| - 1]);
      }
    }
  }

  lemma StartKeeps()
    ensures Inv(STARTED)
  {
  }

  /**
   * In every interleaving: the storage is closed at most once and not used afterwards, nothing is appended once Close
   * has begun, and the stop channel is closed at most once.
   */
  lemma StorageIsSafe(steps: seq<Step>)
    ensures var e := After(steps);
      && !e.misused && !e.lateAppend && !e.stoppedTwice && e.storageCloses <= 1
      && (e.storageCloses > 0 ==> e.dispatcher == Exited)
  {
    RunKeeps(steps);
  }

  /** The dispatcher never waits on an answer, and no flush is answered twice. */
  lemma AckNeverBlocks(steps: seq<Step>)
    ensures After(steps).dispatcher.Acking? ==> Enabled(After(steps), Ack)
    ensures forall f: nat {:trigger After(steps).flushes[f]} :: f < |After(steps).flushes| ==>
              After(steps).flushes[f].sent <= 1
  {
    RunKeeps(steps);
    var e := After(steps);
    if e.dispatcher.Acking? {
      assert FlushOk(e.flushes[e.dispatcher.f]);
    }
    forall f: nat | f < |e.flushes| ensures e.flushes[f].sent <= 1 {
      assert FlushOk(e.flushes[f]);
    }
  }

  /** A client whose Close has begun to wait finds every pending Flush free to return. */
  lemma PendingFlushesReturn(steps: seq<Step>, c: nat, f: nat)
    requires var e := After(steps);
      && c < |e.closers| && e.closers[c] == Joining
      && f < |e.flushes| && e.flushes[f].phase != Answered
    ensures var e := After(steps); Enabled(e, SeeStop(f)) || Enabled(e, FlushEnter(f))
    ensures var e := After(steps); Enabled(e, FlushEnter(f)) ==> Do(e, FlushEnter(f)).flushes[f].phase == Answered
  {
    RunKeeps(steps);
  }

  /** While a Close waits for the dispatcher, the dispatcher can go on, and from its waiting places it can leave. */
  lemma CloseIsNotStuck(steps: seq<Step>, c: nat)
    requires c < |After(steps).closers| && After(steps).closers[c] == Joining
    ensures var e := After(steps);
      && (e.dispatcher == Exited ==> Enabled(e, Finish(c)))
      && (e.dispatcher != Exited ==> exists step :: OfDispatcher(step) && Enabled(e, step))
      && (e.dispatcher == Idle ==> Enabled(e, IdleStops)) && (e.dispatcher == BackingOff ==> Enabled(e, BackoffStops))
  {
    RunKeeps(steps);
    AckNeverBlocks(steps);
    var e := After(steps);
    if e.dispatcher != Exited {
      var step := match e.dispatcher
        case Draining => Read(Nothing)
        case Committing => Commit(true)
        case BackingOff => BackoffEnds
        case Polling(_) => PollNothing
        case Idle => Tick
        case Serving(_) => Served
        case Acking(_) => Ack
        case _ => DrainEnds;
      assert OfDispatcher(step) && Enabled(e, step);
    }
  }

  /**
   * No wake-up is lost: when the dispatcher waits although a record has been appended that it has not looked for, the
   * notification is there, or the Enqueue that appended it is about to give it.
   */
  lemma NoLostWakeUp(steps: seq<Step>)
    ensures var e := After(steps);
      e.dispatcher == Idle && e.seen < e.appended ==> Enabled(e, Wake) || exists j :: Enabled(e, Notify(j))
  {
    RunKeeps(steps);
    var e := After(steps);
    if e.dispatcher == Idle && e.seen < e.appended && !e.notified {
      var j: nat :| j < |e.enqueues| && e.enqueues[j] == Appended;
      assert Enabled(e, Notify(j));
    }
  }

  /** The last drain comes after the last record: nothing can be appended any more. */
  lemma LastDrainIsLast(steps: seq<Step>, j: nat, ok: bool)
    requires After(steps).dispatcher == LastDrain
    ensures !Enabled(After(steps), Append(j, ok))
  {
    RunKeeps(steps);
    var e := After(steps);
    assert j < |e.enqueues| ==> !Holds(e.enqueues[j]);
  }
}
