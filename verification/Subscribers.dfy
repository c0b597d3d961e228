/**
 * The subscribers of hub.go as concurrent threads: Ingest offers an entry to a snapshot of them outside the hub's lock,
 * while cancel and Close take them away and close their channels.  One step is one access to shared state; what stands
 * under the hub's own lock is one step, and each subscriber's lock is taken and released by steps of its own.
 */
module Subscribers {
  import opened Results

  /** The capacity of a subscriber's channel. */
  const QUEUE := 256

  datatype StreamFilter = StreamFilter(service: string, level: string)

  datatype Entry = Entry(service: string, level: string)

  /** Go's strings.EqualFold, which the hub only applies. */
  type Fold = (string, string) -> bool

  predicate Matches(f: StreamFilter, e: Entry, fold: Fold) {
    (f.service == "" || fold(f.service, e.service)) && (f.level == "" || fold(f.level, e.level))
  }

  /**
   * A subscriber: its flag, whether its channel is closed, and the numbers of the ingests whose entries came through.
   */
  datatype Subscriber = Subscriber(filter: StreamFilter, closed: bool, channelClosed: bool, queue: seq<nat>,
      received: seq<nat>)

  /** What became of an entry at one subscriber. */
  datatype Outcome = Filtered | WasClosed | Queued | Dropped

  datatype ReadPhase = Between | Holding | Offering | Leaving

  /** An Ingest on its way through its snapshot; it has dealt with as many subscribers as it has outcomes. */
  datatype Ingest = Ingest(entry: Entry, subs: seq<nat>, outcomes: seq<Outcome>, phase: ReadPhase)

  datatype WritePhase = Next | Gripping | Marked | Shut

  /** A cancel or a Close on its way through the subscribers it closes; it is through with the first `done`. */
  datatype Closer = Closer(subs: seq<nat>, done: nat, phase: WritePhase)

  datatype Hub = Hub(
    fold: Fold, subs: seq<Subscriber>, registered: set<nat>, cancelled: set<nat>, closed: bool, droppedEvents: nat,
    ingests: seq<Ingest>, closers: seq<Closer>,
    panicked: bool)    // somebody sent on a closed channel, or closed one twice

  datatype Step =
    | Subscribe(filter: StreamFilter)
    | Begin(entry: Entry, order: seq<nat>)   // Ingest, under the hub's lock
    | Skip(i: nat)                           // the filter does not match
    | Grab(i: nat)                           // RLock
    | Look(i: nat)                           // reads the flag
    | Offer(i: nat)                          // the select
    | Release(i: nat)                        // RUnlock
    | Cancel(x: nat)                         // once, under the hub's lock
    | Close(order: seq<nat>)                 // under the hub's lock
    | Grip(c: nat)                           // Lock
    | Mark(c: nat)                           // reads and sets the flag
    | Shutter(c: nat)                        // closes the channel
    | Ungrip(c: nat)                         // Unlock
    | Receive(x: nat)                        // the client takes an entry

  ghost predicate NoDup<T>(s: seq<T>) {
    forall i, j :: 0 <= i < j < |s| ==> s[i] != s[j]
  }

  /** `order` runs through the members of `s`, each once. */
  ghost predicate Enumerates(order: seq<nat>, s: set<nat>) {
    NoDup(order) && forall x: nat :: x in s <==> x in order
  }

  /** The subscriber that an Ingest is dealing with. */
  function Current(g: Ingest): Option<nat> {
    if g.phase == Leaving then if 0 < |g.outcomes| <= |g.subs| then Some(g.subs[|g.outcomes| - 1]) else None
    else if |g.outcomes| < |g.subs| then Some(g.subs[|g.outcomes|]) else None
  }

  /** It holds the read lock of subscriber `x`. */
  predicate Reads(g: Ingest, x: nat) {
    g.phase != Between && Current(g) == Some(x)
  }

  /** It holds the write lock of subscriber `x`. */
  predicate Writes(c: Closer, x: nat) {
    c.phase != Next && c.done < |c.subs| && c.subs[c.done] == x
  }

  ghost predicate NoWriter(s: Hub, x: nat) {
    forall c: nat :: c < |s.closers| ==> !Writes(s.closers[c], x)
  }

  ghost predicate NoReader(s: Hub, x: nat) {
    forall i: nat :: i < |s.ingests| ==> !Reads(s.ingests[i], x)
  }

  /** An Ingest with something left to do, at subscriber `x`, in phase `phase`. */
  predicate At(s: Hub, i: nat, phase: ReadPhase) {
    i < |s.ingests| && s.ingests[i].phase == phase && Current(s.ingests[i]).Some?
      && Current(s.ingests[i]).value < |s.subs|
  }

  predicate ClosingAt(s: Hub, c: nat, phase: WritePhase) {
    && c < |s.closers| && s.closers[c].phase == phase
    && s.closers[c].done < |s.closers[c].subs| && s.closers[c].subs[s.closers[c].done] < |s.subs|
  }

  /** Whether the step can be taken; a thread that cannot take its step waits. */
  ghost predicate Enabled(s: Hub, step: Step) {
    match step
    case Subscribe(_) => !s.closed
    case Begin(_, order) => !s.closed && Enumerates(order, s.registered)
    case Skip(i) => At(s, i, Between)
      && !Matches(s.subs[Current(s.ingests[i]).value].filter, s.ingests[i].entry, s.fold)
    case Grab(i) =>
      && At(s, i, Between) && Matches(s.subs[Current(s.ingests[i]).value].filter, s.ingests[i].entry, s.fold)
      && NoWriter(s, Current(s.ingests[i]).value)
    case Look(i) => At(s, i, Holding)
    case Offer(i) => At(s, i, Offering)
    case Release(i) => At(s, i, Leaving)
    case Cancel(x) => x < |s.subs| && x !in s.cancelled
    case Close(order) => !s.closed && Enumerates(order, s.registered)
    case Grip(c) =>
      && ClosingAt(s, c, Next)
      && NoWriter(s, s.closers[c].subs[s.closers[c].done]) && NoReader(s, s.closers[c].subs[s.closers[c].done])
    case Mark(c) => ClosingAt(s, c, Gripping)
    case Shutter(c) => ClosingAt(s, c, Marked)
    case Ungrip(c) => ClosingAt(s, c, Shut)
    case Receive(x) => x < |s.subs| && s.subs[x].queue != []
  }

  /** An Ingest has come to an outcome at its current subscriber. */
  function Decided(g: Ingest, o: Outcome, phase: ReadPhase): Ingest {
    g.(outcomes := g.outcomes + [o], phase := phase)
  }

  /** The select: the entry goes into the channel if there is room, and is counted as dropped if there is none. */
  function Select(s: Hub, i: nat): Hub
    requires At(s, i, Offering)
  {
    var x := Current(s.ingests[i]).value;
    var sub := s.subs[x];
    if sub.channelClosed then s.(panicked := true)
    else if |sub.queue| < QUEUE then
      s.(subs := s.subs[x := sub.(queue := sub.queue + [i])],
         ingests := s.ingests[i := Decided(s.ingests[i], Queued, Leaving)])
    else
      s.(droppedEvents := s.droppedEvents + 1, ingests := s.ingests[i := Decided(s.ingests[i], Dropped, Leaving)])
  }

  ghost function Do(s: Hub, step: Step): Hub
    requires Enabled(s, step)
  {
    match step
    case Subscribe(filter) =>
      s.(subs := s.subs + [Subscriber(filter, false, false, [], [])], registered := s.registered + {|s.subs|})
    case Begin(entry, order) => s.(ingests := s.ingests + [Ingest(entry, order, [], Between)])
    case Skip(i) => s.(ingests := s.ingests[i := Decided(s.ingests[i], Filtered, Between)])
    case Grab(i) => s.(ingests := s.ingests[i := s.ingests[i].(phase := Holding)])
    case Look(i) =>
      if s.subs[Current(s.ingests[i]).value].closed then
        s.(ingests := s.ingests[i := Decided(s.ingests[i], WasClosed, Leaving)])
      else s.(ingests := s.ingests[i := s.ingests[i].(phase := Offering)])
    case Offer(i) => Select(s, i)
    case Release(i) => s.(ingests := s.ingests[i := s.ingests[i].(phase := Between)])
    case Cancel(x) =>
      s.(cancelled := s.cancelled + {x}, registered := s.registered - {x},
         closers := s.closers + [Closer([x], 0, Next)])
    case Close(order) => s.(closed := true, registered := {}, closers := s.closers + [Closer(order, 0, Next)])
    case Grip(c) => s.(closers := s.closers[c := s.closers[c].(phase := Gripping)])
    case Mark(c) =>
      var x := s.closers[c].subs[s.closers[c].done];
      if s.subs[x].closed then s.(closers := s.closers[c := s.closers[c].(phase := Shut)])
      else s.(subs := s.subs[x := s.subs[x].(closed := true)],
              closers := s.closers[c := s.closers[c].(phase := Marked)])
    case Shutter(c) =>
      var x := s.closers[c].subs[s.closers[c].done];
      if s.subs[x].channelClosed then s.(panicked := true)
      else
        s.(subs := s.subs[x := s.subs[x].(channelClosed := true)],
           closers := s.closers[c := s.closers[c].(phase := Shut)])
    case Ungrip(c) => s.(closers := s.closers[c := s.closers[c].(done := s.closers[c].done + 1, phase := Next)])
    case Receive(x) =>
      var sub := s.subs[x];
      s.(subs := s.subs[x := sub.(queue := sub.queue[1..], received := sub.received + [sub.queue[0]])])
  }

  function Fresh(fold: Fold): Hub {
    Hub(fold, [], {}, {}, false, 0, [], [], false)
  }

  /** The hub after `steps`, in any interleaving of any threads; a step that cannot be taken is not taken. */
  ghost function After(fold: Fold, steps: seq<Step>): Hub {
    if steps == [] then Fresh(fold)
    else
      var s := After(fold, steps[..|steps| - 1]);
      if Enabled(s, steps[|steps| - 1]) then Do(s, steps[|steps| - 1]) else s
  }

  // ----- The invariant.

  /** The entry of ingest `i` is in the channel of `x`, or has come out of it. */
  predicate QueuedAt(g: Ingest, x: nat) {
    exists k: nat :: k < |g.outcomes| && k < |g.subs| && g.subs[k] == x && g.outcomes[k] == Queued
  }

  ghost predicate OutcomeOk(s: Hub, g: Ingest, k: nat)
    requires k < |g.subs| && k < |g.outcomes|
  {
    && g.subs[k] < |s.subs|
    && (g.outcomes[k] == Filtered <==> !Matches(s.subs[g.subs[k]].filter, g.entry, s.fold))
    && (g.outcomes[k] == WasClosed ==> s.subs[g.subs[k]].closed)
  }

  ghost predicate IngestOk(s: Hub, g: Ingest) {
    && NoDup(g.subs) && (forall k: nat :: k < |g.subs| ==> g.subs[k] < |s.subs|)
    && |g.outcomes| <= |g.subs|
    && (g.phase != Between ==> Current(g).Some?)
    && (g.phase == Holding || g.phase == Offering ==> Matches(s.subs[Current(g).value].filter, g.entry, s.fold))
    && (g.phase == Offering ==> !s.subs[Current(g).value].closed)
    && forall k: nat :: k < |g.outcomes| ==> OutcomeOk(s, g, k)
  }

  ghost predicate CloserOk(s: Hub, c: Closer) {
    && c.done <= |c.subs| && (c.phase != Next ==> c.done < |c.subs|)
    && (forall k: nat :: k < |c.subs| ==> c.subs[k] < |s.subs| && c.subs[k] !in s.registered)
    && (c.phase == Marked ==> s.subs[c.subs[c.done]].closed && !s.subs[c.subs[c.done]].channelClosed)
    && (c.phase == Shut ==> s.subs[c.subs[c.done]].channelClosed)
    && forall k: nat :: k < c.done ==> s.subs[c.subs[k]].channelClosed
  }

  /** Some closer is about to close the channel of `x`. */
  ghost predicate ShutterDue(s: Hub, x: nat) {
    exists c: nat :: c < |s.closers| && Writes(s.closers[c], x) && s.closers[c].phase == Marked
  }

  ghost predicate SubOk(s: Hub, x: nat)
    requires x < |s.subs|
  {
    var sub := s.subs[x];
    && |sub.queue| <= QUEUE && (sub.channelClosed ==> sub.closed)
    && (sub.closed && !sub.channelClosed ==> ShutterDue(s, x))
    && (sub.closed ==> x !in s.registered)
    && (x in s.registered || ToBeClosed(s, x))
  }

  ghost predicate ToBeClosed(s: Hub, x: nat) {
    exists c: nat :: c < |s.closers| && x in s.closers[c].subs
  }

  ghost predicate Arrived(s: Hub, x: nat)
    requires x < |s.subs|
  {
    var all := s.subs[x].received + s.subs[x].queue;
    && NoDup(all)
    && forall i: nat :: i in all <==> i < |s.ingests| && QueuedAt(s.ingests[i], x)
  }

  ghost predicate Exclusive(s: Hub) {
    && (forall c: nat, d: nat, x: nat :: c < d < |s.closers| ==> !(Writes(s.closers[c], x) && Writes(s.closers[d], x)))
    && forall c: nat, i: nat, x: nat :: c < |s.closers| && i < |s.ingests| ==>
         !(Writes(s.closers[c], x) && Reads(s.ingests[i], x))
  }

  function Drops(os: seq<Outcome>): nat {
    if os == [] then 0 else Drops(os[..|os| - 1]) + if os[|os| - 1] == Dropped then 1 else 0
  }

  function AllDrops(gs: seq<Ingest>): nat {
    if gs == [] then 0 else AllDrops(gs[..|gs| - 1]) + Drops(gs[|gs| - 1].outcomes)
  }

  /** Locks, flags, channels and registrations fit together. */
  ghost predicate Core(s: Hub) {
    && !s.panicked && (s.closed ==> s.registered == {}) && (forall x :: x in s.registered ==> x < |s.subs|)
    && Exclusive(s)
    && (forall i: nat :: i < |s.ingests| ==> IngestOk(s, s.ingests[i]))
    && (forall c: nat :: c < |s.closers| ==> CloserOk(s, s.closers[c]))
    && forall x: nat :: x < |s.subs| ==> SubOk(s, x)
  }

  /** ... and every entry is accounted for. */
  ghost predicate Inv(s: Hub) {
    && Core(s) && s.droppedEvents == AllDrops(s.ingests)
    && forall x: nat :: x < |s.subs| ==> Arrived(s, x)
  }

  // ----- What the parts depend on.

  /** No subscriber is lost, no flag is taken back. */
  ghost predicate Grown(s: Hub, t: Hub) {
    && |s.subs| <= |t.subs| && s.fold == t.fold
    && forall x: nat :: x < |s.subs| ==> SubGrown(s.subs[x], t.subs[x])
  }

  ghost predicate SubGrown(a: Subscriber, b: Subscriber) {
    a.filter == b.filter && (a.closed ==> b.closed) && (a.channelClosed ==> b.channelClosed)
  }

  lemma IngestStays(s: Hub, t: Hub, g: Ingest)
    requires IngestOk(s, g) && Grown(s, t)
    requires g.phase == Offering ==> t.subs[Current(g).value].closed == s.subs[Current(g).value].closed
    ensures IngestOk(t, g)
  {
    hide Matches;
    forall k: nat | k < |g.outcomes| ensures OutcomeOk(t, g, k) {
      assert OutcomeOk(s, g, k);
    }
  }

  lemma CloserStays(s: Hub, t: Hub, c: Closer)
    requires CloserOk(s, c) && Grown(s, t)
    requires forall x :: x in t.registered ==> x in s.registered || x >= |s.subs|
    requires c.phase == Marked ==> t.subs[c.subs[c.done]].channelClosed == s.subs[c.subs[c.done]].channelClosed
    ensures CloserOk(t, c)
  {
  }

  lemma SubStays(s: Hub, t: Hub, x: nat)
    requires x < |s.subs| && x < |t.subs| && SubOk(s, x)
    requires t.subs[x].closed == s.subs[x].closed && t.subs[x].channelClosed == s.subs[x].channelClosed
    requires |t.subs[x].queue| <= QUEUE
    requires t.closers == s.closers && (x in t.registered <==> x in s.registered)
    ensures SubOk(t, x)
  {
  }

  lemma QueuedBelow(s: Hub, g: Ingest, x: nat)
    requires IngestOk(s, g) && QueuedAt(g, x)
    ensures x < |s.subs|
  {
  }

  lemma {:induction false} DropsReplaced(gs: seq<Ingest>, i: nat, g: Ingest)
    requires i < |gs|
    ensures AllDrops(gs[i := g]) == AllDrops(gs) - Drops(gs[i].outcomes) + Drops(g.outcomes)
  {
    var n := |gs| - 1;
    if i < n {
      DropsReplaced(gs[..n], i, g);
      assert gs[i := g][..n] == gs[..n][i := g];
    } else {
      assert gs[i := g][..n] == gs[..n];
    }
  }

  lemma DecidedFacts(g: Ingest, o: Outcome, phase: ReadPhase)
    requires |g.outcomes| < |g.subs|
    ensures var d := Decided(g, o, phase);
      && Drops(d.outcomes) == Drops(g.outcomes) + (if o == Dropped then 1 else 0)
      && forall x: nat :: QueuedAt(d, x) <==> QueuedAt(g, x) || (o == Queued && g.subs[|g.outcomes|] == x)
  {
    var d := Decided(g, o, phase);
    assert d.outcomes[..|g.outcomes|] == g.outcomes;
    forall x: nat ensures QueuedAt(d, x) <==> QueuedAt(g, x) || (o == Queued && g.subs[|g.outcomes|] == x) {
      if QueuedAt(g, x) {
        var k: nat :| k < |g.outcomes| && k < |g.subs| && g.subs[k] == x && g.outcomes[k] == Queued;
        assert d.subs[k] == x && d.outcomes[k] == Queued;
      }
      if o == Queued && g.subs[|g.outcomes|] == x {
        assert d.subs[|g.outcomes|] == x && d.outcomes[|g.outcomes|] == Queued;
      }
    }
  }

  lemma DecidedOk(s: Hub, g: Ingest, o: Outcome, phase: ReadPhase)
    requires IngestOk(s, g) && |g.outcomes| < |g.subs| && (phase == Leaving || phase == Between)
    requires o == Filtered <==> !Matches(s.subs[g.subs[|g.outcomes|]].filter, g.entry, s.fold)
    requires o == WasClosed ==> s.subs[g.subs[|g.outcomes|]].closed
    ensures IngestOk(s, Decided(g, o, phase))
    ensures phase == Leaving ==> Current(Decided(g, o, phase)) == Some(g.subs[|g.outcomes|])
  {
    hide Matches;
    var d := Decided(g, o, phase);
    forall k: nat | k < |d.outcomes| ensures OutcomeOk(s, d, k) {
      if k < |g.outcomes| {
        assert OutcomeOk(s, g, k);
      }
    }
  }

  lemma PhaseOnly(s: Hub, g: Ingest, h: Ingest)
    requires IngestOk(s, g) && h == g.(phase := h.phase)
    ensures forall k: nat :: k < |h.outcomes| ==> OutcomeOk(s, h, k)
    ensures forall x: nat :: QueuedAt(h, x) <==> QueuedAt(g, x)
  {
    hide Matches;
    forall k: nat | k < |h.outcomes| ensures OutcomeOk(s, h, k) {
      assert OutcomeOk(s, g, k);
    }
  }

  /** What the invariant says of Ingest `i`, at the subscriber it is dealing with. */
  lemma KnowsIngest(s: Hub, i: nat)
    requires Core(s) && i < |s.ingests|
    ensures IngestOk(s, s.ingests[i])
    ensures Current(s.ingests[i]).Some? ==>
              Current(s.ingests[i]).value < |s.subs| && SubOk(s, Current(s.ingests[i]).value)
  {
  }

  // ----- The steps of an Ingest.

  lemma CoreIngestMoves(s: Hub, i: nat, g: Ingest)
    requires Core(s) && i < |s.ingests| && IngestOk(s, g)
    requires forall x: nat :: Reads(g, x) ==> Reads(s.ingests[i], x) || NoWriter(s, x)
    ensures Core(s.(ingests := s.ingests[i := g]))
  {
    hide IngestOk, CloserOk, Reads, Writes, SubOk, SubGrown;
    var t := s.(ingests := s.ingests[i := g]);
    Unchanged(s, t);
    forall j: nat | j < |t.ingests| ensures IngestOk(t, t.ingests[j]) {
      IngestStays(s, t, t.ingests[j]);
    }
    forall x: nat | x < |t.subs| ensures SubOk(t, x) {
      ShortQueue(s, x);
      SubStays(s, t, x);
    }
    forall c: nat | c < |t.closers| ensures CloserOk(t, t.closers[c]) {
      CloserStays(s, t, s.closers[c]);
    }
  }

  lemma Unchanged(s: Hub, t: Hub)
    requires t.subs == s.subs && t.fold == s.fold
    ensures Grown(s, t)
  {
  }

  lemma ShortQueue(s: Hub, x: nat)
    requires x < |s.subs| && SubOk(s, x)
    ensures |s.subs[x].queue| <= QUEUE
  {
  }

  /** A step that decides nothing, or decides that the entry does not go to the channel. */
  lemma IngestMoves(s: Hub, i: nat, g: Ingest)
    requires Inv(s) && i < |s.ingests| && IngestOk(s, g)
    requires forall x: nat :: Reads(g, x) ==> Reads(s.ingests[i], x) || NoWriter(s, x)
    requires forall x: nat :: QueuedAt(g, x) <==> QueuedAt(s.ingests[i], x)
    requires Drops(g.outcomes) == Drops(s.ingests[i].outcomes)
    ensures Inv(s.(ingests := s.ingests[i := g]))
  {
    hide IngestOk, Core, Reads, Writes, QueuedAt;
    CoreIngestMoves(s, i, g);
    DropsReplaced(s.ingests, i, g);
    var t := s.(ingests := s.ingests[i := g]);
    forall x: nat | x < |t.subs| ensures Arrived(t, x) {
      assert Arrived(s, x);
    }
  }

  lemma SkipKeeps(s: Hub, i: nat)
    requires Inv(s) && Enabled(s, Skip(i))
    ensures Inv(Do(s, Skip(i)))
  {
    hide Core, Matches;
    KnowsIngest(s, i);
    DecidedFacts(s.ingests[i], Filtered, Between);
    DecidedOk(s, s.ingests[i], Filtered, Between);
    IngestMoves(s, i, Decided(s.ingests[i], Filtered, Between));
  }

  lemma GrabKeeps(s: Hub, i: nat)
    requires Inv(s) && Enabled(s, Grab(i))
    ensures Inv(Do(s, Grab(i)))
  {
    hide Core, Matches;
    KnowsIngest(s, i);
    var g := s.ingests[i].(phase := Holding);
    PhaseOnly(s, s.ingests[i], g);
    IngestMoves(s, i, g);
  }

  lemma LookKeeps(s: Hub, i: nat)
    requires Inv(s) && Enabled(s, Look(i))
    ensures Inv(Do(s, Look(i)))
  {
    hide Core, Matches;
    KnowsIngest(s, i);
    if s.subs[Current(s.ingests[i]).value].closed {
      DecidedFacts(s.ingests[i], WasClosed, Leaving);
      DecidedOk(s, s.ingests[i], WasClosed, Leaving);
      IngestMoves(s, i, Decided(s.ingests[i], WasClosed, Leaving));
    } else {
      var g := s.ingests[i].(phase := Offering);
      PhaseOnly(s, s.ingests[i], g);
      IngestMoves(s, i, g);
    }
  }

  lemma ReleaseKeeps(s: Hub, i: nat)
    requires Inv(s) && Enabled(s, Release(i))
    ensures Inv(Do(s, Release(i)))
  {
    hide Core, Matches;
    KnowsIngest(s, i);
    var g := s.ingests[i].(phase := Between);
    PhaseOnly(s, s.ingests[i], g);
    IngestMoves(s, i, g);
  }

  /** Nobody has closed the channel of a subscriber at the select, and the entry has not been there before. */
  lemma OfferFacts(s: Hub, i: nat)
    requires Core(s) && Enabled(s, Offer(i))
    ensures var g := s.ingests[i];
      && IngestOk(s, g) && |g.outcomes| < |g.subs| && Current(g) == Some(g.subs[|g.outcomes|])
      && Matches(s.subs[Current(g).value].filter, g.entry, s.fold)
      && !s.subs[Current(g).value].channelClosed && !QueuedAt(g, Current(g).value)
  {
    hide Matches;
    KnowsIngest(s, i);
  }

  /** Entries move in a channel, or into it. */
  lemma CoreQueues(s: Hub, x: nat, sub: Subscriber)
    requires Core(s) && x < |s.subs| && |sub.queue| <= QUEUE
    requires sub == s.subs[x].(queue := sub.queue, received := sub.received)
    ensures Core(s.(subs := s.subs[x := sub]))
  {
    hide IngestOk, CloserOk, Reads, Writes, SubOk;
    var t := s.(subs := s.subs[x := sub]);
    forall i: nat | i < |t.ingests| ensures IngestOk(t, t.ingests[i]) {
      OfferInBounds(s, s.ingests[i]);
      IngestStays(s, t, s.ingests[i]);
    }
    forall y: nat | y < |t.subs| ensures SubOk(t, y) {
      ShortQueue(s, y);
      SubStays(s, t, y);
    }
    forall c: nat | c < |t.closers| ensures CloserOk(t, t.closers[c]) {
      CloserInBounds(s, s.closers[c]);
      CloserStays(s, t, s.closers[c]);
    }
  }

  lemma OfferInBounds(s: Hub, g: Ingest)
    requires IngestOk(s, g)
    ensures g.phase == Offering ==> Current(g).Some? && Current(g).value < |s.subs|
  {
  }

  lemma CloserInBounds(s: Hub, c: Closer)
    requires CloserOk(s, c)
    ensures c.phase == Marked ==> c.done < |c.subs| && c.subs[c.done] < |s.subs|
    ensures forall x :: Writes(c, x) ==> x !in s.registered
  {
  }

  lemma OfferKeeps(s: Hub, i: nat)
    requires Inv(s) && Enabled(s, Offer(i))
    ensures Inv(Do(s, Offer(i)))
  {
    hide Core, Matches, IngestOk, QueuedAt;
    OfferFacts(s, i);
    var g := s.ingests[i];
    var x := Current(g).value;
    var o := if |s.subs[x].queue| < QUEUE then Queued else Dropped;
    var d := Decided(g, o, Leaving);
    DecidedFacts(g, o, Leaving);
    DecidedOk(s, g, o, Leaving);
    CoreIngestMoves(s, i, d);
    DropsReplaced(s.ingests, i, d);
    var u := s.(ingests := s.ingests[i := d]);
    if o == Queued {
      QueuedKeeps(s, u, x, i);
    } else {
      DroppedKeeps(s, u);
    }
  }

  lemma QueuedKeeps(s: Hub, u: Hub, x: nat, i: nat)
    requires Inv(s) && i < |s.ingests| && x < |s.subs| && |s.subs[x].queue| < QUEUE && Core(u)
    requires u == s.(ingests := u.ingests) && |u.ingests| == |s.ingests| && s.droppedEvents == AllDrops(u.ingests)
    requires forall j: nat :: j < |s.ingests| && j != i ==> u.ingests[j] == s.ingests[j]
    requires !QueuedAt(s.ingests[i], x)
    requires forall y: nat :: QueuedAt(u.ingests[i], y) <==> QueuedAt(s.ingests[i], y) || y == x
    ensures Inv(u.(subs := u.subs[x := u.subs[x].(queue := u.subs[x].queue + [i])]))
  {
    hide Core, QueuedAt;
    var sub := u.subs[x].(queue := u.subs[x].queue + [i]);
    CoreQueues(u, x, sub);
    var t := u.(subs := u.subs[x := sub]);
    forall y: nat | y < |t.subs| ensures Arrived(t, y) {
      assert Arrived(s, y);
      if y == x {
        var all := s.subs[x].received + s.subs[x].queue;
        assert t.subs[x].received + t.subs[x].queue == all + [i];
        assert i !in all;
        assert forall j: nat :: j in all + [i] <==> j in all || j == i;
      }
    }
  }

  lemma DroppedKeeps(s: Hub, u: Hub)
    requires Inv(s) && Core(u) && u == s.(ingests := u.ingests) && |u.ingests| == |s.ingests|
    requires AllDrops(u.ingests) == s.droppedEvents + 1
    requires forall i: nat, x: nat :: i < |s.ingests| ==> (QueuedAt(u.ingests[i], x) <==> QueuedAt(s.ingests[i], x))
    ensures Inv(u.(droppedEvents := s.droppedEvents + 1))
  {
    hide IngestOk, CloserOk, Reads, Writes, QueuedAt, SubGrown;
    var t := u.(droppedEvents := s.droppedEvents + 1);
    Unchanged(u, t);
    forall i: nat | i < |t.ingests| ensures IngestOk(t, t.ingests[i]) {
      IngestStays(u, t, t.ingests[i]);
    }
    forall c: nat | c < |t.closers| ensures CloserOk(t, t.closers[c]) {
      CloserStays(u, t, t.closers[c]);
    }
    forall x: nat | x < |t.subs| ensures SubOk(t, x) && Arrived(t, x) {
      assert SubOk(u, x) && Arrived(s, x);
    }
  }

  lemma ReceiveKeeps(s: Hub, x: nat)
    requires Inv(s) && Enabled(s, Receive(x))
    ensures Inv(Do(s, Receive(x)))
  {
    hide Core, QueuedAt;
    var was := s.subs[x];
    var sub := was.(queue := was.queue[1..], received := was.received + [was.queue[0]]);
    assert |was.queue| <= QUEUE by {
      ShortQueues(s, x);
    }
    CoreQueues(s, x, sub);
    var t := s.(subs := s.subs[x := sub]);
    forall y: nat | y < |t.subs| ensures Arrived(t, y) {
      assert Arrived(s, y);
      assert sub.received + sub.queue == was.received + was.queue;
    }
  }

  lemma ShortQueues(s: Hub, x: nat)
    requires Core(s) && x < |s.subs|
    ensures |s.subs[x].queue| <= QUEUE
  {
    assert SubOk(s, x);
  }

  // ----- The steps that add something.

  lemma SubscribeKeeps(s: Hub, filter: StreamFilter)
    requires Inv(s) && Enabled(s, Subscribe(filter))
    ensures Inv(Do(s, Subscribe(filter)))
  {
    hide IngestOk, Reads, Writes, QueuedAt;
    var t := Do(s, Subscribe(filter));
    var n := |s.subs|;
    forall i: nat | i < |t.ingests| ensures IngestOk(t, t.ingests[i]) {
      OfferInBounds(s, s.ingests[i]);
      IngestStays(s, t, s.ingests[i]);
    }
    forall c: nat | c < |t.closers| ensures CloserOk(t, t.closers[c]) {
      CloserStays(s, t, s.closers[c]);
    }
    forall x: nat | x < |t.subs| ensures SubOk(t, x) && Arrived(t, x) {
      assert x < n ==> SubOk(s, x) && Arrived(s, x);
      assert t.subs[n].received + t.subs[n].queue == [];
      forall i: nat | i < |s.ingests| && QueuedAt(s.ingests[i], n) ensures false {
        QueuedBelow(s, s.ingests[i], n);
      }
    }
  }

  lemma BeginKeeps(s: Hub, entry: Entry, order: seq<nat>)
    requires Inv(s) && Enabled(s, Begin(entry, order))
    ensures Inv(Do(s, Begin(entry, order)))
  {
    hide Writes, IngestOk, SubOk, Arrived, QueuedAt, CloserOk;
    var t := Do(s, Begin(entry, order));
    assert t.ingests[..|s.ingests|] == s.ingests;
    Unchanged(s, t);
    BegunIngests(s, t, entry, order);
    forall c: nat | c < |t.closers| ensures CloserOk(t, t.closers[c]) {
      CloserStays(s, t, s.closers[c]);
    }
    forall x: nat | x < |t.subs| ensures SubOk(t, x) && Arrived(t, x) {
      BegunSub(s, t, entry, order, x);
    }
  }

  lemma BegunIngests(s: Hub, t: Hub, entry: Entry, order: seq<nat>)
    requires Inv(s) && Enabled(s, Begin(entry, order)) && t == Do(s, Begin(entry, order))
    ensures forall i: nat :: i < |t.ingests| ==> IngestOk(t, t.ingests[i])
  {
    hide Writes, SubOk, Arrived, CloserOk;
    assert t.ingests[..|s.ingests|] == s.ingests;
    assert forall k: nat :: k < |order| ==> order[k] in s.registered;
    forall i: nat | i < |t.ingests| ensures IngestOk(t, t.ingests[i]) {
      if i < |s.ingests| {
        IngestStays(s, t, s.ingests[i]);
      }
    }
  }

  lemma BegunSub(s: Hub, t: Hub, entry: Entry, order: seq<nat>, x: nat)
    requires Inv(s) && Enabled(s, Begin(entry, order)) && t == Do(s, Begin(entry, order)) && x < |t.subs|
    ensures SubOk(t, x) && Arrived(t, x)
  {
    hide Writes, IngestOk, CloserOk;
    Unchanged(s, t);
    assert SubOk(s, x) && Arrived(s, x) && !QueuedAt(Ingest(entry, order, [], Between), x);
  }

  /** A closer joins, for subscribers that are no longer registered. */
  lemma CloserJoins(s: Hub, t: Hub, c: Closer)
    requires Inv(s)
             && t == s.(cancelled := t.cancelled, registered := t.registered, closed := t.closed,
                 closers := s.closers + [c])
    requires t.registered <= s.registered && (t.closed ==> t.registered == {})
    requires c.done == 0 && c.phase == Next && forall k: nat :: k < |c.subs| ==>
               c.subs[k] < |s.subs| && c.subs[k] !in t.registered
    requires forall x: nat :: x in s.registered && x !in t.registered ==> x in c.subs
    ensures Inv(t)
  {
    hide IngestOk, QueuedAt, Reads;
    Unchanged(s, t);
    forall i: nat | i < |t.ingests| ensures IngestOk(t, t.ingests[i]) {
      IngestStays(s, t, t.ingests[i]);
    }
    forall d: nat | d < |t.closers| ensures CloserOk(t, t.closers[d]) {
      if d < |s.closers| {
        CloserStays(s, t, s.closers[d]);
      }
    }
    forall x: nat | x < |t.subs| ensures SubOk(t, x) && Arrived(t, x) {
      assert SubOk(s, x) && Arrived(s, x);
      ClosersAdded(s, t, c, x);
    }
  }

  lemma ClosersAdded(s: Hub, t: Hub, c: Closer, x: nat)
    requires t.closers == s.closers + [c]
    ensures ShutterDue(s, x) ==> ShutterDue(t, x)
    ensures ToBeClosed(s, x) || x in c.subs ==> ToBeClosed(t, x)
  {
    if ShutterDue(s, x) {
      var d: nat :| d < |s.closers| && Writes(s.closers[d], x) && s.closers[d].phase == Marked;
      assert t.closers[d] == s.closers[d];
    }
    if ToBeClosed(s, x) {
      var d: nat :| d < |s.closers| && x in s.closers[d].subs;
      assert t.closers[d] == s.closers[d];
    }
    if x in c.subs {
      assert t.closers[|s.closers|] == c;
    }
  }

  // ----- The steps of a closer.

  /** A closer moves on and the subscribers stay as they are. */
  lemma CloserMoves(s: Hub, c: nat, d: Closer)
    requires Inv(s) && c < |s.closers| && CloserOk(s, d) && d.subs == s.closers[c].subs
    requires s.closers[c].phase != Marked
    requires forall x: nat :: Writes(d, x) ==> Writes(s.closers[c], x) || (NoWriter(s, x) && NoReader(s, x))
    ensures Inv(s.(closers := s.closers[c := d]))
  {
    hide IngestOk, QueuedAt, CloserOk;
    var t := s.(closers := s.closers[c := d]);
    Unchanged(s, t);
    forall i: nat | i < |t.ingests| ensures IngestOk(t, t.ingests[i]) {
      IngestStays(s, t, s.ingests[i]);
    }
    forall e: nat | e < |t.closers| ensures CloserOk(t, t.closers[e]) {
      CloserStays(s, t, t.closers[e]);
    }
    forall x: nat | x < |t.subs| ensures SubOk(t, x) && Arrived(t, x) {
      assert SubOk(s, x) && Arrived(s, x);
      CloserReplaced(s, t, c, d, x);
    }
  }

  lemma CloserReplaced(s: Hub, t: Hub, c: nat, d: Closer, x: nat)
    requires c < |s.closers| && t.closers == s.closers[c := d] && d.subs == s.closers[c].subs
    ensures ToBeClosed(s, x) ==> ToBeClosed(t, x)
    ensures ShutterDue(s, x) && !(s.closers[c].phase == Marked && Writes(s.closers[c], x)) ==> ShutterDue(t, x)
    ensures d.phase == Marked && Writes(d, x) ==> ShutterDue(t, x)
  {
    if ToBeClosed(s, x) {
      var e: nat :| e < |s.closers| && x in s.closers[e].subs;
      assert x in t.closers[e].subs;
    }
    if ShutterDue(s, x) && !(s.closers[c].phase == Marked && Writes(s.closers[c], x)) {
      var e: nat :| e < |s.closers| && Writes(s.closers[e], x) && s.closers[e].phase == Marked;
      assert t.closers[e] == s.closers[e];
    }
    if d.phase == Marked && Writes(d, x) {
      assert t.closers[c] == d;
    }
  }

  lemma KnowsCloser(s: Hub, c: nat)
    requires Core(s) && c < |s.closers|
    ensures CloserOk(s, s.closers[c]) && Exclusive(s)
    ensures s.closers[c].done < |s.closers[c].subs| ==>
              var x := s.closers[c].subs[s.closers[c].done]; x < |s.subs| && SubOk(s, x)
  {
  }

  lemma GripKeeps(s: Hub, c: nat)
    requires Inv(s) && Enabled(s, Grip(c))
    ensures Inv(Do(s, Grip(c)))
  {
    hide Core;
    KnowsCloser(s, c);
    CloserMoves(s, c, s.closers[c].(phase := Gripping));
  }

  lemma UngripKeeps(s: Hub, c: nat)
    requires Inv(s) && Enabled(s, Ungrip(c))
    ensures Inv(Do(s, Ungrip(c)))
  {
    hide Core;
    KnowsCloser(s, c);
    CloserMoves(s, c, s.closers[c].(done := s.closers[c].done + 1, phase := Next));
  }

  /** A flag that is found set by the holder of the lock has been followed by the closing of the channel. */
  lemma FoundShut(s: Hub, c: nat, x: nat)
    requires Core(s) && c < |s.closers| && Writes(s.closers[c], x) && s.closers[c].phase == Gripping
    requires x < |s.subs| && s.subs[x].closed
    ensures s.subs[x].channelClosed
  {
    assert SubOk(s, x);
  }

  lemma MarkKeeps(s: Hub, c: nat)
    requires Inv(s) && Enabled(s, Mark(c))
    ensures Inv(Do(s, Mark(c)))
  {
    hide Core;
    KnowsCloser(s, c);
    var x := s.closers[c].subs[s.closers[c].done];
    if s.subs[x].closed {
      FoundShut(s, c, x);
      CloserMoves(s, c, s.closers[c].(phase := Shut));
    } else {
      FlagSet(s, c, x);
    }
  }

  /** The flag is set under the lock; nobody who has seen it unset is still there. */
  lemma FlagSet(s: Hub, c: nat, x: nat)
    requires Inv(s) && ClosingAt(s, c, Gripping) && Writes(s.closers[c], x) && !s.subs[x].closed
    ensures Inv(s.(subs := s.subs[x := s.subs[x].(closed := true)],
        closers := s.closers[c := s.closers[c].(phase := Marked)]))
  {
    hide IngestOk, QueuedAt, CloserOk, Matches;
    var sub, d := s.subs[x].(closed := true), s.closers[c].(phase := Marked);
    assert SubOk(s, x) && Writes(d, x);
    CloserInBounds(s, s.closers[c]);
    var t := s.(subs := s.subs[x := sub], closers := s.closers[c := d]);
    forall i: nat | i < |t.ingests| ensures IngestOk(t, t.ingests[i]) {
      OfferInBounds(s, t.ingests[i]);
      assert !Reads(t.ingests[i], x);
      IngestStays(s, t, t.ingests[i]);
    }
    forall e: nat | e < |t.closers| ensures CloserOk(t, t.closers[e]) {
      CloserInBounds(s, s.closers[e]);
      CloserStays(s, t, s.closers[e]);
      if e == c {
        MarkedOk(s, t, s.closers[c], x);
      }
    }
    forall y: nat | y < |t.subs| ensures SubOk(t, y) && Arrived(t, y) {
      assert SubOk(s, y) && Arrived(s, y);
      CloserReplaced(s, t, c, d, y);
      assert y == x ==> t.subs[y].received + t.subs[y].queue == s.subs[y].received + s.subs[y].queue;
    }
  }

  lemma MarkedOk(s: Hub, t: Hub, c: Closer, x: nat)
    requires CloserOk(t, c) && Writes(c, x) && x < |t.subs| && t.subs[x].closed && !t.subs[x].channelClosed
    ensures CloserOk(t, c.(phase := Marked))
  {
  }

  lemma ShutterKeeps(s: Hub, c: nat)
    requires Inv(s) && Enabled(s, Shutter(c))
    ensures Inv(Do(s, Shutter(c)))
  {
    hide IngestOk, QueuedAt, CloserOk, Matches;
    KnowsCloser(s, c);
    var x := s.closers[c].subs[s.closers[c].done];
    AboutToShut(s, s.closers[c]);
    var sub, d := s.subs[x].(channelClosed := true), s.closers[c].(phase := Shut);
    var t := s.(subs := s.subs[x := sub], closers := s.closers[c := d]);
    assert t == Do(s, Shutter(c));
    forall i: nat | i < |t.ingests| ensures IngestOk(t, t.ingests[i]) {
      OfferInBounds(s, t.ingests[i]);
      IngestStays(s, t, t.ingests[i]);
    }
    forall e: nat | e < |t.closers| ensures CloserOk(t, t.closers[e]) {
      CloserInBounds(s, s.closers[e]);
      if e == c {
        ShutOk(s, t, s.closers[c], x);
      } else {
        assert e < c || c < e;
        CloserStays(s, t, s.closers[e]);
      }
    }
    forall y: nat | y < |t.subs| ensures SubOk(t, y) && Arrived(t, y) {
      assert SubOk(s, y) && Arrived(s, y);
      CloserReplaced(s, t, c, d, y);
      assert y == x ==> t.subs[y].received + t.subs[y].queue == s.subs[y].received + s.subs[y].queue;
    }
  }

  lemma AboutToShut(s: Hub, c: Closer)
    requires CloserOk(s, c) && c.phase == Marked
    ensures c.done < |c.subs| && c.subs[c.done] < |s.subs| && Writes(c, c.subs[c.done])
    ensures s.subs[c.subs[c.done]].closed && !s.subs[c.subs[c.done]].channelClosed
  {
  }

  lemma ShutOk(s: Hub, t: Hub, c: Closer, x: nat)
    requires CloserOk(s, c) && Grown(s, t) && t.registered == s.registered && Writes(c, x) && x < |t.subs|
    requires t.subs[x].channelClosed
    ensures CloserOk(t, c.(phase := Shut))
  {
  }

  // ----- Every run.

  lemma StepKeeps(s: Hub, step: Step)
    requires Inv(s) && Enabled(s, step)
    ensures Inv(Do(s, step))
  {
    hide Inv, Do;
    match step
    case Subscribe(filter) => SubscribeKeeps(s, filter);
    case Begin(entry, order) => BeginKeeps(s, entry, order);
    case Skip(i) => SkipKeeps(s, i);
    case Grab(i) => GrabKeeps(s, i);
    case Look(i) => LookKeeps(s, i);
    case Offer(i) => OfferKeeps(s, i);
    case Release(i) => ReleaseKeeps(s, i);
    case Cancel(x) => CancelKeeps(s, x);
    case Close(order) => CloseKeeps(s, order);
    case Grip(c) => GripKeeps(s, c);
    case Mark(c) => MarkKeeps(s, c);
    case Shutter(c) => ShutterKeeps(s, c);
    case Ungrip(c) => UngripKeeps(s, c);
    case Receive(x) => ReceiveKeeps(s, x);
  }

  lemma CancelKeeps(s: Hub, x: nat)
    requires Inv(s) && Enabled(s, Cancel(x))
    ensures Inv(Do(s, Cancel(x)))
  {
    CloserJoins(s, Do(s, Cancel(x)), Closer([x], 0, Next));
  }

  lemma CloseKeeps(s: Hub, order: seq<nat>)
    requires Inv(s) && Enabled(s, Close(order))
    ensures Inv(Do(s, Close(order)))
  {
    assert forall k: nat :: k < |order| ==> order[k] in s.registered;
    CloserJoins(s, Do(s, Close(order)), Closer(order, 0, Next));
  }

  lemma {:induction false} RunKeeps(fold: Fold, steps: seq<Step>)
    ensures Inv(After(fold, steps))
  {
    hide Do, Enabled;
    if steps != [] {
      RunKeeps(fold, steps[..|steps| - 1]);
      var s := After(fold, steps[..|steps| - 1]);
      if Enabled(s, steps[|steps| - 1]) {
        StepKeeps(s, steps[|steps| - 1]);
      }
    }
  }

  /** In every interleaving nobody sends on a closed channel, or closes one twice, and no channel overflows. */
  lemma NeverPanics(fold: Fold, steps: seq<Step>)
    ensures !After(fold, steps).panicked
    ensures forall x: nat {:trigger After(fold, steps).subs[x]} :: x < |After(fold, steps).subs| ==>
              |After(fold, steps).subs[x].queue| <= QUEUE
  {
    RunKeeps(fold, steps);
    var s := After(fold, steps);
    forall x: nat | x < |s.subs| ensures |s.subs[x].queue| <= QUEUE {
      assert SubOk(s, x);
    }
  }

  /** How often `i` occurs. */
  function Count(s: seq<nat>, i: nat): nat {
    multiset(s)[i]
  }

  lemma NoDupCount(s: seq<nat>, i: nat)
    requires NoDup(s)
    ensures Count(s, i) == if i in s then 1 else 0
    decreases |s|
  {
    if s != [] {
      var n := |s| - 1;
      assert s == s[..n] + [s[n]];
      NoDupCount(s[..n], i);
      assert s[n] !in s[..n];
    }
  }

  /**
   * In every interleaving an Ingest that is through has dealt with each subscriber of its snapshot once: a matching one
   * has got the entry exactly once, or it was full and the loss was counted, or it had been closed; one that does not
   * match has got nothing.  The counter counts exactly the losses.
   */
  lemma EveryEntryAccounted(fold: Fold, steps: seq<Step>, i: nat, k: nat)
    requires var s := After(fold, steps);
      i < |s.ingests| && k < |s.ingests[i].subs| && |s.ingests[i].outcomes| == |s.ingests[i].subs|
    ensures var s := After(fold, steps);
      var g := s.ingests[i];
      var x := g.subs[k];
      && x < |s.subs|
      && s.droppedEvents == AllDrops(s.ingests)
      && Count(s.subs[x].received + s.subs[x].queue, i) == (if g.outcomes[k] == Queued then 1 else 0)
      && (g.outcomes[k] == Filtered <==>
            var f := s.subs[x].filter;
            || (f.service != "" && !fold(f.service, g.entry.service))
            || (f.level != "" && !fold(f.level, g.entry.level)))
      && (g.outcomes[k] == WasClosed ==> s.subs[x].closed)
  {
    hide Matches;
    RunKeeps(fold, steps);
    FoldKept(fold, steps);
    var s := After(fold, steps);
    var g := s.ingests[i];
    var x := g.subs[k];
    assert IngestOk(s, g) && OutcomeOk(s, g, k) && Arrived(s, x);
    NoDupCount(s.subs[x].received + s.subs[x].queue, i);
    FiltersOut(s.subs[x].filter, g.entry, fold);
    if QueuedAt(g, x) {
      var j: nat :| j < |g.outcomes| && j < |g.subs| && g.subs[j] == x && g.outcomes[j] == Queued;
      assert j == k;
    }
  }

  /** A filter takes out what differs in the service or in the level that it asks for. */
  lemma FiltersOut(f: StreamFilter, e: Entry, fold: Fold)
    ensures !Matches(f, e, fold) <==>
      (f.service != "" && !fold(f.service, e.service)) || (f.level != "" && !fold(f.level, e.level))
  {
  }

  lemma {:induction false} FoldKept(fold: Fold, steps: seq<Step>)
    ensures After(fold, steps).fold == fold
  {
    if steps != [] {
      FoldKept(fold, steps[..|steps| - 1]);
    }
  }

  /** What has gone into the channel of `x`, in that order, whether it has come out or not. */
  function Sent(s: Hub, x: nat): seq<nat>
    requires x < |s.subs|
  {
    s.subs[x].received + s.subs[x].queue
  }

  /** A step puts an entry into a channel only by an Offer, and takes the oldest out only by a Receive. */
  lemma StepSends(s: Hub, step: Step, x: nat)
    requires Enabled(s, step) && x < |s.subs|
    ensures var t := Do(s, step);
      && x < |t.subs| && s.subs[x].received <= t.subs[x].received && t.subs[x].filter == s.subs[x].filter
      && (Sent(t, x) == Sent(s, x) || (step.Offer? && Sent(t, x) == Sent(s, x) + [step.i]))
  {
    var a, b := s.subs[x], Do(s, step).subs[x];
    assert b.queue == a.queue ==> b.received == a.received;
    assert a.queue != [] ==> a.received + [a.queue[0]] + a.queue[1..] == a.received + a.queue;
    assert step.Offer? ==> a.received + (a.queue + [step.i]) == a.received + a.queue + [step.i];
  }

  /** The client gets the entries in the order in which they went in, and an entry that went in is never lost. */
  lemma {:induction false} ChannelsKeepOrder(fold: Fold, steps: seq<Step>, n: nat, x: nat)
    requires n <= |steps| && x < |After(fold, steps[..n]).subs|
    ensures x < |After(fold, steps).subs|
    ensures Sent(After(fold, steps[..n]), x) <= Sent(After(fold, steps), x)
    ensures After(fold, steps[..n]).subs[x].received <= After(fold, steps).subs[x].received
    decreases |steps|
  {
    hide Enabled, Do, Sent;
    if n == |steps| {
      assert steps[..n] == steps;
    } else {
      var before := steps[..|steps| - 1];
      assert before[..n] == steps[..n];
      ChannelsKeepOrder(fold, before, n, x);
      var step := steps[|steps| - 1];
      if Enabled(After(fold, before), step) {
        StepSends(After(fold, before), step, x);
      }
    }
  }

  /** An entry is lost if and only if 256 others are waiting, and only the counter changes then. */
  lemma OfferExactly(fold: Fold, steps: seq<Step>, i: nat)
    requires Enabled(After(fold, steps), Offer(i))
    ensures var s, t := After(fold, steps), After(fold, steps + [Offer(i)]);
      var x := Current(s.ingests[i]).value;
      && x < |s.subs| && |s.subs[x].queue| <= 256
      && t.subs == (if |s.subs[x].queue| < 256 then s.subs[x := s.subs[x].(queue := s.subs[x].queue + [i])] else s.subs)
      && t.droppedEvents == s.droppedEvents + if |s.subs[x].queue| < 256 then 0 else 1
  {
    NeverPanics(fold, steps);
    NeverPanics(fold, steps + [Offer(i)]);
    assert (steps + [Offer(i)])[..|steps|] == steps;
  }

  /** Nothing is left open: once the hub is closed and every cancel and Close is through, every channel is closed. */
  lemma NothingLeftOpen(fold: Fold, steps: seq<Step>, x: nat)
    requires var s := After(fold, steps);
      s.closed && x < |s.subs| && forall c: nat :: c < |s.closers| ==> s.closers[c].done == |s.closers[c].subs|
    ensures After(fold, steps).subs[x].channelClosed
  {
    RunKeeps(fold, steps);
    var s := After(fold, steps);
    assert SubOk(s, x);
    var c: nat :| c < |s.closers| && x in s.closers[c].subs;
    assert CloserOk(s, s.closers[c]);
  }

  /** An Ingest or a closer has something left to do. */
  ghost predicate IngestPending(s: Hub, i: nat) {
    i < |s.ingests| && (|s.ingests[i].outcomes| < |s.ingests[i].subs| || s.ingests[i].phase != Between)
  }

  ghost predicate CloserPending(s: Hub, c: nat) {
    c < |s.closers| && s.closers[c].done < |s.closers[c].subs|
  }

  /** The step belongs to a thread that is under way. */
  predicate GoesOn(step: Step) {
    step.Skip? || step.Grab? || step.Look? || step.Offer? || step.Release?
    || step.Grip? || step.Mark? || step.Shutter? || step.Ungrip?
  }

  ghost predicate CanGoOn(s: Hub) {
    exists step :: GoesOn(step) && Enabled(s, step)
  }

  /** A thread that holds a lock can always take its next step. */
  lemma HolderGoesOn(s: Hub, i: nat, c: nat)
    requires Core(s)
    ensures i < |s.ingests| && s.ingests[i].phase != Between ==> CanGoOn(s)
    ensures c < |s.closers| && s.closers[c].phase != Next ==> CanGoOn(s)
  {
    if i < |s.ingests| && s.ingests[i].phase != Between {
      KnowsIngest(s, i);
      var step := match s.ingests[i].phase case Holding => Look(i) case Offering => Offer(i) case _ => Release(i);
      assert GoesOn(step) && Enabled(s, step);
    }
    if c < |s.closers| && s.closers[c].phase != Next {
      KnowsCloser(s, c);
      var step := match s.closers[c].phase case Gripping => Mark(c) case Marked => Shutter(c) case _ => Ungrip(c);
      assert GoesOn(step) && Enabled(s, step);
    }
  }

  /** No interleaving leads to a deadlock: as long as a thread has something left to do, some thread can go on. */
  lemma NeverStuck(fold: Fold, steps: seq<Step>, n: nat)
    requires IngestPending(After(fold, steps), n) || CloserPending(After(fold, steps), n)
    ensures CanGoOn(After(fold, steps))
  {
    RunKeeps(fold, steps);
    var s := After(fold, steps);
    hide After, Matches;
    if i: nat :| i < |s.ingests| && s.ingests[i].phase != Between {
      HolderGoesOn(s, i, 0);
    } else if c: nat :| c < |s.closers| && s.closers[c].phase != Next {
      HolderGoesOn(s, 0, c);
    } else if IngestPending(s, n) {
      KnowsIngest(s, n);
      var x := Current(s.ingests[n]).value;
      assert NoWriter(s, x);
      var step := if Matches(s.subs[x].filter, s.ingests[n].entry, s.fold) then Grab(n) else Skip(n);
      assert GoesOn(step) && Enabled(s, step);
    } else {
      KnowsCloser(s, n);
      var x := s.closers[n].subs[s.closers[n].done];
      assert NoWriter(s, x) && NoReader(s, x);
      assert GoesOn(Grip(n)) && Enabled(s, Grip(n));
    }
  }
}
