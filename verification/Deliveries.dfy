/**
 * What becomes of the records of a log on their way to the sink: the account that the dispatcher of engine.go keeps.
 */
module Deliveries {
  import opened Results
  import opened Records
  import opened Frames
  import opened Spool
  import opened Crashes

  /** What the sink answers: accepted, refused for good, or an error that may pass. */
  datatype Outcome = Accepted | Permanent | Failed(error: Error)

  /** One call of the sink with the records from offset `at` on, and whether the log was legible when they were read. */
  datatype Delivery = Delivery(at: nat, batch: seq<Record>, outcome: Outcome, legible: bool)

  /** The record at `at` was reported as corrupt and skipped. */
  datatype Skip = Skip(at: nat, legible: bool)

  /**
   * The account of a dispatcher that began at `start` and stands at `at`: every call of the sink and every skip, with
   * the log handed out below `handed`, and legible now or not.
   */
  datatype Book = Book(sent: seq<Delivery>, skips: seq<Skip>, start: nat, at: nat, handed: nat, legible: bool)

  /** The batch holds exactly the log's records at its offsets. */
  ghost predicate Faithful(at: nat, batch: seq<Record>, hist: seq<Frame>) {
    at + |batch| <= |hist| && forall i :: 0 <= i < |batch| ==> CarriesAt(at, batch, hist, i)
  }

  ghost predicate CarriesAt(at: nat, batch: seq<Record>, hist: seq<Frame>, i: nat)
    requires i < |batch|
  {
    && at + i < |hist| && Decode(hist[at + i]).Ok?
    && batch[i] == Decode(hist[at + i]).value.(offset := at + i)
  }

  /** The batch has the offsets from its place on, all of them handed out; and their records, if the log was legible. */
  ghost predicate Delivered(d: Delivery, hist: seq<Frame>, handed: nat) {
    && d.batch != [] && Consecutive(d.batch, d.at) && d.at + |d.batch| <= handed
    && (d.legible ==> Faithful(d.at, d.batch, hist))
  }

  /** A record that was skipped had been handed out as corrupt; and it is, if the log was legible. */
  ghost predicate Passed(s: Skip, hist: seq<Frame>, handed: nat) {
    s.at < handed && (s.legible ==> s.at < |hist| && Decode(hist[s.at]).Err?)
  }

  /**
   * A delivery or a checkpoint at `at` may follow `d`: at the same place, or behind a batch that has been settled,
   * or, once the log is illegible, behind a record of a batch that has to be skipped when it is read again.
   */
  ghost predicate MayCome(d: Delivery, at: nat, legible: bool) {
    at == d.at || (!d.outcome.Failed? && d.at + |d.batch| <= at) || (!legible && d.at <= at)
  }

  ghost predicate InOrder(sent: seq<Delivery>, at: nat, legible: bool) {
    && (forall k: nat :: k + 1 < |sent| ==> MayCome(sent[k], sent[k + 1].at, sent[k + 1].legible))
    && (sent != [] ==> MayCome(sent[|sent| - 1], at, legible))
  }

  /** Offset `o` was in a batch that the sink answered with `outcome`. */
  ghost predicate Answered(sent: seq<Delivery>, o: nat, outcome: Outcome) {
    exists k: nat :: k < |sent| && Covers(sent[k], o, outcome)
  }

  ghost predicate Covers(d: Delivery, o: nat, outcome: Outcome) {
    d.at <= o < d.at + |d.batch| && d.outcome == outcome
  }

  ghost predicate Skipped(skips: seq<Skip>, o: nat) {
    exists k: nat :: k < |skips| && skips[k].at == o
  }

  /** The record at `o` was acknowledged, was in a batch refused for good, or was reported as corrupt. */
  ghost predicate Settled(sent: seq<Delivery>, skips: seq<Skip>, o: nat) {
    Answered(sent, o, Accepted) || Answered(sent, o, Permanent) || Skipped(skips, o)
  }

  /** Everything was read from a legible log. */
  ghost predicate AllLegible(sent: seq<Delivery>, skips: seq<Skip>) {
    && (forall k: nat :: k < |sent| ==> sent[k].legible)
    && (forall k: nat :: k < |skips| ==> skips[k].legible)
  }

  ghost predicate SettledTo(sent: seq<Delivery>, skips: seq<Skip>, start: nat, end: nat) {
    forall o: nat :: start <= o < end ==> Settled(sent, skips, o)
  }

  /** The book is right about the log. */
  ghost predicate Ledger(b: Book, hist: seq<Frame>) {
    && b.start <= b.at <= b.handed <= |hist|
    && (forall k: nat :: k < |b.sent| ==> Delivered(b.sent[k], hist, b.handed))
    && (forall k: nat :: k < |b.skips| ==> Passed(b.skips[k], hist, b.handed))
    && InOrder(b.sent, b.at, b.legible)
    && (b.legible ==> AllLegible(b.sent, b.skips))
    && SettledTo(b.sent, b.skips, b.start, b.at)
  }

  lemma LedgerStarts(b: Book, hist: seq<Frame>)
    requires b.sent == [] && b.skips == [] && b.start == b.at <= b.handed <= |hist|
    ensures Ledger(b, hist)
  {
  }

  /** The log may change where nothing was handed out, more of it may be handed out, and it may become illegible. */
  lemma LedgerStays(b: Book, hist: seq<Frame>, c: Book, more: seq<Frame>)
    requires Ledger(b, hist) && c == b.(handed := c.handed, legible := c.legible) && (c.legible ==> b.legible)
    requires b.handed <= c.handed <= |more| && more[..b.handed] == hist[..b.handed]
    ensures Ledger(c, more)
  {
    hide Decode, SettledTo;
    forall o | 0 <= o < b.handed ensures more[o] == hist[o] {
      assert more[o] == more[..b.handed][o] == hist[..b.handed][o] == hist[o];
    }
    forall k: nat | k < |b.sent| ensures Delivered(b.sent[k], more, c.handed) {
      assert Delivered(b.sent[k], hist, b.handed);
      if b.sent[k].legible {
        forall i | 0 <= i < |b.sent[k].batch| ensures CarriesAt(b.sent[k].at, b.sent[k].batch, more, i) {
          assert CarriesAt(b.sent[k].at, b.sent[k].batch, hist, i);
        }
      }
    }
    forall k: nat | k < |b.skips| ensures Passed(b.skips[k], more, c.handed) {
      assert Passed(b.skips[k], hist, b.handed);
    }
  }

  /** A batch at the place of the account has been handed to the sink. */
  lemma LedgerDelivers(b: Book, hist: seq<Frame>, d: Delivery)
    requires Ledger(b, hist) && d.at == b.at && d.legible == b.legible && Delivered(d, hist, b.handed)
    ensures Ledger(b.(sent := b.sent + [d]), hist)
  {
    hide Delivered, Passed;
    var more := b.sent + [d];
    assert forall k: nat :: k < |b.sent| ==> more[k] == b.sent[k];
    assert more[|b.sent|] == d;
    SettledStays(b.sent, more, b.skips, b.skips, b.start, b.at);
  }

  /** More deliveries and more skips settle no less. */
  lemma SettledStays(sent: seq<Delivery>, more: seq<Delivery>, skips: seq<Skip>, others: seq<Skip>, start: nat,
                     end: nat)
    requires sent <= more && skips <= others && SettledTo(sent, skips, start, end)
    ensures SettledTo(more, others, start, end)
  {
    forall o: nat | start <= o < end ensures Settled(more, others, o) {
      assert Settled(sent, skips, o);
      forall outcome | Answered(sent, o, outcome) ensures Answered(more, o, outcome) {
        var k: nat :| k < |sent| && Covers(sent[k], o, outcome);
        assert more[k] == sent[k];
      }
      if Skipped(skips, o) {
        var k: nat :| k < |skips| && skips[k].at == o;
        assert others[k] == skips[k];
      }
    }
  }

  /** The batch delivered last, which the sink has accepted or refused for good, may be committed. */
  lemma LedgerAdvances(b: Book, hist: seq<Frame>)
    requires Ledger(b, hist) && b.sent != []
    requires b.sent[|b.sent| - 1].at == b.at && !b.sent[|b.sent| - 1].outcome.Failed?
    ensures b.sent[|b.sent| - 1].batch != []
    ensures var d := b.sent[|b.sent| - 1];
      Ledger(b.(at := b.at + |d.batch|), hist) && d.batch[|d.batch| - 1].offset == b.at + |d.batch| - 1 < b.handed
  {
    hide Decode, Passed;
    var d := b.sent[|b.sent| - 1];
    assert Delivered(d, hist, b.handed);
    assert d.batch[|d.batch| - 1].offset == d.at + (|d.batch| - 1);
    forall o: nat | b.start <= o < b.at + |d.batch| ensures Settled(b.sent, b.skips, o) {
      if o >= b.at {
        assert Covers(b.sent[|b.sent| - 1], o, d.outcome);
      }
    }
  }

  /** A record at the place of the account has been reported as corrupt. */
  lemma LedgerReports(b: Book, hist: seq<Frame>, s: Skip)
    requires Ledger(b, hist) && s.legible == b.legible && Passed(s, hist, b.handed)
    ensures Ledger(b.(skips := b.skips + [s]), hist)
  {
    hide Decode, Delivered, Passed;
    SettledStays(b.sent, b.sent, b.skips, b.skips + [s], b.start, b.at);
  }

  /** The record at the place of the account, which was reported last, may be skipped, alone. */
  lemma LedgerSkips(b: Book, hist: seq<Frame>)
    requires Ledger(b, hist) && b.skips != [] && b.skips[|b.skips| - 1].at == b.at < b.handed
    ensures Ledger(b.(at := b.at + 1), hist)
  {
    hide Decode, Delivered, Faithful, Passed, Answered;
    var s := b.skips[|b.skips| - 1];
    assert Settled(b.sent, b.skips, b.at);
    if b.sent != [] && b.legible {
      assert Delivered(b.sent[|b.sent| - 1], hist, b.handed) && Passed(s, hist, b.handed);
      NotDecoded(b.sent[|b.sent| - 1], hist, b.handed, s);
    }
  }

  /** A record that was delivered from a legible log is not reported as corrupt by one. */
  lemma NotDecoded(d: Delivery, hist: seq<Frame>, handed: nat, s: Skip)
    requires Delivered(d, hist, handed) && d.legible && s.legible && Passed(s, hist, handed)
    ensures d.at != s.at
  {
    hide Decode;
    assert CarriesAt(d.at, d.batch, hist, 0);
  }

  // ----- What had been settled at each moment of the disk.

  /** Below `saved` everything was settled by the deliveries and skips that `mark` counts. */
  ghost predicate NotedAt(sent: seq<Delivery>, skips: seq<Skip>, start: nat, mark: (nat, nat), saved: nat) {
    mark.0 <= |sent| && mark.1 <= |skips| && SettledTo(sent[..mark.0], skips[..mark.1], start, saved)
  }

  /** ... and so for every moment of the run, by what had been sent and skipped when the disk came to it. */
  ghost predicate Noted(b: Book, marks: seq<(nat, nat)>, past: seq<Moment>) {
    |marks| == |past| && forall j: nat :: j < |marks| ==> NotedAt(b.sent, b.skips, b.start, marks[j], past[j].saved)
  }

  /** The run has gone on, without a checkpoint beyond the account. */
  lemma NotedGrows(b: Book, hist: seq<Frame>, marks: seq<(nat, nat)>, past: seq<Moment>, later: seq<(nat, nat)>,
                   more: seq<Moment>)
    requires Noted(b, marks, past) && Ledger(b, hist) && past <= more && |later| == |more| && marks <= later
    requires forall j: nat :: |marks| <= j < |later| ==> later[j] == (|b.sent|, |b.skips|) && more[j].saved <= b.at
    ensures Noted(b, later, more)
  {
    hide Delivered, Passed, Settled;
    forall j: nat | j < |later| ensures NotedAt(b.sent, b.skips, b.start, later[j], more[j].saved) {
      if j < |marks| {
        assert NotedAt(b.sent, b.skips, b.start, marks[j], past[j].saved);
        assert later[j] == marks[j] && more[j] == past[j];
      } else {
        assert b.sent[..|b.sent|] == b.sent && b.skips[..|b.skips|] == b.skips;
      }
    }
  }

  /** The book has grown. */
  lemma NotedStays(b: Book, c: Book, marks: seq<(nat, nat)>, past: seq<Moment>)
    requires Noted(b, marks, past) && b.sent <= c.sent && b.skips <= c.skips && b.start == c.start
    ensures Noted(c, marks, past)
  {
    hide SettledTo;
    forall j: nat | j < |marks| ensures NotedAt(c.sent, c.skips, c.start, marks[j], past[j].saved) {
      assert NotedAt(b.sent, b.skips, b.start, marks[j], past[j].saved);
      assert c.sent[..marks[j].0] == b.sent[..marks[j].0] && c.skips[..marks[j].1] == b.skips[..marks[j].1];
    }
  }

  // ----- Batches.

  /** A batch of `n` records at `c` stops only at its limit, at the end of the log, or at a corrupt record. */
  ghost predicate Fills(c: nat, n: nat, hist: seq<Frame>, maxCount: nat) {
    n <= maxCount && (n == maxCount || c + n >= |hist| || Decode(hist[c + n]).Err?)
  }

  /**
   * A batch read at `c` is faithful; an empty one means that the log ends there; a corrupt record stands at `c`
   * itself.
   */
  lemma BatchIsFaithful(hist: seq<Frame>, c: nat, maxCount: nat)
    requires maxCount > 0 && c <= |hist|
    ensures match Batch(hist, c, maxCount)
            case Ok(rs) => if rs == [] then c == |hist| else Fills(c, |rs|, hist, maxCount) && Faithful(c, rs, hist)
            case Err(e) => e.CorruptAt? && e.offset == c < |hist| && Decode(hist[c]).Err?
  {
    hide Decode;
    var end := if c + maxCount > |hist| then |hist| else c + maxCount;
    if c < end && Decode(hist[c]).Ok? {
      var rs := ValidRun(hist, c, end);
      ValidRunStops(hist, c, end);
      forall i | 0 <= i < |rs| ensures CarriesAt(c, rs, hist, i) {
        ValidRunAt(hist, c, end, i);
      }
    }
  }
}
