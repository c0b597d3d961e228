/**
 * The identifiers that engine.go gives to its records.  An Enqueue draws one and appends its record in a later step,
 * and holds only a shared lock between the two: other producers may draw and append meanwhile.
 */
module Identifiers {
  import opened Results
  import opened Records
  import opened Frames
  import opened Recovery

  const WIDTH: int := 0x1_0000_0000_0000_0000

  /** One more, in 64 bits. */
  function Succ(id: uint64): uint64 {
    if id + 1 == WIDTH then 0 else id + 1
  }

  /** The identifier that the draw with number `n` gets, when `first` was the counter at the start. */
  function Nth(first: uint64, n: nat): uint64 {
    (first + 1 + n) % WIDTH
  }

  /**
   * What has been drawn since the start, by the number of the draw; the numbers whose records were appended; and for
   * each offset of the log the number of its record, or none if it was there at the start.  `first` was the counter
   * then and `floor` the oldest offset.
   */
  datatype Roll = Roll(first: uint64, floor: nat, drawn: seq<uint64>, stored: set<nat>, origins: seq<Option<nat>>)

  /** The counter has run over. */
  ghost predicate Wrapped(roll: Roll) {
    roll.first + |roll.drawn| >= WIDTH
  }

  /** The record at `o` carries the identifier of its draw, or was found at the start. */
  ghost predicate Traced(roll: Roll, hist: seq<Frame>, o: nat)
    requires o < |hist| && o < |roll.origins|
  {
    match roll.origins[o]
    case None => IdOf(hist[o]) <= roll.first
    case Some(n) => n in roll.stored && n < |roll.drawn| && IdOf(hist[o]) == roll.drawn[n]
  }

  /** No draw has two records in the log. */
  ghost predicate OnceEach(origins: seq<Option<nat>>) {
    forall o, p :: 0 <= o < p < |origins| && origins[o].Some? ==> origins[o] != origins[p]
  }

  ghost predicate Numbered(roll: Roll, counter: uint64) {
    && counter == (roll.first + |roll.drawn|) % WIDTH
    && forall n: nat :: n < |roll.drawn| ==> roll.drawn[n] == Nth(roll.first, n)
  }

  /** The draws whose Enqueue is under way have drawn and not appended. */
  ghost predicate UnderWay(roll: Roll, pending: map<nat, Record>) {
    && (forall n: nat :: n in pending ==> n < |roll.drawn| && n !in roll.stored && pending[n].id == roll.drawn[n])
    && forall n: nat :: n in roll.stored ==> n < |roll.drawn|
  }

  ghost predicate InLog(roll: Roll, hist: seq<Frame>) {
    && |roll.origins| == |hist| && OnceEach(roll.origins)
    && (forall o: nat :: o < |hist| && roll.origins[o].Some? ==> roll.origins[o].value in roll.stored)
    && forall o: nat :: roll.floor <= o < |hist| ==> Traced(roll, hist, o)
  }

  /** The greatest identifier that the storage knows is the greatest of those appended, until the counter runs over. */
  ghost predicate Greatest(roll: Roll, maxID: uint64) {
    && roll.first <= maxID
    && (forall n: nat :: n in roll.stored && n < |roll.drawn| ==> roll.drawn[n] <= maxID)
    && (maxID == roll.first || exists n: nat :: n in roll.stored && n < |roll.drawn| && roll.drawn[n] == maxID)
  }

  ghost predicate RollOk(roll: Roll, counter: uint64, pending: map<nat, Record>, maxID: uint64, hist: seq<Frame>) {
    && Numbered(roll, counter) && UnderWay(roll, pending) && InLog(roll, hist)
    && (!Wrapped(roll) ==> Greatest(roll, maxID))
  }

  lemma RollShape(roll: Roll, counter: uint64, pending: map<nat, Record>, maxID: uint64, hist: seq<Frame>)
    requires RollOk(roll, counter, pending, maxID, hist)
    ensures |roll.origins| == |hist|
  {
  }

  lemma RollCounts(roll: Roll, counter: uint64, pending: map<nat, Record>, maxID: uint64, hist: seq<Frame>)
    requires RollOk(roll, counter, pending, maxID, hist) && !Wrapped(roll)
    ensures counter == roll.first + |roll.drawn| >= maxID && forall n: nat :: n in pending ==> n < |roll.drawn|
  {
    hide InLog, IdOf;
    Unwrapped(roll, counter);
  }

  lemma RollRises(roll: Roll, counter: uint64, pending: map<nat, Record>, maxID: uint64, hist: seq<Frame>)
    requires RollOk(roll, counter, pending, maxID, hist) && !Wrapped(roll)
    ensures Rising(roll) && forall n: nat :: n < |roll.drawn| ==> roll.drawn[n] <= counter
  {
    hide InLog, IdOf, UnderWay;
    Unwrapped(roll, counter);
  }

  // ----- What every step keeps.

  /** The counter starts at the greatest identifier known. */
  lemma RollStarts(first: uint64, floor: nat, hist: seq<Frame>)
    requires forall o :: floor <= o < |hist| ==> IdOf(hist[o]) <= first
    ensures RollOk(Roll(first, floor, [], {}, seq(|hist|, o => None)), first, map[], first, hist)
  {
    hide IdOf;
  }

  /** A producer draws. */
  ghost function Drew(roll: Roll, id: uint64): Roll {
    roll.(drawn := roll.drawn + [id])
  }

  lemma RollDraws(roll: Roll, counter: uint64, pending: map<nat, Record>, maxID: uint64, hist: seq<Frame>, rec: Record)
    requires RollOk(roll, counter, pending, maxID, hist) && rec.id == Succ(counter)
    ensures |roll.drawn| !in pending
    ensures RollOk(Drew(roll, rec.id), rec.id, pending[|roll.drawn| := rec], maxID, hist)
  {
    hide IdOf, OnceEach;
    var next := Drew(roll, rec.id);
    NextIs(roll.first, |roll.drawn|);
    assert forall n: nat :: n < |roll.drawn| ==> next.drawn[n] == roll.drawn[n];
    forall o: nat | roll.floor <= o < |hist| ensures Traced(next, hist, o) {
      assert Traced(roll, hist, o);
    }
    if !Wrapped(next) && maxID != roll.first {
      var n: nat :| n in roll.stored && n < |roll.drawn| && roll.drawn[n] == maxID;
      assert next.drawn[n] == maxID;
    }
  }

  lemma NextIs(first: uint64, n: nat)
    ensures Succ((first + n) % WIDTH) == Nth(first, n) == (first + (n + 1)) % WIDTH
  {
    var a := first + n;
    assert a == WIDTH * (a / WIDTH) + a % WIDTH;
    if a % WIDTH + 1 == WIDTH {
      assert a + 1 == WIDTH * (a / WIDTH + 1);
    } else {
      assert (a + 1) - WIDTH * (a / WIDTH) == a % WIDTH + 1;
    }
  }

  /** The record of draw `n` has become the last of the log. */
  ghost function Took(roll: Roll, n: nat): Roll {
    roll.(stored := roll.stored + {n}, origins := roll.origins + [Some(n)])
  }

  /** Its append has failed, and left `k` records. */
  ghost function Fell(roll: Roll, k: nat): Roll
    requires k <= |roll.origins|
  {
    roll.(origins := roll.origins[..k])
  }

  /**
   * An append of the record of draw `n`.  Its identifier is above every one that the storage knew if and only if no
   * producer that drew later had appended before it.
   */
  lemma RollStores(roll: Roll, counter: uint64, pending: map<nat, Record>, maxID: uint64, hist: seq<Frame>, n: nat,
                   f: Frame)
    requires RollOk(roll, counter, pending, maxID, hist) && n in pending && IdOf(f) == pending[n].id
    ensures var m := if IdOf(f) > maxID then IdOf(f) else maxID;
      RollOk(Took(roll, n), counter, pending - {n}, m, hist + [f])
    ensures !Wrapped(roll) ==> (IdOf(f) > maxID <==> forall k: nat :: k in roll.stored ==> k < n)
  {
    hide IdOf, Greatest;
    var next, more := Took(roll, n), hist + [f];
    forall o: nat | roll.floor <= o < |more| ensures Traced(next, more, o) {
      if o < |hist| {
        assert Traced(roll, hist, o);
      }
    }
    if !Wrapped(roll) {
      Unwrapped(roll, counter);
      StaysGreatest(roll, maxID, n);
    }
  }

  lemma StaysGreatest(roll: Roll, maxID: uint64, n: nat)
    requires Greatest(roll, maxID) && Rising(roll) && n < |roll.drawn| && n !in roll.stored
    requires forall k: nat :: k in roll.stored ==> k < |roll.drawn|
    ensures Greatest(Took(roll, n), if roll.drawn[n] > maxID then roll.drawn[n] else maxID)
    ensures roll.drawn[n] > maxID <==> forall k: nat :: k in roll.stored ==> k < n
  {
    if maxID != roll.first {
      var k: nat :| k in roll.stored && k < |roll.drawn| && roll.drawn[k] == maxID;
      assert k != n;
    }
  }

  /** A failed append of draw `n` leaves a part of the log, or all of it. */
  lemma RollFalls(roll: Roll, counter: uint64, pending: map<nat, Record>, maxID: uint64, hist: seq<Frame>, n: nat,
                  less: seq<Frame>)
    requires RollOk(roll, counter, pending, maxID, hist) && less <= hist
    ensures |less| <= |roll.origins| && RollOk(Fell(roll, |less|), counter, pending - {n}, maxID, less)
  {
    hide IdOf;
    var next := Fell(roll, |less|);
    forall o: nat | roll.floor <= o < |less| ensures Traced(next, less, o) {
      assert Traced(roll, hist, o) && next.origins[o] == roll.origins[o];
    }
  }

  /** An append of the record of draw `n`, with frame `f`, that may have failed. */
  lemma RollAppends(roll: Roll, counter: uint64, pending: map<nat, Record>, maxID: uint64, hist: seq<Frame>, n: nat,
                    f: Frame, ok: bool, now: seq<Frame>)
    requires RollOk(roll, counter, pending, maxID, hist) && n in pending && IdOf(f) == pending[n].id
    requires if ok then now == hist + [f] else now <= hist
    ensures |roll.origins| == |hist|
    ensures RollOk(if ok then Took(roll, n) else Fell(roll, |now|), counter, pending - {n},
                   if ok && IdOf(f) > maxID then IdOf(f) else maxID, now)
    ensures !Wrapped(roll) ==> (IdOf(f) > maxID <==> forall k: nat :: k in roll.stored ==> k < n)
  {
    hide RollOk, IdOf;
    RollShape(roll, counter, pending, maxID, hist);
    RollStores(roll, counter, pending, maxID, hist, n, f);
    if !ok {
      RollFalls(roll, counter, pending, maxID, hist, n, now);
    }
  }

  // ----- What it means.

  /** The identifiers drawn are above the first one, and rise. */
  ghost predicate Rising(roll: Roll) {
    && (forall n: nat :: n < |roll.drawn| ==> roll.drawn[n] > roll.first)
    && forall m: nat, n: nat :: m < n < |roll.drawn| ==> roll.drawn[m] < roll.drawn[n]
  }

  lemma Unwrapped(roll: Roll, counter: uint64)
    requires Numbered(roll, counter) && !Wrapped(roll)
    ensures Rising(roll)
    ensures counter == roll.first + |roll.drawn| && forall n: nat :: n < |roll.drawn| ==> roll.drawn[n] <= counter
  {
    forall n: nat | n < |roll.drawn| ensures roll.drawn[n] == roll.first + 1 + n {
      assert roll.drawn[n] == Nth(roll.first, n);
    }
  }

  /**
   * Every interleaving of producers draws different identifiers until 2^64 of them are drawn, exactly; and all of them
   * are above the greatest one at the start exactly until the counter runs over.
   */
  lemma DrawnApart(roll: Roll, counter: uint64, pending: map<nat, Record>, maxID: uint64, hist: seq<Frame>)
    requires RollOk(roll, counter, pending, maxID, hist)
    ensures forall m: nat, n: nat :: m < n < |roll.drawn| ==> (roll.drawn[m] == roll.drawn[n] <==> (n - m) % WIDTH == 0)
    ensures (forall n: nat :: n < |roll.drawn| ==> roll.drawn[n] > roll.first) <==> !Wrapped(roll)
    ensures !Wrapped(roll) ==> maxID <= counter
  {
    hide IdOf, UnderWay, InLog;
    forall m: nat, n: nat | m < n < |roll.drawn|
      ensures roll.drawn[m] == roll.drawn[n] <==> (n - m) % WIDTH == 0
    {
      assert roll.drawn[m] == Nth(roll.first, m) && roll.drawn[n] == Nth(roll.first, n);
      SameResidue(roll.first + 1 + m, roll.first + 1 + n);
    }
    if Wrapped(roll) {
      var n := WIDTH - 1 - roll.first;
      assert roll.drawn[n] == Nth(roll.first, n) == 0;
    } else {
      Unwrapped(roll, counter);
    }
  }

  lemma SameResidue(a: nat, b: nat)
    requires a <= b
    ensures a % WIDTH == b % WIDTH <==> (b - a) % WIDTH == 0
  {
    var p, q := a / WIDTH, b / WIDTH;
    var r, t := a % WIDTH, b % WIDTH;
    assert a == WIDTH * p + r && b == WIDTH * q + t;
    var d := b - a;
    assert d == WIDTH * (q - p) + (t - r);
  }

  /**
   * Two records of the log that were appended since the start have the same identifier exactly if a multiple of 2^64
   * draws lies between them; until the counter runs over, none has the identifier of a record found at the start.
   */
  lemma LogApart(roll: Roll, counter: uint64, pending: map<nat, Record>, maxID: uint64, hist: seq<Frame>, o: nat,
                 p: nat)
    requires RollOk(roll, counter, pending, maxID, hist) && roll.floor <= o < p < |hist|
    ensures roll.origins[o].Some? && roll.origins[p].Some? ==>
              var m, n := roll.origins[o].value, roll.origins[p].value;
              m != n && (IdOf(hist[o]) == IdOf(hist[p]) <==> (if m < n then n - m else m - n) % WIDTH == 0)
    ensures !Wrapped(roll) && (roll.origins[o].Some? || roll.origins[p].Some?) ==> IdOf(hist[o]) != IdOf(hist[p])
  {
    hide IdOf;
    assert Traced(roll, hist, o) && Traced(roll, hist, p);
    DrawnApart(roll, counter, pending, maxID, hist);
    if !Wrapped(roll) {
      Unwrapped(roll, counter);
    }
  }

  /**
   * The record at `o` has an identifier above all before it if and only if none of these was drawn later: a producer
   * that draws first and appends second is overtaken.
   */
  lemma AboveExactly(roll: Roll, counter: uint64, pending: map<nat, Record>, maxID: uint64, hist: seq<Frame>, o: nat)
    requires RollOk(roll, counter, pending, maxID, hist) && roll.floor <= o < |hist| && roll.origins[o].Some?
    requires !Wrapped(roll)
    ensures (forall p: nat :: roll.floor <= p < o ==> IdOf(hist[p]) < IdOf(hist[o])) <==>
            (forall p: nat :: roll.floor <= p < o && roll.origins[p].Some? ==>
               roll.origins[p].value < roll.origins[o].value)
  {
    hide IdOf;
    Unwrapped(roll, counter);
    assert Traced(roll, hist, o);
    forall p: nat | roll.floor <= p < o
      ensures IdOf(hist[p]) < IdOf(hist[o]) <==>
              roll.origins[p] == None || roll.origins[p].value < roll.origins[o].value
    {
      assert Traced(roll, hist, p);
    }
  }
}
