/** What a spool promises its reader, on the log of frames it holds (ports.go:40-58). */
module Spool {
  import opened Results
  import opened Records
  import opened Frames

  /** The records `[from, to)` of the log, up to the first frame that does not decode. */
  function ValidRun(hist: seq<Frame>, from: nat, end: nat): (rs: seq<Record>)
    requires end <= |hist|
    ensures |rs| <= if from <= end then end - from else 0
    decreases if from <= end then end - from else 0
  {
    if from >= end || Decode(hist[from]).Err? then []
    else [Decode(hist[from]).value.(offset := from)] + ValidRun(hist, from + 1, end)
  }

  /** What reading `[from, end)` gives: the valid run at `from`, or the corrupt record that stands there. */
  function ReadRange(hist: seq<Frame>, from: nat, end: nat): Result<seq<Record>>
    requires end <= |hist|
  {
    if from >= end then Ok([])
    else if Decode(hist[from]).Err? then Err(CorruptAt(from, Decode(hist[from]).error))
    else Ok(ValidRun(hist, from, end))
  }

  /** A batch of at most `maxCount` records at the checkpoint. */
  function Batch(hist: seq<Frame>, checkpoint: nat, maxCount: nat): Result<seq<Record>> {
    ReadRange(hist, checkpoint, if checkpoint + maxCount > |hist| then |hist| else checkpoint + maxCount)
  }

  /** Reading record by record builds the range up from the front. */
  lemma ReadRangeStep(hist: seq<Frame>, from: nat, i: nat, end: nat, batch: seq<Record>)
    requires from <= i < end <= |hist| && |batch| == i - from
    requires batch + ValidRun(hist, i, end) == ValidRun(hist, from, end)
    requires i > from ==> Decode(hist[from]).Ok?
    ensures match Decode(hist[i])
            case Ok(d) => batch + [d.(offset := i)] + ValidRun(hist, i + 1, end) == ValidRun(hist, from, end)
            case Err(e) => ReadRange(hist, from, end) == if batch == [] then Err(CorruptAt(i, e)) else Ok(batch)
  {
    hide Decode;
    assert batch + [] == batch;
  }

  lemma RangeDone(hist: seq<Frame>, from: nat, end: nat, batch: seq<Record>)
    requires from <= end <= |hist| && batch + ValidRun(hist, end, end) == ValidRun(hist, from, end)
    requires batch != [] ==> Decode(hist[from]).Ok?
    requires |batch| == end - from
    ensures ReadRange(hist, from, end) == Ok(batch)
  {
    hide Decode;
    assert batch + [] == batch;
  }

  /** The records have the offsets from `from` on. */
  ghost predicate Consecutive(rs: seq<Record>, from: nat) {
    forall i: nat :: i < |rs| ==> rs[i].offset == from + i
  }

  /**
   * The answer for the offsets `[from, end)`, whatever their records hold: some of them in order, or the first as
   * corrupt.
   */
  ghost predicate Answers(r: Result<seq<Record>>, from: nat, end: nat) {
    match r
    case Ok(rs) => Consecutive(rs, from) && if from >= end then rs == [] else 0 < |rs| <= end - from
    case Err(e) => e.CorruptAt? && e.offset == from < end
  }

  lemma ReadRangeAnswers(hist: seq<Frame>, from: nat, end: nat)
    requires end <= |hist|
    ensures Answers(ReadRange(hist, from, end), from, end)
  {
    hide Decode;
    if from < end && Decode(hist[from]).Ok? {
      forall i: nat | i < |ValidRun(hist, from, end)| ensures ValidRun(hist, from, end)[i].offset == from + i {
        ValidRunAt(hist, from, end, i);
      }
    }
  }

  /** A valid run is consecutive, and each of its records is the decoding of the frame at its offset. */
  lemma {:induction false} ValidRunAt(hist: seq<Frame>, from: nat, end: nat, i: nat)
    requires end <= |hist| && i < |ValidRun(hist, from, end)|
    ensures from + i < end && Decode(hist[from + i]).Ok?
    ensures ValidRun(hist, from, end)[i] == Decode(hist[from + i]).value.(offset := from + i)
    decreases i
  {
    hide Decode;
    if i > 0 {
      ValidRunAt(hist, from + 1, end, i - 1);
    }
  }

  /** It stops only at the end of the range or at a frame that does not decode. */
  lemma {:induction false} ValidRunStops(hist: seq<Frame>, from: nat, end: nat)
    requires from <= end <= |hist|
    ensures var k := from + |ValidRun(hist, from, end)|; k <= end && (k < end ==> Decode(hist[k]).Err?)
    decreases end - from
  {
    hide Decode;
    if from < end && Decode(hist[from]).Ok? {
      ValidRunStops(hist, from + 1, end);
    }
  }
}
