/** Runs of frames in a segment file, and what recovery reads back from its bytes (storage_file.go:338-434). */
module Frames {
  import opened Bytes
  import opened Records

  /** Recovery gives up on a frame that claims more than 10 MiB. */
  const MAX_RECOVERABLE := 10 * 1024 * 1024

  type Frame = seq<byte>

  /** The header at the front of `b` describes a frame that recovery accepts. */
  predicate HeadAccepted(b: seq<byte>) {
    && |b| >= HEADER_SIZE
    && MagicOk(b)
    && ClaimedLength(b) <= MAX_RECOVERABLE
    && ClaimedLength(b) <= |b|
  }

  /** A frame that recovery accepts and that claims exactly the bytes it has. */
  predicate Whole(f: Frame) {
    HeadAccepted(f) && ClaimedLength(f) == |f|
  }

  ghost predicate AllWhole(fs: seq<Frame>) {
    forall i :: 0 <= i < |fs| ==> Whole(fs[i])
  }

  function Concat(fs: seq<Frame>): seq<byte> {
    if fs == [] then [] else fs[0] + Concat(fs[1..])
  }

  /** How many of the frames lie wholly within the first `k` bytes of their concatenation. */
  function FramesIn(fs: seq<Frame>, k: nat): (n: nat)
    ensures n <= |fs|
    decreases |fs|
  {
    if fs == [] || k < |fs[0]| then 0 else 1 + FramesIn(fs[1..], k - |fs[0]|)
  }

  /** The longest run of acceptable frames at the front of `b`. */
  function Parse(b: seq<byte>): seq<Frame>
    decreases |b|
  {
    if !HeadAccepted(b) then []
    else [b[..ClaimedLength(b)]] + Parse(b[ClaimedLength(b)..])
  }

  lemma {:induction false} ConcatAppend(a: seq<Frame>, b: seq<Frame>)
    ensures Concat(a + b) == Concat(a) + Concat(b)
    decreases |a|
  {
    if a == [] {
      assert a + b == b;
    } else {
      assert (a + b)[1..] == a[1..] + b;
      ConcatAppend(a[1..], b);
    }
  }

  lemma ConcatOne(f: Frame)
    ensures Concat([f]) == f
  {
    assert Concat([f]) == f + Concat([]);
  }

  lemma ConcatSnoc(fs: seq<Frame>, f: Frame)
    ensures Concat(fs + [f]) == Concat(fs) + f
  {
    ConcatAppend(fs, [f]);
    ConcatOne(f);
  }

  /** `FramesIn` counts exactly the frames that end by `k`. */
  lemma {:induction false} FramesInSpec(fs: seq<Frame>, k: nat, n: nat)
    requires n <= |fs| && forall i :: 0 <= i < |fs| ==> |fs[i]| > 0
    ensures n <= FramesIn(fs, k) <==> |Concat(fs[..n])| <= k
    decreases |fs|
  {
    if n > 0 {
      assert fs[..n][0] == fs[0] && fs[..n][1..] == fs[1..][..n - 1];
      if k >= |fs[0]| {
        FramesInSpec(fs[1..], k - |fs[0]|, n - 1);
      }
    }
  }

  lemma {:induction false} FramesInMonotone(fs: seq<Frame>, j: nat, k: nat)
    requires j <= k
    ensures FramesIn(fs, j) <= FramesIn(fs, k)
    decreases |fs|
  {
    if fs != [] && j >= |fs[0]| {
      FramesInMonotone(fs[1..], j - |fs[0]|, k - |fs[0]|);
    }
  }

  /** Frames past the byte limit do not change the count. */
  lemma {:induction false} FramesInExtend(fs: seq<Frame>, more: seq<Frame>, k: nat)
    requires k <= |Concat(fs)| && forall i :: 0 <= i < |more| ==> |more[i]| > 0
    ensures FramesIn(fs + more, k) == FramesIn(fs, k)
    decreases |fs|
  {
    if fs == [] {
      assert fs + more == more;
    } else if k >= |fs[0]| {
      assert (fs + more)[1..] == fs[1..] + more;
      FramesInExtend(fs[1..], more, k - |fs[0]|);
    }
  }

  lemma {:induction false} FramesInAll(fs: seq<Frame>)
    ensures FramesIn(fs, |Concat(fs)|) == |fs|
    decreases |fs|
  {
    if fs != [] {
      FramesInAll(fs[1..]);
    }
  }

  /** A frame keeps its header when bytes follow it, and loses it when its end is cut off. */
  lemma HeadOfFrame(f: Frame, rest: seq<byte>)
    requires Whole(f)
    ensures HeadAccepted(f + rest) && ClaimedLength(f + rest) == |f|
  {
    assert (f + rest)[23..25] == f[23..25] && (f + rest)[25..29] == f[25..29];
  }

  lemma CutFrameRejected(f: Frame, k: nat)
    requires Whole(f) && k < |f|
    ensures !HeadAccepted(f[..k])
  {
    if k >= HEADER_SIZE {
      assert f[..k][23..25] == f[23..25] && f[..k][25..29] == f[25..29];
    }
  }

  /**
   * Recovery of any byte prefix of a run of whole frames: exactly the frames that lie wholly inside it, whatever part
   * of a further frame the cut left behind.
   */
  lemma {:induction false} ParseOfPrefix(fs: seq<Frame>, k: nat)
    requires AllWhole(fs) && k <= |Concat(fs)|
    ensures Parse(Concat(fs)[..k]) == fs[..FramesIn(fs, k)]
    decreases |fs|
  {
    if fs != [] {
      var b := Concat(fs)[..k];
      if k < |fs[0]| {
        assert b == fs[0][..k];
        CutFrameRejected(fs[0], k);
      } else {
        var rest := Concat(fs[1..])[..k - |fs[0]|];
        assert b == fs[0] + rest;
        HeadOfFrame(fs[0], rest);
        assert b[..|fs[0]|] == fs[0] && b[|fs[0]|..] == rest;
        ParseOfPrefix(fs[1..], k - |fs[0]|);
        assert fs[..FramesIn(fs, k)] == [fs[0]] + fs[1..][..FramesIn(fs[1..], k - |fs[0]|)];
      }
    }
  }

  /** On any bytes at all, recovery keeps a prefix that is a run of whole frames. */
  lemma {:induction false} ParseIsAPrefix(b: seq<byte>)
    ensures AllWhole(Parse(b)) && Concat(Parse(b)) <= b
    decreases |b|
  {
    if HeadAccepted(b) {
      var n := ClaimedLength(b);
      var f := b[..n];
      assert f[23..25] == b[23..25] && f[25..29] == b[25..29];
      ParseIsAPrefix(b[n..]);
      assert Parse(b)[1..] == Parse(b[n..]);
      forall i | 0 <= i < |Parse(b)| ensures Whole(Parse(b)[i]) {
        if i > 0 {
          assert Parse(b)[i] == Parse(b[n..])[i - 1];
        }
      }
    }
  }

  /** ... and a second recovery changes nothing. */
  lemma RecoveryIsIdempotent(b: seq<byte>)
    ensures Parse(Concat(Parse(b))) == Parse(b)
  {
    ParseIsAPrefix(b);
    ParseAll(Parse(b));
  }

  lemma ParseAll(fs: seq<Frame>)
    requires AllWhole(fs)
    ensures Parse(Concat(fs)) == fs
  {
    ParseOfPrefix(fs, |Concat(fs)|);
    FramesInAll(fs);
    assert Concat(fs)[..|Concat(fs)|] == Concat(fs);
  }

  /** A log is read back whole exactly when every frame in it is one that recovery accepts. */
  lemma ReadBackExactly(fs: seq<Frame>)
    ensures Parse(Concat(fs)) == fs <==> AllWhole(fs)
  {
    if AllWhole(fs) {
      ParseAll(fs);
    }
    ParseIsAPrefix(Concat(fs));
  }

  /** Appended frames are whole exactly when they are encodable and within the recovery limit. */
  lemma EncodedIsWhole(r: Record)
    requires |r.topic| <= MAX_TOPIC
    ensures Whole(Encode(r)) <==> |Encode(r)| <= 10 * 1024 * 1024
  {
    if |Encode(r)| <= MAX_RECOVERABLE {
      assert Encode(r) + [] == Encode(r);
      EncodedFields(r, []);
    }
  }

  /** An append over the limit is accepted, and hides itself and every later record of its segment from recovery. */
  lemma OversizeHidesTheRest(fs: seq<Frame>, r: Record, rest: seq<Frame>)
    requires AllWhole(fs) && Encodable(r) && |Encode(r)| > MAX_RECOVERABLE
    ensures Parse(Concat(fs + [Encode(r)] + rest)) == fs
  {
    hide Encode;
    ConcatSnoc(fs, Encode(r));
    ConcatAppend(fs + [Encode(r)], rest);
    assert Concat(fs) + Encode(r) + Concat(rest) == Concat(fs) + (Encode(r) + Concat(rest));
    ParseBehind(fs, Encode(r) + Concat(rest));
    EncodedLength(r, Concat(rest));
    assert fs + [] == fs;
  }

  /**
   * The length that recovery reads at the front of `b`, which begins with the first `p` bytes of `g`: that of `g` if
   * its header is there, and otherwise one whose lengths are, in part or in whole, bytes that were written behind.
   */
  function SwallowedLength(g: Frame, p: nat, b: seq<byte>): nat
    requires |b| >= HEADER_SIZE
  {
    if p < HEADER_SIZE then ClaimedLength(b) else |g|
  }

  /**
   * A rollback that cuts inside a frame `g` leaves `p` bytes of it behind.  Recovery takes as many of the bytes
   * appended later as its header claims into the same frame, and goes on behind them; it gives up everything behind
   * the last whole frame while there are fewer, or if the claim is too large, or if a piece of the magic is not
   * continued.
   */
  lemma TornFrameSwallows(fs: seq<Frame>, g: Frame, p: nat, rest: seq<byte>)
    requires AllWhole(fs) && Whole(g) && 0 < p < |g|
    ensures var b := g[..p] + rest;
      Parse(Concat(fs) + b) ==
        if |b| < HEADER_SIZE || !MagicOk(b) || SwallowedLength(g, p, b) > Min(MAX_RECOVERABLE, |b|) then fs
        else
          var n := SwallowedLength(g, p, b);
          fs + ([g[..p] + rest[..n - p]] + Parse(rest[n - p..]))
    ensures p >= 3 && p + |rest| >= 3 ==> MagicOk(g[..p] + rest)
    ensures p < 3 && |rest| >= 3 && rest[0] == MAGIC_1 ==> Parse(Concat(fs) + (g[..p] + rest)) == fs
    ensures p <= 23 && p + |rest| >= HEADER_SIZE ==>
              SwallowedLength(g, p, g[..p] + rest)
              == HEADER_SIZE + FromBig(rest[23 - p..25 - p]) + FromBig(rest[25 - p..HEADER_SIZE - p])
  {
    ParseBehind(fs, g[..p] + rest);
    TornFrame(g, p, rest);
    if p + |rest| >= 3 {
      TornMagic(g, p, rest);
    }
    TornLengths(g, p, rest);
    assert fs + [] == fs;
  }

  lemma TornFrame(g: Frame, p: nat, rest: seq<byte>)
    requires Whole(g) && 0 < p < |g|
    ensures var b := g[..p] + rest;
      |b| >= HEADER_SIZE ==>
        var n := SwallowedLength(g, p, b);
        && n == ClaimedLength(b) && n >= p
        && Parse(b) == if !MagicOk(b) || n > Min(MAX_RECOVERABLE, |b|) then []
                       else [g[..p] + rest[..n - p]] + Parse(rest[n - p..])
    ensures p + |rest| < HEADER_SIZE ==> Parse(g[..p] + rest) == []
  {
    hide ClaimedLength, MagicOk;
    var b := g[..p] + rest;
    if p >= HEADER_SIZE {
      assert b[..HEADER_SIZE] == g[..HEADER_SIZE];
      SameHeader(g, b);
    }
    if |b| >= HEADER_SIZE {
      var n := SwallowedLength(g, p, b);
      if n <= |b| {
        assert b[..n] == g[..p] + rest[..n - p] && b[n..] == rest[n - p..];
      }
    }
  }

  lemma TornMagic(g: Frame, p: nat, rest: seq<byte>)
    requires Whole(g) && 0 < p < |g| && p + |rest| >= 3
    ensures p >= 3 ==> MagicOk(g[..p] + rest)
    ensures p < 3 && rest[0] == MAGIC_1 ==> !MagicOk(g[..p] + rest)
  {
    var b := g[..p] + rest;
    assert p < 3 ==> b[p] == rest[0];
  }

  lemma TornLengths(g: Frame, p: nat, rest: seq<byte>)
    requires p <= |g|
    ensures p <= 23 && p + |rest| >= HEADER_SIZE ==>
              ClaimedLength(g[..p] + rest)
              == HEADER_SIZE + FromBig(rest[23 - p..25 - p]) + FromBig(rest[25 - p..HEADER_SIZE - p])
  {
    var b := g[..p] + rest;
    if p <= 23 && p + |rest| >= HEADER_SIZE {
      assert b[23..25] == rest[23 - p..25 - p] && b[25..29] == rest[25 - p..HEADER_SIZE - p];
    }
  }

  lemma SameHeader(a: seq<byte>, b: seq<byte>)
    requires |a| >= HEADER_SIZE && |b| >= HEADER_SIZE && a[..HEADER_SIZE] == b[..HEADER_SIZE]
    ensures ClaimedLength(a) == ClaimedLength(b) && MagicOk(a) == MagicOk(b)
  {
    assert a[23..25] == a[..HEADER_SIZE][23..25] && b[23..25] == b[..HEADER_SIZE][23..25];
    assert a[25..29] == a[..HEADER_SIZE][25..29] && b[25..29] == b[..HEADER_SIZE][25..29];
    assert forall i :: 0 <= i < 3 ==> a[i] == a[..HEADER_SIZE][i] && b[i] == b[..HEADER_SIZE][i];
  }

  /** Recovery takes whole frames from the front and goes on behind them. */
  lemma {:induction false} ParseBehind(fs: seq<Frame>, b: seq<byte>)
    requires AllWhole(fs)
    ensures Parse(Concat(fs) + b) == fs + Parse(b)
    decreases |fs|
  {
    if fs == [] {
      assert Concat(fs) + b == b;
    } else {
      hide Whole;
      var tail := Concat(fs[1..]) + b;
      ParseBehind(fs[1..], b);
      ParseOne(fs[0], tail);
      assert Concat(fs) + b == fs[0] + tail;
      assert [fs[0]] + (fs[1..] + Parse(b)) == fs + Parse(b);
    }
  }

  lemma ParseOne(f: Frame, tail: seq<byte>)
    requires Whole(f)
    ensures Parse(f + tail) == [f] + Parse(tail)
  {
    HeadOfFrame(f, tail);
    assert (f + tail)[..|f|] == f && (f + tail)[|f|..] == tail;
  }
}
