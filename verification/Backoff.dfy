/** The jittered backoff of engine.go:345-383, over the 64-bit integers that hold Go's durations. */
module Backoff {

  const TWO_63: int := 0x8000_0000_0000_0000
  const TWO_64: int := 0x1_0000_0000_0000_0000

  type Duration = x: int | -0x8000_0000_0000_0000 <= x < 0x8000_0000_0000_0000

  /** In nanoseconds, as time.Duration counts. */
  const DEFAULT_INITIAL: Duration := 20_000_000

  datatype Config = Config(initialBackoff: Duration, maxBackoff: Duration)

  /** What a 64-bit register keeps of `x`. */
  function Wrap(x: int): (r: Duration)
    ensures -TWO_63 <= x < TWO_63 ==> r == x
  {
    (x + TWO_63) % TWO_64 - TWO_63
  }

  /** Tripling a positive value makes it look smaller exactly when the product does not fit. */
  lemma OverflowCaught(current: Duration)
    requires current > 0
    ensures Wrap(current * 3) < current <==> current * 3 >= TWO_63
  {
    if current * 3 >= TWO_63 {
      assert (current * 3 + TWO_63) / TWO_64 == 1;
    }
  }

  /** The least backoff. */
  function Floor(cfg: Config): (r: Duration)
    ensures r > 0
  {
    if cfg.initialBackoff <= 0 then DEFAULT_INITIAL else cfg.initialBackoff
  }

  /** The greatest. */
  function Ceiling(cfg: Config): (r: Duration)
    ensures r >= Floor(cfg)
  {
    if cfg.maxBackoff < Floor(cfg) then Floor(cfg) else cfg.maxBackoff
  }

  /**
   * The values that may follow `current`: from the configured initial backoff, or 20 ms without one, up to the
   * configured maximum and to three times `current`; a maximum below the initial backoff leaves the latter alone.
   */
  predicate MayFollow(cfg: Config, current: int, next: int) {
    var low := if cfg.initialBackoff > 0 then cfg.initialBackoff else 20_000_000;
    && low <= next && (next <= cfg.maxBackoff || next == low)
    && (next <= 3 * current || next <= 3 * low)
  }

  /** How far above the least backoff the jitter may go: up to three times the last backoff, without rounding off. */
  function Span(cfg: Config, previous: int): (n: nat) {
    var current := if previous < Floor(cfg) then Floor(cfg) else previous;
    (if current * 3 >= TWO_63 then Ceiling(cfg) else current * 3) - Floor(cfg)
  }

  /** The random number `source` brought below `n`. */
  function Pick(source: nat, n: nat): (r: nat)
    requires n > 0
    ensures r < n && (source < n ==> r == source)
  {
    source % n
  }

  /** The backoff that the random number `source` leads to. */
  function NextBackoff(cfg: Config, previous: int, source: nat): int {
    var sleep := Floor(cfg) + Pick(source, Span(cfg, previous) + 1);
    if sleep > Ceiling(cfg) then Ceiling(cfg) else sleep
  }

  /** Between them the random numbers lead to every value that may follow, and to no other. */
  lemma BackoffExactly(cfg: Config, previous: Duration, next: int)
    ensures MayFollow(cfg, previous, next) <==> exists source: nat :: NextBackoff(cfg, previous, source) == next
  {
    hide Pick;
    if MayFollow(cfg, previous, next) {
      var source := next - Floor(cfg);
      assert NextBackoff(cfg, previous, source) == next;
    }
  }

  /** `rand.Int64N(n)`, with `source` as its random number: it panics unless `n` is positive. */
  method Int64N(n: Duration, source: nat) returns (r: Duration)
    requires n > 0
    ensures r == Pick(source, n)
  {
    r := Pick(source, n);
  }

  method CalculateNextBackoff(cfg: Config, previous: Duration, source: nat) returns (sleep: Duration)
    ensures sleep == NextBackoff(cfg, previous, source) && MayFollow(cfg, previous, sleep)
  {
    var initialBackoff := cfg.initialBackoff;
    if initialBackoff <= 0 {
      initialBackoff := DEFAULT_INITIAL;
    }
    var maxBackoff := cfg.maxBackoff;
    if maxBackoff < initialBackoff {
      maxBackoff := initialBackoff;
    }
    var current := previous;
    if current < initialBackoff {
      current := initialBackoff;
    }
    OverflowCaught(current);
    var high := Wrap((current as int) * 3);
    if high < current {
      high := maxBackoff;
    }
    if high < initialBackoff {
      high := initialBackoff;
    }
    var delta := high - initialBackoff;
    if delta <= 0 {
      sleep := initialBackoff;
    } else {
      var jitter := Int64N(delta + 1, source);
      sleep := initialBackoff + jitter;
    }
    if sleep > maxBackoff {
      sleep := maxBackoff;
    }
  }

  function Power3(n: nat): (r: nat)
    ensures r >= 1
  {
    if n == 0 then 1 else 3 * Power3(n - 1)
  }

  /** Backoffs in a row: each one may follow the one before. */
  ghost predicate Row(cfg: Config, bs: seq<int>) {
    && bs != [] && bs[0] == cfg.initialBackoff
    && forall i: nat :: i + 1 < |bs| ==> MayFollow(cfg, bs[i], bs[i + 1])
  }

  /** How many failures in a row there have been at the end of a course of attempts. */
  function Lately(failed: seq<bool>): (n: nat)
    ensures n <= |failed|
  {
    if failed == [] || !failed[|failed| - 1] then 0 else 1 + Lately(failed[..|failed| - 1])
  }

  lemma RowStarts(cfg: Config)
    ensures Row(cfg, [cfg.initialBackoff]) && Lately([]) == 0
  {
  }

  lemma LatelyOn(failed: seq<bool>, more: bool)
    ensures Lately(failed + [more]) == if more then Lately(failed) + 1 else 0
  {
    assert (failed + [more])[..|failed|] == failed;
  }

  /** After `n` failures in a row the backoff is within its bounds and at most `3^n` times the least one. */
  lemma {:induction false} RowBounds(cfg: Config, bs: seq<int>, n: nat)
    requires Row(cfg, bs) && n < |bs|
    ensures n > 0 ==> bs[n] >= cfg.initialBackoff && bs[n] > 0
    ensures n > 0 && bs[n] > cfg.maxBackoff ==>
      bs[n] == if cfg.initialBackoff > 0 then cfg.initialBackoff else DEFAULT_INITIAL
    ensures bs[n] <= Power3(n) * if cfg.initialBackoff > 0 then cfg.initialBackoff else DEFAULT_INITIAL
  {
    if n > 0 {
      RowBounds(cfg, bs, n - 1);
      var p := n - 1;
      assert MayFollow(cfg, bs[p], bs[p + 1]);
      assert 3 * (Power3(n - 1) * Floor(cfg)) == Power3(n) * Floor(cfg);
    }
  }
}
