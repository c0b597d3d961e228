/** What a query of the hub means: the last matches, in order, of a plain scan of the live entries. */
module HubQuery {
  import opened HubIndex

  datatype LogEntry = LogEntry(
    id: nat, timestamp: int, topic: string, service: string, traceID: string, level: string, payload: seq<int>)

  /** A query after normalisation; an empty text asks for nothing. */
  datatype Wanted = Wanted(traceID: string, service: string, level: string)

  predicate Matches(e: LogEntry, q: Wanted) {
    && (q.traceID == "" || e.traceID == q.traceID)
    && (q.service == "" || e.service == q.service)
    && (q.level == "" || e.level == q.level)
  }

  /** The matching entries among `es`, in their order. */
  function Filter(es: seq<LogEntry>, q: Wanted): seq<LogEntry> {
    if es == [] then []
    else Filter(es[..|es| - 1], q) + if Matches(es[|es| - 1], q) then [es[|es| - 1]] else []
  }

  /** The last `n` elements, or all of them. */
  function LastOf(es: seq<LogEntry>, n: nat): seq<LogEntry> {
    if |es| <= n then es else es[|es| - n..]
  }

  function Reverse(es: seq<LogEntry>): (r: seq<LogEntry>)
    ensures |r| == |es|
  {
    if es == [] then [] else Reverse(es[1..]) + [es[0]]
  }

  /** Walking the entries with numbers `c` from the last back, taking matches until there are `limit` of them. */
  function TakeBack(log: seq<LogEntry>, c: seq<nat>, q: Wanted, limit: nat): (r: seq<LogEntry>)
    requires forall i :: 0 <= i < |c| ==> c[i] < |log|
    ensures |r| <= limit && |r| <= |c|
  {
    if c == [] || limit == 0 then []
    else
      var n := c[|c| - 1];
      if Matches(log[n], q) then [log[n]] + TakeBack(log, c[..|c| - 1], q, limit - 1)
      else TakeBack(log, c[..|c| - 1], q, limit)
  }

  /** The walk has `c[..i]` still to visit and has taken `matched`. */
  ghost predicate Walking(log: seq<LogEntry>, c: seq<nat>, q: Wanted, limit: nat, matched: seq<LogEntry>, i: nat) {
    && (forall j :: 0 <= j < |c| ==> c[j] < |log|) && i <= |c| && |matched| <= limit
    && matched + TakeBack(log, c[..i], q, limit - |matched|) == TakeBack(log, c, q, limit)
  }

  lemma WalkStarts(log: seq<LogEntry>, c: seq<nat>, q: Wanted, limit: nat)
    requires forall j :: 0 <= j < |c| ==> c[j] < |log|
    ensures Walking(log, c, q, limit, [], |c|)
  {
    assert c[..|c|] == c;
  }

  lemma WalkSteps(log: seq<LogEntry>, c: seq<nat>, q: Wanted, limit: nat, matched: seq<LogEntry>, i: nat)
    requires Walking(log, c, q, limit, matched, i) && i > 0 && |matched| < limit
    ensures c[i - 1] < |log|
    ensures Walking(log, c, q, limit, matched + if Matches(log[c[i - 1]], q) then [log[c[i - 1]]] else [], i - 1)
  {
    hide Matches;
    var e, d := log[c[i - 1]], c[..i - 1];
    assert c[..i][..i - 1] == d && c[..i][i - 1] == c[i - 1];
    if Matches(e, q) {
      var rest := TakeBack(log, d, q, limit - |matched| - 1);
      assert matched + ([e] + rest) == matched + [e] + rest;
    } else {
      assert matched + [] == matched;
    }
  }

  lemma WalkEnds(log: seq<LogEntry>, c: seq<nat>, q: Wanted, limit: nat, matched: seq<LogEntry>, i: nat)
    requires Walking(log, c, q, limit, matched, i) && (i == 0 || |matched| == limit)
    ensures matched == TakeBack(log, c, q, limit)
  {
    assert matched + [] == matched;
  }

  /** The entries with numbers `c` that match, in order. */
  function FilterAt(log: seq<LogEntry>, c: seq<nat>, q: Wanted): seq<LogEntry>
    requires forall i :: 0 <= i < |c| ==> c[i] < |log|
  {
    if c == [] then []
    else FilterAt(log, c[..|c| - 1], q) + if Matches(log[c[|c| - 1]], q) then [log[c[|c| - 1]]] else []
  }

  /** The backward walk, turned round, is the last `limit` matches. */
  lemma {:induction false} TakeBackIsLast(log: seq<LogEntry>, c: seq<nat>, q: Wanted, limit: nat)
    requires forall i :: 0 <= i < |c| ==> c[i] < |log|
    ensures Reverse(TakeBack(log, c, q, limit)) == LastOf(FilterAt(log, c, q), limit)
    decreases |c|
  {
    if c != [] && limit > 0 {
      hide Reverse, LastOf, Matches;
      var d := c[..|c| - 1];
      var e := log[c[|c| - 1]];
      if Matches(e, q) {
        TakeBackIsLast(log, d, q, limit - 1);
        OneMore(e, TakeBack(log, d, q, limit - 1), FilterAt(log, d, q), limit);
      } else {
        TakeBackIsLast(log, d, q, limit);
        assert FilterAt(log, d, q) + [] == FilterAt(log, d, q);
      }
    }
  }

  lemma OneMore(e: LogEntry, taken: seq<LogEntry>, all: seq<LogEntry>, limit: nat)
    requires limit > 0 && Reverse(taken) == LastOf(all, limit - 1)
    ensures Reverse([e] + taken) == LastOf(all + [e], limit)
  {
    assert ([e] + taken)[1..] == taken;
  }

  /** Keys of the two indices. */
  function TraceKeys(log: seq<LogEntry>): (ks: seq<string>)
    ensures |ks| == |log| && forall i :: 0 <= i < |log| ==> ks[i] == log[i].traceID
  {
    seq(|log|, i requires 0 <= i < |log| => log[i].traceID)
  }

  function ServiceKeys(log: seq<LogEntry>): (ks: seq<string>)
    ensures |ks| == |log| && forall i :: 0 <= i < |log| ==> ks[i] == log[i].service
  {
    seq(|log|, i requires 0 <= i < |log| => log[i].service)
  }

  /** The numbers from `lo` up to `hi`. */
  function UpTo(lo: nat, hi: nat): (c: seq<nat>)
    requires lo <= hi
    ensures |c| == hi - lo && forall i :: 0 <= i < |c| ==> c[i] == lo + i
  {
    seq(hi - lo, i requires 0 <= i < hi - lo => lo + i)
  }

  /** The entries `es` are those with the rising numbers `at`, none of them below `lo`. */
  ghost predicate Positions(log: seq<LogEntry>, lo: nat, at: seq<nat>, es: seq<LogEntry>) {
    && |at| == |es| && (forall i :: 0 <= i < |at| ==> lo <= at[i] < |log| && es[i] == log[at[i]])
    && (forall i, j :: 0 <= i < j < |at| ==> at[i] < at[j])
  }

  /** Filtering keeps exactly the entries that have what is asked for, in their order. */
  lemma FilterExactly(log: seq<LogEntry>, lo: nat, q: Wanted) returns (at: seq<nat>)
    requires lo <= |log|
    ensures Positions(log, lo, at, Filter(log[lo..], q))
    ensures forall n :: lo <= n < |log| ==>
      (n in at <==> && (q.traceID == "" || log[n].traceID == q.traceID)
                    && (q.service == "" || log[n].service == q.service)
                    && (q.level == "" || log[n].level == q.level))
  {
    at := FilterPositions(log, lo, q);
  }

  lemma {:induction false} FilterPositions(log: seq<LogEntry>, lo: nat, q: Wanted) returns (at: seq<nat>)
    requires lo <= |log|
    ensures Positions(log, lo, at, Filter(log[lo..], q))
    ensures forall n :: lo <= n < |log| ==> (n in at <==> Matches(log[n], q))
    decreases |log|
  {
    hide Matches;
    at := [];
    if lo < |log| {
      hide *;
      var last := |log| - 1;
      var before := FilterPositions(log[..last], lo, q);
      at := before + if Matches(log[last], q) then [last] else [];
      OneFiltered(log, lo, before, q);
      OneMember(log, lo, before, q);
    }
  }

  lemma OneFiltered(log: seq<LogEntry>, lo: nat, before: seq<nat>, q: Wanted)
    requires lo < |log| && Positions(log[..|log| - 1], lo, before, Filter(log[..|log| - 1][lo..], q))
    ensures var at := before + if Matches(log[|log| - 1], q) then [|log| - 1] else [];
      Positions(log, lo, at, Filter(log[lo..], q)) && |log| - 1 !in before
  {
    hide *;
    var last := |log| - 1;
    assert log[lo..] == log[..last][lo..] + [log[last]];
    FilterSnoc(log[..last][lo..], log[last], q);
    OnePosition(log, lo, before, Filter(log[..last][lo..], q), Matches(log[last], q));
  }

  lemma OneMember(log: seq<LogEntry>, lo: nat, before: seq<nat>, q: Wanted)
    requires lo < |log| && |log| - 1 !in before
    requires forall n :: lo <= n < |log| - 1 ==> (n in before <==> Matches(log[..|log| - 1][n], q))
    ensures var at := before + if Matches(log[|log| - 1], q) then [|log| - 1] else [];
      forall n :: lo <= n < |log| ==> (n in at <==> Matches(log[n], q))
  {
    hide Matches;
    var last := |log| - 1;
    forall n | lo <= n < last ensures n in before <==> Matches(log[n], q) {
      assert log[..last][n] == log[n];
    }
  }

  /** One more entry, which is one of those looked for or not. */
  lemma OnePosition(log: seq<LogEntry>, lo: nat, at: seq<nat>, es: seq<LogEntry>, found: bool)
    requires lo < |log| && Positions(log[..|log| - 1], lo, at, es)
    ensures found ==> Positions(log, lo, at + [|log| - 1], es + [log[|log| - 1]])
    ensures !found ==> Positions(log, lo, at + [], es + [])
    ensures |log| - 1 !in at
  {
    assert at + [] == at && es + [] == es;
  }

  /** The positions of the last `n` of some elements. */
  lemma LastPositions(log: seq<LogEntry>, lo: nat, all: seq<nat>, es: seq<LogEntry>, n: nat) returns (at: seq<nat>)
    requires n > 0 && Positions(log, lo, all, es)
    ensures Positions(log, lo, at, LastOf(es, n)) && |at| <= n
    ensures forall k :: (if |at| < n then lo else at[0]) <= k < |log| ==> (k in at <==> k in all)
  {
    var first := if |all| <= n then 0 else |all| - n;
    at := all[first..];
    forall k | (if |at| < n then lo else at[0]) <= k < |log| && k in all
      ensures k in at
    {
      var i :| 0 <= i < |all| && all[i] == k;
      assert i >= first;
      assert at[i - first] == k;
    }
  }

  lemma FilterSnoc(es: seq<LogEntry>, e: LogEntry, q: Wanted)
    ensures Filter(es + [e], q) == Filter(es, q) + if Matches(e, q) then [e] else []
  {
    assert (es + [e])[..|es|] == es;
  }

  lemma SliceSnoc(log: seq<LogEntry>, lo: nat, hi: nat)
    requires lo < hi <= |log|
    ensures log[lo..hi] == log[lo..hi - 1] + [log[hi - 1]]
  {
  }

  /** When every match has the key `k`, filtering the entries with that key filters all the live entries. */
  lemma {:induction false} KeyScan(log: seq<LogEntry>, keys: seq<string>, lo: nat, hi: nat, k: string, q: Wanted)
    requires lo <= hi <= |log| == |keys|
    requires forall n :: 0 <= n < |log| && Matches(log[n], q) ==> keys[n] == k
    ensures forall i :: 0 <= i < |Numbers(keys, lo, hi, k)| ==> Numbers(keys, lo, hi, k)[i] < |log|
    ensures FilterAt(log, Numbers(keys, lo, hi, k), q) == Filter(log[lo..hi], q)
    decreases hi
  {
    hide Matches, FilterAt, Filter, Numbers;
    if lo < hi {
      KeyScan(log, keys, lo, hi - 1, k, q);
      assert Matches(log[hi - 1], q) ==> keys[hi - 1] == k;
      KeyScanOn(log, keys, lo, hi, k, q, Numbers(keys, lo, hi - 1, k));
    } else {
      NothingScanned(log, keys, lo, k, q);
    }
  }

  lemma NothingScanned(log: seq<LogEntry>, keys: seq<string>, lo: nat, k: string, q: Wanted)
    requires lo <= |log| == |keys|
    ensures Numbers(keys, lo, lo, k) == [] && FilterAt(log, [], q) == Filter(log[lo..lo], q)
  {
    assert log[lo..lo] == [];
  }

  lemma KeyScanOn(log: seq<LogEntry>, keys: seq<string>, lo: nat, hi: nat, k: string, q: Wanted, d: seq<nat>)
    requires lo < hi <= |log| == |keys| && (Matches(log[hi - 1], q) ==> keys[hi - 1] == k)
    requires d == Numbers(keys, lo, hi - 1, k) && forall i :: 0 <= i < |d| ==> d[i] < |log|
    requires FilterAt(log, d, q) == Filter(log[lo..hi - 1], q)
    ensures forall i :: 0 <= i < |Numbers(keys, lo, hi, k)| ==> Numbers(keys, lo, hi, k)[i] < |log|
    ensures FilterAt(log, Numbers(keys, lo, hi, k), q) == Filter(log[lo..hi], q)
  {
    hide *;
    SliceSnoc(log, lo, hi);
    FilterSnoc(log[lo..hi - 1], log[hi - 1], q);
    NumbersSnoc(keys, lo, hi, k);
    KeyScanStep(log, keys, d, hi - 1, k, q, Numbers(keys, lo, hi, k));
  }

  lemma KeyScanStep(log: seq<LogEntry>, keys: seq<string>, d: seq<nat>, n: nat, k: string, q: Wanted, c: seq<nat>)
    requires n < |log| == |keys| && (Matches(log[n], q) ==> keys[n] == k)
    requires forall i :: 0 <= i < |d| ==> d[i] < |log|
    requires c == d + if keys[n] == k then [n] else []
    ensures forall i :: 0 <= i < |c| ==> c[i] < |log|
    ensures FilterAt(log, c, q) == FilterAt(log, d, q) + if Matches(log[n], q) then [log[n]] else []
  {
    hide Matches;
    assert (d + [n])[..|d|] == d && d + [] == d;
    assert FilterAt(log, d, q) + [] == FilterAt(log, d, q);
  }

  lemma {:induction false} PlainScan(log: seq<LogEntry>, lo: nat, hi: nat, q: Wanted)
    requires lo <= hi <= |log|
    ensures FilterAt(log, UpTo(lo, hi), q) == Filter(log[lo..hi], q)
    decreases hi
  {
    if lo < hi {
      hide *;
      PlainScan(log, lo, hi - 1, q);
      SliceSnoc(log, lo, hi);
      FilterSnoc(log[lo..hi - 1], log[hi - 1], q);
      FilterAtSnoc(log, UpTo(lo, hi - 1), hi - 1, q, UpTo(lo, hi));
    } else {
      assert log[lo..hi] == [] && UpTo(lo, hi) == [];
    }
  }

  lemma FilterAtSnoc(log: seq<LogEntry>, c: seq<nat>, n: nat, q: Wanted, d: seq<nat>)
    requires n < |log| && (forall i :: 0 <= i < |c| ==> c[i] < |log|) && d == c + [n]
    ensures forall i :: 0 <= i < |d| ==> d[i] < |log|
    ensures FilterAt(log, d, q) == FilterAt(log, c, q) + if Matches(log[n], q) then [log[n]] else []
  {
    hide Matches;
    assert (c + [n])[..|c|] == c;
  }
}
