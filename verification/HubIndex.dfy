/**
 * The intrusive indices of hub.go: doubly linked lists threaded through the slots of a ring buffer, one list per key.
 * Entry number `n` of the hub's whole history lives in slot `n % capacity`; the live ones are numbers `[lo, hi)`.
 */
module HubIndex {

  /** Where a key's list begins and ends, and how long it is. */
  datatype IndexSpan = IndexSpan(head: int, tail: int, count: int)

  /** One index: the links of every slot, -1 where there is none, and the span of every key. */
  datatype Index = Index(prev: seq<int>, next: seq<int>, spans: map<string, IndexSpan>)

  /** Appends slot `pos` to the list of `key`. */
  function Link(ix: Index, pos: nat, key: string): (r: Index)
    requires pos < |ix.prev| == |ix.next|
    requires key in ix.spans ==> 0 <= ix.spans[key].tail < |ix.next|
    ensures |r.prev| == |ix.prev| && |r.next| == |ix.next|
  {
    if key !in ix.spans then
      Index(ix.prev[pos := -1], ix.next[pos := -1], ix.spans[key := IndexSpan(pos, pos, 1)])
    else
      var span := ix.spans[key];
      Index(ix.prev[pos := span.tail], ix.next[span.tail := pos][pos := -1],
            ix.spans[key := IndexSpan(span.head, pos, span.count + 1)])
  }

  /** Slot `pos` in no list. */
  function Unlinked(ix: Index, pos: nat): Index
    requires pos < |ix.prev| == |ix.next|
  {
    ix.(prev := ix.prev[pos := -1], next := ix.next[pos := -1])
  }

  /** Both neighbours of slot `pos` are slots, or -1. */
  predicate LinksOk(ix: Index, pos: nat) {
    && pos < |ix.prev| == |ix.next|
    && -1 <= ix.prev[pos] < |ix.next| && -1 <= ix.next[pos] < |ix.prev|
  }

  /** Takes slot `pos`, wherever it stands, out of the list of `key`. */
  function Unlink(ix: Index, pos: nat, key: string): (r: Index)
    requires LinksOk(ix, pos)
    ensures |r.prev| == |ix.prev| && |r.next| == |ix.next|
  {
    if key !in ix.spans then ix
    else
      var span := ix.spans[key];
      if span.count <= 1 || (span.head == pos && span.tail == pos) then
        Index(ix.prev[pos := -1], ix.next[pos := -1], map k | k in ix.spans && k != key :: ix.spans[k])
      else
        var p, n := ix.prev[pos], ix.next[pos];
        var next := if p != -1 then ix.next[p := n] else ix.next;
        var prev := if n != -1 then ix.prev[n := p] else ix.prev;
        var head := if p != -1 then span.head else n;
        var tail := if n != -1 then span.tail else p;
        Index(prev[pos := -1], next[pos := -1], ix.spans[key := IndexSpan(head, tail, span.count - 1)])
  }

  // ----- What a list should be.

  /** The numbers in `[lo, hi)` of the entries with key `k`, in order of ingestion. */
  function Numbers(keys: seq<string>, lo: nat, hi: nat, k: string): (c: seq<nat>)
    requires lo <= hi <= |keys|
    ensures forall i :: 0 <= i < |c| ==> lo <= c[i] < hi
  {
    if lo == hi then []
    else Numbers(keys, lo, hi - 1, k) + if keys[hi - 1] == k then [hi - 1] else []
  }

  function Slots(c: seq<nat>, cap: nat): (s: seq<nat>)
    requires cap > 0
    ensures |s| == |c|
  {
    seq(|c|, i requires 0 <= i < |c| => c[i] % cap)
  }

  /** The links of the `i`th slot of `c` lead to its neighbours in `c`. */
  ghost predicate LinkAt(ix: Index, c: seq<nat>, i: nat) {
    && i < |c| && c[i] < |ix.prev| == |ix.next|
    && ix.next[c[i]] == (if i + 1 < |c| then c[i + 1] else -1)
    && ix.prev[c[i]] == (if i > 0 then c[i - 1] else -1)
  }

  /** Following `next` from the head, or `prev` from the tail, visits exactly the slots `c`, in order. */
  ghost predicate IsList(ix: Index, k: string, c: seq<nat>) {
    && (k in ix.spans <==> c != [])
    && (c != [] ==> ix.spans[k] == IndexSpan(c[0], c[|c| - 1], |c|))
    && forall i: nat :: i < |c| ==> LinkAt(ix, c, i)
  }

  ghost predicate Distinct(c: seq<nat>) {
    forall i, j :: 0 <= i < j < |c| ==> c[i] != c[j]
  }

  ghost predicate Apart(c: seq<nat>, d: seq<nat>) {
    forall i, j :: 0 <= i < |c| && 0 <= j < |d| ==> c[i] != d[j]
  }

  // ----- The list operations, on any list.

  lemma LinkAppends(ix: Index, k: string, c: seq<nat>, pos: nat)
    requires IsList(ix, k, c) && Distinct(c + [pos]) && pos < |ix.prev| == |ix.next|
    ensures c != [] ==> 0 <= ix.spans[k].tail < |ix.next|
    ensures IsList(Link(ix, pos, k), k, c + [pos])
  {
    var d := c + [pos];
    assert c != [] ==> LinkAt(ix, c, |c| - 1);
    forall i: nat | i < |d| ensures LinkAt(Link(ix, pos, k), d, i) {
      assert i < |c| ==> LinkAt(ix, c, i) && d[i] == c[i] && d[i] != d[|c|];
      assert i + 1 < |c| ==> d[i + 1] == c[i + 1] && d[i] != d[|c| - 1];
    }
  }

  lemma LinkSpares(ix: Index, k: string, c: seq<nat>, pos: nat, other: string, d: seq<nat>)
    requires IsList(ix, k, c) && IsList(ix, other, d) && other != k && Apart(d, c + [pos])
    requires pos < |ix.prev| == |ix.next|
    ensures c != [] ==> 0 <= ix.spans[k].tail < |ix.next|
    ensures IsList(Link(ix, pos, k), other, d)
  {
    assert (c + [pos])[|c|] == pos;
    assert c != [] ==> LinkAt(ix, c, |c| - 1) && (c + [pos])[|c| - 1] == c[|c| - 1];
    forall i: nat | i < |d| ensures LinkAt(Link(ix, pos, k), d, i) {
      assert LinkAt(ix, d, i);
    }
  }

  lemma UnlinkNeighbours(ix: Index, k: string, c: seq<nat>, at: nat)
    requires IsList(ix, k, c) && at < |c|
    ensures LinksOk(ix, c[at]) && k in ix.spans && ix.spans[k] == IndexSpan(c[0], c[|c| - 1], |c|)
    ensures ix.prev[c[at]] == (if at > 0 then c[at - 1] else -1)
    ensures ix.next[c[at]] == (if at + 1 < |c| then c[at + 1] else -1)
  {
    assert LinkAt(ix, c, at);
    assert at > 0 ==> LinkAt(ix, c, at - 1);
    assert at + 1 < |c| ==> LinkAt(ix, c, at + 1);
  }

  lemma UnlinkAt(ix: Index, k: string, c: seq<nat>, at: nat, i: nat)
    requires IsList(ix, k, c) && Distinct(c) && at < |c| && i < |c| && i != at && |c| > 1
    requires LinksOk(ix, c[at])
    ensures LinkAt(Unlink(ix, c[at], k), c[..at] + c[at + 1..], if i < at then i else i - 1)
  {
    UnlinkNeighbours(ix, k, c, at);
    assert LinkAt(ix, c, i);
    assert i > 0 ==> LinkAt(ix, c, i - 1);
    assert c[0] != c[|c| - 1] && c[at] != c[i];
    assert at > 0 ==> (c[at - 1] == c[i] <==> i == at - 1);
    assert at + 1 < |c| ==> (c[at + 1] == c[i] <==> i == at + 1);
  }

  /** Taking out any slot of a list, first, last or in the middle, leaves the list of the others. */
  lemma UnlinkRemoves(ix: Index, k: string, c: seq<nat>, at: nat)
    requires IsList(ix, k, c) && Distinct(c) && at < |c|
    ensures LinksOk(ix, c[at])
    ensures IsList(Unlink(ix, c[at], k), k, c[..at] + c[at + 1..])
    ensures var r := Unlink(ix, c[at], k); r.prev[c[at]] == -1 && r.next[c[at]] == -1
  {
    UnlinkNeighbours(ix, k, c, at);
    var d, r := c[..at] + c[at + 1..], Unlink(ix, c[at], k);
    forall i: nat | i < |d| ensures LinkAt(r, d, i) {
      UnlinkAt(ix, k, c, at, if i < at then i else i + 1);
    }
    hide LinkAt, Distinct;
    assert |c| > 1 ==>
        d[0] == (if at == 0 then c[1] else c[0]) && d[|d| - 1] == c[if at == |c| - 1 then |c| - 2 else |c| - 1];
  }

  lemma UnlinkSpares(ix: Index, k: string, c: seq<nat>, at: nat, other: string, d: seq<nat>)
    requires IsList(ix, k, c) && Distinct(c) && at < |c| && IsList(ix, other, d) && other != k && Apart(d, c)
    ensures LinksOk(ix, c[at]) && IsList(Unlink(ix, c[at], k), other, d)
  {
    assert LinkAt(ix, c, at);
    assert at > 0 ==> LinkAt(ix, c, at - 1);
    assert at + 1 < |c| ==> LinkAt(ix, c, at + 1);
    forall i: nat | i < |d| ensures LinkAt(Unlink(ix, c[at], k), d, i) {
      assert LinkAt(ix, d, i);
    }
  }

  // ----- The index invariant.

  lemma {:induction false} NumbersSpec(keys: seq<string>, lo: nat, hi: nat, k: string)
    requires lo <= hi <= |keys|
    ensures forall i :: 0 <= i < |Numbers(keys, lo, hi, k)| ==> lo <= Numbers(keys, lo, hi, k)[i] < hi
    ensures forall i :: 0 <= i < |Numbers(keys, lo, hi, k)| ==> keys[Numbers(keys, lo, hi, k)[i]] == k
    ensures forall i, j :: 0 <= i < j < |Numbers(keys, lo, hi, k)| ==>
              Numbers(keys, lo, hi, k)[i] < Numbers(keys, lo, hi, k)[j]
    ensures forall n :: lo <= n < hi && keys[n] == k ==> n in Numbers(keys, lo, hi, k)
  {
    if lo < hi {
      NumbersSpec(keys, lo, hi - 1, k);
      var c, d := Numbers(keys, lo, hi, k), Numbers(keys, lo, hi - 1, k);
      assert c == d + if keys[hi - 1] == k then [hi - 1] else [];
      forall n | lo <= n < hi && keys[n] == k ensures n in c {
        assert n < hi - 1 ==> n in d;
        assert n == hi - 1 ==> c[|d|] == n;
      }
      forall i | 0 <= i < |c| ensures lo <= c[i] < hi && keys[c[i]] == k {
        assert i < |d| ==> c[i] == d[i];
      }
      forall i, j | 0 <= i < j < |c| ensures c[i] < c[j] {
        assert j < |d| ==> c[i] == d[i] && c[j] == d[j];
        assert j == |d| ==> c[i] == d[i];
      }
    }
  }

  lemma NumbersSnoc(keys: seq<string>, lo: nat, hi: nat, k: string)
    requires lo < hi <= |keys|
    ensures Numbers(keys, lo, hi, k) == Numbers(keys, lo, hi - 1, k) + if keys[hi - 1] == k then [hi - 1] else []
  {
  }

  lemma Regroup(a: seq<nat>, b: seq<nat>, c: seq<nat>)
    ensures a + b + c == a + (b + c)
  {
  }

  /** Dropping the oldest entry drops it from the front of its own list and touches no other. */
  lemma {:induction false} NumbersDrop(keys: seq<string>, lo: nat, hi: nat, k: string)
    requires lo < hi <= |keys|
    ensures Numbers(keys, lo, hi, k) == (if keys[lo] == k then [lo] else []) + Numbers(keys, lo + 1, hi, k)
    decreases hi
  {
    if lo + 1 < hi {
      hide Numbers;
      NumbersDrop(keys, lo, hi - 1, k);
      NumbersSnoc(keys, lo, hi, k);
      NumbersSnoc(keys, lo + 1, hi, k);
      Regroup(if keys[lo] == k then [lo] else [], Numbers(keys, lo + 1, hi - 1, k),
              if keys[hi - 1] == k then [hi - 1] else []);
    } else {
      assert Numbers(keys, lo, lo, k) == [] && Numbers(keys, lo + 1, hi, k) == [];
    }
  }

  lemma {:induction false} NumbersMore(keys: seq<string>, more: seq<string>, lo: nat, hi: nat, k: string)
    requires lo <= hi <= |keys| && keys <= more
    ensures Numbers(more, lo, hi, k) == Numbers(keys, lo, hi, k)
    decreases hi
  {
    if lo < hi {
      NumbersMore(keys, more, lo, hi - 1, k);
    }
  }

  lemma ModInjective(a: nat, b: nat, lo: nat, cap: nat)
    requires cap > 0 && lo <= a < lo + cap && lo <= b < lo + cap && a % cap == b % cap
    ensures a == b
  {
    var q := a / cap - b / cap;
    assert a - b == cap * q;
    assert q >= 1 ==> cap * q >= cap;
    assert q <= -1 ==> cap * -q >= cap;
  }

  /** The list of key `k` threads exactly the live entries with that key, in order of ingestion. */
  ghost predicate Threads(ix: Index, keys: seq<string>, lo: nat, hi: nat, cap: nat, k: string) {
    cap > 0 && lo <= hi <= |keys| && IsList(ix, k, Slots(Numbers(keys, lo, hi, k), cap))
  }

  /** The list of every key but "" threads exactly the live entries with that key, in order of ingestion. */
  ghost predicate IndexOk(ix: Index, keys: seq<string>, lo: nat, hi: nat, cap: nat) {
    && cap > 0 && lo <= hi <= |keys| && hi - lo <= cap && |ix.prev| == cap && |ix.next| == cap
    && "" !in ix.spans
    && forall k: string :: k != "" ==> Threads(ix, keys, lo, hi, cap, k)
  }

  lemma SlotsDistinct(keys: seq<string>, lo: nat, hi: nat, cap: nat, k: string)
    requires cap > 0 && lo <= hi <= |keys| && hi - lo <= cap
    ensures Distinct(Slots(Numbers(keys, lo, hi, k), cap))
  {
    var c := Numbers(keys, lo, hi, k);
    NumbersSpec(keys, lo, hi, k);
    forall i, j | 0 <= i < j < |c| ensures Slots(c, cap)[i] != Slots(c, cap)[j] {
      if c[i] % cap == c[j] % cap {
        ModInjective(c[i], c[j], lo, cap);
      }
    }
  }

  lemma SlotsApart(keys: seq<string>, lo: nat, hi: nat, cap: nat, k: string, other: string)
    requires cap > 0 && lo <= hi <= |keys| && hi - lo <= cap && k != other
    ensures Apart(Slots(Numbers(keys, lo, hi, other), cap), Slots(Numbers(keys, lo, hi, k), cap))
  {
    var c, d := Numbers(keys, lo, hi, other), Numbers(keys, lo, hi, k);
    NumbersSpec(keys, lo, hi, k);
    NumbersSpec(keys, lo, hi, other);
    forall i, j | 0 <= i < |c| && 0 <= j < |d| ensures Slots(c, cap)[i] != Slots(d, cap)[j] {
      if c[i] % cap == d[j] % cap {
        ModInjective(c[i], d[j], lo, cap);
      }
    }
  }

  lemma SlotsMore(keys: seq<string>, lo: nat, hi: nat, cap: nat, key: string, k: string)
    requires cap > 0 && lo <= hi == |keys|
    ensures Slots(Numbers(keys + [key], lo, hi + 1, k), cap)
         == Slots(Numbers(keys, lo, hi, k), cap) + if k == key then [hi % cap] else []
  {
    NumbersMore(keys, keys + [key], lo, hi, k);
  }

  lemma LinkThreads(ix: Index, keys: seq<string>, lo: nat, hi: nat, cap: nat, key: string, k: string)
    requires IndexOk(ix, keys, lo, hi, cap) && hi == |keys| && hi - lo < cap && key != "" && k != ""
    ensures key in ix.spans ==> 0 <= ix.spans[key].tail < cap
    ensures Threads(Link(ix, hi % cap, key), keys + [key], lo, hi + 1, cap, k)
  {
    hide Numbers, Slots, Link, LinkAt, Distinct, Apart;
    var c := Slots(Numbers(keys, lo, hi, key), cap);
    assert Threads(ix, keys, lo, hi, cap, key) && Threads(ix, keys, lo, hi, cap, k);
    SlotsMore(keys, lo, hi, cap, key, key);
    SlotsMore(keys, lo, hi, cap, key, k);
    SlotsDistinct(keys + [key], lo, hi + 1, cap, key);
    LinkAppends(ix, key, c, hi % cap);
    if k != key {
      SlotsApart(keys + [key], lo, hi + 1, cap, key, k);
      assert Slots(Numbers(keys + [key], lo, hi + 1, k), cap) == Slots(Numbers(keys, lo, hi, k), cap);
      LinkSpares(ix, key, c, hi % cap, k, Slots(Numbers(keys, lo, hi, k), cap));
    }
  }

  /** Ingesting an entry with key `key` into a ring with room. */
  lemma LinkKeepsIndex(ix: Index, keys: seq<string>, lo: nat, hi: nat, cap: nat, key: string)
    requires IndexOk(ix, keys, lo, hi, cap) && hi == |keys| && hi - lo < cap
    ensures key == "" ==> IndexOk(ix, keys + [key], lo, hi + 1, cap)
    ensures key in ix.spans ==> 0 <= ix.spans[key].tail < cap
    ensures key != "" ==> IndexOk(Link(ix, hi % cap, key), keys + [key], lo, hi + 1, cap)
  {
    var more, up := keys + [key], hi + 1;
    if key == "" {
      forall k: string | k != "" ensures Threads(ix, more, lo, up, cap, k) {
        assert Threads(ix, keys, lo, hi, cap, k);
        SlotsMore(keys, lo, hi, cap, key, k);
        assert Slots(Numbers(more, lo, up, k), cap) == Slots(Numbers(keys, lo, hi, k), cap);
      }
    } else {
      LinkThreads(ix, keys, lo, hi, cap, key, key);
      var r := Link(ix, hi % cap, key);
      forall k: string | k != "" ensures Threads(r, more, lo, up, cap, k) {
        LinkThreads(ix, keys, lo, hi, cap, key, k);
      }
    }
  }

  lemma SlotsDrop(keys: seq<string>, lo: nat, hi: nat, cap: nat, k: string)
    requires cap > 0 && lo < hi <= |keys|
    ensures Slots(Numbers(keys, lo, hi, k), cap)
         == (if keys[lo] == k then [lo % cap] else []) + Slots(Numbers(keys, lo + 1, hi, k), cap)
  {
    NumbersDrop(keys, lo, hi, k);
  }

  lemma UnlinkThreads(ix: Index, keys: seq<string>, lo: nat, hi: nat, cap: nat, k: string)
    requires IndexOk(ix, keys, lo, hi, cap) && lo < hi && keys[lo] != "" && k != ""
    ensures LinksOk(ix, lo % cap) && Threads(Unlink(ix, lo % cap, keys[lo]), keys, lo + 1, hi, cap, k)
  {
    var key := keys[lo];
    var c := Slots(Numbers(keys, lo, hi, key), cap);
    assert Threads(ix, keys, lo, hi, cap, key) && Threads(ix, keys, lo, hi, cap, k);
    SlotsDrop(keys, lo, hi, cap, key);
    SlotsDrop(keys, lo, hi, cap, k);
    SlotsDistinct(keys, lo, hi, cap, key);
    UnlinkRemoves(ix, key, c, 0);
    assert c[..0] + c[1..] == Slots(Numbers(keys, lo + 1, hi, key), cap);
    if k != key {
      SlotsApart(keys, lo, hi, cap, key, k);
      UnlinkSpares(ix, key, c, 0, k, Slots(Numbers(keys, lo, hi, k), cap));
      assert Slots(Numbers(keys, lo, hi, k), cap) == Slots(Numbers(keys, lo + 1, hi, k), cap);
    }
  }

  /** Evicting the oldest entry. */
  lemma UnlinkKeepsIndex(ix: Index, keys: seq<string>, lo: nat, hi: nat, cap: nat)
    requires IndexOk(ix, keys, lo, hi, cap) && lo < hi
    ensures keys[lo] == "" ==> IndexOk(ix, keys, lo + 1, hi, cap)
    ensures keys[lo] != "" ==> LinksOk(ix, lo % cap) && IndexOk(Unlink(ix, lo % cap, keys[lo]), keys, lo + 1, hi, cap)
  {
    var up := lo + 1;
    if keys[lo] == "" {
      forall k: string | k != "" ensures Threads(ix, keys, up, hi, cap, k) {
        assert Threads(ix, keys, lo, hi, cap, k);
        SlotsDrop(keys, lo, hi, cap, k);
        assert Slots(Numbers(keys, lo, hi, k), cap) == Slots(Numbers(keys, lo + 1, hi, k), cap);
      }
    } else {
      UnlinkThreads(ix, keys, lo, hi, cap, keys[lo]);
      var r := Unlink(ix, lo % cap, keys[lo]);
      forall k: string | k != "" ensures Threads(r, keys, up, hi, cap, k) {
        UnlinkThreads(ix, keys, lo, hi, cap, k);
      }
    }
  }

  /** The keys of the index are exactly the non-empty keys of the live entries. */
  lemma IndexKeys(ix: Index, keys: seq<string>, lo: nat, hi: nat, cap: nat, k: string)
    requires IndexOk(ix, keys, lo, hi, cap)
    ensures k in ix.spans <==> k != "" && exists n :: lo <= n < hi && keys[n] == k
  {
    NumbersSpec(keys, lo, hi, k);
    var c := Numbers(keys, lo, hi, k);
    if k != "" {
      assert Threads(ix, keys, lo, hi, cap, k);
      if c != [] {
        assert lo <= c[0] < hi && keys[c[0]] == k;
      }
    }
  }
}
