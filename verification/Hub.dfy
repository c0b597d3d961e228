/**
 * MemoryLogHub of hub.go: a ring buffer of log entries with an index by trace and one by service threaded through it.
 */
module Hub {
  import opened Bytes
  import opened Results
  import opened HubIndex
  import opened HubQuery

  const DEFAULT_CAPACITY := 50000

  datatype SlotLinks = SlotLinks(prevTrace: int, nextTrace: int, prevService: int, nextService: int)

  datatype LogQuery = LogQuery(traceID: string, service: string, level: string, limit: int)

  /** The text functions of Go's library, which the hub only applies. */
  datatype Texts = Texts(trim: string -> string, lower: string -> string, upper: string -> string)

  /** An entry as the hub stores it. */
  function Normal(e: LogEntry, texts: Texts, nextID: nat, now: int): (r: LogEntry) {
    var service := if e.service == "" then e.topic else e.service;
    var topic := if e.topic == "" then service else e.topic;
    var level := texts.upper(texts.trim(e.level));
    LogEntry(if e.id == 0 then nextID else e.id, if e.timestamp == 0 then now else e.timestamp, topic,
             texts.lower(texts.trim(service)), texts.trim(e.traceID), if level == "" then "INFO" else level, e.payload)
  }

  function WantedBy(q: LogQuery, texts: Texts): Wanted {
    Wanted(texts.trim(q.traceID), texts.lower(texts.trim(q.service)), texts.upper(texts.trim(q.level)))
  }

  /** A limit that is not positive stands for 100, and no query returns more than 10000 entries. */
  function LimitOf(limit: int): (n: nat)
    ensures 1 <= n <= 10000
  {
    if limit <= 0 then 100 else if limit > 10000 then 10000 else limit
  }

  /** Moving a ring position on by `d`. */
  lemma RingStep(n: nat, d: nat, cap: nat)
    requires cap > 0
    ensures (n % cap + d) % cap == (n + d) % cap
  {
    var q, r := n / cap, n % cap;
    assert n + d == cap * q + (r + d);
    ModShift(r + d, q, cap);
  }

  lemma ModShift(x: nat, q: nat, cap: nat)
    requires cap > 0
    ensures (cap * q + x) % cap == x % cap
  {
    var a, b := x / cap, x % cap;
    assert cap * q + x == cap * (q + a) + b;
    ModUnique(cap * q + x, cap, q + a, b);
  }

  lemma ModUnique(v: nat, d: nat, q: nat, r: nat)
    requires d > 0 && v == d * q + r && r < d
    ensures v % d == r
  {
    var e := q - v / d;
    assert d * e == v % d - r;
    assert e >= 1 ==> d * e >= d;
    assert e <= -1 ==> d * -e >= d;
  }

  /** A full ring starts where the next entry goes. */
  lemma FullRing(lo: nat, hi: nat, cap: nat)
    requires cap > 0 && hi == lo + cap
    ensures hi % cap == lo % cap
  {
    ModShift(lo, 1, cap);
  }

  /** No other live entry sits in the slot of the oldest one. */
  lemma SlotsOfOthers(lo: nat, hi: nat, cap: nat)
    requires cap > 0 && hi <= lo + cap
    ensures forall n :: lo < n < hi ==> n % cap != lo % cap
  {
    forall n | lo < n < hi ensures n % cap != lo % cap {
      if n % cap == lo % cap {
        ModInjective(n, lo, lo, cap);
      }
    }
  }

  /** No live entry sits in the slot that the next one gets. */
  lemma PosIsFree(lo: nat, hi: nat, cap: nat)
    requires cap > 0 && lo <= hi < lo + cap
    ensures forall n :: lo <= n < hi ==> n % cap != hi % cap
  {
    forall n | lo <= n < hi ensures n % cap != hi % cap {
      if n % cap == hi % cap {
        ModInjective(n, hi, lo, cap);
      }
    }
  }

  class MemoryLogHub {
    const capacity: nat
    const texts: Texts
    var head: nat
    var count: nat
    var seqID: nat
    var totalIngested: nat
    const entries: array<Option<LogEntry>>
    const links: array<SlotLinks>
    var byTraceID: map<string, IndexSpan>
    var byService: map<string, IndexSpan>
    var closed: bool
    ghost var log: seq<LogEntry>   // every entry ever ingested, as stored

    /** The trace index, and the service index, as lists. */
    ghost function TraceIndex(): Index
      reads `byTraceID, links
    {
      Index(seq(links.Length, i requires 0 <= i < links.Length reads links => links[i].prevTrace),
            seq(links.Length, i requires 0 <= i < links.Length reads links => links[i].nextTrace), byTraceID)
    }

    ghost function ServiceIndex(): Index
      reads `byService, links
    {
      Index(seq(links.Length, i requires 0 <= i < links.Length reads links => links[i].prevService),
            seq(links.Length, i requires 0 <= i < links.Length reads links => links[i].nextService), byService)
    }

    /** The numbers of the live entries run from `Low()` to the end of the history. */
    ghost function Low(): int
      reads `count, `log
    {
      |log| - count
    }

    /** The slots and the two indices hold exactly the entries numbered `[lo, |log|)`. */
    ghost predicate Window(lo: nat)
      reads `log, `byTraceID, `byService, entries, links
    {
      && capacity > 0 && entries.Length == links.Length == capacity && lo <= |log| <= lo + capacity
      && (forall n :: lo <= n < |log| ==> entries[n % capacity] == Some(log[n]))
      && IndexOk(TraceIndex(), TraceKeys(log), lo, |log|, capacity)
      && IndexOk(ServiceIndex(), ServiceKeys(log), lo, |log|, capacity)
    }

    ghost predicate Valid()
      reads this, entries, links
    {
      RingOk() && totalIngested == |log|
    }

    ghost predicate RingOk()
      reads `head, `count, `log, `byTraceID, `byService, entries, links
    {
      && capacity > 0 && count == (if |log| < capacity then |log| else capacity)
      && head == Low() % capacity && Window(Low())
    }

    /** The live entries, oldest first: the last `capacity` of the history. */
    ghost function Live(): seq<LogEntry>
      reads `log
    {
      LastOf(log, capacity)
    }

    constructor (capacity: int, texts: Texts)
      ensures Valid() && fresh(entries) && fresh(links) && log == [] && !closed
      ensures this.capacity == (if capacity <= 0 then 50000 else capacity) && this.texts == texts
    {
      var cap: nat := if capacity <= 0 then DEFAULT_CAPACITY else capacity;
      this.capacity, this.texts := cap, texts;
      entries := new Option<LogEntry>[cap](i => None);
      links := new SlotLinks[cap](i => SlotLinks(-1, -1, -1, -1));
      head, count, seqID, totalIngested, byTraceID, byService, closed, log := 0, 0, 0, 0, map[], map[], false, [];
      new;
      EmptyIndex(TraceIndex(), this.capacity);
      EmptyIndex(ServiceIndex(), this.capacity);
    }

    // ----- List surgery.

    method LinkTrace(pos: nat, traceID: string)
      requires pos < links.Length && (traceID in byTraceID ==> 0 <= byTraceID[traceID].tail < links.Length)
      modifies `byTraceID, links
      ensures traceID != "" ==> TraceIndex() == Link(old(TraceIndex()), pos, traceID)
      ensures traceID == "" ==> TraceIndex() == Unlinked(old(TraceIndex()), pos)
      ensures ServiceIndex() == old(ServiceIndex())
    {
      if traceID == "" {
        links[pos] := links[pos].(prevTrace := -1, nextTrace := -1);
        return;
      }
      if traceID !in byTraceID {
        links[pos] := links[pos].(prevTrace := -1, nextTrace := -1);
        byTraceID := byTraceID[traceID := IndexSpan(pos, pos, 1)];
        return;
      }
      var span := byTraceID[traceID];
      var oldTail := span.tail;
      links[oldTail] := links[oldTail].(nextTrace := pos);
      links[pos] := links[pos].(prevTrace := oldTail);
      links[pos] := links[pos].(nextTrace := -1);
      byTraceID := byTraceID[traceID := IndexSpan(span.head, pos, span.count + 1)];
    }

    method LinkService(pos: nat, service: string)
      requires pos < links.Length && (service in byService ==> 0 <= byService[service].tail < links.Length)
      modifies `byService, links
      ensures service != "" ==> ServiceIndex() == Link(old(ServiceIndex()), pos, service)
      ensures service == "" ==> ServiceIndex() == Unlinked(old(ServiceIndex()), pos)
      ensures TraceIndex() == old(TraceIndex())
    {
      if service == "" {
        links[pos] := links[pos].(prevService := -1, nextService := -1);
        return;
      }
      if service !in byService {
        links[pos] := links[pos].(prevService := -1, nextService := -1);
        byService := byService[service := IndexSpan(pos, pos, 1)];
        return;
      }
      var span := byService[service];
      var oldTail := span.tail;
      links[oldTail] := links[oldTail].(nextService := pos);
      links[pos] := links[pos].(prevService := oldTail);
      links[pos] := links[pos].(nextService := -1);
      byService := byService[service := IndexSpan(span.head, pos, span.count + 1)];
    }

    method UnlinkTrace(pos: nat, traceID: string)
      requires traceID != "" ==> LinksOk(TraceIndex(), pos)
      modifies `byTraceID, links
      ensures traceID != "" ==> TraceIndex() == Unlink(old(TraceIndex()), pos, traceID)
      ensures traceID == "" ==> TraceIndex() == old(TraceIndex())
      ensures ServiceIndex() == old(ServiceIndex())
    {
      if traceID == "" {
        return;
      }
      if traceID !in byTraceID {
        return;
      }
      var span := byTraceID[traceID];
      if span.count <= 1 || (span.head == pos && span.tail == pos) {
        byTraceID := map k | k in byTraceID && k != traceID :: byTraceID[k];
        links[pos] := links[pos].(prevTrace := -1, nextTrace := -1);
        return;
      }
      BypassTrace(pos, traceID, span);
    }

    /** The rest of UnlinkTrace: the neighbours of the slot are joined. */
    method BypassTrace(pos: nat, traceID: string, span: IndexSpan)
      requires LinksOk(TraceIndex(), pos) && traceID in byTraceID && span == byTraceID[traceID]
      requires !(span.count <= 1 || (span.head == pos && span.tail == pos))
      modifies `byTraceID, links
      ensures TraceIndex() == Unlink(old(TraceIndex()), pos, traceID)
      ensures ServiceIndex() == old(ServiceIndex())
    {
      var prev := links[pos].prevTrace;
      var next := links[pos].nextTrace;
      var first, last := span.head, span.tail;
      if prev != -1 {
        links[prev] := links[prev].(nextTrace := next);
      } else {
        first := next;
      }
      if next != -1 {
        links[next] := links[next].(prevTrace := prev);
      } else {
        last := prev;
      }
      byTraceID := byTraceID[traceID := IndexSpan(first, last, span.count - 1)];
      links[pos] := links[pos].(prevTrace := -1, nextTrace := -1);
    }

    method UnlinkService(pos: nat, service: string)
      requires service != "" ==> LinksOk(ServiceIndex(), pos)
      modifies `byService, links
      ensures service != "" ==> ServiceIndex() == Unlink(old(ServiceIndex()), pos, service)
      ensures service == "" ==> ServiceIndex() == old(ServiceIndex())
      ensures TraceIndex() == old(TraceIndex())
    {
      if service == "" {
        return;
      }
      if service !in byService {
        return;
      }
      var span := byService[service];
      if span.count <= 1 || (span.head == pos && span.tail == pos) {
        byService := map k | k in byService && k != service :: byService[k];
        links[pos] := links[pos].(prevService := -1, nextService := -1);
        return;
      }
      BypassService(pos, service, span);
    }

    /** The rest of UnlinkService: the neighbours of the slot are joined. */
    method BypassService(pos: nat, service: string, span: IndexSpan)
      requires LinksOk(ServiceIndex(), pos) && service in byService && span == byService[service]
      requires !(span.count <= 1 || (span.head == pos && span.tail == pos))
      modifies `byService, links
      ensures ServiceIndex() == Unlink(old(ServiceIndex()), pos, service)
      ensures TraceIndex() == old(TraceIndex())
    {
      var prev := links[pos].prevService;
      var next := links[pos].nextService;
      var first, last := span.head, span.tail;
      if prev != -1 {
        links[prev] := links[prev].(nextService := next);
      } else {
        first := next;
      }
      if next != -1 {
        links[next] := links[next].(prevService := prev);
      } else {
        last := prev;
      }
      byService := byService[service := IndexSpan(first, last, span.count - 1)];
      links[pos] := links[pos].(prevService := -1, nextService := -1);
    }

    // ----- Ingest.

    /** Takes the oldest entry out of its slot and out of the two lists. */
    method ClearOldest(pos: nat, ghost lo: nat)
      requires Window(lo) && lo < |log| && pos == lo % capacity
      modifies `byTraceID, `byService, entries, links
      ensures Window(lo + 1) && entries[pos] == None
    {
      hide IndexOk, TraceKeys, ServiceKeys;
      var oldItem := entries[pos];
      assert oldItem == Some(log[lo]);
      assert TraceKeys(log)[lo] == log[lo].traceID && ServiceKeys(log)[lo] == log[lo].service;
      SlotsOfOthers(lo, |log|, capacity);
      entries[pos] := None;
      UnlinkKeepsIndex(TraceIndex(), TraceKeys(log), lo, |log|, capacity);
      UnlinkKeepsIndex(ServiceIndex(), ServiceKeys(log), lo, |log|, capacity);
      if oldItem.Some? && oldItem.value.traceID != "" {
        UnlinkTrace(pos, oldItem.value.traceID);
      }
      if oldItem.Some? && oldItem.value.service != "" {
        UnlinkService(pos, oldItem.value.service);
      }
    }

    /** Threads the entry that has been put into slot `pos` onto the ends of its two lists. */
    method LinkItem(pos: nat, item: LogEntry, ghost lo: nat)
      requires Window(lo) && |log| < lo + capacity && pos == |log| % capacity
      modifies `byTraceID, `byService, `log, links
      ensures log == old(log) + [item] && (entries[pos] == Some(item) ==> Window(lo))
    {
      hide IndexOk, TraceKeys, ServiceKeys;
      ghost var hi := |log|;
      LinkKeepsIndex(TraceIndex(), TraceKeys(log), lo, hi, capacity, item.traceID);
      LinkKeepsIndex(ServiceIndex(), ServiceKeys(log), lo, hi, capacity, item.service);
      assert TraceKeys(log + [item]) == TraceKeys(log) + [item.traceID];
      assert ServiceKeys(log + [item]) == ServiceKeys(log) + [item.service];
      if item.traceID != "" {
        LinkTrace(pos, item.traceID);
      }
      if item.service != "" {
        LinkService(pos, item.service);
      }
      log := log + [item];
    }

    method PutEntry(pos: nat, item: LogEntry, ghost lo: nat)
      requires Window(lo) && |log| < lo + capacity && pos == |log| % capacity
      modifies entries
      ensures Window(lo) && entries[pos] == Some(item)
    {
      hide IndexOk, TraceIndex, ServiceIndex;
      PosIsFree(lo, |log|, capacity);
      entries[pos] := Some(item);
    }

    /** Finds a slot for the entry and puts it there, in place of the oldest one when the ring is full. */
    method Place(item: LogEntry) returns (pos: nat, ghost lo: nat)
      requires RingOk()
      modifies `head, `count, `byTraceID, `byService, entries, links
      ensures capacity > 0 && Window(lo) && |log| < lo + capacity && pos == |log| % capacity
              && entries[pos] == Some(item)
      ensures lo == |log| + 1 - count && head == lo % capacity
      ensures count == if |log| + 1 < capacity then |log| + 1 else capacity
    {
      hide IndexOk, TraceIndex, ServiceIndex, Window;
      WindowShape(Low());
      lo := Low();
      if count == capacity {
        pos := head;
        ClearOldest(pos, lo);
        FullRing(lo, |log|, capacity);
        RingStep(lo, 1, capacity);
        lo := lo + 1;
        PutEntry(pos, item, lo);
        head := (head + 1) % capacity;
      } else {
        pos := (head + count) % capacity;
        RingStep(lo, count, capacity);
        PutEntry(pos, item, lo);
        count := count + 1;
      }
    }

    lemma WindowShape(lo: nat)
      requires Window(lo)
      ensures capacity > 0 && entries.Length == links.Length == capacity && lo <= |log| <= lo + capacity
    {
    }

    /** Stores the entry, in place of the oldest one when the ring is full. */
    method Ingest(entry: LogEntry, now: int) returns (err: Option<Error>)
      requires Valid()
      modifies `head, `count, `seqID, `totalIngested, `byTraceID, `byService, `log, entries, links
      ensures Valid()
      ensures err == if entry.topic == "" && entry.service == "" then Some(PreconditionViolated)
                     else if closed then Some(HubClosed) else None
      ensures err != None ==> log == old(log) && seqID == old(seqID) && totalIngested == old(totalIngested)
      ensures err == None ==> log == old(log) + [Normal(entry, texts, old(seqID) + 1, now)]
                              && seqID == old(seqID) + if entry.id == 0 then 1 else 0
      ensures err == None ==> var stored := log[|old(log)|];
        && stored.payload == entry.payload && stored.topic in {entry.topic, entry.service} - {""}
        && (if entry.topic != "" then stored.topic == entry.topic
            else stored.service == texts.lower(texts.trim(stored.topic)))
        && (if entry.id != 0 then stored.id == entry.id else stored.id == seqID > old(seqID))
        && (if entry.timestamp != 0 then stored.timestamp == entry.timestamp else stored.timestamp == now)
        && (entry.service != "" ==> stored.service == texts.lower(texts.trim(entry.service)))
        && stored.traceID == texts.trim(entry.traceID)
        && stored.level == var level := texts.upper(texts.trim(entry.level)); if level == "" then "INFO" else level
    {
      hide Window;
      if entry.topic == "" && entry.service == "" {
        return Some(PreconditionViolated);
      }
      if closed {
        return Some(HubClosed);
      }
      var item := Normal(entry, texts, seqID + 1, now);
      if entry.id == 0 {
        seqID := seqID + 1;
      }
      totalIngested := totalIngested + 1;
      var pos;
      ghost var lo;
      pos, lo := Place(item);
      LinkItem(pos, item, lo);
      return None;
    }

    // ----- Queries.

    /** The numbers of the live entries of a trace. */
    ghost function TraceNumbers(k: string): (c: seq<nat>)
      requires 0 <= Low() <= |log|
      reads `count, `log
      ensures forall i :: 0 <= i < |c| ==> Low() <= c[i] < |log|
    {
      Numbers(TraceKeys(log), Low(), |log|, k)
    }

    ghost function ServiceNumbers(k: string): (c: seq<nat>)
      requires 0 <= Low() <= |log|
      reads `count, `log
      ensures forall i :: 0 <= i < |c| ==> Low() <= c[i] < |log|
    {
      Numbers(ServiceKeys(log), Low(), |log|, k)
    }

    lemma TraceListed(k: string)
      requires Valid() && k != ""
      ensures k in byTraceID <==> TraceNumbers(k) != []
      ensures var c := TraceNumbers(k);
        && (c != [] ==> byTraceID[k].tail == c[|c| - 1] % capacity && byTraceID[k].count == |c|)
        && forall i {:trigger c[i]} :: 0 <= i < |c| ==>
             && c[i] % capacity < links.Length && entries[c[i] % capacity] == Some(log[c[i]])
             && links[c[i] % capacity].prevTrace == (if i > 0 then c[i - 1] % capacity else -1)
             && log[c[i]].traceID == k
    {
      var c := TraceNumbers(k);
      assert Threads(TraceIndex(), TraceKeys(log), Low(), |log|, capacity, k);
      NumbersSpec(TraceKeys(log), Low(), |log|, k);
      var s := Slots(c, capacity);
      forall i {:trigger c[i]} | 0 <= i < |c|
        ensures links[c[i] % capacity].prevTrace == (if i > 0 then c[i - 1] % capacity else -1)
      {
        assert LinkAt(TraceIndex(), s, i);
        assert TraceIndex().prev[s[i]] == links[s[i]].prevTrace;
      }
    }

    lemma ServiceListed(k: string)
      requires Valid() && k != ""
      ensures k in byService <==> ServiceNumbers(k) != []
      ensures var c := ServiceNumbers(k);
        && (c != [] ==> byService[k].tail == c[|c| - 1] % capacity && byService[k].count == |c|)
        && forall i {:trigger c[i]} :: 0 <= i < |c| ==>
             && c[i] % capacity < links.Length && entries[c[i] % capacity] == Some(log[c[i]])
             && links[c[i] % capacity].prevService == (if i > 0 then c[i - 1] % capacity else -1)
             && log[c[i]].service == k
    {
      var c := ServiceNumbers(k);
      assert Threads(ServiceIndex(), ServiceKeys(log), Low(), |log|, capacity, k);
      NumbersSpec(ServiceKeys(log), Low(), |log|, k);
      var s := Slots(c, capacity);
      forall i {:trigger c[i]} | 0 <= i < |c|
        ensures links[c[i] % capacity].prevService == (if i > 0 then c[i - 1] % capacity else -1)
      {
        assert LinkAt(ServiceIndex(), s, i);
        assert ServiceIndex().prev[s[i]] == links[s[i]].prevService;
      }
    }

    lemma InBounds()
      requires Valid()
      ensures capacity > 0 && entries.Length == links.Length == capacity && 0 <= Low() <= |log| && count <= capacity
    {
    }

    /** Walks the list of a trace backwards, newest first. */
    method WalkTrace(q: Wanted, limit: nat) returns (matched: seq<LogEntry>)
      requires Valid() && q.traceID != "" && q.traceID in byTraceID
      ensures matched == TakeBack(log, TraceNumbers(q.traceID), q, limit)
    {
      hide Valid, Walking, TakeBack;
      InBounds();
      ghost var c := TraceNumbers(q.traceID);
      TraceListed(q.traceID);
      WalkStarts(log, c, q, limit);
      matched := [];
      var curr := byTraceID[q.traceID].tail;
      ghost var i := |c|;
      while curr != -1 && |matched| < limit
        invariant 0 <= i <= |c| && curr == (if i > 0 then c[i - 1] % capacity else -1)
        invariant |matched| <= limit && Walking(log, c, q, limit, matched, i)
        decreases i
      {
        WalkSteps(log, c, q, limit, matched, i);
        assert c[i - 1] % capacity < links.Length;
        var item := entries[curr];
        if item.Some?
           && (q.service == "" || item.value.service == q.service)
           && (q.level == "" || item.value.level == q.level) {
          matched := matched + [item.value];
        } else {
          assert matched + [] == matched;
        }
        curr := links[curr].prevTrace;
        i := i - 1;
      }
      WalkEnds(log, c, q, limit, matched, i);
    }

    /** Walks the list of a service backwards, newest first. */
    method WalkService(q: Wanted, limit: nat) returns (matched: seq<LogEntry>)
      requires Valid() && q.traceID == "" && q.service != "" && q.service in byService
      ensures matched == TakeBack(log, ServiceNumbers(q.service), q, limit)
    {
      hide Valid, Walking, TakeBack;
      InBounds();
      ghost var c := ServiceNumbers(q.service);
      ServiceListed(q.service);
      WalkStarts(log, c, q, limit);
      matched := [];
      var curr := byService[q.service].tail;
      ghost var i := |c|;
      while curr != -1 && |matched| < limit
        invariant 0 <= i <= |c| && curr == (if i > 0 then c[i - 1] % capacity else -1)
        invariant |matched| <= limit && Walking(log, c, q, limit, matched, i)
        decreases i
      {
        WalkSteps(log, c, q, limit, matched, i);
        assert c[i - 1] % capacity < links.Length;
        var item := entries[curr];
        if item.Some?
           && (q.level == "" || item.value.level == q.level) {
          matched := matched + [item.value];
        } else {
          assert matched + [] == matched;
        }
        curr := links[curr].prevService;
        i := i - 1;
      }
      WalkEnds(log, c, q, limit, matched, i);
    }

    /** Goes back through the ring itself, newest first. */
    method WalkRing(q: Wanted, limit: nat) returns (matched: seq<LogEntry>)
      requires Valid() && q.traceID == "" && q.service == ""
      ensures 0 <= Low() <= |log| && matched == TakeBack(log, UpTo(Low(), |log|), q, limit)
    {
      hide Valid, Walking, TakeBack;
      InBounds();
      ghost var c := UpTo(Low(), |log|);
      WalkStarts(log, c, q, limit);
      matched := [];
      var i := 0;
      while i < count && |matched| < limit
        invariant 0 <= i <= count
        invariant |matched| <= limit && Walking(log, c, q, limit, matched, |c| - i)
      {
        WalkSteps(log, c, q, limit, matched, |c| - i);
        var idx := (head + count - 1 - i + capacity) % capacity;
        RingSlot(i);
        var item := entries[idx];
        if item.Some? && (q.level == "" || item.value.level == q.level) {
          matched := matched + [item.value];
        } else {
          assert matched + [] == matched;
        }
        i := i + 1;
      }
      WalkEnds(log, c, q, limit, matched, |c| - i);
    }

    /** The `i`th entry from the newest sits in the slot that the walk computes. */
    lemma RingSlot(i: nat)
      requires Valid() && i < count
      ensures capacity > 0 && entries.Length == capacity && 0 <= |log| - 1 - i
      ensures var idx := (head + count - 1 - i + capacity) % capacity;
        idx == (|log| - 1 - i) % capacity && entries[idx] == Some(log[|log| - 1 - i])
    {
      RingStep(Low(), count - 1 - i + capacity, capacity);
      ModShift(|log| - 1 - i, 1, capacity);
    }

    /** What both list walks and the ring walk must find: the last matches among the live entries, newest first. */
    ghost predicate Answers(matched: seq<LogEntry>, q: Wanted, limit: nat)
      reads `log
    {
      Reverse(matched) == LastOf(Filter(Live(), q), limit)
    }

    method QueryTrace(q: Wanted, limit: nat) returns (matched: seq<LogEntry>)
      requires Valid() && q.traceID != ""
      ensures Answers(matched, q, limit)
    {
      hide Valid, TakeBack, Filter, FilterAt, Reverse, LastOf, Live, TraceNumbers;
      InBounds();
      LiveIsWindow();
      TraceListed(q.traceID);
      ghost var c := TraceNumbers(q.traceID);
      TraceAnswer(q, limit);
      if q.traceID !in byTraceID {
        NothingListed(log, c, q, limit);
        return [];
      }
      var allocCap := if byTraceID[q.traceID].count < limit then byTraceID[q.traceID].count else limit;
      matched := WalkTrace(q, limit);
      assert |matched| <= allocCap;
    }

    lemma TraceAnswer(q: Wanted, limit: nat)
      requires Valid() && q.traceID != "" && 0 <= Low() <= |log|
      ensures Answers(TakeBack(log, TraceNumbers(q.traceID), q, limit), q, limit)
    {
      hide Valid, TakeBack, Filter, FilterAt, Reverse, LastOf;
      LiveIsWindow();
      KeyScan(log, TraceKeys(log), Low(), |log|, q.traceID, q);
      TakeBackIsLast(log, TraceNumbers(q.traceID), q, limit);
    }

    method QueryService(q: Wanted, limit: nat) returns (matched: seq<LogEntry>)
      requires Valid() && q.traceID == "" && q.service != ""
      ensures Answers(matched, q, limit)
    {
      hide Valid, TakeBack, Filter, FilterAt, Reverse, LastOf, Live, ServiceNumbers;
      InBounds();
      LiveIsWindow();
      ServiceListed(q.service);
      ghost var c := ServiceNumbers(q.service);
      ServiceAnswer(q, limit);
      if q.service !in byService {
        NothingListed(log, c, q, limit);
        return [];
      }
      var allocCap := if byService[q.service].count < limit then byService[q.service].count else limit;
      matched := WalkService(q, limit);
      assert |matched| <= allocCap;
    }

    lemma ServiceAnswer(q: Wanted, limit: nat)
      requires Valid() && q.service != "" && 0 <= Low() <= |log|
      ensures Answers(TakeBack(log, ServiceNumbers(q.service), q, limit), q, limit)
    {
      hide Valid, TakeBack, Filter, FilterAt, Reverse, LastOf;
      LiveIsWindow();
      KeyScan(log, ServiceKeys(log), Low(), |log|, q.service, q);
      TakeBackIsLast(log, ServiceNumbers(q.service), q, limit);
    }

    method QueryRing(q: Wanted, limit: nat) returns (matched: seq<LogEntry>)
      requires Valid() && q.traceID == "" && q.service == ""
      ensures Answers(matched, q, limit)
    {
      hide Valid, TakeBack, Filter, FilterAt, Reverse, LastOf, Live;
      InBounds();
      LiveIsWindow();
      PlainScan(log, Low(), |log|, q);
      TakeBackIsLast(log, UpTo(Low(), |log|), q, limit);
      var allocCap := if count < limit then count else limit;
      matched := WalkRing(q, limit);
      assert |matched| <= allocCap;
    }

    /**
     * The answer to a query is the last matches, up to the limit, of a plain scan of the live entries: entry `i` of the
     * answer is number `at[i]` of the history, and no entry behind the first that could be in it is missing.
     */
    method Query(query: LogQuery) returns (results: seq<LogEntry>, ghost at: seq<nat>)
      requires Valid()
      ensures closed ==> results == []
      ensures !closed ==> results == LastOf(Filter(Live(), WantedBy(query, texts)), LimitOf(query.limit))
      ensures 0 <= Low() <= |log| && Positions(log, Low(), at, results)
      ensures !closed ==> forall n ::
        (if |at| < LimitOf(query.limit) then Low() else at[0]) <= n < |log| ==>
          (n in at <==>
            && (texts.trim(query.traceID) == "" || log[n].traceID == texts.trim(query.traceID))
            && (var service := texts.lower(texts.trim(query.service)); service == "" || log[n].service == service)
            && (var level := texts.upper(texts.trim(query.level)); level == "" || log[n].level == level))
    {
      hide Valid, Filter, LastOf, Live, Reverse;
      InBounds();
      if closed {
        return [], [];
      }
      var limit := query.limit;
      if limit <= 0 {
        limit := 100;
      }
      if limit > 10000 {
        limit := 10000;
      }
      var q := WantedBy(query, texts);
      var matched;
      if q.traceID != "" {
        matched := QueryTrace(q, limit);
      } else if q.service != "" {
        matched := QueryService(q, limit);
      } else {
        matched := QueryRing(q, limit);
      }
      results := TurnRound(matched);
      at := Located(q, limit);
    }

    /** The numbers in the history of the last `limit` matches. */
    lemma Located(q: Wanted, limit: nat) returns (at: seq<nat>)
      requires Valid() && limit > 0
      ensures 0 <= Low() <= |log| && Positions(log, Low(), at, LastOf(Filter(Live(), q), limit))
      ensures |at| <= limit && forall n :: (if |at| < limit then Low() else at[0]) <= n < |log| ==>
        (n in at <==> && (q.traceID == "" || log[n].traceID == q.traceID)
                      && (q.service == "" || log[n].service == q.service)
                      && (q.level == "" || log[n].level == q.level))
    {
      LiveIsWindow();
      hide *;
      var all := FilterExactly(log, Low(), q);
      at := LastPositions(log, Low(), all, Filter(log[Low()..], q), limit);
    }

    /** The index sizes that the statistics report are the numbers of distinct keys among the live entries. */
    method Stats() returns (cap: nat, size: nat, ingested: nat, indexedTraces: nat, indexedServices: nat)
      requires Valid()
      ensures cap == capacity && size == |Live()| == Min(|log|, cap) && ingested == |log|
      ensures indexedTraces == |set e | e in Live() && e.traceID != "" :: e.traceID|
      ensures indexedServices == |set e | e in Live() && e.service != "" :: e.service|
    {
      cap, size, ingested, indexedTraces, indexedServices := capacity, count, totalIngested, |byTraceID|, |byService|;
      TraceKeysLive();
      ServiceKeysLive();
      assert |byTraceID| == |byTraceID.Keys| && |byService| == |byService.Keys|;
    }

    lemma TraceKeysLive()
      requires Valid()
      ensures byTraceID.Keys == set e | e in Live() && e.traceID != "" :: e.traceID
    {
      LiveIsWindow();
      forall k: string
        ensures k in byTraceID <==> k != "" && exists n :: Low() <= n < |log| && TraceKeys(log)[n] == k
      {
        IndexKeys(TraceIndex(), TraceKeys(log), Low(), |log|, capacity, k);
      }
      hide Valid;
    }

    lemma ServiceKeysLive()
      requires Valid()
      ensures byService.Keys == set e | e in Live() && e.service != "" :: e.service
    {
      LiveIsWindow();
      forall k: string
        ensures k in byService <==> k != "" && exists n :: Low() <= n < |log| && ServiceKeys(log)[n] == k
      {
        IndexKeys(ServiceIndex(), ServiceKeys(log), Low(), |log|, capacity, k);
      }
      hide Valid;
    }

    /** A closed hub takes no more entries and answers every query with nothing. */
    method Close()
      requires Valid()
      modifies `closed
      ensures Valid() && closed
    {
      closed := true;
    }

    lemma LiveIsWindow()
      requires Valid()
      ensures 0 <= Low() <= |log| && Live() == log[Low()..] == log[Low()..|log|]
    {
    }
  }

  /** A query for the trace, the service and the level of an entry, as it was handed in, ends with what was stored. */
  lemma StoredIsFound(log: seq<LogEntry>, capacity: nat, e: LogEntry, texts: Texts, nextID: nat, now: int, limit: int)
    requires capacity > 0 && (e.service != "" || texts.lower(texts.trim("")) == "")
    ensures var stored := Normal(e, texts, nextID, now);
      var asked := WantedBy(LogQuery(e.traceID, e.service, e.level, limit), texts);
      var found := LastOf(Filter(LastOf(log + [stored], capacity), asked), LimitOf(limit));
      found != [] && found[|found| - 1] == stored
  {
    var stored := Normal(e, texts, nextID, now);
    var asked := WantedBy(LogQuery(e.traceID, e.service, e.level, limit), texts);
    var live := LastOf(log + [stored], capacity);
    var before := live[..|live| - 1];
    assert live == before + [stored] && Matches(stored, asked);
    hide Filter, Normal, WantedBy, Matches;
    FilterSnoc(before, stored, asked);
  }

  /** What has been ingested is found by its own trace, service and level, behind everything found before it. */
  method IngestThenQuery(hub: MemoryLogHub, e: LogEntry, now: int, limit: int)
    returns (err: Option<Error>, results: seq<LogEntry>)
    requires hub.Valid()
    modifies hub, hub.entries, hub.links
    ensures hub.Valid()
    ensures err == None && (e.service != "" || hub.texts.lower(hub.texts.trim("")) == "") ==>
      |hub.log| == |old(hub.log)| + 1 && results != [] && results[|results| - 1] == hub.log[|old(hub.log)|]
  {
    hide Normal, WantedBy, Filter, LastOf, MemoryLogHub.Valid;
    hub.InBounds();
    if e.service != "" || hub.texts.lower(hub.texts.trim("")) == "" {
      StoredIsFound(hub.log, hub.capacity, e, hub.texts, hub.seqID + 1, now, limit);
    }
    err := hub.Ingest(e, now);
    ghost var at;
    results, at := hub.Query(LogQuery(e.traceID, e.service, e.level, limit));
  }

  lemma NothingListed(log: seq<LogEntry>, c: seq<nat>, q: Wanted, limit: nat)
    ensures c == [] ==> TakeBack(log, c, q, limit) == [] && Reverse([]) == []
  {
  }

  /** Copies the matches, newest first, into chronological order. */
  method TurnRound(matched: seq<LogEntry>) returns (results: seq<LogEntry>)
    ensures results == Reverse(matched)
  {
    results := [];
    var j := |matched|;
    while j > 0
      invariant 0 <= j <= |matched| && results == Reverse(matched[j..])
    {
      j := j - 1;
      assert matched[j..][1..] == matched[j + 1..];
      results := results + [matched[j]];
    }
    assert matched[0..] == matched;
  }

  lemma EmptyIndex(ix: Index, cap: nat)
    requires cap > 0 && |ix.prev| == |ix.next| == cap && ix.spans == map[]
    ensures IndexOk(ix, [], 0, 0, cap)
  {
    forall k: string | k != "" ensures Threads(ix, [], 0, 0, cap, k) {
      assert Slots(Numbers([], 0, 0, k), cap) == [];
    }
  }
}
