/** The in-memory engine of storage_memory.go, and the abstract spool that it and the file engine both serve. */
module MemoryStorage {
  import opened Results
  import opened Records

  /** The calls of the storage port, LastID included. */
  datatype Call = Append(rec: Record) | ReadBatch(maxCount: nat) | Commit(offset: nat) | UncommittedCount | LastID

  datatype Reply =
    | Offset(offset: nat)
    | Batch(records: seq<Record>)
    | Done
    | Count(count: nat)
    | Id(id: uint64)
    | Failed(error: Error)

  /** The abstract spool: every record ever accepted, and how many of them are committed. */
  datatype Memory = Memory(records: seq<Record>, checkpoint: nat, closed: bool, capacity: int)

  function HighestId(rs: seq<Record>): uint64 {
    if rs == [] then 0
    else
      var m := HighestId(rs[..|rs| - 1]);
      if rs[|rs| - 1].id > m then rs[|rs| - 1].id else m
  }

  /** It is the greatest identifier of the records. */
  lemma {:induction false} HighestIdSpec(rs: seq<Record>)
    ensures forall i :: 0 <= i < |rs| ==> rs[i].id <= HighestId(rs)
    ensures rs != [] ==> HighestId(rs) == 0 || exists i :: 0 <= i < |rs| && rs[i].id == HighestId(rs)
  {
    if rs != [] {
      var n := |rs| - 1;
      HighestIdSpec(rs[..n]);
      forall i | 0 <= i < |rs| ensures rs[i].id <= HighestId(rs) {
        if i < n {
          assert rs[i] == rs[..n][i];
        }
      }
      if rs[n].id <= HighestId(rs[..n]) && n > 0 && HighestId(rs) != 0 {
        var i :| 0 <= i < n && rs[..n][i].id == HighestId(rs[..n]);
        assert rs[i] == rs[..n][i];
      }
    }
  }

  function Pending(m: Memory): int {
    |m.records| - m.checkpoint
  }

  /** One call on the abstract spool. */
  function Serve(m: Memory, call: Call): (Memory, Reply) {
    if m.closed && !call.LastID? then (m, Failed(StorageUnavailable))
    else
      match call
      case Append(rec) =>
        if Pending(m) >= m.capacity then (m, Failed(SpoolFull))
        else (m.(records := m.records + [rec.(offset := |m.records|)]), Offset(|m.records|))
      case ReadBatch(maxCount) =>
        if m.checkpoint >= |m.records| then (m, Batch([]))
        else
          var end := if m.checkpoint + maxCount > |m.records| then |m.records| else m.checkpoint + maxCount;
          (m, Batch(m.records[m.checkpoint..end]))
      case Commit(offset) =>
        (if offset + 1 > m.checkpoint then m.(checkpoint := offset + 1) else m, Done)
      case UncommittedCount =>
        (m, Count(if Pending(m) < 0 then 0 else Pending(m)))
      case LastID =>
        (m, Id(HighestId(m.records)))
  }

  class MemoryStorageEngine {
    var records: seq<Record>
    var checkpoint: nat
    var closed: bool
    const maxCapacity: int

    constructor (maxCapacity: int)
      ensures State() == Memory([], 0, false, if maxCapacity <= 0 then 10000 else maxCapacity)
    {
      this.maxCapacity := if maxCapacity <= 0 then 10000 else maxCapacity;
      records, checkpoint, closed := [], 0, false;
    }

    ghost function State(): Memory
      reads this
    {
      Memory(records, checkpoint, closed, maxCapacity)
    }

    method Append(rec: Record) returns (r: Reply)
      modifies `records
      ensures (State(), r) == Serve(old(State()), Call.Append(rec))
    {
      if closed {
        return Failed(StorageUnavailable);
      }
      var uncommitted := |records| - checkpoint;
      if uncommitted >= maxCapacity {
        return Failed(SpoolFull);
      }
      var stored := rec.(offset := |records|);
      records := records + [stored];
      return Offset(stored.offset);
    }

    method ReadBatch(maxCount: nat) returns (r: Reply)
      ensures (State(), r) == Serve(State(), Call.ReadBatch(maxCount))
    {
      if closed {
        return Failed(StorageUnavailable);
      }
      var startIdx := checkpoint;
      if startIdx >= |records| {
        return Batch([]);
      }
      var endIdx := startIdx + maxCount;
      if endIdx > |records| {
        endIdx := |records|;
      }
      return Batch(records[startIdx..endIdx]);
    }

    method Commit(offset: nat) returns (r: Reply)
      modifies `checkpoint
      ensures (State(), r) == Serve(old(State()), Call.Commit(offset))
    {
      if closed {
        return Failed(StorageUnavailable);
      }
      var newCheckpoint := offset + 1;
      if newCheckpoint > checkpoint {
        checkpoint := newCheckpoint;
      }
      return Done;
    }

    method UncommittedCount() returns (r: Reply)
      ensures (State(), r) == Serve(State(), Call.UncommittedCount)
    {
      if closed {
        return Failed(StorageUnavailable);
      }
      var uncommitted := |records| - checkpoint;
      if uncommitted < 0 {
        return Count(0);
      }
      return Count(uncommitted);
    }

    method Close()
      modifies `closed
      ensures State() == old(State()).(closed := true)
    {
      closed := true;
    }

    /** The loop keeps the greatest identifier seen so far. */
    method LastID() returns (maxID: uint64)
      ensures Serve(State(), Call.LastID) == (State(), Id(maxID))
    {
      maxID := 0;
      for i := 0 to |records|
        invariant maxID == HighestId(records[..i])
      {
        assert records[..i + 1][..i] == records[..i];
        if records[i].id > maxID {
          maxID := records[i].id;
        }
      }
      assert records[..|records|] == records;
    }

    method Do(call: Call) returns (r: Reply)
      modifies this
      ensures (State(), r) == Serve(old(State()), call)
    {
      match call {
        case Append(rec) => r := Append(rec);
        case ReadBatch(maxCount) => r := ReadBatch(maxCount);
        case Commit(offset) => r := Commit(offset);
        case UncommittedCount => r := UncommittedCount();
        case LastID =>
          var id := LastID();
          r := Id(id);
      }
    }
  }
}
