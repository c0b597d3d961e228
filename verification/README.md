# Walspool: a verified model of its core

Walspool is a durable spooler. Producers append records to a segmented write-ahead log; one dispatcher reads them back in
order, hands them to a sink and advances a checkpoint; a ring buffer indexes the same records for queries and live streams.
This project models those parts in Dafny and proves what they promise one another: that neither a power cut nor the death
of the process loses a durable record, and exactly when neither can leave the checkpoint beyond one; that offsets, counts
and everything handed out survive any failed write; that the file engine cannot be told from a plain list of records; that
every record is delivered, rejected or reported as corrupt and none is passed over; that the indexed queries agree with a
scan; and that the concurrent protocols around them neither panic nor get stuck.

`dafny verify dfyconfig.toml` checks everything.

## How the model is laid out

| file | models |
|---|---|
| `Bytes.dfy`, `Crc32.dfy`, `Results.dfy` | big-endian integers; CRC-32 bit by bit (clause 3.2.9 of IEEE 802.3); errors and results |
| `Records.dfy` | record.go: the 29-byte header, encoding by index into a buffer, decoding into a receiver |
| `Frames.dfy` | a file as a run of frames, and what recovery parses from any bytes |
| `Wal.dfy`, `IndexState.dfy`, `EngineState.dfy` | the segmented log as a value: its shape; the offset invariant, which every operation keeps, failed ones included; the invariant of a log that no rollback has torn |
| `Crashes.dfy` | the disk at one moment, what a power cut or the death of the process may leave of it, and whole runs with many of both |
| `Recovery.dfy`, `Spool.dfy` | the log and the index that recovery builds; what a batch is |
| `FileStorage.dfy` | the class `FileStorageEngine`, method by method, over a directory and a buffered writer that may fail |
| `Findings.dfy` | runs of the engine that break its promise, and the conditions under which it is kept |
| `MemoryStorage.dfy`, `Refinement.dfy` | the in-memory engine, and the proof that the file engine refines it |
| `Identifiers.dfy` | the identifiers that concurrent producers draw, and what they are worth in the log |
| `Deliveries.dfy`, `Dispatcher.dfy`, `Backoff.dfy` | the engine: producers, the flusher and Close between any two calls of the dispatcher, the drain loops, the account of every offset, the backoff |
| `Shutdown.dfy` | Enqueue, Flush, Close and the dispatcher as interleaved threads |
| `HubIndex.dfy`, `HubQuery.dfy`, `Hub.dfy` | the ring buffer with its two intrusive indices, and its queries |
| `Subscribers.dfy` | Ingest, cancel, Close and clients as interleaved threads |
| `JsonScan.dfy`, `JsonText.dfy` | the JSON scanner, and JSON texts as trees with all their spacing |

Some terms. `hist` is the log: every frame, at its offset, pruned or not. A *moment* is the disk after one call that changed
it; `past` is the sequence of all of them, through all stops. A stop is a power cut, which leaves what is on the medium, or
the death of the process, which leaves every byte that the operating system was given and puts none of them on the medium.
A frame is *whole* when recovery would accept it. The flags of `FileStorageEngine` say how far a claim goes:

- `joined`: the segments found at start-up made one log. All that follows asks for it; `Offsets` and the contracts of
  Append, ReadBatch, Commit and UncommittedCount about offsets, counts and pruning ask for nothing else.
- `garbled`: a rollback has kept an index entry whose bytes never reached the file. Until then the index names the bytes of
  its frames, torn or not. Append garbles a log only if an entry `Overhung` before the call.
- `torn`: a rollback has cut inside a frame, or could not cut the file (`uncut`). Until then the files and the buffer hold
  exactly the frames of the log.
- `exposed`: a frame was appended that recovery refuses (more than 10 MiB), or offsets were missing at start-up. While the
  log is neither torn nor exposed it is `Sound`: every stop so far, and one now, is survived.
- `durable`: every checkpoint, when it was saved, named records on the medium only. `Strong` is sound and durable.
- `orderly`: commits name only offsets that were handed out. `forced`: under SyncEveryRecord, nothing is left unforced from
  before the start.

Write faults, failing fsyncs, truncations and creations are modelled unless the machine is `reliable`; a failing write may
have written any part of its bytes, and a failing truncation leaves the file as it is.

Of the dispatcher's `Engine`: `Reliable` says that no call on the storage fails; `Steady` that no failed append takes a record
from the log, which under SyncEveryRecord needs no more than that a rollback can cut its file; `Guarded` that no stop can
bring the checkpoint beyond the log, now or later, as under SyncBatchCommit on a reliable machine and under SyncEveryRecord
on any whose rollbacks can cut the file.

## What was found

- The checkpoint clamp is in memory only (storage_file.go:229-232, 326-329). Under SyncInterval, the default, a power cut
  can take a record but leave the checkpoint that covers it; the next record is appended below the saved checkpoint, and
  the recovery after that takes it for committed although nothing ever delivered it. `Findings.IntervalSkips` runs the
  engine through it. The same happens under SyncEveryRecord when the process dies between flush and fsync and the power
  fails later, because recovery forces nothing to the medium (storage_file.go:203-434): `Findings.ProcessDeathSkips`.
  `FileStorageEngine.Commit` says when a commit keeps the checkpoint safe: exactly when its records are on the medium, as
  they always are under SyncBatchCommit; `Findings.CommitAll` puts it for a whole log, under SyncEveryRecord in terms of
  what is forced; `Findings.FlushThenCommit` shows that a flush before the commit is enough under every policy.
- After a failed write `rollbackTo` may leave part of an earlier frame at the end of the file (storage_file.go:522-540).
  Offsets, counts and what was handed out are not harmed (`IndexState.CutKeeps`). `EngineState.SaneCut` says exactly when
  the log is torn, and `Frames.TornFrameSwallows` what recovery then does to later records.
- If the file cannot be truncated either, `rollbackTo` goes on all the same (storage_file.go:528-533): the bytes of the
  refused record stay behind the write position, and the log is torn although nothing is lost from it
  (`EngineState.SaneCut`, `FileStorage.FileStorageEngine.UndoAppend`).
- A torn segment whose records are all gone is opened again by the next rotation, at its front. If another append then fails,
  the index may keep an entry whose bytes are those of the torn frame: `Findings.GarbledRun`. `IndexState.GarblesExactly`
  says when that can happen.
- A frame above 10 MiB is accepted by Append and refused by recovery, with every record behind it in its segment
  (`Frames.OversizeHidesTheRest`, `Frames.EncodedIsWhole`); the default payload limit keeps frames far below that.
- A payload of 4 GiB or more is written under a wrapped length and never comes back (`Records.RoundTripExactly`).
- A permanent rejection whose commit fails counts as drained (engine.go:314-319): the same batch is delivered again at
  once, without backoff. `Dispatcher.Engine.DrainPendingBatches` says that a drained round leaves the dispatcher where it
  was if and only if this has happened, and `Dispatcher.Engine.DrainAll` that it never waits for it.
- Identifiers do not rise along the log: Enqueue draws one and appends in two steps, under a shared lock
  (engine.go:136-152), so a producer may be overtaken by one that drew later. `Dispatcher.Overtaken` runs the engine
  through it; `Dispatcher.Engine.Store` and `Dispatcher.Engine.Identities` say when a record's identifier is above all
  before it: if and only if no producer that drew later has appended before.
- The repository's README says at line 492 that checksums are verified at start-up; recovery checks magic bytes, version
  and lengths only (storage_file.go:373-400), and the checksum is verified in ReadBatch. It says at line 490 that the
  backoff doubles; the code draws from up to three times the last one (engine.go:361-376). The model follows the code.

## Model

| member | source | states |
|---|---|---|
| Crc32.ChecksumDetectsBurst | record.go:53-55 | two messages that differ only inside one window of at most four bytes have different checksums, for every length before and after |
| Crc32.RunInjective | record.go:53-55 | the CRC register after any fixed message determines the register before it |
| Crc32.CheckValue | record.go:53-55 | the checksum of the digits "123456789" is 0xCBF43926, the published check value, which pins the generator, the start value and the final complement |
| Crc32.LeadingZeroSeen | record.go:53-55 | a zero byte in front of any message changes its checksum |
| Crc32.ShiftIs | record.go:53-55 | one shift of the register is what programs do to a 32-bit word with the reflected generator 0xEDB88320 |
| Records.MarshalBinary | record.go:32-58 | a topic whose length two bytes cannot hold is refused, anything else becomes its frame, filled in by index, behind the two magic bytes and the version |
| Records.RecordVar.UnmarshalBinary | record.go:61-97 | the receiver gets every field but the offset when the bytes decode, and is left alone when they do not |
| Records.RoundTrip | record.go:32-97 | decoding an encoding followed by any bytes gives back identifier, timestamp, topic and payload |
| Records.DecodeExactly | record.go:61-97 | bytes decode to a record if and only if they begin with its encoding, its checksum is that of the encoding, and the encoding can hold it |
| Records.RoundTripExactly | record.go:48-97 | a payload survives the round trip if and only if it is shorter than 2^32 bytes |
| Records.PrefixIsTruncated | record.go:61-77 | every proper prefix of an encoding is reported as truncated |
| Records.SealDamageDetected | record.go:66-84 | any change of magic bytes, version or checksum field makes decoding fail |
| Records.BodyDamageDetected | record.go:79-84 | any change inside a window of at most four sealed bytes, other than the lengths, is reported as corruption |
| Records.RaisedLengthDetected | record.go:71-77 | a raised length field is reported as truncation |
| Frames.ParseOfPrefix | storage_file.go:346-431 | recovering any byte prefix of a run of frames gives exactly the frames that lie wholly inside it |
| Frames.ParseIsAPrefix | storage_file.go:346-431 | on arbitrary bytes recovery keeps a prefix that is a run of whole frames |
| Frames.RecoveryIsIdempotent | storage_file.go:338-434 | a second recovery changes nothing |
| Frames.ReadBackExactly | storage_file.go:373-400 | a run of frames is read back whole if and only if every one of them is whole |
| Frames.EncodedIsWhole | storage_file.go:386-391 | an appended frame is whole if and only if it is at most 10 MiB |
| Frames.OversizeHidesTheRest | storage_file.go:386-391 | an appended frame above 10 MiB hides itself and everything behind it from recovery |
| Frames.TornFrameSwallows | storage_file.go:522-540 | what recovery makes of frames appended behind a torn one |
| Frames.FramesInSpec | storage_file.go:411-423 | the count of frames inside a byte limit is exactly the number that end by it |
| Wal.EntryReads | storage_file.go:632-656 | the index entry of every offset points at exactly the bytes of its frame, in its segment file |
| Wal.SegOfSpec | storage_file.go:411-423 | the segment of an offset is the one with the greatest base not above it |
| Wal.LiveRotate | storage_file.go:443-478 | rotation keeps every index entry and the log |
| Wal.LiveDrop | storage_file.go:494-505 | removing the oldest segment keeps every later entry at its position |
| EngineState.SaneAppend | storage_file.go:587-599 | an appended frame keeps offsets, index bytes and capacity bound in any state, and a clean log clean |
| IndexState.CutKeeps | storage_file.go:519-540 | a rollback from any state keeps exactly the entries of sealed segments and those wholly inside the cut file, among them everything handed out, and all of them if the earlier bytes had reached the file |
| IndexState.LaidCut | storage_file.go:519-540 | it keeps the offset invariant, the order of the entries and the count bound |
| IndexState.PlacedCut | storage_file.go:519-540 | its entries still name the bytes of their frames, unless one of them had not reached the file |
| IndexState.GarblesExactly | storage_file.go:519-540 | a write that fails at once leaves an entry with bytes that are not its own if and only if an entry reached beyond the write position into bytes that were in the file |
| EngineState.SaneCut | storage_file.go:519-540 | what every rollback leaves: the log is torn if and only if it was, or the cut falls inside a frame, or the file could not be cut; and garbled if and only if it was or an entry is kept that had not reached the file |
| EngineState.SegmentFits | storage_file.go:563-567 | of a clean log, a segment that holds more than one record, the last written since start-up, is no larger than the limit |
| EngineState.PackedAppend | storage_file.go:563-567 | an append that begins a segment only when the record does not fit keeps this law: of any two neighbouring segments, the second begun since start-up, the bytes of the first and the first frame of the second together exceed the limit |
| IndexState.LaidRotate | storage_file.go:443-478 | rotation keeps the offset invariant, also when it opens a file that is there already, in which no entry lies |
| IndexState.LaidDrop | storage_file.go:494-505 | so does removing the oldest segment |
| IndexState.FewSegments | storage_file.go:480-509 | after pruning at most one segment more remains than there are uncommitted records |
| Crashes.CrashRecovery | storage_file.go:242-434 | from any crash of any moment recovery reads back, segment by segment, a prefix of the log with every durable record |
| Crashes.CheckpointSafeExactly | storage_file.go:325-329 | the checkpoint stays inside the recovered log after every crash if and only if it is inside the durable part now |
| Crashes.DurableForever | storage_file.go:242-434 | over any run with any number of power cuts and process deaths a durable record stays at its offset with its content |
| Crashes.CheckpointForever | storage_file.go:681-748 | over any run with any number of power cuts and process deaths, in which commits name records on the medium, the saved checkpoint never goes back and never passes the durable end |
| Crashes.StopIsACrash | storage_file.go:203-434 | either stop leaves byte prefixes that hold all that was forced, and as much on the medium |
| Crashes.StopStep | storage_file.go:203-434 | neither stop takes a durable record from the log |
| Crashes.RotateStep | storage_file.go:443-478 | rotation forces the whole log to the medium and endangers nothing |
| Crashes.RemoveStep | storage_file.go:494-505 | removing a committed segment endangers nothing |
| Crashes.RecoverStep | storage_file.go:338-434 | recovery, which truncates and forces nothing, takes no durable record away, and leaves a safe checkpoint safe |
| Recovery.MaxIdSpec | storage_file.go:411-414 | recovery finds the greatest record identifier in the surviving frames |
| Recovery.ContiguousMakesLog | storage_file.go:292-323 | segments that join form one log, and the index built segment by segment is the index of that log |
| Recovery.CrashMakesLog | storage_file.go:292-323 | the segments that a crash leaves always join |
| Recovery.RecoveredOk | storage_file.go:325-333 | recovery establishes the invariant of the running engine, with whatever of the files is on the medium |
| Spool.ValidRunAt | storage_file.go:632-674 | a batch is consecutive and holds the decoding of the frame at each of its offsets |
| Spool.ValidRunStops | storage_file.go:665-672 | it stops only at its end or at a frame that does not decode |
| Spool.ReadRangeAnswers | storage_file.go:665-672 | a batch holds the next offsets in order, and a corrupt record is reported only when it is the first, with its own offset |
| FileStorage.FileStorageEngine.BufWrite | storage_file.go:569-572 | file and buffer together grow by exactly the data, or by a prefix of it when a write fails; what fits the buffer stays there |
| FileStorage.FileStorageEngine.Flush | storage_file.go:182-201 | after a flush without error the whole log is durable |
| FileStorage.FileStorageEngine.RotateSegment | storage_file.go:443-478 | rotation keeps the invariant of any state and every moment safe, and leaves no entry in the segment it opens; a segment that cannot be opened closes the engine |
| FileStorage.FileStorageEngine.PruneCommittedSegments | storage_file.go:480-517 | exactly the sealed segments wholly below the checkpoint are removed, and never the active one, torn or not |
| FileStorage.FileStorageEngine.RollbackTo | storage_file.go:522-540 | the file never grows; it is cut to the write position, or left whole if truncating fails; the write position is the lesser of its length and the place of the record; the trailing entries beyond it are dropped |
| FileStorage.FileStorageEngine.UndoAppend | storage_file.go:569-585 | the log after a failed write, in any state and whether or not the file can be cut, is the log before it up to the cut, with everything handed out |
| FileStorage.FileStorageEngine.Append | storage_file.go:542-600 | in any state: a full spool and a wide topic are refused and nothing changes, success appends exactly the frame, a new segment begins if and only if the active one holds something and the frame does not fit behind it, failure appends nothing and takes back nothing that was handed out; under SyncEveryRecord it loses nothing of a clean log, and tears it if and only if the file could not be cut; an append that garbles the log found an entry overhanging |
| FileStorage.FileStorageEngine.Offsets | storage_file.go:542-600 | after every call: the entries are numbered from the oldest segment on, each in the segment of its offset, the uncommitted ones are within the capacity or the backlog, and a record written since start-up that is not at the front of its segment ends within the size limit |
| FileStorage.FileStorageEngine.SegmentsFit | storage_file.go:563-567 | unless the log is torn, neither does a segment exceed the limit that holds more than one record, the last written since start-up |
| FileStorage.FileStorageEngine.SegmentsFilled | storage_file.go:563-567 | while that law holds, the file of the first and the first frame of the second exceed the limit |
| FileStorage.FileStorageEngine.ReadEntry | storage_file.go:632-668 | an entry is read from its segment and decoded, or reported corrupt, with its offset in any state and with its frame unless the log is garbled |
| FileStorage.FileStorageEngine.ReadBatch | storage_file.go:602-679 | the next offsets in order, or the first as corrupt, in any state; and the batch that the log defines at the checkpoint, despite buffering, rotation, pruning and torn ends, unless the log is garbled |
| FileStorage.FileStorageEngine.Commit | storage_file.go:681-748 | the checkpoint and its file move to the offset and never back, or not at all on failure; committed segments are pruned, in any state; the checkpoint stays safe if and only if it was and its records are on the medium, which SyncBatchCommit sees to |
| FileStorage.FileStorageEngine.UncommittedCount | storage_file.go:750-764 | in any state the count is the end of the log minus the checkpoint and never exceeds the larger of capacity and backlog |
| FileStorage.FileStorageEngine.Bounds | storage_file.go:617-620 | in any state oldest segment, checkpoint, last offset handed out and end of the log come in this order |
| FileStorage.FileStorageEngine.ForcedExactly | storage_file.go:574-585 | under SyncEveryRecord the whole log is durable if and only if nothing of the active file is left unforced |
| FileStorage.FileStorageEngine.LastID | storage_file.go:811-815 | no frame found at start-up or appended since has a greater identifier, and one has this one unless it is 0; so no record of the log has a greater one |
| FileStorage.FileStorageEngine.Close | storage_file.go:769-808 | without an error the whole log is durable; a second Close does nothing and reports the same; the disk left behind is safe |
| FileStorage.FileStorageEngine.RecoverSegment | storage_file.go:338-434 | the loop leaves the longest run of whole frames in the file and indexes each at its exact position; it forces nothing; it fails, and leaves the file alone, only if there was something to cut off |
| FileStorage.FileStorageEngine.RecoverSegments | storage_file.go:292-323 | every segment is recovered so, and the index is built across them; or the segments before one that cannot be opened or cut have been, and no other is touched |
| FileStorage.FileStorageEngine.Recover | storage_file.go:203-336 | recovery establishes the invariant, continues the run of the disk, and prunes; one that fails after a stop changes nothing |
| FileStorage.FileStorageEngine.Open | storage_file.go:102-155 | on any directory: the log found; after either kind of stop: a prefix of the log before it with every durable record, the checkpoint where it was saved if it was safe, and no more of the files on the medium than before; if it fails, a directory that can be opened again, and after a stop an unchanged one |
| Findings.IntervalSkips | storage_file.go:229-232 | the engine, run under SyncInterval through two power cuts, never hands out a durable record, for any two records, buffer size and capacity |
| Findings.ProcessDeathSkips | storage_file.go:574-585 | the same under SyncEveryRecord, when the process dies between flush and fsync and the power fails later |
| Findings.CommitAll | storage_file.go:681-748 | committing the whole log keeps the checkpoint safe if and only if it was all on the medium or the policy puts it there; under SyncEveryRecord, if and only if nothing was left unforced |
| Findings.FlushThenCommit | storage_file.go:182-201 | after a flush any commit of the log keeps the checkpoint safe, under every policy |
| Findings.NothingUnforced | storage_file.go:338-434 | a power cut leaves nothing unforced in what recovery keeps |
| Findings.GarbledRun | storage_file.go:443-478 | the steps of the engine's state (`Cut`, `Turned`, `Lengthened`) for two failed appends and a rotation between them, after which the index names bytes of another record |
| MemoryStorage.HighestIdSpec | storage_memory.go:109-123 | the identifier returned is the greatest of the records |
| MemoryStorage.MemoryStorageEngine.Append | storage_memory.go:28-44 | one call on the abstract spool |
| MemoryStorage.MemoryStorageEngine.ReadBatch | storage_memory.go:46-67 | one call on the abstract spool |
| MemoryStorage.MemoryStorageEngine.Commit | storage_memory.go:69-83 | one call on the abstract spool |
| MemoryStorage.MemoryStorageEngine.UncommittedCount | storage_memory.go:85-98 | one call on the abstract spool |
| MemoryStorage.MemoryStorageEngine.LastID | storage_memory.go:109-123 | the loop finds the greatest identifier |
| Refinement.FileDo | storage_file.go:542-815 | one call on the file engine gets the reply of the abstract spool and keeps standing for it |
| Refinement.SameReplies | storage_file.go:542-815 | no sequence of calls with encodable records tells the two engines apart, for any buffer, segment size and sync policy; and over the whole sequence no segment is begun that could have been spared |
| Refinement.OpenBoth | storage_memory.go:18-26 | the two engines start alike, and the file engine with no segment that could have been spared |
| Refinement.RunMirrors | storage_file.go:632-676 | decoding a run of the log gives the records of the abstract spool, up to the checksum |
| Deliveries.LedgerDelivers | engine.go:312-330 | handing a batch at the checkpoint to the sink keeps the account |
| Deliveries.LedgerAdvances | engine.go:312-330 | committing a settled batch accounts for each of its offsets |
| Deliveries.LedgerReports | engine.go:287-299 | a record at the checkpoint reported as corrupt goes into the account |
| Deliveries.LedgerSkips | engine.go:287-299 | skipping it accounts for it alone |
| Deliveries.LedgerStays | engine.go:282-330 | the account stays right while producers append, rollbacks drop what was not handed out, and the log becomes garbled |
| Deliveries.NotedGrows | engine.go:282-330 | at every moment of the disk everything below its checkpoint file had been settled by what had been sent until then |
| Deliveries.BatchIsFaithful | storage_file.go:617-676 | a batch starts at the checkpoint and holds exactly the log's records; a corrupt record reported stands at the checkpoint itself |
| Identifiers.RollStores | engine.go:145-152 | an append keeps the account of identifiers; its identifier is above all that the storage knew if and only if no producer that drew later had appended |
| Identifiers.DrawnApart | engine.go:145-150 | however producers interleave, two draws get the same identifier if and only if a multiple of 2^64 draws lies between them; all are above the greatest one at the start if and only if the counter has not run over; until then the storage knows none above the counter |
| Identifiers.LogApart | engine.go:145-152 | two records of the log appended since the start have the same identifier if and only if a multiple of 2^64 draws lies between them, and until the counter runs over none has one found at the start |
| Identifiers.AboveExactly | engine.go:145-152 | a record's identifier is above all before it in the log if and only if none of them was drawn later |
| Dispatcher.Engine.Draw | engine.go:120-150 | the refusals in their order; else the next identifier is drawn for the record, and no other call has it |
| Dispatcher.Engine.Store | engine.go:152-157 | what an append answers and does to the log; its identifier is above all that the storage knew if and only if no producer that drew later has appended before |
| Dispatcher.Engine.Enqueue | engine.go:120-170 | the two halves with any number of other producers, flushes and a waiting Close between them: refused in the order of the checks, or by the storage, which without write faults refuses only when it is full or the topic is too long; an accepted record is at the end of the log with the identifier it drew |
| Dispatcher.Engine.Identities | engine.go:145-152 | in every reachable state: identifiers drawn are distinct and above the start, no two records share one, and the exact condition for the order |
| Dispatcher.Overtaken | engine.go:136-152 | two producers, after which the record that drew first stands behind with the lower identifier |
| Dispatcher.Engine.Force | storage_file.go:157-201 | the flusher, at any time, leaves log, checkpoint and account alone, and without error the whole log is durable |
| Dispatcher.Engine.Others | engine.go:136-217 | whatever producers, flusher and Close do between two calls of the dispatcher, what was handed out stays, a log that cannot lose records grows only, a guarded one stays guarded, and a closed engine's log stays as it is |
| Dispatcher.Engine.constructor | engine.go:73-118 | defaults, an identifier counter that starts at the greatest identifier stored, and, if the segments found made one log, an account that begins where the storage hands out next |
| Dispatcher.Engine.Read | engine.go:287-302 | a read changes nothing but what has been handed out, and answers for the place of the account |
| Dispatcher.Engine.DrainPendingBatches | engine.go:282-330 | one round, on a storage in any state, with others between any two of its calls: it skips one record reported as corrupt, or delivers one batch from exactly the checkpoint on and commits it if it was settled; the batch is as long as it can be unless the log is garbled or may lose records; a drained round makes no progress if and only if the sink refused for good and the commit failed; the account of every offset holds |
| Dispatcher.Engine.DrainAll | engine.go:385-420 | no error means that every record in the log since the call is committed, which without lost writes is every record in the log at the call; a transient failure is never the answer: without faults of the storage an error is that of the last call of the sink, or the end of the context, or of the engine, so that transient failures alone end without error; every round but the last advances, or is a failure of the sink, or a rejection whose commit failed; only sink failures wait, each in a row longer |
| Dispatcher.Engine.OneTurn | engine.go:231-279 | one turn of the loop: it fails only when the sink does, stops only behind Close and then after a last drain, and answers a flush request with a barrier |
| Dispatcher.Engine.RunDispatcher | engine.go:219-280 | over any number of turns, with others between any two calls: the account holds, what was handed out stays, a guarded log stays guarded, the backoff has grown once for every failure in a row; a last drain without error leaves nothing behind; on a storage that does not fail, as many turns as there is work commit all that was in the log, however often the sink fails, unless the engine is closed meanwhile |
| Dispatcher.Engine.Close | engine.go:204-217 | behind Close the log neither grows nor shrinks; without error all of it is on the medium, and if the last drain had none all of it is settled; a second Close does nothing |
| Dispatcher.FlushedRound | engine.go:282-330 | a flush between read and commit keeps the checkpoint safe under every policy, and if nothing fails such a round delivers and commits |
| Dispatcher.Restart | engine.go:282-330 | across a power cut or a process death at any moment of the run every durable record had been settled by then or is in the charge of the next dispatcher, at its offset and with its content; a restart that fails leaves the directory as it was |
| Backoff.OverflowCaught | engine.go:361-365 | the test catches every overflow of the tripled backoff and nothing else |
| Backoff.BackoffExactly | engine.go:345-383 | the random numbers lead to exactly the backoffs from the configured initial one (20 ms without one) up to the configured maximum and three times the last, and to the initial one when the maximum is below it |
| Backoff.CalculateNextBackoff | engine.go:345-383 | the random bound is positive and fits 64 bits, and so does the result |
| Backoff.RowBounds | engine.go:230-253 | after n failures the backoff is within its bounds and at most 3^n times the least one |
| Shutdown.StorageIsSafe | engine.go:136-280 | in every interleaving the storage is closed once at most and not used afterwards, and nothing is appended once Close has begun |
| Shutdown.AckNeverBlocks | engine.go:184-201 | the dispatcher never waits on an answer, and no flush is answered twice |
| Shutdown.PendingFlushesReturn | engine.go:186-201 | once Close waits, every pending Flush can return |
| Shutdown.CloseIsNotStuck | engine.go:204-280 | while Close waits the dispatcher can go on, and can leave from where it waits |
| Shutdown.NoLostWakeUp | engine.go:163-167 | a dispatcher that waits with records unread has its notification, or an Enqueue is about to give it |
| Shutdown.LastDrainIsLast | engine.go:269-273 | no record can be appended behind the last drain |
| HubIndex.LinkAppends | hub.go:177-219 | linking appends a slot to the list of its key |
| HubIndex.LinkSpares | hub.go:177-219 | ... and touches no other list |
| HubIndex.UnlinkRemoves | hub.go:221-293 | unlinking takes a slot out of its list, wherever it stands |
| HubIndex.UnlinkSpares | hub.go:221-293 | ... and touches no other list |
| HubIndex.LinkKeepsIndex | hub.go:361-367 | ingesting keeps every list equal to the live entries of its key, in order |
| HubIndex.UnlinkKeepsIndex | hub.go:345-351 | so does evicting the oldest entry |
| HubIndex.IndexKeys | hub.go:345-367 | the keys of an index are exactly the non-empty keys of the live entries |
| HubQuery.TakeBackIsLast | hub.go:458-504 | a backward walk with a limit, turned round, is the last matches |
| HubQuery.KeyScan | hub.go:458-484 | filtering the entries of a key is filtering all live entries |
| HubQuery.PlainScan | hub.go:485-498 | so is filtering them all |
| HubQuery.FilterExactly | hub.go:458-498 | a scan finds exactly the live entries that have every trace, service and level asked for, each once, in their order |
| Hub.MemoryLogHub.constructor | hub.go:145-166 | an empty hub, with the default capacity when none is given |
| Hub.StoredIsFound | hub.go:305-322 | a query for the trace, the service and the level of an entry as it was handed in ends with what is stored of it, whatever the text functions do |
| Hub.IngestThenQuery | hub.go:296-507 | the same of the two calls: an accepted entry is the last one found by its own trace, service and level |
| Hub.MemoryLogHub.LinkTrace | hub.go:177-197 | the fields change as the list operation says, and the service lists do not |
| Hub.MemoryLogHub.LinkService | hub.go:199-219 | the same for services |
| Hub.MemoryLogHub.UnlinkTrace | hub.go:221-256 | the fields change as the list operation says, and the service lists do not |
| Hub.MemoryLogHub.UnlinkService | hub.go:258-293 | the same for services |
| Hub.MemoryLogHub.Place | hub.go:338-359 | the entry gets the next slot of the ring, in place of the oldest one when it is full |
| Hub.MemoryLogHub.Ingest | hub.go:296-369 | the two refusals in their order; else the history grows by exactly the normalised entry, which keeps its payload, its identifier, time and topic where it has them and else gets the next ones, and ring and both indices hold the last `capacity` entries |
| Hub.MemoryLogHub.WalkTrace | hub.go:458-472 | the walk along a trace visits exactly its live entries, newest first |
| Hub.MemoryLogHub.WalkService | hub.go:473-484 | the same for services |
| Hub.MemoryLogHub.WalkRing | hub.go:485-498 | the walk round the ring visits exactly the live entries, newest first |
| Hub.MemoryLogHub.Query | hub.go:405-507 | the answer is the last `limit` entries, in order, of the live entries filtered by trace, service and level: no entry is in it that lacks what the query's own fields, trimmed and case-mapped, ask for, and none is missing behind the first that could be |
| Hub.MemoryLogHub.Stats | hub.go:554-564 | capacity, live entries and entries ever; the index sizes are the numbers of distinct traces and services among the live entries |
| Hub.MemoryLogHub.Close | hub.go:570-576 | a closed hub keeps its invariant |
| Subscribers.NeverPanics | hub.go:382-399 | in every interleaving nobody sends on a closed channel or closes one twice, and no channel holds more than 256 entries |
| Subscribers.EveryEntryAccounted | hub.go:381-399 | each subscriber of a snapshot whose service and level, if it asks for them, match those of the entry gets it exactly once, or its loss is counted once, or it had been closed; no other gets it |
| Subscribers.OfferExactly | hub.go:389-395 | an entry is lost if and only if 256 others wait, and then only the counter changes |
| Subscribers.ChannelsKeepOrder | hub.go:389-399 | over any run a client receives entries in the order in which they were put into its channel, and none that was put there disappears |
| Subscribers.NothingLeftOpen | hub.go:535-595 | once the hub is closed and every cancel and Close is through, every channel is closed |
| Subscribers.NeverStuck | hub.go:381-595 | as long as a thread has something left to do, some thread can go on |
| JsonScan.SkipWS | hub.go:723-733 | the next byte that is no space |
| JsonScan.ScanString | hub.go:737-752 | the first quote that no backslash escapes, and whether there are escapes before it |
| JsonScan.SkipContainer | hub.go:769-793 | the place where the brackets balance, strings apart |
| JsonScan.SkipScalar | hub.go:796-806 | the next delimiter |
| JsonScan.MaterializeString | hub.go:757-765 | without escapes the content as it stands; else what unquoting makes of the quoted token, or the content if that fails |
| JsonScan.ScanTopLevelMeta | hub.go:642-714 | on any bytes, the fields that the members up to the first defect give; for objects `JsonText.ObjectExtracted` says what these are |
| JsonText.StringSkipped | hub.go:737-752 | a printed string is skipped as a whole |
| JsonText.StringsArePieces | hub.go:737-752 | every string that ends is a sequence of bytes and escapes, so that the texts considered leave none out |
| JsonText.ContainerSkipped | hub.go:769-793 | a container ends at its own bracket, whatever it holds and whatever follows |
| JsonText.ObjectScanned | hub.go:642-714 | for every object text: for each key the last string value at the top level, and nothing from inside a value |
| JsonText.ListCut | hub.go:642-714 | for an object that breaks off anywhere: exactly the members whose values are complete |
| JsonText.ExtractMetadata | hub.go:624-637 | of any payload that is an object, with anything behind it, what the object says; topic and INFO stand in for what is missing; text that is no object gives nothing |
| JsonText.ObjectExtracted | hub.go:624-714 | for every object: trace_id before traceId, level before severity, each what the last top-level string of its key stands for, which is its own bytes when it holds no escape |
| JsonText.ValueMeant | hub.go:757-765 | a string of plain bytes stands for these bytes; one with escapes for what unquoting makes of it, if it can |

## Left out

- The sidecar, its HTTP handlers, the OTLP and NDJSON ingestion, the metrics text, the CLI, its rendering and the demos.
- The legacy name `active.wal` for segment 0 and `segmentPath`: segments are named by their base offset.
- Failures of reads, of seek and stat, of closing a segment at rotation, of removing a file, of reading a directory, and fsyncs that lie; directory entries reach the medium in order. A directory that cannot be made counts as an Open that fails before it begins.
- Segments found at start-up that do not make one log, such as one with bytes damaged in the middle: Open says what is read of each, and nothing is claimed of the offsets that the engine then hands out.
- The contents of records read from a garbled log: their offsets, order and count are stated, and when a log is garbled.
- A truncation is on the medium when the call returns, as a cut that no later stop undoes.
- FileStorage.FileStorageEngine.ReadBatch: a negative count, for which the source panics, is not an input.
- Offsets are unbounded naturals: a log of more than 2^63 records is not modelled.
- The timing of the periodic flusher, which may force the log at any time. Neither are timeouts modelled, except as answers that a context or a sink may give.
- Identifiers across crashes: recovery knows the identifiers of surviving records only, so pruning can lose the greatest one.
- Dispatcher.Engine.constructor: promises no account for a storage that is closed, whose segments did not make one log, or on which somebody has committed an offset that was not handed out: there the offsets are not those of the log.
- Dispatcher.Engine.Enqueue: the dispatcher does not come in between its two halves; where it does, the halves are among the others that come in during the dispatcher's own runs.
- Dispatcher.Engine.DrainAll: appends to come, failures of the sink and failed commits behind a rejection are bounded in number for the sake of termination, by bounds that may be any numbers; rejections are not, once one failed commit is allowed for.
- Dispatcher.Engine.RunDispatcher: covers every finite number of turns of the endless loop.
- Observers of Enqueue, logging, and the defensive copies of payloads: values cannot be aliased.
- Hub.MemoryLogHub.Stats: the number of live streams and of dropped events, which belong to `Subscribers.dfy`.
- Hub.MemoryLogHub.Ingest: the subscriber broadcast is modelled by itself, in `Subscribers.dfy`; slot numbers are unbounded, so the capacity is taken to fit 32 bits.
- Subscribers.EveryEntryAccounted: filters are taken as Subscribe stores them, trimmed and case-mapped (hub.go:520-521).
- Trimming, case mapping, case folding and strconv.Unquote are arbitrary functions; json.Valid and the quoting of payloads that are not JSON are not modelled.
- The locks of the storage engines and of the hub: their methods are sequential here; the interleavings of threads are in `Dispatcher.dfy`, `Subscribers.dfy` and `Shutdown.dfy`.
