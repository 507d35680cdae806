# Lancaster: a verified model of the replication core

Lancaster replicates fixed-size records from one writer to many readers. A writer commits records into
shared memory under a version lock and logs the changed identifiers in a ring. A sender batches the
changes into sequence-numbered multicast packets. Receivers notice sequence gaps and have them repaired
over a TCP back-channel. This project models that core and the data structures under it, and proves what
the design is for: a replica never goes back in time, nothing is silently lost, and a replica can always
be brought to equal the writer's storage.

## How the model is laid out

| files | what they hold |
|---|---|
| `Sequences`, `SenderModel`, `ReceiverModel` | sequence ranges; the protocol state of sender, TCP client and receiver, and what each event handler does to it, as functions |
| `Protocol` | the whole system as a transition system: writer, sender, any number of receivers that come and go, a multicast network that loses, duplicates and reorders, two message pipes per receiver |
| `ProtocolInvariants`, `Coverage` | the invariants that span both processes and everything in flight, and the proof that every step keeps them |
| `Replication`, `CatchUp`, `TimeTravel` | the whole-run theorems: coverage, convergence record by record, the way back to equality; exactly when a replica can go back in time |
| `LostUpdates`, `ReplacedRequests`, `BrokenFrames` | the exact conditions under which an update is lost; runs in which the request buffer is started over |
| `GapAccounting`, `GapScan` | what a receiver asks for; one gap scan over any number of interrupted calls |
| `SenderProcess`, `ReceiverProcess`, `Handlers` | the handlers as imperative code that updates fields and arrays in place, proved equal to the model functions; a call of a handler is a stretch of a path on which everybody else runs on |
| `Wire`, `PacketCodec`, `TcpFraming`, `RequestFraming` | the same messages as bytes: MTU arithmetic, packet walk, the two-stage TCP reader, gap requests and what becomes of their frames when one is replaced |
| `SpinLock`, `Seqlock` | the version lock; interleaved writers and readers that copy cell by cell |
| `Bits`, `ChangeQueue`, `StorageLayout` | mask arithmetic; the power-of-two change ring beside its unbounded log; segment layout |
| `Eraser`, `Twist`, `Latency`, `HashTable`, `Poller` | compaction, the lazy Mersenne Twister, one-pass statistics, the chained hash table, swap-removal during iteration |

## What is assumed of the environment

- Revisions do not wrap and records are not cleared while the sender runs. A record's value is therefore
  represented by the revision that committed it: `Seqlock.SnapshotIsOneCommit` shows that the copy loops
  read a value together with its revision, and `TcpFraming` and `PacketCodec` show that the bytes of a
  value arrive as they were sent.
- There is one storage writer; it appends to the change queue after each commit and before the next.
- While the sender is in its queue loop, the writer stays within one capacity of last_q_idx, so that
  reading a slot of the change queue yields the entry of the unbounded log that the model reads
  (`ChangeQueue.ReadIsExact`). The code checks this once before the loop, and an overrun found there is
  fatal, which is the default (src/sender.c:281-289).
- A multicast send that blocks while the queue is empty ends the sender (src/sender.c:277-278).
- The network may deliver any packet ever sent, any number of times, in any order, or never.
- Timers are replaced by free choice: any step that a timer could trigger may happen at any time.
- The receiver's one-slot request buffer may be started over at any moment; requests are written in
  pieces. Results that hold only under a condition on this are stated with it: `Orderly` (a request is not
  replaced before it is written) for coverage and convergence, `SafeReads` (no request read makes a range
  pending that holds a sequence the receiver has not reached) for the absence of time travel, and `Framed`
  (no request was ever replaced after its first byte) for the absence of refused requests. The conditions
  are needed, see below.

## Where the code falls short of the property

Each of these is stated for the code as it is, with a concrete run or input and the exact condition.

1. Accepting a client while none is connected moves the sender to the head of the change queue
   (src/sender.c:455-460), but the packet buffer and the packets on the network may still hold values
   staged before the last client left (src/sender.c:502-503). A record that changed in between is then
   not queued, and a stale packet counts as its delivery. `LostUpdates.SkippedChangeIsReachable` gives the
   run; `LostUpdates.ConvergesExactly` shows, record by record, that the condition `SkippedChange` is exact
   for convergence. The loss lasts until that record is committed again: not less, by
   `LostUpdates.LostUntilNextCommit`, and not more, by `Replication.CommitRestores`. Other records are not
   affected (`Replication.ReplicaConverges`).
2. `request_gap` replaces a request that has not been written yet (src/receiver.c:147-148).
   `BrokenFrames.ReplacedRequestIsReachable` gives a run. Whatever else is pending,
   `ReplacedRequests.ReplacedRequestLoses` says exactly which records are uncovered, and
   `ReplacedRequests.ReplacedLossIsExact` exactly which of these updates can be lost for good.
3. `request_gap` does not look at how much of the request before it has been written either. If it was
   written in part, the byte stream loses its frames until the bytes written of replaced requests add up to
   whole frames again: `RequestFraming.ReplacedFramesAligned`, for any number of replacements.
   `BrokenFrames.InvalidRequestIsReachable` is a run in which the sender then reads a range it refuses, and
   `BrokenFrames.TimeTravelIsReachable` one in which its answers let a record go back in time. The second
   has an exact condition on the step that reads a request: while every such step leaves a safe range
   pending, no record goes back (`TimeTravel.NoTimeTravel`), and one that does not opens a way back
   (`TimeTravel.UnsafeReadGoesBack`).
4. `eraser -c` with an identifier given more than once can overwrite a live record
   (`Eraser.RepeatedIdLosesARecord`). `Eraser.EraserConservesExactly` says when it does, for any
   identifiers. With identifiers out of order it can leave holes (`Eraser.DescendingLeavesAHole`) although
   the repository's README, lines 182-185, says that compaction eliminates them.
   `Eraser.EraserLeaves` says exactly which slots are used afterwards, for any identifiers and storage;
   `Eraser.EraserCompactsExactly` gives the condition for distinct identifiers and a storage without holes in
   terms of the number of records and the identifiers, and ascending identifiers always meet it
   (`Eraser.AscendingFillsInOrder`).
5. `storage_get_id` returns the index of a record, not its identifier; it inverts `storage_get_record`
   exactly when identifiers start at zero (`StorageLayout.GetIdOfGetRecord`).
6. A reader of the change queue checks for an overrun once and reads afterwards. An entry read is the
   right one exactly when the writer, counting the entry it is storing, is not more than the capacity
   ahead at the moment of the read (`ChangeQueue.ReadIsExact`, `ChangeQueue.CheckIsNotEnough`);
   `ChangeQueue.BatchReadChanged` says what the batch reader returns for every writer.

## Model

| member | source | states |
|---|---|---|
| `Replication.ReachableInv` | src/sender.c:118-232 | every state of every run, also of those in which a partly written request is replaced, satisfies the invariants over sender, packet buffer, network, history, log, receivers and messages in flight; a connection that has lost its frames keeps what does not depend on them, and no other connection is affected |
| `Replication.StepKeeps` | src/sender.c:697-720 | every enabled step of the system keeps those invariants |
| `TimeTravel.NoTimeTravel` | src/receiver.c:224-255 | over every run with loss, duplication, reordering and requests replaced at any byte, the writer revision a replica holds never decreases and never exceeds the storage's, as long as no request read makes an unsafe range pending |
| `TimeTravel.UnsafeReadGoesBack` | src/sender.c:669-685 | a step that reads a request and makes an unsafe range pending is followed by some continuation in which a record goes back |
| `TimeTravel.UnsafeGoesBack` | src/sender.c:631-639 | the same whenever an unsafe range is pending for a sound receiver, whatever the connection is busy with and whether the sequence in it is staged or still to be |
| `TimeTravel.SafeThroughout` | src/sender.c:557-587 | while requests are read safely, every repair tag stays below the receiver's next sequence and every record_seqs entry too |
| `TimeTravel.FramedReadsSafely` | src/receiver.c:139-148 | a receiver that never replaced a partly written request reads safely |
| `Replication.UpdatesWithinPacketMonotone` | src/receiver.c:235-240 | the same for each single update while one packet is applied |
| `Replication.DroppedRequestIsEmpty` | src/sender.c:631-633 | a request dropped because it lies at or below min_seq contains the sequence of no record, whatever scans of other clients wrote to min_seq |
| `Replication.NoInvalidRequest` | src/sender.c:674-676 | no request is refused as an invalid range, as long as none of that receiver's was replaced after its first byte |
| `Replication.PassedChangesAreStaged` | src/sender.c:292-302 | no queue entry is passed before a revision at least as new as that change is staged, in spite of the loop's early exits, while the writer stays within one capacity |
| `LostUpdates.ConvergesExactly` | src/sender.c:455-461 | a record of a receiver that just connected is bound to converge, in every orderly continuation, if and only if no change of it was skipped |
| `Replication.NothingIsForgotten` | src/sender.c:552-600 | for every record of an orderly receiver, whatever was skipped before it connected, at every later time the latest staging is held, still ahead, queued, requested, being scanned or in flight |
| `Replication.CoveredThroughout` | src/sender.c:552-600 | over any orderly stretch of a path, both halves of coverage outlast every step |
| `Replication.ReplicaConverges` | src/receiver.c:373-379 | whenever nothing is in motion, the replica of an orderly receiver equals the storage in every record that had no skipped change when it connected, or was committed since, or is staged at its current revision |
| `Replication.RecordConverges` | src/receiver.c:373-379 | the same for one record |
| `Replication.CommitRestores` | src/sender.c:173-217 | whatever had been lost, a record that is committed again converges |
| `Coverage.CommitCovers` | src/batch.c:92-98 | a commit covers its record for every receiver whose requests are whole |
| `Replication.StaysConnected` | src/sender.c:496-506 | a connection present at two moments was present all the time between |
| `TimeTravel.SafeStepKeeps` | src/receiver.c:328-386 | no step of a connection that reads safely lowers the revision a replica holds, whatever became of its frames |
| `CatchUp.ReplicaCanCatchUp` | src/sender.c:535-651 | from every state there is a continuation without commits after which the replica equals the storage as it stands, in every record accounted for as in ReplicaConverges |
| `CatchUp.Settle` | src/sender.c:622-651 | the repair schedule ends, and ends only with nothing in motion |
| `CatchUp.NextStep` | src/sender.c:262-305 | each step of the schedule is enabled, orderly, no commit, and lowers the rank |
| `CatchUp.SessionNext` | src/receiver.c:245-255 | on the TCP side, requesting, reading, scanning and answering lower the rank step by step |
| `CatchUp.GlobalNext` | src/sender.c:173-193 | on the multicast side, a turn that sends a packet and keeps its index is followed by a skip, so the backlog shrinks |
| `LostUpdates.SkippedChangeIsReachable` | src/sender.c:455-460 | a run in which a client connects after a change was skipped |
| `LostUpdates.BufferedAndDeserted` | src/sender.c:496-506 | a run after which the packet buffer holds a record and nobody is connected |
| `LostUpdates.SkippedChangeCanBeLost` | src/sender.c:455-460 | from every such state the update can be lost, without any further commit |
| `LostUpdates.LostUntilNextCommit` | src/receiver.c:229-230 | a lost update stays lost whatever happens, until the record is committed again or the request stream loses its frames |
| `LostUpdates.CoveredIsNotDoomed` | src/receiver.c:224-255 | covered and lost exclude each other |
| `ReplacedRequests.ReplacedRequestLoses` | src/receiver.c:139-148 | replacing a request before its last byte is written uncovers a record if and only if the record was last staged in its range and awaits no newer staging, whatever requests, scans and responses are pending |
| `ReplacedRequests.ReplacedLossIsExact` | src/receiver.c:139-148 | if nothing of it had been written, such an update can be lost for good, without any commit, if and only if the replica, with everything already sent to it, will not hold the current value |
| `ReplacedRequests.UnaskedCanBeLost` | src/sender.c:622-651 | the older requests can be answered until nothing will bring the record |
| `ReplacedRequests.MendedIsNeverDoomed` | src/receiver.c:373-379 | an update that a response already on its way carries is never lost |
| `BrokenFrames.ReplacedRequestIsReachable` | src/receiver.c:147-148 | a run in which a request is replaced before it is written and a record is lost |
| `BrokenFrames.InvalidRequestIsReachable` | src/sender.c:674-676 | a run in which a request is replaced after nine bytes and the sender refuses what it reads |
| `BrokenFrames.TimeTravelIsReachable` | src/receiver.c:229-240 | a run in which a request is replaced after one byte and a record goes back in time |
| `BrokenFrames.Replaced` | src/receiver.c:144-148 | the state in which the buffer was started over after k bytes, for every k |
| `LostUpdates.SkippedChangeDiverges` | src/sender.c:455-460 | after a skipped change, an orderly path leads to a quiet state in which that record is wrong |
| `Replication.FramedAllAlong` | src/receiver.c:296-302 | a receiver of which no request was replaced in part up to now had none replaced in part before |
| `Replication.OrderlyFromFramed` | src/receiver.c:316-326 | an orderly receiver never replaces a partly written request |
| `ProtocolInvariants.UnframedStepKeeps` | src/sender.c:556-600 | a client whose frames are lost does not endanger min_seq or anything else that is shared, whatever ranges it has answered |
| `ProtocolInvariants.QueueKeeps` | src/sender.c:262-305 | a turn of the queue loop, with its skip, append, blocked and sent outcomes, keeps the shared invariants and only lets the past grow |
| `ProtocolInvariants.StageKeeps` | src/sender.c:195-217 | staging keeps: header equals next_seq equals the sequence noted for everything in the buffer, older revisions first |
| `ProtocolInvariants.FlushKeeps` | src/sender.c:118-147 | a packet sent is exactly what was staged under its sequence, and every sequence below next_seq was sent |
| `ProtocolInvariants.BeatKeeps` | src/sender.c:244-255 | a heartbeat keeps the invariants and consumes no sequence |
| `ProtocolInvariants.DeliverKeeps` | src/receiver.c:175-256 | an arbitrary packet keeps the receiver's invariants and lowers no revision although it is applied without checking record_seqs |
| `ProtocolInvariants.ReadResponseKeeps` | src/receiver.c:366-383 | a gap response keeps the invariants and lowers no revision |
| `ProtocolInvariants.ScanKeeps` | src/sender.c:557-597 | a response queued by the scan carries a value that can stand for its sequence |
| `ProtocolInvariants.ScanDoneKeeps` | src/sender.c:599-600 | min_seq, overwritten when a scan ends, is a lower bound of all sequences although records were re-staged meanwhile |
| `ProtocolInvariants.RequestStepKeeps` | src/sender.c:631-639 | merging requests, starting a scan or dropping a request keeps every range non-empty and below the receiver's next sequence |
| `ProtocolInvariants.ApplyRecsEffect` | src/receiver.c:232-240 | after a packet, a record it mentions holds the newest of the values it carries, and every other record is unchanged |
| `Coverage.GlobalStepKeepsCovered` | src/sender.c:262-305 | commits, log writes, queue turns, flushes and heartbeats keep every record covered |
| `Coverage.QueueKeepsCovered` | src/sender.c:173-217 | in particular a queue turn that stages, skips or sends |
| `Coverage.DataPacketEffect` | src/receiver.c:229-240 | what an accepted packet does to a record, by whether its sequence is below, at or above the record's latest staging |
| `Coverage.DeliverKeepsCovered` | src/receiver.c:224-255 | a packet or heartbeat received in an orderly way keeps every record covered |
| `Coverage.ReadResponseKeepsCovered` | src/receiver.c:373-382 | so does a gap response, applied or ignored |
| `Coverage.RequestKeepsCovered` | src/sender.c:674-682 | so do sending, reading and merging requests, starting a scan and dropping a request below min_seq |
| `Coverage.ScanKeepsCovered` | src/sender.c:556-600 | so does each turn of a scan and its end |
| `Coverage.WriteOutKeepsCovered` | src/sender.c:333-346 | so does writing a message |
| `GapAccounting.GapsPartition` | src/receiver.c:224-253 | for every sequence of packets and heartbeats, requested ranges are non-empty, ascending and disjoint and partition [0, next_seq) with the sequences applied; the first packet requests from 0 |
| `GapAccounting.HearKeepsPartition` | src/receiver.c:245-253 | one packet keeps the partition |
| `GapAccounting.RequestIsRecorded` | src/receiver.c:245-249 | the range handed to the socket is the one accounted for |
| `GapScan.ScanExaminesOnce` | src/sender.c:546-600 | over any number of interrupted calls, with sequences and revisions changing in between, every record passed is examined once, in order, exactly the written records in range get exactly one response, and the least sequence met is found |
| `GapScan.FinishedScanMin` | src/sender.c:557-599 | the min_seq that a finished scan leaves is at most every sequence it met and one of them |
| `GapScan.UndisturbedScanMin` | src/sender.c:557-599 | if nothing was staged meanwhile, it is the least of all records' sequences |
| `GapScan.StartOrDrop` | src/sender.c:631-639 | merged requests at or below min_seq are dropped without a scan; any other start one at the first record, unless one is running |
| `GapScan.ScanLoopLooks` | src/sender.c:557-597 | the same within one call |
| `GapScan.ScanLoopEnds` | src/sender.c:557-600 | a call that leaves no message has reached the last record |
| `SenderProcess.SenderProcess.constructor` | src/sender.c:758-780 | initial sequence, min_seq, revisions and sequences |
| `SenderProcess.SenderProcess.AccumRecord` | src/sender.c:159-232 | skip, append, blocked or sent-and-append, as in the model, with the revision the copy loop ended with |
| `SenderProcess.SenderProcess.OnEmptyQueue` | src/sender.c:234-260 | sends the whole buffer under its sequence and counts it, or a heartbeat, exactly when one is due; a blocked send is fatal; otherwise nothing changes |
| `Handlers.EmptyQueueIsStep` | src/sender.c:234-260 | what it sends is the protocol's Flush if the buffer holds records and its Beat otherwise, and the packet is what joins the network |
| `Handlers.BlockedIsFatal` | src/sender.c:277-278 | a blocked send ends the sender and loses nothing that is staged |
| `Handlers.HeartbeatIsStep` | src/sender.c:606-610 | a due TCP heartbeat is the protocol's step |
| `SenderProcess.SenderProcess.RunQueue` | src/sender.c:292-302 | the queue loop of the model, each turn with the revision read first and the one its copy loop ended with |
| `SenderProcess.SenderProcess.McastOnWrite` | src/sender.c:262-305 | empty queue with its flush or heartbeat, overrun, or the queue loop |
| `SenderProcess.ClientProcess.TcpOnRead` | src/sender.c:669-685 | an invalid range is refused, a valid one is merged |
| `SenderProcess.ClientProcess.TcpOnWrite` | src/sender.c:552-617 | the scan loop of the model, the new min_seq when it ends, or a heartbeat |
| `ReceiverProcess.ReceiverProcess.UpdateRecord` | src/receiver.c:108-126 | stores the value and its sequence, or refuses the identifier and changes nothing |
| `ReceiverProcess.ReceiverProcess.McastOnRead` | src/receiver.c:224-255 | the model's transition; on a bad identifier the records before it stay applied |
| `ReceiverProcess.ReceiverProcess.TcpOnRead` | src/receiver.c:366-379 | applies a response only if its sequence is newer than the record's; not defined exactly for identifiers outside the storage |
| `Handlers.QueueCallIsSteps` | src/sender.c:292-302 | on every path on which the sender is inside mcast_on_write, with any steps of the writer and the receivers between its turns, the protocol arrives at the state the loop computes from the revisions it read |
| `Handlers.ScanCallIsSteps` | src/sender.c:556-600 | the same for a scanning call of tcp_on_write, although records change between its turns |
| `Handlers.QueueTurnIsStep` | src/sender.c:292-297 | wherever the others have taken the system, the next turn is an enabled step |
| `TcpFraming.ChunkingIsInvisible` | src/receiver.c:258-386 | however the byte stream is cut into reads, what was delivered is a prefix of what was sent, and all of it once every byte is read |
| `TcpFraming.CallStaysInStep` | src/receiver.c:336-383 | one call delivers nothing or exactly the next message, whatever number of bytes arrived |
| `TcpFraming.FullyRead` | src/receiver.c:336-383 | no complete message is ever left undelivered |
| `TcpFraming.ReservedBytes` | lancaster/sequence.h:22-23 | the bytes of a heartbeat and of a farewell |
| `TcpFraming.FreshIsSynced` | src/receiver.c:511-512 | a new reader is in step with everything that will be sent |
| `TcpFraming.MessageReader.TcpOnRead` | src/receiver.c:328-386 | the buffer code implements the two-stage reader |
| `TcpFraming.MessageWriter.Put` | src/sender.c:582-610 | a message joins the stream only after the previous one has been written |
| `TcpFraming.MessageWriter.Write` | src/sender.c:333-346 | partial writes send the messages' bytes in order, none twice, none skipped, as many as the socket accepts |
| `RequestFraming.RequestChunkingIsInvisible` | src/sender.c:307-331 | however any byte stream is cut into reads, the sender reads its 16-byte frames and nothing else |
| `RequestFraming.FramesOfRequests` | src/sender.c:669-672 | requests written as a whole are read as they were written |
| `RequestFraming.ReplacedFramesAligned` | src/receiver.c:139-148 | however many requests were replaced after however many bytes, the stream is aligned if and only if the bytes written add up to whole frames, and every request written as a whole at a frame boundary is read as written |
| `RequestFraming.LostAndFound` | src/receiver.c:144-148 | two requests replaced after eight bytes each: the third is read as written again |
| `RequestFraming.ReplacedFrameIsMixed` | src/receiver.c:144-148 | after the first request replaced in part, the next frame read begins with it and ends with the next |
| `RequestFraming.ReplacedAfterLower` | src/receiver.c:144-148 | replaced after its lower bound: the ranges the sender then reads |
| `RequestFraming.RequestWriter.RequestGap` | src/receiver.c:139-148 | starts the buffer over: what was written stays in the stream, which will be aligned if and only if that is whole frames |
| `RequestFraming.RequestWriter.Write` | src/receiver.c:289-314 | partial writes keep the stream and send as many bytes as the socket accepts |
| `Wire.Get64Put64` | src/receiver.c:212 | network byte order round trip for every 64-bit value |
| `PacketCodec.PerPacket` | src/sender.c:820-824 | the number of records that fit: at least one, and one more would exceed the MTU |
| `PacketCodec.MtuMeaning` | src/sender.c:820-824 | exactly the MTUs are accepted in which a record fits |
| `PacketCodec.PacketBuffer.Accumulate` | src/sender.c:184-217 | the buffer never exceeds the MTU, is sent exactly when it holds as many records as fit, keeps its records if the send blocks, and its header is next_seq |
| `PacketCodec.PacketBuffer.Append` | src/sender.c:195-214 | header if empty, then the record, after those already there |
| `PacketCodec.PacketBuffer.Send` | src/sender.c:124-146 | the packet carries sequence, the time of sending and the staged records in order and is not empty |
| `PacketCodec.Walk` | src/receiver.c:191-240 | refuses a truncated header; reads the records up to the end of the one in which the last byte lies; exactly the records sent if these are whole |
| `PacketCodec.WalkRecovers` | src/receiver.c:191-240 | an encoded packet gives back sequence, time and the staged list in order |
| `SpinLock.LockWord` | src/spin.c:44-72 | a failed fetch-or leaves the word, a successful one hides the revision, NEXT_REV is the successor until it wraps |
| `SpinLock.SpinUntilFree` | src/spin.c:20-66 | the first free test succeeds; a failed sleep ends the wait; a deadlock is reported after exactly 11,001 failures and not before |
| `Seqlock.OneHolder` | src/spin.c:44-72 | in every interleaving at most one writer holds the lock |
| `Seqlock.SnapshotIsOneCommit` | src/batch.c:36-46 | in every interleaving a finished reader has exactly the cells and the revision of one commit |
| `Seqlock.CheckIsExact` | src/sender.c:203-212 | the re-read accepts if and only if the lock is free and nothing was committed since |
| `Seqlock.ReachableInv` | src/storage.c:516-551 | what holds of word, cells, writers and readers in every interleaving |
| `Seqlock.TryLockAcquires` | src/spin.c:49-65 | an attempt on a free lock acquires it with the revision found; one on a held lock changes nothing |
| `Seqlock.WriterCommits` | src/batch.c:88-95 | from every state with a free lock a writer can lock, write and release, leaving exactly the new contents under the next revision |
| `Seqlock.ReaderReads` | src/batch.c:36-46 | from every state with a free lock a reader can finish with exactly the contents and the revision |
| `Seqlock.WrittenIsRead` | src/batch.c:36-95 | what is written is read back under the next revision |
| `Seqlock.ReleaseRestores` | src/storage.c:708-709 | a lock taken and given back with nothing written leaves the record as it was |
| `Bits.MaskIsMod` | src/storage.c:583-599 | masking with a power of two less one is the remainder |
| `Bits.Pow2Test` | src/table.c:32-34 | q & (q - 1) is zero exactly for powers of two |
| `ChangeQueue.CapacityMeaning` | src/storage.c:305-308 | the capacities accepted are zero and the powers of two from two on |
| `ChangeQueue.EntryInSlot` | src/storage.c:589-601 | which entry a slot holds: the last one congruent to it |
| `ChangeQueue.ChangeRing.Write` | src/storage.c:573-587 | appends to the log and keeps its last entries in the slots |
| `ChangeQueue.ChangeRing.Read` | src/storage.c:589-601 | any index not overtaken yields its log entry |
| `ChangeQueue.ReadIsExact` | src/storage.c:589-601 | a read yields the entry asked for if and only if the writer is not more than the capacity ahead at that moment, counting the entry being stored |
| `ChangeQueue.CheckIsNotEnough` | src/batch.c:172-189 | when exactly an entry that passed the check is overwritten by the time it is read |
| `ChangeQueue.SliceOfLog` | src/batch.c:182-218 | the ids are a slice of the log if the writer stayed within the capacity until the last access |
| `ChangeQueue.BatchReadChanged` | src/batch.c:130-227 | reports bad arguments, or an overrun exactly when a look at the head finds it more than the capacity ahead, or returns n <= count and advances by n, with at least what the first look found; for every writer, each id is what its slot held at the moment it was read |
| `ChangeQueue.FirstLookDecides` | src/batch.c:161-180 | what the first look at the head finds decides between an overrun with nothing read and at least that much read |
| `StorageLayout.Aligned` | lancaster/xalloc.h:36 | the least multiple of eight that is not smaller |
| `StorageLayout.AlignedIsMasked` | lancaster/xalloc.h:36 | computed by masking, as the macro does |
| `StorageLayout.RecordInside` | src/storage.c:99-114 | every record is aligned and lies between the change queue and the end of the segment; value and property do not overlap |
| `StorageLayout.SegmentIsLeast` | src/storage.c:112-114 | the segment is the least number of whole pages that holds the header and the records |
| `StorageLayout.RoundUpIsMasked` | src/storage.c:112-114 | computed by masking, as the code does, for a page size that is a power of two |
| `StorageLayout.RegionsAreDisjoint` | src/storage.c:617-629 | different records do not overlap |
| `StorageLayout.GetIdOfGetRecord` | src/storage.c:603-629 | get_id of get_record is the index, hence the identifier if and only if the base is zero |
| `Eraser.EraserConserves` | src/eraser.c:79-133 | for distinct identifiers in any order, compaction conserves the multiset of surviving records |
| `Eraser.CompactConserves` | src/eraser.c:97-133 | it only permutes records below any bound it starts under |
| `Eraser.MoveConserves` | src/eraser.c:117-131 | a move conserves the contents if and only if its target slot is cleared |
| `Eraser.EraserConservesExactly` | src/eraser.c:97-133 | for any identifiers, repeated or not, the surviving records are conserved if and only if no repeated identifier has its turn below a live record |
| `Eraser.RepeatedIdLosesARecord` | src/eraser.c:97-133 | three records, the first erased twice: a live record is overwritten |
| `Eraser.EraserLeaves` | src/eraser.c:93-134 | for any identifiers, repeated or not, and any storage: exactly which slots are used afterwards, hence exactly when no hole is left |
| `Eraser.EraserCompactsExactly` | src/eraser.c:93-134 | from a storage whose first u records are used, with distinct identifiers, no hole is left if and only if their order meets a condition on u and the identifiers alone |
| `Eraser.ReleasesLastByCount` | src/eraser.c:99-107 | whether the loop moves or releases, by counting survivors and identifiers |
| `Eraser.Survivors` | src/eraser.c:79-91 | how many records survive the erasing |
| `Eraser.AscendingFillsInOrder` | src/eraser.c:106-107 | ascending identifiers always meet it |
| `Eraser.DescendingLeavesAHole` | src/eraser.c:106-107 | descending ones need not be |
| `Eraser.EraseClears` | src/eraser.c:79-91 | the erased records are cleared and no other is touched |
| `Eraser.Store.FindPrevUsed` | src/storage.c:673-713 | finds the topmost used record, leaves only that one locked |
| `Eraser.Store.Erase` | src/eraser.c:79-91 | the erase loop clears the records and leaves none locked |
| `Eraser.Store.CompactLoop` | src/eraser.c:97-133 | the compaction loop computes the compaction and leaves no lock held |
| `Eraser.Store.MoveRecord` | src/eraser.c:112-131 | moves value, property, timestamp and revision, clears the source |
| `Twist.Draw` | src/twist.c:35-68 | for every seed and n, the first n outputs are those of MT19937 |
| `Twist.Twister.Rand` | src/twist.c:46-68 | call n returns the tempered word n + 624 and the ring holds words n + 1 to n + 624 |
| `Twist.Twister.Seed` | src/twist.c:35-44 | seeding fills the ring with the first 624 words |
| `Twist.Mix` | src/twist.c:57-58 | the branch-free word is the recurrence's |
| `Twist.TemperInPlace` | src/twist.c:63-66 | the four in-place steps are the tempering |
| `Twist.TemperLinear` | src/twist.c:63-66 | the tempering is linear over exclusive or |
| `Twist.TemperOnBits` | src/twist.c:63-66 | its values on the 32 single bits, which determine it |
| `Twist.TwistedByParts` | src/twist.c:57-58 | which bits of which word the twist uses, and where they go |
| `Twist.XTwists` | src/twist.c:48-60 | the recurrence with its distances 624 and 397 |
| `Twist.SeedExamples` | src/twist.c:39-43 | the first words for the default seed |
| `Latency.AddSampleIsExact` | src/latency.c:69-71 | one update turns the two-pass statistics of a sample sequence into those of the longer one |
| `Latency.Tracker.OnSample` | src/latency.c:62-81 | after any samples, count, mean and M2 are the two-pass values |
| `Latency.Tracker.Roll` | src/latency.c:83-101 | curr describes exactly the samples since the previous roll, next starts empty |
| `HashTable.BindsOnce` | src/table.c:80-140 | each key class is bound at most once |
| `HashTable.SlotInRange` | src/table.c:87 | the bucket of a hash is its remainder by the capacity |
| `HashTable.CapacityMeaning` | src/table.c:31-34 | the capacities accepted are the powers of two |
| `HashTable.AbsentIsUnbound` | src/table.c:89-100 | a key not in its own bucket is nowhere in the table |
| `HashTable.Table.Lookup` | src/table.c:80-101 | finds exactly the binding of the key |
| `HashTable.Table.Insert` | src/table.c:103-140 | binds the key's class and changes no other binding, on linked cells; without memory for a new cell nothing changes |
| `HashTable.Table.Remove` | src/table.c:142-168 | unbinds the key's class and changes no other binding; NOT_FOUND exactly when nothing was bound; what the destructor is given |
| `HashTable.TakeOut` | src/table.c:158-161 | unlinking a cell leaves the chain of the others |
| `Poller.Poller.Add` | src/poller.c:63-97 | appends to both arrays, doubling them when full; without memory for either the list is as it was |
| `Poller.Poller.Remove` | src/poller.c:99-118 | swap-removal of a registered socket, both arrays in step |
| `Poller.Poller.Process` | src/poller.c:142-155 | with callbacks that remove their own socket or fail, sockets are visited once each from the last on, up to the first failure, and exactly those visited and closed are gone |
| `Poller.CloseAll` | src/sender.c:476-494 | teardown empties the poller |

## Left out

- Sockets, shared memory and files, signals, alarms, clocks and threads: system calls; partial counts,
  blocked results and times are parameters or free choices.
- The greeting string and its parsing (src/sender.c:832-845, src/receiver.c:462-489): text formatting.
- The ignore_overrun restart (src/sender.c:285-286): the model keeps to the default, where overrun is fatal.
- WILL_QUIT written over a partly written message (src/sender.c:521-524): the framing model has WILL_QUIT
  only between messages and as the last one.
- Heartbeat timeouts, orphan and recreate checks and the statistics counters: single time comparisons.
- Clearing a record while the sender runs, and revision wrap-around in the protocol model; the wrap itself
  is in `SpinLock` and `Seqlock`, where a read must see fewer than 2^63 commits.
- Memory ordering weaker than sequential consistency, and floating-point rounding.
- Minimum, maximum and the square root in src/latency.c; the variance under the root is modelled.
- storage_find_next_unused and the argument checks of the batch functions other than a zero count: easy members.
- src/dict.c, src/advert.c, src/toucher.c, src/reporter.c, src/dump.c, src/error.c, the command-line
  programs other than eraser, and the Go code: plumbing.
- TimeTravel.UnsafeReadGoesBack: needs a sequence left below the overflow check for the packet that takes the
  record back, and a receiver that was sound before.
- Replication.NoInvalidRequest: assumes that no request of the receiver was ever replaced after its first byte;
  a run shows that requests can be refused otherwise, and which frames are read then is in `RequestFraming`.
- Replication.PassedChangesAreStaged: reads an unbounded log, which is what the ring yields while the
  writer stays within one capacity of last_q_idx.
- Replication.ReplicaConverges: assumes orderly requests; what is lost otherwise is in `ReplacedRequests`.
- CatchUp.ReplicaCanCatchUp: says that a continuation exists, not that a scheduler takes it; it needs enough
  sequences left below the overflow check for what is queued.
- ReplacedRequests.ReplacedLossIsExact: is for a request of which nothing had been written; otherwise a stream
  without frames may happen to ask for the record again.
- SenderProcess.SenderProcess.AccumRecord: a revision that changed during the copy loop is required to differ from the staged one,
  which holds while revisions do not wrap.
- PacketCodec.Walk: has no result for a last record that goes past the receive buffer, where the code reads on.
- ReceiverProcess.ReceiverProcess.TcpOnRead: has no result for identifiers outside the storage, for which the code
  indexes record_seqs before any check.
- ChangeQueue.BatchReadChanged: the wait is bounded by a ghost patience, so an infinite timeout is not modelled; the
  record copies inside the loop are the reads of `Seqlock`.
- Poller.Poller.Process: callbacks remove at most the socket they were called for, and sockets are distinct; the
  poll results (revents) are left out.
- Eraser.Store.FindPrevUsed: the eraser's locks are taken on records nobody else holds; waiting is in `SpinLock`.
- Eraser.EraserCompactsExactly: is for distinct identifiers and a storage without holes; `Eraser.EraserLeaves` is for all.
