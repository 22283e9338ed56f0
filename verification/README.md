# Model of the FUSE shared-memory transport

The FUSE adapter under `fuse/` fetches file contents, attributes, listings and link targets from a Java
process. A request goes out as a frame on a control pipe; the reply comes back through one of twenty
memory slots, each a 51200-byte buffer behind a process-shared lock. This project models that transport and
the path handling on top of it, and proves what it promises to its callers.

| file | what it models |
|---|---|
| `Bytes.dfy` | bytes, C's 32-bit conversion, little-endian two's-complement integers |
| `MemSlot.dfy` | one slot as a state machine: every lock-protected region of `memslot.c` is one step |
| `Transfer.dfy` | the sending and the receiving loop as two programs, interleaved in every way |
| `SlotCalls.dfy`, `Delivery.dfy` | the calls as functions of what the peer does while they wait; a call is one of the interleavings |
| `WaitClock.dfy` | the timeout arithmetic |
| `SlotMemory.dfy` | the mapped file with its headers, buffers and cursors, updated in place |
| `Listing.dfy` | length-prefixed names and the loop of readdir |
| `ControlPipe.dfy` | records, frames, short writes, writers that compete for the lock |
| `SlotPool.dfy` | the pool of slot ids and the accounts of all operations of a process |
| `ReadProtocol.dfy` | `blkfs_do_read` end to end: any number of threads of two processes, and one responder, as a state machine |
| `ReadTracks.dfy`, `ReadSafety.dfy`, `ReadGuarantees.dfy` | its invariant, read by read and as a whole, and what callers may rely on |
| `ReadProgress.dfy` | how many steps a run can have without new reads |
| `ReadOverPipe.dfy` | the same protocol with frames that enter the pipe by short and failing writes, as a refinement |
| `Chains.dfy`, `ReadRuns.dfy` | runs of it: the implementation's read, a timeout and the read after it, and runs that break the contract |
| `FileOperations.dfy` | read, getattr, readdir and readlink as they run on the shared objects |
| `MappedPaths.dfy` | the tokenizer, the slash counter and the place a mapped path leads to |

## How concurrency is modelled

A region that holds a lock is one step. A wait releases the lock, so it is a guard: the step happens when the
flag has the value that is waited for, or the wait may give up. Theorems about all interleavings
(`MemSlot`, `Transfer`, `ControlPipe`, `SlotPool`, `ReadGuarantees`, `ReadOverPipe`) quantify over sequences of such steps. The
methods that update memory in place (`SlotMemory`, `SlotPool`, `ControlPipe`, `FileOperations`) take a list of
what other threads and processes do while the method sleeps, and are proved equal to functions of that
list. What is done to an operation's slot after its request has gone out and before it looks at the slot is in a list of
its own, so the reset has to come before the request. `Delivery.ReceiveLoopIsARun` and `Delivery.SendFullyIsARun` show that the receiving and the sending call are runs
of the interleaved programs. `FileOperations.DoReadIsARun` shows that the implementation's read is a run of the reading
protocol, when nothing is asked or being sent on the slot that it gets; other threads may act on the pool while it
sleeps for an id, and requests for other slots may be waiting. Each wait reads its own clock, and what the list holds is what happens before the wait's deadline.

The Java responder is not modelled as code but as a contract, in `ReadProtocol`. It takes requests from the
pipe one after another. It answers one by sending a reply on the slot that the request names, at most as many bytes as
asked, with a zero-length send behind it when the reply is empty, or shorter than asked and a multiple of the buffer
size; or it drops the request; and it may give up the sends that are left of a reply. The contract's last part:
when a client gives up on a slot after its timeout, or returns from a read of no bytes, the responder has nothing
more to do on that slot.

The protocol's steps do not depend on the last part, so that what it is good for can be said exactly.
Without it, a completed read took only sends made for its own request if and only if its slot was quiet when it was
reset, leaving aside what the responder itself gives up (`ReadGuarantees.QuietResetDecides`). With it, every reset
finds a quiet slot with no unread byte in it, and every completed read of at least one byte returns its own bytes
(`ReadGuarantees.ReadsReturnTheirOwnBytes`). For reads of at least one byte that complete it need not be asked for
(`CompletionIsQuiet`). After a timeout it must be: `ReadRuns.LateReplyIsTaken` is a run in which a read returns the byte
meant for another, because `txNo` is counted but never compared; and `ReadRuns.TimedOutSlotServesNextRead` is a run by
contract in which a read times out and the next one on the same slot returns its own.

## What turned out differently from what one might expect

- A read that asks for more than a full buffer does not stop at a chunk of exactly 51200 bytes: it keeps
  waiting for the next one. So a message of a full buffer is partitioned by successive reads only if the first
  read asks for at most 51200 bytes. `SlotCalls.ReadsPartitionMessage` gives the exact condition.
- The listing loop loses its place when a length field or a name straddles a multiple of 51200, and cuts names at
  a NUL. `Listing.ListingRoundTrip` and `Listing.ListingInOneMessage` hold if and only if neither happens;
  `Listing.StraddlingNameIsLost` is a listing that is not collected.
- `getSlot` admits slot number 20, whose region lies outside the mapped file
  (`SlotMemory.SharedSlots` uses the numbers below 20, and `SlotPool.SlotsAreExclusive` shows that no other is handed out).
- The path of a mapped file does not always determine where it came from: a site such as `a_12` collides with
  site `a` and vault 12. `MappedPaths.AmbiguousSitesCollide` says exactly which sites can collide.
- The two path parsers agree if and only if the path begins with four non-empty components, each after exactly
  one slash, followed by a fifth slash (`MappedPaths.ParsersAgree`); they do not on any mapped path with the slash after
  its first component doubled, such as `/a//b/1/2` (`MappedPaths.DoubledSlashDisagrees`).
- A torn frame, left by a writer that fails in mid-message, ends the correspondence between the pipe and the requests
  (`ControlPipe.WholeMessagesInLockOrder`). When a frame breaks off in its path and another whole frame follows, the
  responder decodes a request that nobody made (`ControlPipe.TornFrameMisleads`). With nothing behind it, it does no
  harm (`ReadOverPipe.FineRunIsRun`).
- A failed control write loses the slot id for good in reads and in getattr, not in readdir and readlink.

Where comments and code disagree, the model follows the code: the comment on `struct blkfs_stat`
(`fuse/blkfs.c:29`) says that 0 is a directory and 1 a file, the code treats 0 as a regular file and 1 as a
directory (`fuse/blkfs.c:413-431`); the comment on `blkfs_is_mapped_dir` (`fuse/blkfs.c:38-42`) asks for four slashes
and then a digit, the code for at least four tokens of which the fourth is all digits.

## Model

| member | source | states |
|---|---|---|
| MemSlot.StreamConserved | fuse/memslot.c:199-306 | from any contents at the reset, over every sequence of what any process does: bytes received followed by bytes pending at the cursor are the bytes accepted from senders |
| MemSlot.SlotStates | fuse/memslot.c:199-306 | over every run from the zeroed file: WAITING exactly when bufLen is -1, UNDERREAD means 0 < bufLen < 51200, SENDING means 0 to 51200; exactly one of the send and receive guards is open; the copied window is inside the buffer; a receive past its wait never sees a negative length |
| MemSlot.EndMarkerAbsorbs | fuse/memslot.c:252-306 | after a zero-length send and until the next reset, every receive returns 0 and changes nothing, and every send is blocked |
| MemSlot.OnlyEmptySendsMarkEnd | fuse/memslot.c:216-249 | without a zero-length send, no run brings a slot into that state |
| MemSlot.RunMarks | fuse/memslot.c:132-214 | over every run a slot is terminated if and only if it was or has been closed, and `txNo` has grown by the number of its resets |
| MemSlot.StoreChunkKeeps | fuse/memslot.c:238-243 | a send leaves a well-formed slot whose pending bytes are the chunk, cut at the buffer size |
| MemSlot.TakeBytesKeeps | fuse/memslot.c:271-302 | a receive takes the first min(max, pending) bytes, leaves the others pending, and frees the slot exactly when it took all |
| Transfer.ChunksCover | fuse/memslot.c:309-332 | the chunks of a message are the message in order, each fits the buffer, and there are ceil(len / 51200) of them |
| Transfer.TransferDelivers | fuse/memslot.c:309-359 | in every interleaving of one send_fully with one receive_fully after a reset: the receiver has a prefix, returns only with the first min(len, max) bytes, and at the end is still waiting exactly when the message is unmarked, shorter than max and a multiple of the buffer size |
| Transfer.TransferTerminates | fuse/memslot.c:309-359 | every interleaving is finite: each turn uses up one of at most 2 * sends + 1 |
| Transfer.ExactTransferAlternates | fuse/memslot.c:309-359 | for len == max > 0 sends and receives alternate strictly, exactly one of the two is possible until ceil(len / B) of each have happened, and then all bytes are delivered |
| Transfer.CarriesNext | fuse/memslot.c:216-359 | the invariant of a session that carries one message is kept by either program's turn |
| SlotCalls.SendFullyAccepts | fuse/memslot.c:309-332 | if nobody else sends or resets meanwhile, the slot accepts all of the data in order when the call returns the length, and whole buffers from its front when it returns -1 |
| SlotCalls.ReadWithinChunk | fuse/memslot.c:261-294 | a read on a chunk, in particular on one half read before, returns exactly min(max, q) of its q bytes without waiting, never goes into the next chunk, and leaves the slot WAITING exactly when the chunk is used up |
| SlotCalls.ReadsPartition | fuse/memslot.c:334-359 | successive reads of positive sizes hand out one chunk piece by piece, in order, and the slot is WAITING again exactly when it is used up |
| SlotCalls.ReadsPartitionMessage | fuse/memslot.c:334-359 | the same for a message of at most one buffer, with the exact condition under which its first read returns |
| SlotCalls.FullBufferKeepsWaiting | fuse/memslot.c:352-357 | a read of more than a full buffer takes the full buffer, waits on, and with no further send fails with all bytes taken |
| SlotCalls.WaitIs | fuse/memslot.c:160-196 | a wait goes through exactly the events up to the first moment at which the flag is as wanted or the slot is terminated, or through all of them, and is satisfied if and only if the flag is then as wanted |
| SlotCalls.CloseEndsSend | fuse/memslot.c:160-249 | a send that sleeps returns -1 as soon as it finds the slot terminated, having used no further event and left the slot as it found it |
| SlotCalls.CloseEndsReceive | fuse/memslot.c:160-265 | so does a receive on a slot with nothing to take |
| SlotCalls.CloseWakes | fuse/memslot.c:132-167 | a call asleep when the slot is closed returns -1, and the slot is as it was but for the mark |
| SlotCalls.ClosedSlotDoesNotWait | fuse/memslot.c:160-306 | on a slot that is already terminated a call that would have to wait returns -1 at once and changes nothing, and one that would not goes on as on any other slot |
| Delivery.ReceiveLoopIsARun | fuse/memslot.c:252-359 | the receiving call against a peer that only sends is one run of the interleaved programs, and fails only where neither has a turn left |
| Delivery.ReceiveFullyDelivers | fuse/memslot.c:334-359 | after a reset, against a peer that sends one message, the call returns min(len, max) with those bytes, or -1 in exactly the case that the transfer theorem excepts |
| Delivery.SendLoopIsARun | fuse/memslot.c:321-330 | the sending loop against a receiving program is one run of the interleaved programs: it hands the slot the chunks of the data, all of them when it returns the length; when it returns -1 some are left and it is waiting |
| Delivery.SendFullyIsARun | fuse/memslot.c:309-332 | the same for the whole call, an empty message being one empty send |
| Delivery.SendFullyDelivers | fuse/memslot.c:309-332 | when the call returns the length of a message sent on a reset slot, the receiver has it in order but for what is still in the slot; when it fails the receiver has less |
| WaitClock.DeltaIsAccurate | fuse/memslot.c:170-171 | for normalized, monotone readings the truncating microsecond formula is nonnegative and less than 1 microsecond off |
| WaitClock.TimeoutIsHonest | fuse/memslot.c:171-175 | a timeout means that more than 300 s have passed, and after 300.001 s there always is one |
| WaitClock.BackwardsIsTimeout | fuse/memslot.c:170-175 | a reading before the first one, by a microsecond or more, ends the wait at once, because the difference is stored unsigned |
| WaitClock.SleepsAreBounded | fuse/memslot.c:163-193 | if the clock advances by at least a fixed tick per sleep, the number of sleeps of one wait is bounded |
| SlotMemory.RegionsAreDisjoint | fuse/memslot.c:39-58 | the header-plus-buffer regions of different slot numbers never overlap |
| SlotMemory.RegionIsInside | fuse/memslot.c:39-58 | among the numbers that the guard admits, exactly those below 20 have their region inside the file |
| SlotMemory.SharedSlots.constructor | fuse/memslot.c:79-130 | the created file has 20 * (header + 51200) + 1 bytes and holds twenty slots that are zeroed, which reads as SENDING with nothing to send, each buffer behind its header |
| SlotMemory.SharedSlots.PreReceive | fuse/memslot.c:199-214 | resets this slot and leaves every other slot as it was |
| SlotMemory.SharedSlots.WaitOnSlot | fuse/memslot.c:160-196 | returns 1 exactly when the flag came to be the requested one through what happened before the deadline; a wait that is satisfied on entry, or meets a terminated slot there, sleeps for nothing and changes nothing; and -1 means that the slot was terminated or the deadline was passed |
| SlotMemory.SharedSlots.SendImpl | fuse/memslot.c:216-249 | is one send of the specification, on this slot only |
| SlotMemory.SharedSlots.ReceiveImpl | fuse/memslot.c:252-306 | is one receive of the specification, copies exactly its bytes to the caller and leaves the rest of the caller's buffer and all other slots alone |
| SlotMemory.SharedSlots.CopyOut | fuse/memslot.c:271-302 | the part after the wait, with the cursor arithmetic: the bytes copied are those at the cursor, inside the slot's own buffer |
| SlotMemory.SharedSlots.SendFully | fuse/memslot.c:309-332 | the loop is the specified sending call, on this slot only |
| SlotMemory.SharedSlots.ReceiveFully | fuse/memslot.c:334-359 | the loop is the specified receiving call: return code, new slot, bytes gathered at the front of the caller's buffer, nothing else touched |
| SlotMemory.SharedSlots.Close | fuse/memslot.c:132-148 | marks every slot as terminated and changes nothing else |
| Listing.NamesUseBytes | fuse/blkfs_shared.c:124-159 | every name read uses up bytes of the slot or of sends to come, so the listing loop terminates whatever arrives |
| Listing.ListingRoundTrip | fuse/blkfs_shared.c:124-159 | names of 1 to 10000 bytes sent in any nonempty chunks, ended by a zero length or a zero-length send, are collected exactly and in order if and only if no field straddles a chunk boundary and no name contains a NUL |
| Listing.ListingInOneMessage | fuse/blkfs.c:500-519 | the same for a listing sent by one send_fully, in terms of multiples of the buffer size |
| Listing.StraddlingNameIsLost | fuse/blkfs.c:500-519 | a listing with a name on both sides of a multiple of the buffer size, which is not collected |
| Listing.ListingOutcome | fuse/blkfs.c:500-519 | of a listing in one message that does not straddle, the loop offers the names up to the first that the kernel refuses, and it ends properly if and only if none is refused and the listing has an end: when the sends stop without one, it breaks off with an error |
| Listing.LengthDecides | fuse/blkfs_shared.c:124-159 | a length of more than 10000 or below -1 is an error, 0 and -1 end the listing, and any other is followed by a name of at most so many bytes |
| Listing.NoLengthDecides | fuse/blkfs_shared.c:124-159 | when there are no four bytes for a length: one to three are a null name, an empty send ends the listing, no send at all is an error |
| Listing.TextEndsAtNul | fuse/blkfs_shared.c:142-151 | the text of a name ends at its first NUL, and bytes that were declared and did not come are unset |
| ControlPipe.RecordRoundTrip | fuse/blkfs.h:16-24 | a record is read back from its 40 bytes |
| ControlPipe.RecordLayout | fuse/blkfs.h:16-24 | which of the 40 bytes hold which field, lowest byte first in two's complement |
| ControlPipe.RequestAsks | fuse/blkfs_shared.c:195-227 | byte by byte and as a reader decodes it, what a request's frame says: client 0, increment 0, the slot's id, the path and its length, the offset, the length asked for and the command |
| ControlPipe.FrameRoundTrip | fuse/blkfs_shared.c:195-207 | a reader finds a frame at the front of any stream, with what follows it |
| ControlPipe.PartialFrameIsIncomplete | fuse/blkfs_shared.c:195-207 | a proper prefix of a frame is never taken for one |
| ControlPipe.FramingIsInjective | fuse/blkfs_shared.c:195-207 | two sequences of requests give the same byte stream if and only if they are the same |
| ControlPipe.WholeMessagesInLockOrder | fuse/blkfs_shared.c:166-191 | over every interleaving of writers and every pattern of short writes, the pipe is the complete messages in lock order if and only if no writer failed in mid-message |
| ControlPipe.FramesDecodeInLockOrder | fuse/blkfs_shared.c:166-207 | at every moment, in mid-write too, the responder decodes exactly the requests of the completed writers in lock order, as long as nothing is behind a torn frame |
| ControlPipe.TornFrameMisleads | fuse/blkfs_shared.c:166-207 | for any two requests with different records: when a writer of the first fails in the middle of the path and the second goes in whole behind it, only the second was made, but the responder first decodes a request with the first one's record and a path that is partly the second one's frame |
| ControlPipe.Control.DoWriteString | fuse/blkfs_shared.c:166-180 | the recursion appends the message, or the prefix that was written before the failing write, and returns 0 or -1 accordingly |
| ControlPipe.Control.WriteMessage | fuse/blkfs_shared.c:195-207 | returns 0 exactly when the whole frame is in the pipe, else -1 with a proper prefix there |
| ControlPipe.CallIsOneTurn | fuse/blkfs_shared.c:182-191 | what the recursive call puts into the pipe is one turn of the lock in the writers' state machine |
| SlotPool.GiveUndoesTake | fuse/blkfs_shared.c:57-71 | an id taken and given back is the next one granted, and the free list is the same but for a freshly issued id |
| SlotPool.GetNextGrantsOrGivesUp | fuse/blkfs_shared.c:77-116 | after its sleeps the caller gets what the pool then grants, or gives up with the null id 21, later than 30 seconds after its beginning or with the pool still empty |
| SlotPool.SleepsOnlyWhenBusy | fuse/blkfs_shared.c:85-107 | it sleeps only as long as it finds the pool empty, and not after 30 seconds |
| SlotPool.ReturnedIdIsGranted | fuse/blkfs_shared.c:85-107 | an id that comes back to an exhausted pool is granted to a caller that wakes up within 30 seconds, and to no later one |
| SlotPool.TenIdsAtOnce | fuse/blkfs_shared.c:77-116 | over every run of a process: while fewer than ten ids are held or lost, a caller gets one at once, below 20, of the process's party and held by nobody; with ten it gets the null id 21 when nothing comes back; there are never more |
| SlotPool.SharedPool.GetNextDatafile | fuse/blkfs_shared.c:77-116 | the loop computes the specified id and leaves the specified pool |
| SlotPool.SharedPool.Unlink | fuse/blkfs_shared.c:57-71 | puts the id in front of the free list, and does nothing for the null id |
| SlotPool.LedgerAccounts | fuse/blkfs_shared.c:57-116 | over every run of any number of threads: an id is issued if and only if it is free, held or lost, and none is counted twice; lost ids are as many as the failed control writes of reads and getattrs in that run; the counter is party + 2 * (most ids ever outstanding at once) |
| SlotPool.HowHoldsEnd | fuse/blkfs_shared.c:57-71 | in every run, a failed control write of a read or a getattr loses its id, and every other end, also the failed write of a readdir or a readlink, puts it in front of the free list |
| SlotPool.SlotsAreExclusive | fuse/blkfs_shared.c:77-116 | over all runs of a party-0 and a party-1 process: no id is free and held, or held twice; held ids are below 20 and of the party's parity; no slot is held by both |
| ReadGuarantees.ReadsReturnTheirOwnBytes | fuse/blkfs_shared.c:210-253 | in every interleaving of any number of threads of both processes with a responder that keeps its contract, dropped requests, given-up replies and timeouts included, every completed read of at least one byte returned exactly the bytes given for its own path, offset and length, asked for as data, and took no other's sends |
| ReadGuarantees.NoSlotIsShared | fuse/blkfs_shared.c:210-238 | in every run, with or without the contract's last part, two threads inside a read hold different slots, whichever processes they are of |
| ReadGuarantees.FailedWriteLosesSlot | fuse/blkfs_shared.c:228-234 | in every run, the slot of a read whose control write fails is never held by any thread again |
| ReadGuarantees.QuietResetDecides | fuse/blkfs_shared.c:228-237 | in every run, with or without the contract's last part, a completed read took only sends made for it if and only if its slot was quiet when it reset it, unless the responder gave up what else was there; and on a slot that was quiet it returned exactly its own bytes |
| ReadGuarantees.ResetWipesNoReply | fuse/blkfs_shared.c:228-229 | by contract, because the reset precedes the request, a slot that is reset holds no unread byte, no send is left for it and no request for it is open |
| ReadGuarantees.NeverBlocked | fuse/blkfs_shared.c:210-253 | in every state reached by contract, for every thread inside a read some step is possible that brings this read on: its own, a send on its slot, or an answer to the front of the pipe while its request is in there; unless the responder gave up that read, and then it may time out |
| ReadProgress.RunIsBounded | fuse/blkfs_shared.c:210-253 | every step but a new read uses up a measure of work, whatever the responder does: a run without new reads has at most as many steps as there is work |
| ReadProgress.EveryReadEnds | fuse/blkfs_shared.c:210-253 | going on by contract without new reads ends after boundedly many steps, and not while a thread is inside a read: its read can go on, or was given up and may time out |
| ReadGuarantees.CompletionIsQuiet | fuse/blkfs_shared.c:236-237 | when a read of at least one byte on a slot that was quiet completes, it has its whole reply, the responder is done with its slot, and no unread byte is left there |
| ReadRuns.LateReplyIsTaken | fuse/memslot.c:199-206 | a run in which a thread times out before its request is answered, the next read resets the same slot, both are answered, and the second read completes with the byte meant for the first |
| ReadRuns.LateRequestIsDropped | fuse/memslot.c:199-206 | a run in which the late request is dropped instead, and the second read returns its own byte though its slot was not quiet |
| ReadRuns.TimedOutSlotServesNextRead | fuse/blkfs_shared.c:210-253 | a run by contract in which a read times out, its id is handed out again, and the new read on that slot returns its own byte |
| ReadRuns.ReadIsARun | fuse/blkfs_shared.c:210-253 | when a read can start on a free slot, requests for other slots waiting or not, the protocol has a run by contract in which it gets any allowed reply, with slot and pool left as the calls of the implementation leave them |
| ReadOverPipe.FrontIsFirstRequest | fuse/blkfs_shared.c:166-207 | with frames going in piece by piece, a reader finds a whole frame at the front of the pipe exactly when a request is waiting, and then that request |
| ReadOverPipe.FineRunIsRun | fuse/blkfs_shared.c:166-253 | every run of the threads and the responder over a pipe with short writes, failing writes and a last torn frame is a run of the protocol in which frames go in at once, and by contract if it is |
| ReadOverPipe.ReadsOverPipeReturnTheirOwnBytes | fuse/blkfs_shared.c:166-253 | so over such a pipe, too, every completed read of at least one byte returned exactly its own bytes |
| ReadSafety.StepKeeps | fuse/blkfs_shared.c:210-253 | the system's invariant is kept by every step of every thread and of the responder, timeouts and given-up requests included |
| ReadTracks.FinishedIsSettled | fuse/blkfs_shared.c:236-252 | a read that completes on a slot that was quiet has its whole reply and nothing is left to come; on any other it took another's sends, unless those were given up |
| FileOperations.Filesystem.DoRead | fuse/blkfs_shared.c:210-253 | the bytes of the request in the pipe (command 0), the bytes and the code returned, -EBUSY (16) without an id and -EPIPE (32) after a failed write, the slot afterwards, and the pool: the id is in front of the free list if the control write succeeded and not free if it failed; the size is cut to 32 bits |
| FileOperations.Filesystem.Getattr | fuse/blkfs.c:360-438 | likewise for attributes (command 1); the id is lost when the control write fails |
| FileOperations.Filesystem.ReadEntryString | fuse/blkfs_shared.c:124-159 | one length and one name, with every early return, is one entry of the specification |
| FileOperations.Filesystem.ReadList | fuse/blkfs.c:500-513 | the loop collects exactly the specified listing |
| FileOperations.Filesystem.Readdir | fuse/blkfs.c:476-526 | likewise for a listing (command 2): the entries offered to the kernel, the dot entries exactly for a nonempty listing, and the id in front of the free list on every path that returns, also after a failed control write |
| FileOperations.Filesystem.Readlink | fuse/blkfs.c:618-647 | likewise for a link (command 3): the target cut to size - 1 with a NUL behind it, 0 for a positive count, and the id in front of the free list on every path, also after a failed control write |
| FileOperations.OperationIsLedgered | fuse/blkfs_shared.c:210-238 | an operation changes the pool exactly as beginning and then ending or failing does in the process's accounts, whatever other threads do while it sleeps for an id and until it gives the id back; one that gives up waiting leaves the pool alone |
| FileOperations.ReadReturnsReply | fuse/blkfs_shared.c:236-252 | a reply sent as the contract says is what the read returns, byte for byte |
| FileOperations.DoReadIsARun | fuse/blkfs_shared.c:210-253 | what the implementation's read does to its slot, its pool and its caller's bytes is what a run of the protocol by contract does, others acting on the pool while it sleeps for its id and requests for other slots waiting |
| FileOperations.StatusRoundTrip | fuse/blkfs.c:27-31 | a status structure is read back from its 24 bytes |
| FileOperations.StatusLayout | fuse/blkfs.c:27-31 | which of the 24 bytes hold the size, the type and the time |
| FileOperations.GetattrAnswers | fuse/blkfs.c:387-437 | a status sent whole: type 0 is a regular file 0444 with one link and the status's size, 1 a directory 0555 with two links and size 4096, 2 a symbolic link 0555 with one link and the status's size, each with the status's time; -1 is ENOENT (2), anything else EPIPE (32) |
| FileOperations.GetattrFails | fuse/blkfs.c:389-403 | a shorter reply, or none, is EPIPE, and the caller's structure is left alone |
| FileOperations.ReadlinkCopies | fuse/blkfs.c:639-646 | a link target arrives cut to the caller's room and NUL-terminated, or the call fails in exactly the excepted case |
| FileOperations.ReadlinkCopiesNothing | fuse/blkfs.c:639-646 | an empty target, or no room for more than a NUL, copies nothing and is no error |
| FileOperations.ReaddirOffers | fuse/blkfs.c:500-526 | a listing without straddling fields is offered name by name up to the first one refused, followed by the dot entries exactly when a name was taken; the call succeeds if and only if none was refused and the listing has an end |
| MappedPaths.StrTokIsFirstToken | fuse/blkfs.c:54-61 | the tokenizer's cursor walks through the non-empty components in order |
| MappedPaths.IsMappedDir | fuse/blkfs.c:43-79 | true exactly for paths of at least four components whose fourth is all digits |
| MappedPaths.CountSlashes | fuse/blkfs.c:81-94 | counts the slashes and reports where the slash after the requested one is, or -1 if there is none |
| MappedPaths.ResolveImgLocation | fuse/blkfs.c:96-113 | the text before the fifth slash plus ".rnd", or nothing if there are at most four |
| MappedPaths.ResolvesWithFiveSlashes | fuse/blkfs.c:81-113 | a path has an image file if and only if it has five slashes or more, and then it is what is before the fifth with ".rnd" |
| MappedPaths.ParsersAgree | fuse/blkfs.c:43-113 | slash counter and tokenizer agree on the image file if and only if the path begins with four non-empty components, each after one slash, and a fifth slash |
| MappedPaths.RetryResolves | fuse/blkfs.c:451-465 | a path with four slashes resolves, with "/p0" appended, to the path plus ".rnd" |
| MappedPaths.ImageIsNotMapped | fuse/blkfs.c:96-113 | the image file of an absolute path is never itself a mapped path |
| MappedPaths.BuildMappedPath | fuse/blkfs.c:137-186 | the stream gets the specified text, whichever component is the first to be missing |
| MappedPaths.BuildBreaksOff | fuse/blkfs.c:137-172 | for fewer than four components, the text up to where it breaks off |
| MappedPaths.VaultIsDigits | fuse/blkfs.c:158-165 | the vault number is the longest run of at most ten digits at the front of the component |
| MappedPaths.BuildRendersKey | fuse/blkfs.c:151-186 | for a mapped path that text is site, vault number, version, disk and tail with their separators |
| MappedPaths.MappedPathIsInjective | fuse/blkfs.c:151-186 | for sites that are not ambiguous, two paths lead to the same place if and only if they agree on site, vault number, version, disk and tail |
| MappedPaths.NoUnderscoreIsClear | fuse/blkfs.c:155-156 | a site without an underscore is not ambiguous |
| MappedPaths.AmbiguousSitesCollide | fuse/blkfs.c:151-186 | a mapped path's site is ambiguous if and only if another mapped path with a shorter site leads to the same place |
| MappedPaths.UnderscoreSiteCollides | fuse/blkfs.c:151-186 | two such paths: site a_12 with vault 7, and site a with vault 12 |
| MappedPaths.DoubledSlashDisagrees | fuse/blkfs.c:43-113 | every path of four components or more, the fourth all digits, with the slash after the first one doubled is mapped and has an image, but not the one of its four components |

## Left out

- Lock failures, robust mutexes and lost or spurious signals: locks succeed, and a wait is a guard that may also time out.
- The system calls for mapping and opening files, logging, sleeping and thread creation; the size of a slot's header is a symbol.
- The mapping of the shared file into several processes: one object stands for the file, and the cursors, which each client process keeps for itself, belong to it. No slot is ever used by both processes.
- Unbounded waits: when a method's list of sleeps or events is used up, the wait it is in has timed out.
- `txNo` has no upper bound; in C it wraps around after 2^31 resets, and nothing depends on it.
- Big-endian hosts and other layouts of the 40-byte record and the 24-byte status.
- SlotMemory.SharedSlots.SendImpl: the lengths given to it are not negative; a negative length would reach the buffer length unchecked.
- FileOperations.Filesystem.Readdir: `errno` at the end is a parameter, because other calls overwrite it, as the source itself remarks; it may be negative, since the loop stores -ENOMEM when the kernel refuses a name; a null name handed to the kernel's filler is reported as a crash.
- FileOperations.Filesystem.Getattr: the branch for a negative code other than -1 from the control write cannot be taken, since the write returns 0 or -1 only.
- Listing.ListingRoundTrip: allocating a name fails only for negative lengths below -1; running out of memory for other lengths is not modelled.
- ReadOverPipe.FineRunIsRun: one lock for all writers. The lock of the source is one process's; two processes that write at the same moment rely on the pipe's own atomicity. Nobody writes behind a torn frame here; what happens then is in ControlPipe.
- ReadGuarantees.ReadsReturnTheirOwnBytes: getattr, readdir and readlink are not among its threads; they use the slots in the same way and appear in FileOperations. Reads of no bytes return at once and are given no bytes to compare.
- MappedPaths.CountSlashes: the offset is -1 where C subtracts from a null address; its caller does not use it then.
- ReadGuarantees.ReadsReturnTheirOwnBytes: reads of 2^31 bytes or more, whose length does not survive the conversion to 32 bits, are in FileOperations.Filesystem.DoRead only.
- ReadGuarantees.NeverBlocked: a thread that waits for an id is not counted as inside a read.
- ReadGuarantees.QuietResetDecides: it says which sends a read took, not that another's bytes differ from its own; they may agree by chance.
- FileOperations.DoReadIsARun: the responder answers this read, no other thread uses the pool between the grant and the return of the id, and nothing is asked or being sent on the slot at the grant; the theorems of ReadGuarantees are about all interleavings.
- ControlPipe.FramesDecodeInLockOrder: one direction only; bytes behind a torn frame may decode to the right requests by chance.
- Listing of mapped directories, pass-through operations on mapped files, the remapping read and `realpath` polling in `blkfs_get_mapped_path` (fuse/blkfs.c:187-227), and the stubs for write, truncate, chmod and the like.
- The JNI wrappers, the Java side beyond its contract, and the web interface.
