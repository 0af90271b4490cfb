# Verified models of the OpenHarmony HDF adapter

The adapter connects the Hardware Driver Foundation (HDF) to its two hosts, LiteOS
(`khdf/`) and user space (`uhdf2/`), and to boards (`platform/`). Most of it is glue. The
parts with state of their own are modelled here, and what they promise is proved for every
input, every run and every interleaving of the steps described.

| file | models |
|---|---|
| SmqSyncer.dfy | the futex syncer of the shared-memory queue, any number of threads, one atomic operation a step; its deadlines |
| SmqOffsets.dfy | the two offsets of that queue: what is readable, who may go ahead, where a transfer ends |
| SmqBlocking.dfy | blocking `Read` and `Write` on top of the syncer, with and without time-outs, any number of readers and writers; a transfer looks at the offsets in one step and stores its own in another |
| SmqRing.dfy | the non-blocking transfers, synchronised or overwriting: a ring with two offsets and split copies |
| SmqInterleave.dfy | the same transfers taken apart: one writer and one reader at once, one element a step |
| SmqWhole.dfy | syncer, blocking protocol and ring together, one writer and one reader, every step of each |
| NetBuffer.dfy | a network buffer: head room, data and tail room in one block |
| NetBufQueue.dfy | queues of network buffers: a circular doubly linked list with a cached 32-bit size |
| NetBufQueues.dfy | runs over several such queues |
| PbufConvert.dfy | conversion between network buffers and lwIP pbuf chains |
| UartRing.dfy | the receive ring of a UART port, filled by interrupts between any two steps of the reader and never checked for fullness |
| ServiceRegistry.dfy | the service manager's stub: who owns which service object and which remote |
| ServiceListeners.dfy | service-status listeners: holders and registrations |
| StubCollector.dfy | a get-or-create cache under two nested locks, any number of threads |
| PowerSequence.dfy | the order of power notifications in a driver host |
| HostRespawn.dfy | the counter that throttles restarts of a dying driver host |
| Firmware.dfy | reading a firmware file in 64-byte blocks |
| Parcel.dfy, DeviceAttribute.dfy, DeviceQuery.dfy | the message buffer, and the attribute and query formats written to it and read from it |
| Memory.dfy, Common.dfy | copying into an array; options, bytes and 32-bit arithmetic |

Concurrent parts are state machines over their atomic steps; parts that update memory in
place are classes and methods over arrays and linked objects, each method proved against a
function of the old state.

## What the proofs found

- **Waking several bits loses wakeups.** `Wake` returns early if any bit of its set is on.
  `NoLostWakeupIff` shows that this is harmless exactly when every `Wake` raises one bit at
  most, whatever bits waiters wait on; `LosingRun` is a run of two threads that loses one.
- **A second reader, or a second writer, can be left asleep** beside its data or its room,
  with no wake on its way until the other side's next call, on top of a sound syncer: a
  companion took its token, or, with two writers alone, stored an offset that it had computed
  before the other wrote (`WritersRace`). `NeverOversleepsIff` has the exact condition, for
  every capacity and every set of threads: one reader and one writer at most, or nothing can
  be put into the queue, because all are readers or the capacity is at most 1.
- **Reader and writer can block each other**, exactly when the largest read and the largest
  write together exceed the capacity (`NeverBothAsleepIff`).
- **A queue of the unsynchronised kind can get stuck.** A write that ends exactly at twice the
  capacity leaves the write offset at the end of the ring; every later write fails, and a
  reader that empties the ring finds all of it readable again. That is possible from a fresh
  queue exactly when a write may be longer than the capacity (`NeverStuckIff`).
- **Growing a network buffer can write outside the new block.** The new length is computed
  modulo 2^32, and the room given to `memcpy_s` is `size - head`, also modulo 2^32, so the
  check does not see the head room. For every buffer that holds anything before its tail
  room, a resize whose head room overflows passes the check and copies outside the block
  (`SafeResizeIff`). A tail room that overflows loses 4 GiB instead, and an empty buffer
  ends with its data behind the end (`OverflowOutcomes`; inputs in `RoomsCanBreak`). A
  resize does what was asked exactly when the length fits (`AsAskedIff`).
- **Concatenating a thing with itself goes wrong.** A buffer is freed and success reported;
  a queue drops all its buffers without freeing them.
- **The UART ring loses exactly 512 bytes at a time**, and is faithful exactly when that
  never happens (`FaithfulIffNoOverrun`). It overruns on the 512th unread byte, or on the
  513th while the reader is between the test of its guard and the load, when a ring that
  looks empty is still read as full.
- **A firmware file that ends close to 4 GiB cannot be read to its end**, and one beyond
  4 GiB is cut short or read for ever, round and round: the end test wraps, and so does the
  recorded size. `ReadToEnd` has the exact condition.
- **Some refused requests are answered with success**: an add or update whose device class
  or remote cannot be read, and a listener registration that the manager refused.
- **A device attribute read when memory runs out** can lose its match attribute unnoticed.

## Assumptions about code that is not part of this model

- `hdf_dlist.h`: insertion and removal are the usual ones for circular lists; the merge
  appends the first list's elements behind the second's and leaves the first empty, by the
  pointer updates written out in `NetBufQueue.DListMerge`.
- `memcpy_s` refuses a copy into no room or too little room, by the room it is told of, and
  copies otherwise. A pbuf chain's own copies always fit. `NetBufDevAlloc` yields an empty,
  whole buffer. Elements of a ring are copied one after the other.
- The futex compares and queues in one step, wakes whoever has a common bit, and refuses an
  empty bitset. A sleep may end by time-out, by a signal, or for no reason.
- The service manager beneath the stub is a map from names to objects: a successful add or
  update files the object, a refused one changes nothing. Its listener list appends and
  removes. Every remote read from a parcel is a fresh handle
  (`uhdf2/ipc/src/hdf_remote_adapter.cpp:184-200`). Death is reported for watched remotes.
- A parcel is a stream of typed items; a number read that fails yields 0, as
  `uhdf2/ipc/src/hdf_sbuf_impl_hipc.cpp:235-288` has it. A failed read moves nothing.
- Wake states are `RESUME` and `DOZE_RESUME`; every state but the maximum is valid. Usable
  and unusable services, local and remote types, are numbered 1 and 0, 0 and 1.
- What the allocator, the clock, the file system, the installer and the callbacks of
  devices answer is a parameter of the modelled operation.

## Model

| member | source | states |
|---|---|---|
| SmqSyncer.StepKeepsWaker | uhdf2/hdi/src/hdi_smq_syncer.cpp:51-99 | after any step of any thread, a thread asleep on a bit that is on still has a waker that has set the bit and not yet entered the kernel |
| SmqSyncer.StepKeepsInv | uhdf2/hdi/src/hdi_smq_syncer.cpp:36-99 | the protocol's invariant survives every step: call, fetch-and, compare-and-sleep, time-out, signal, spurious end, fetch-or, futex wake |
| SmqSyncer.RunKeepsInv | uhdf2/hdi/src/hdi_smq_syncer.cpp:36-99 | ... and every run of any number of threads in which each Wake raises one bit at most |
| SmqSyncer.SleeperHasItsWake | uhdf2/hdi/src/hdi_smq_syncer.cpp:69-98 | in every reachable state a sleeper on a set bit has a wake under way, and that wake followed by the sleeper's own next step ends its call with success |
| SmqSyncer.QuietMeansNobodyMissed | uhdf2/hdi/src/hdi_smq_syncer.cpp:36-99 | in every reachable state without a wake in progress, nobody sleeps on a set bit |
| SmqSyncer.LosingRunLoses | uhdf2/hdi/src/hdi_smq_syncer.cpp:84-90 | for any bitset with two bits there is a run in which the early return of Wake leaves a sleeper on a set bit with no wake coming |
| SmqSyncer.NoLostWakeupIff | uhdf2/hdi/src/hdi_smq_syncer.cpp:84-98 | for every collection of bitsets that wakers may use: no run loses a wakeup if and only if each of them has one bit at most; waiters' bitsets are arbitrary |
| SmqSyncer.BitsAreConserved | uhdf2/hdi/src/hdi_smq_syncer.cpp:51-90 | from any state, over any run and any bitsets: each 0-to-1 turn of a bit by Wake is matched by one 1-to-0 turn in Wait or is the bit still on; nothing else turns it |
| SmqSyncer.SuccessIsTaking | uhdf2/hdi/src/hdi_smq_syncer.cpp:53-76 | when waits on a bit are waits on it alone, the waits that return success are exactly those that took it: EAGAIN, EINTR and time-outs take nothing |
| SmqSyncer.TokenConservation | uhdf2/hdi/src/hdi_smq_syncer.cpp:36-99 | from a zero word: wakes that turned the bit on equal successful waits plus the bit's present value |
| SmqSyncer.EventsTell | uhdf2/hdi/src/hdi_smq_syncer.cpp:36-99 | over every run the events alone determine the word, and every thread inside Wait or Wake is there with the bits, the time-out and the expected word of its last call |
| SmqSyncer.CallsAndReturns | uhdf2/hdi/src/hdi_smq_syncer.cpp:36-99 | over every run and for every thread: calls of Wait equal fetches that found a bit, time-outs and compares for no bit, plus one while a wait is under way; likewise for Wake; signals, spurious ends, unequal compares and fetches that found nothing end no call |
| SmqSyncer.SleepCanEnd | uhdf2/hdi/src/hdi_smq_syncer.cpp:60-82 | a sleep can be ended by a signal or for no reason at any time, and by a time-out exactly if its call was given one |
| SmqSyncer.NextStep | uhdf2/hdi/src/hdi_smq_syncer.cpp:36-99 | after each step of its own, exactly the steps that a thread can take next, from the events before it |
| SmqSyncer.OthersStep | uhdf2/hdi/src/hdi_smq_syncer.cpp:92-98 | a step of one thread changes what another can do only by waking it, and wakes exactly those asleep on one of the bits |
| SmqDeadline.TimeoutToRealtime | uhdf2/hdi/src/hdi_smq_syncer.cpp:101-116 | the deadline is a normalized time exactly `timeout` nanoseconds after the normalized clock reading |
| SmqDeadline.FutexDeadline | uhdf2/hdi/src/hdi_smq_syncer.cpp:61-68 | the kernel is given a deadline exactly for positive time-outs, and it is clock plus time-out |
| SmqBlocking.DoKeepsNotice | uhdf2/include/hdi/base/hdi_smq.h:272-401 | one reader, one writer, with or without time-outs: whoever waits though it could be served has its bit on, or the other side is about to turn it on; every step keeps that, the store of an offset included |
| SmqBlocking.StoreSize | uhdf2/include/hdi/base/hdi_smq.h:373-396 | the offset a transfer stores is one it computed before; the number of readable elements changes by exactly what it moved, whatever the other side did in between |
| SmqBlocking.DoKeepsUnderway | uhdf2/include/hdi/base/hdi_smq.h:365-437 | a transfer that was possible when it looked stays possible, and ends where it should, under every step of the other side |
| SmqBlocking.DoKeepsPlace | uhdf2/include/hdi/base/hdi_smq.h:265-350 | a reader is only ever inside Wait on the read bit or Wake of the write bit, a writer the other way round |
| SmqBlocking.PlayKeepsInv | uhdf2/include/hdi/base/hdi_smq.h:265-437 | the combined invariant of queue and syncer holds after every interleaving of one reader's and one writer's calls, each with its look at the offsets and its store apart |
| SmqBlocking.NobodyOversleeps | uhdf2/include/hdi/base/hdi_smq.h:265-437 | one reader and one writer: no sleeping call could be served without a wake of it being under way, in every play, whatever the counts, also when a transfer of the other side is half way |
| SmqBlocking.NeverBothAsleep | uhdf2/include/hdi/base/hdi_smq.h:265-350 | reader and writer are never both asleep while largest read plus largest write stay within the capacity |
| SmqBlocking.BothCanSleep | uhdf2/include/hdi/base/hdi_smq.h:265-350 | beyond the capacity there is a play, for any sizes, that puts both to sleep |
| SmqBlocking.NeverBothAsleepIff | uhdf2/include/hdi/base/hdi_smq.h:265-350 | the exact condition: never both asleep if and only if largest read + largest write <= capacity |
| SmqBlocking.TwoReadersOversleep | uhdf2/include/hdi/base/hdi_smq.h:309-350 | any two readers and a writer, any capacity from 2 on: a play that leaves one reader asleep beside its data with no wake under way, because the other took its token |
| SmqBlocking.TwoWritersOversleep | uhdf2/include/hdi/base/hdi_smq.h:264-307 | any two writers and a reader, any capacity from 2 on: the same on the other side |
| SmqBlocking.WritersRace | uhdf2/include/hdi/base/hdi_smq.h:365-401 | any two writers alone, any capacity from 2 on: a play in which one stores an offset computed before the other filled the queue, and the other sleeps beside an empty queue with no wake under way |
| SmqBlocking.PlayKeepsStarved | uhdf2/include/hdi/base/hdi_smq.h:264-350 | with readers only, or room for no element, the queue stays empty and no waiting call could be served |
| SmqBlocking.NeverOversleepsIff | uhdf2/include/hdi/base/hdi_smq.h:264-437 | for every capacity and every set of threads: no play leaves a servable call asleep without a wake under way if and only if there is one reader and one writer at most, or nothing can be put into the queue (readers only, or a capacity of 0 or 1) |
| SmqBlocking.LookMoves | uhdf2/include/hdi/base/hdi_smq.h:364-437 | an attempt that fits the offsets as they are moves exactly n elements, round the end too, leaves the other offset, and wakes the other side |
| SmqBlocking.LookWaits | uhdf2/include/hdi/base/hdi_smq.h:265-350 | one that does not waits on the bit of its own side, with a deadline exactly if the call is timed; a last try changes nothing |
| SmqBlocking.SleepsAsAsked | uhdf2/include/hdi/base/hdi_smq.h:279-298 | over every play of any threads: whoever sleeps does so for its last attempt and the elements asked for in it; the sleep can time out exactly if that was timed; no last try sleeps |
| SmqBlocking.CanGoOn | uhdf2/include/hdi/base/hdi_smq.h:265-350 | in every state, what each thread can do next; only a sleeper depends on others or on chance |
| SmqOffsets.WriteGrows | uhdf2/include/hdi/base/hdi_smq.h:373-396 | a write that had room makes exactly its elements readable more, wherever it ends |
| SmqOffsets.ReadShrinks | uhdf2/include/hdi/base/hdi_smq.h:410-434 | a read of what was there makes exactly its elements readable less |
| SmqRing.SharedMemQueue.Size | uhdf2/include/hdi/base/hdi_smq.h:446-452 | the readable count leaves one element unused, unless the write offset is stuck at the end |
| SmqRing.WroteStraight | uhdf2/include/hdi/base/hdi_smq.h:377-382 | a write in one piece, with room, appends its elements to what is readable, also when the offset comes round to 0 |
| SmqRing.WroteSplit | uhdf2/include/hdi/base/hdi_smq.h:384-393 | a write in two pieces round the end, with room, does too |
| SmqRing.OverwroteStraight | uhdf2/include/hdi/base/hdi_smq.h:377-382 | without room, only the end of the data is readable afterwards |
| SmqRing.OverwroteSplit | uhdf2/include/hdi/base/hdi_smq.h:384-393 | the same in two pieces, of which the second may overwrite the first |
| SmqRing.StoredIsReadable | uhdf2/include/hdi/base/hdi_smq.h:373-396 | every write that is carried out, with or without room: what is readable is the end of the old contents and the data, its length theirs less one or two rounds |
| SmqRing.ReadStraight | uhdf2/include/hdi/base/hdi_smq.h:416-421 | a read in one piece takes a prefix of what is readable and leaves the rest |
| SmqRing.ReadSplit | uhdf2/include/hdi/base/hdi_smq.h:424-434 | a read in two pieces does too |
| SmqRing.SharedMemQueue.WriteNonBlocking | uhdf2/include/hdi/base/hdi_smq.h:365-401 | a synchronised queue appends exactly the data or refuses it unchanged, exactly when the blocking protocol assumes; any other is left with the end of the old contents and the data; the exact conditions of failure and of the stuck offset, and what a write that fails half way leaves in every cell |
| SmqRing.SharedMemQueue.ReadNonBlocking | uhdf2/include/hdi/base/hdi_smq.h:404-437 | what is read followed by what is left is what was readable; it fails for 0 elements or too many, changing nothing; with a stuck offset an emptied ring is wholly readable again |
| SmqRing.SmallWritesNeverStick | uhdf2/include/hdi/base/hdi_smq.h:373-396 | no sequence of writes of at most the capacity moves the offset of an unsynchronised queue to the end |
| SmqRing.TwoWritesStick | uhdf2/include/hdi/base/hdi_smq.h:384-393 | from a fresh queue of any capacity, a write of one less and a write of one more leave it there |
| SmqRing.StuckForGood | uhdf2/include/hdi/base/hdi_smq.h:373-396 | and no sequence of writes moves it away again |
| SmqRing.NeverStuckIff | uhdf2/include/hdi/base/hdi_smq.h:373-396 | the exact condition on the length of writes: a fresh queue never gets stuck if and only if none is longer than the capacity |
| SmqInterleave.StepKeepsInv | uhdf2/include/hdi/base/hdi_smq.h:364-437 | no step of writer or reader, each element copied on its own, disturbs what the other is copying |
| SmqInterleave.StepRefines | uhdf2/include/hdi/base/hdi_smq.h:364-437 | each step is one of a plain queue or none: a finished write appends its data, a finished read takes it from the front, and a call is refused by the plain queue as it is when the call looks |
| SmqInterleave.WindowIsQueue | uhdf2/include/hdi/base/hdi_smq.h:445-452 | what lies between the offsets is at every moment what was written and not yet read |
| SmqInterleave.RunDeals | uhdf2/include/hdi/base/hdi_smq.h:364-437 | every run does to the ring what its events do to a plain queue, which decides alone who goes ahead |
| SmqInterleave.FifoUnderInterleaving | uhdf2/include/hdi/base/hdi_smq.h:364-437 | over every interleaving of one writer and one reader: what was received, what lies in the ring and the data of the write under way are, in this order, the data that callers gave to the writes that went ahead; and as much was received as the reads that went ahead asked for |
| SmqWhole.ActsPlay | uhdf2/include/hdi/base/hdi_smq.h:264-437 | every play of the whole queue is, to the syncer and the protocol, a play of theirs |
| SmqWhole.RingEventsRun | uhdf2/include/hdi/base/hdi_smq.h:264-437 | ... and to the ring a run of its own |
| SmqWhole.PlayKeepsFit | uhdf2/include/hdi/base/hdi_smq.h:365-437 | the two have the same offsets and are in the same transfers, of the same lengths, throughout |
| SmqWhole.TransferGoesOn | uhdf2/include/hdi/base/hdi_smq.h:365-437 | no thread waits for the model: a transfer under way can always copy or store, a call that looks can always begin |
| SmqWhole.EveryPlayIsWhole | uhdf2/include/hdi/base/hdi_smq.h:264-437 | conversely, every play of the protocol by one reader and one writer is the half of a play of the whole queue, whatever the copying does in between |
| SmqWhole.SameGiven | uhdf2/include/hdi/base/hdi_smq.h:264-437 | what callers give and ask for is the same by the calls of the whole queue and by the transfers of the ring |
| SmqWhole.WholeQueue | uhdf2/include/hdi/base/hdi_smq.h:264-437 | one writer and one reader, every element copied, every load and store of an offset and every atomic step of the syncer on its own: what was received, what lies in the ring and the data of the write under way are what the calls that went ahead were given, in order; what was received is what was asked for; and nobody sleeps beside what it waits for without a wake under way |
| NetBuffer.UndoRestores | khdf/liteos/network/src/netbuf_adapter.c:352-467 | every run of accepted pushes and pops can be taken back: the inverse moves in reverse order are all accepted and restore the layout |
| NetBuffer.MovedAllInTurn | khdf/liteos/network/src/netbuf_adapter.c:352-467 | runs of moves compose, refused moves included |
| NetBuffer.NetBuf.Alloc | khdf/liteos/network/src/netbuf_adapter.c:309-322 | a new buffer is a whole layout: all tail room, zeroed, no data |
| NetBuffer.NetBufAlloc | khdf/liteos/network/src/netbuf_adapter.c:281-323 | null exactly when either allocation fails, otherwise such a buffer |
| NetBuffer.NetBuf.Free | khdf/liteos/network/src/netbuf_adapter.c:331-343 | freed once, the memory given up |
| NetBuffer.NetBuf.NetBufPush | khdf/liteos/network/src/netbuf_adapter.c:352-406 | accepted exactly if the part it takes from, the data or the tail room, holds n bytes: the data loses its first n bytes, gains the first n of the tail room, or loses its last n; head and tail room grow or shrink by n; six uint32_t field updates keep the three tiling the block and amount to moving one cut; a refused push changes nothing; the address is the start of the data |
| NetBuffer.NetBuf.NetBufPop | khdf/liteos/network/src/netbuf_adapter.c:415-467 | accepted exactly if the head room, the data or the tail room holds n bytes: the data gains the last n bytes of the head room, loses its first n, or gains the first n of the tail room; otherwise as for the push |
| NetBuffer.LifeKeepsLayout | khdf/liteos/network/src/netbuf_adapter.c:352-619 | over any sequence of pushes, pops, concatenations and resizes short of those that break the layout, the three parts stay in order inside the block, whose length is the first one plus the rooms granted, less 4 GiB for each tail that overflowed |
| NetBuffer.Session | khdf/liteos/network/src/netbuf_adapter.c:352-619 | any such sequence run on the C object, refused operations included, keeps head, data and tail tiling the memory and is that same life of two cuts |
| NetBuffer.TailAgrees | khdf/liteos/network/src/netbuf_adapter.c:552-579 | the four lengths of a resize, each wrapped on its own, still add up to the new block whenever the copy went in |
| NetBuffer.CopyRoomIsRest | khdf/liteos/network/src/netbuf_adapter.c:553-564 | the room that memcpy_s is told of does not depend on the head room at all |
| NetBuffer.SafeResizeIff | khdf/liteos/network/src/netbuf_adapter.c:553-567 | an accepted resize writes inside the new block and leaves a whole layout if and only if head + (len + tail mod 2^32) does not overflow; with anything to copy, and a tail that does not overflow by itself, it writes outside if and only if head + len + tail overflows |
| NetBuffer.AsAskedIff | khdf/liteos/network/src/netbuf_adapter.c:543-583 | for any sizes: the copy is taken and stays inside, the layout is whole and both rooms have grown as asked if and only if the new length fits 32 bits and is not all head room |
| NetBuffer.OverflowOutcomes | khdf/liteos/network/src/netbuf_adapter.c:543-583 | what becomes of each accepted resize that overflows: the tail loses 4 GiB, the copy leaves the block, or the data starts behind the end |
| NetBuffer.RoomsCanBreak | khdf/liteos/network/src/netbuf_adapter.c:553-567 | concrete sizes for which an accepted resize shrinks the tail room, for which it copies outside the block, and for which it puts the data behind the end of the block |
| NetBuffer.CopyToNewBlock | khdf/liteos/network/src/netbuf_adapter.c:563-567 | for any sizes: refused, outside the block, or copied, exactly when; copied bytes arrive in place and every other byte is zero |
| NetBuffer.NetBuf.ResizeRoom | khdf/liteos/network/src/netbuf_adapter.c:543-583 | for any sizes: success exactly when the allocation succeeds and the copy is accepted and stays in the block, overrun exactly when it is accepted and does not, failure exactly without memory or when old length plus tail room, modulo 2^32, is 0 or less than what is to be copied; the data bytes and the old head room are kept, new room is zero; failure changes nothing, and leaks the new block exactly when there was one |
| NetBuffer.NetBufConcat | khdf/liteos/network/src/netbuf_adapter.c:592-619 | the data becomes first ++ second, the rest of the memory stays, the second buffer is freed once; refused, without change, when there is no tail room or too little; a buffer concatenated with itself is freed |
| NetBufQueue.PointersDetermineContents | khdf/liteos/network/src/netbuf_adapter.c:47-273 | the next pointers from the sentinel determine the abstract sequence: a queue cannot represent two |
| NetBufQueue.WrapSums | khdf/liteos/network/src/netbuf_adapter.c:122-122 | the 32-bit size follows the true length through additions and subtractions, also beyond 2^32 |
| NetBufQueue.Queue.Init | khdf/liteos/network/src/netbuf_adapter.c:47-56 | an empty well-formed queue |
| NetBufQueue.Size | khdf/liteos/network/src/netbuf_adapter.c:67-74 | the cached size is the length of the sequence modulo 2^32 |
| NetBufQueue.IsEmpty | khdf/liteos/network/src/netbuf_adapter.c:85-92 | the pointer test is emptiness of the sequence, whatever the cached size |
| NetBufQueue.Enqueue | khdf/liteos/network/src/netbuf_adapter.c:113-124 | appends, keeping the circular list well formed; null arguments change nothing |
| NetBufQueue.EnqueueHead | khdf/liteos/network/src/netbuf_adapter.c:133-144 | prepends |
| NetBufQueue.Dequeue | khdf/liteos/network/src/netbuf_adapter.c:152-170 | hands out the first buffer, unlinked, and leaves the rest in order; null for an empty queue |
| NetBufQueue.DequeueTail | khdf/liteos/network/src/netbuf_adapter.c:178-196 | the same at the other end |
| NetBufQueue.AtHead | khdf/liteos/network/src/netbuf_adapter.c:208-215 | the first buffer of the sequence, or null |
| NetBufQueue.AtTail | khdf/liteos/network/src/netbuf_adapter.c:227-234 | the last buffer of the sequence, or null |
| NetBufQueue.Clear | khdf/liteos/network/src/netbuf_adapter.c:242-253 | terminates, frees each queued buffer exactly once and leaves a well-formed empty queue |
| NetBufQueue.Concat | khdf/liteos/network/src/netbuf_adapter.c:262-273 | the queue becomes q ++ add and `add` is left well formed and empty, for null and empty arguments too; a queue concatenated with itself is left well formed and empty |
| NetBufQueues.BuffersConserved | khdf/liteos/network/src/netbuf_adapter.c:113-273 | over any run on any number of queues, each buffer is as often queued, handed out, freed or lost to a self-concatenation as it was put in |
| NetBufQueues.StepKeepsDisjoint | khdf/liteos/network/src/netbuf_adapter.c:113-273 | queues that share no buffer still share none after any operation whose caller owns what it enqueues |
| NetBufQueues.Session | khdf/liteos/network/src/netbuf_adapter.c:113-273 | any run on the C queues, several at once: all stay well formed, hold what the run makes of plain lists, hand out what it hands out, and exactly the buffers it frees are freed, once |
| PbufConvert.GatherWithinTotLen | khdf/liteos/network/src/netbuf_adapter.c:671-689 | the payloads never exceed tot_len, and reach it exactly when no segment with a length lacks its payload |
| PbufConvert.GatherNext | khdf/liteos/network/src/netbuf_adapter.c:676-690 | segment after segment: the first len bytes of each payload, nothing where it is null |
| PbufConvert.Pbuf2NetBuf | khdf/liteos/network/src/netbuf_adapter.c:660-702 | succeeds exactly when the non-empty payloads fit the initial tail room, and then the data is exactly their concatenation; otherwise the buffer is freed once |
| PbufConvert.NetBuf2Pbuf | khdf/liteos/network/src/netbuf_adapter.c:627-651 | exactly for data of 1 to 65535 - pad bytes, the pbuf holds the data behind the padding, which is left as it was; the copy leaves the pbuf exactly when length plus padding wraps to a length that is accepted |
| PbufConvert.ThereAndBack | khdf/liteos/network/src/netbuf_adapter.c:627-702 | out and back again: the padding, then the very data |
| UartRing.PlayInTurn | platform/uart/uart_asr.c:91-115 | arrivals, tests and loads compose: a run's meaning is the meaning of its parts in turn |
| UartRing.BytesAccountedFor | platform/uart/uart_asr.c:91-115 | received = handed out + unread + 512 for each overrun, in every run |
| UartRing.UnreadIsTheEnd | platform/uart/uart_asr.c:91-115 | the unread bytes are a suffix of what was received, overruns or not |
| UartRing.ReadableBytes | platform/uart/uart_asr.c:91-115 | from an empty ring, the unread bytes are exactly the last (received - taken) mod 512 bytes received, in order |
| UartRing.RingPlays | platform/uart/uart_asr.c:77-115 | in every run of callbacks, tests and loads, in any order, the bytes between tail and head, and the bytes loaded, are those of the abstract backlog |
| UartRing.RingHoldsTheEnd | platform/uart/uart_asr.c:77-115 | over any run from head == tail, the bytes between tail and head are the last (head - tail) mod 512 bytes received, overruns included |
| UartRing.NoOverrunInOrder | platform/uart/uart_asr.c:228-266 | while the backlog stays below its limit (511, or 512 between a test and its load), taken ++ unread is the received stream |
| UartRing.FaithfulIffNoOverrun | platform/uart/uart_asr.c:228-266 | the stream comes through complete and in order if and only if the ring never overran |
| UartRing.RingSteps | platform/uart/uart_asr.c:95-96 | each step of the driver's ring, taken at any moment, is the same step of the backlog: a store appends, empties a ring with 511 unread bytes, or leaves one byte of a full ring that is about to be read |
| UartRing.StoreAppends | platform/uart/uart_asr.c:95-96 | storing at the head appends one byte to what is unread, also round the end |
| UartRing.StoreFills | platform/uart/uart_asr.c:95-96 | the 512th unread byte makes head and tail meet, with all 512 in place from the tail on |
| UartRing.LoadTakes | platform/uart/uart_asr.c:253-254 | loading at the tail removes the oldest unread byte, also round the end and also from a ring that filled up after the test |
| UartRing.RxRing.Callback | platform/uart/uart_asr.c:91-115 | the array version of an arrival; without a buffer nothing changes |
| UartRing.RxRing.ReadNonBlocking | platform/uart/uart_asr.c:257-265 | with bytes arriving before every test of the guard and between the test and the load, the read is a run of arrivals, tests and loads: the bytes handed out are what that run takes, the arrivals are those given, and it stops full or at an empty ring |
| UartRing.RxRing.ReadBlocking | platform/uart/uart_asr.c:250-256 | the same for the blocking loop, turns that find nothing included; it ends only with exactly `size` bytes |
| ServiceRegistry.Stub.ObtainServiceObject | uhdf2/manager/src/devsvc_manager_stub.c:73-90 | a new owned object that carries its name, is its remote's target and watches it, and is the only owned one not yet registered; out of memory changes nothing |
| ServiceRegistry.Stub.ReleaseServiceObject | uhdf2/manager/src/devsvc_manager_stub.c:92-108 | frees an unregistered owned object once, gives its remote back unwatched, restores the registry's invariant; an object without a name is left alone |
| ServiceRegistry.Stub.AddService | uhdf2/manager/src/devsvc_manager_stub.c:110-154 | by the fields of the request: every answer's exact condition; the name stands for the new remote from now on if and only if token, name, device class and remote are read, it is permitted, there is memory and the manager agrees; a refusal by the manager gives the new remote back; in every other case nothing changes; owned objects are exactly those registered, before and after |
| ServiceRegistry.Stub.UpdateService | uhdf2/manager/src/devsvc_manager_stub.c:156-206 | the same, and only where the name is registered |
| ServiceRegistry.Stub.RemoveService | uhdf2/manager/src/devsvc_manager_stub.c:254-292 | every error code's exact condition; on success exactly this name is gone; foreign objects stay |
| ServiceRegistry.Stub.OnServiceDied | uhdf2/manager/src/devsvc_manager_stub.c:388-419 | for any remote the stub has seen, watched or not: exactly its registration is gone, and nothing else |
| ServiceRegistry.Stub.DeathOf | uhdf2/manager/src/devsvc_manager_stub.c:397-418 | a remote whose target is alive is registered exactly once, under the target's name; any other is not registered |
| ServiceRegistry.Stub.LiveAreRegistered | uhdf2/manager/src/devsvc_manager_stub.c:73-108 | of all objects the stub ever made, exactly those registered are alive, and none was freed twice |
| ServiceRegistry.Stub.RestIsGivenBack | uhdf2/manager/src/devsvc_manager_stub.c:92-108 | of all remotes it ever took, those registered are watched and held, all others were given back exactly once and are not watched |
| ServiceRegistry.Stub.Session | uhdf2/manager/src/devsvc_manager_stub.c:110-419 | any run of add, update, remove and death events, whatever the manager and the allocator answer, leaves the registry well formed and equal to what the run makes of a plain map |
| ServiceRegistry.OneEvent | uhdf2/manager/src/devsvc_manager_stub.c:110-419 | one event of the plain map, by the fields of its request: what puts a remote under a name, and what takes it away |
| ServiceRegistry.StandsIff | uhdf2/manager/src/devsvc_manager_stub.c:110-419 | over any run of the plain map: a remote stands under a name if and only if some request put it there and no later request, removal or death took it away |
| ServiceListeners.Oldest | uhdf2/manager/src/servstat_listener_holder.c:115-120 | the first position with the index, none before it |
| ServiceListeners.Listeners.Get | uhdf2/manager/src/servstat_listener_holder.c:109-123 | finds the oldest holder with the index, or nothing exactly when there is none |
| ServiceListeners.Listeners.Create | uhdf2/manager/src/servstat_listener_holder.c:125-149 | appends a new holder with the remote's index, or changes nothing |
| ServiceListeners.Listeners.Release | uhdf2/manager/src/servstat_listener_holder.c:151-168 | takes one holder out, keeps the order of the others, frees it once and gives its remote back |
| ServiceListeners.Listeners.RegisterServListener | uhdf2/manager/src/devsvc_manager_stub.c:293-323 | holders equal, in creation order, the manager's listeners; a refused registration leaves no holder behind, though it is answered with success |
| ServiceListeners.Listeners.UnregisterServListener | uhdf2/manager/src/devsvc_manager_stub.c:325-347 | removes exactly the oldest holder with the index: the manager, taking out that very holder, removes the same position; both remotes are given back |
| ServiceListeners.RemoveOneAt | uhdf2/manager/src/servstat_listener_holder.c:159-163 | unlinking a holder takes out the position it was found at |
| ServiceListeners.Listeners.Session | uhdf2/manager/src/devsvc_manager_stub.c:293-347 | over any run of requests both lists are, in creation order, what the run makes of a plain list of listeners |
| StubCollector.StepKeepsOthers | uhdf2/hdi/src/stub_collector.cpp:57-111 | what one thread concluded from the stub map under its lock stays true whatever any other thread does |
| StubCollector.StepKeepsMover | uhdf2/hdi/src/stub_collector.cpp:32-111 | a thread holds exactly the locks its place in the code says |
| StubCollector.RunKeepsInv | uhdf2/hdi/src/stub_collector.cpp:26-112 | both, over every run of any number of threads |
| StubCollector.NoDeadlock | uhdf2/hdi/src/stub_collector.cpp:26-112 | in every reachable state with an unfinished call, some unfinished call can take a step |
| StubCollector.CallsFinish | uhdf2/hdi/src/stub_collector.cpp:26-112 | under every schedule the calls in progress finish within a bounded number of steps |
| StubCollector.BuiltMinusErased | uhdf2/hdi/src/stub_collector.cpp:80-111 | from any reachable state: constructions plus presence before equal removals plus presence after; without removals a stub stays the same |
| StubCollector.SingleConstruction | uhdf2/hdi/src/stub_collector.cpp:52-112 | for every service, constructions minus removals is 0 or 1 and is presence in the map |
| StubCollector.SameStub | uhdf2/hdi/src/stub_collector.cpp:57-61 | two gets of one service with no removal between them return the same stub, whichever threads ran |
| StubCollector.RegisteredIff | uhdf2/hdi/src/stub_collector.cpp:26-50 | over every run: a descriptor has a constructor if and only if a Register of it came after its last Unregister, and it is that of the first such Register |
| StubCollector.MadeIff | uhdf2/hdi/src/stub_collector.cpp:52-112 | over every run: a service has a stub if and only if a Get made it, under a descriptor registered with a constructor function at that moment, and no Remove under a registered descriptor came after |
| StubCollector.CallsAreDecided | uhdf2/hdi/src/stub_collector.cpp:26-112 | a call that is about to return has been in its critical section, unless the stub map decided it: a Get found its stub, a Remove found none; a Remove leaves a stub only without a constructor |
| StubCollector.GetReturns | uhdf2/hdi/src/stub_collector.cpp:52-85 | what every Get returns: the stub there is; if there was none, the one its callback made, provided the descriptor was registered with a constructor function, and otherwise nothing |
| StubCollector.NextStep | uhdf2/hdi/src/stub_collector.cpp:26-112 | after each step of its own, exactly the steps that a thread can take next, and which locks must be free for them |
| PowerSequence.WakeMirrorsSuspend | uhdf2/host/src/devhost_service_full.c:89-120 | the order of wake notifications is the exact reverse of the order of suspend notifications |
| PowerSequence.EveryTokenOnce | uhdf2/host/src/devhost_service_full.c:176-201 | both orders notify every node that has a power token, as often as it is listed, and no other |
| PowerSequence.OncePerNode | uhdf2/host/src/devhost_service_full.c:89-120 | a token is notified once for every node that carries it, in both directions |
| PowerSequence.DevicesInOrder | uhdf2/host/src/devhost_service_full.c:176-201 | of two lists of devices suspend takes the first list first, wake the second |
| PowerSequence.NodesInOrder | uhdf2/host/src/devhost_service_full.c:89-120 | of the nodes of one device suspend takes the last first, wake the first |
| PowerSequence.NodeInOrder | uhdf2/host/src/devhost_service_full.c:94-100 | a node is notified by its token, or not at all if it has none |
| PowerSequence.EventMeans | uhdf2/host/src/devhost_service_full.c:122-136 | which system events wake, which only doze, and that any other event notifies nobody |
| PowerSequence.DispatchPowerState | uhdf2/host/src/devhost_service_full.c:89-120 | one device: forward on wake, backward on suspend, all nodes whatever fails, each told the state given, success exactly when every call succeeded |
| PowerSequence.PmNotify | uhdf2/host/src/devhost_service_full.c:176-201 | a whole host: the wake or the suspend order, each node told the state given, success exactly when every notification succeeded; an invalid state or host notifies nobody |
| PowerSequence.SuspendThenResume | uhdf2/host/src/devhost_service_full.c:122-201 | the resume after a suspend tells the same nodes in the opposite order, each as often as it is listed, with the states of the two system events, whatever failed in either |
| HostRespawn.FourOfFive | uhdf2/manager/src/devmgr_service_full.c:63-75 | after n deaths that count, the counter is n mod 5 and n - n / 5 restarts were asked for |
| HostRespawn.DevmgrServiceFull.CleanupDiedHostResources | uhdf2/manager/src/devmgr_service_full.c:35-45 | no process, no service, no devices; the flags that decide on a restart are kept |
| HostRespawn.DevmgrServiceFull.CountDeath | uhdf2/manager/src/devmgr_service_full.c:56-75 | a restart follows unless this is a fifth death; other hosts' counters stay |
| HostRespawn.DevmgrServiceFull.HandleDeviceHostDied | uhdf2/manager/src/devmgr_service_full.c:47-84 | only deaths of a host that had devices, was not stopped and has no unloaded devices count; the throttle of every host stays exact under any interleaving of deaths |
| HostRespawn.DevmgrServiceFull.OnDeviceHostDied | uhdf2/manager/src/devmgr_service_full.c:86-105 | the first host with the id is handled: restarted, with its new process, unless this is a fifth death that counts; other hosts and their counters are untouched; an unknown id changes nothing |
| Firmware.OsalFirmware.Request | khdf/liteos/osal/src/osal_firmware.c:49-101 | every error's exact condition, with the descriptor closed again and nothing left open; on success an open firmware at offset 0 whose size is the file's modulo 2^32 |
| Firmware.OsalFirmware.Seek | khdf/liteos/osal/src/osal_firmware.c:103-116 | moves exactly to offsets inside the file |
| Firmware.OsalFirmware.Read | khdf/liteos/osal/src/osal_firmware.c:118-169 | on success the block is the file's bytes at the old offset; the exact conditions of every error; a failed read does not advance |
| Firmware.OsalFirmware.ReadToEnd | khdf/liteos/osal/src/osal_firmware.c:118-169 | for files of any length and any number of reads: the blocks put together are the file up to its recorded end, in ceil(rest / 64) reads with only the last flagged, if and only if the last block counted in full ends below 2^32; that is the whole rest exactly for files below 4 GiB; otherwise such a file fails at the top, and a longer one is read for ever without a flag |
| Firmware.NextBlock | khdf/liteos/osal/src/osal_firmware.c:144-147 | where the end can be reached, the k-th read asks for the next full block or the last one; elsewhere every read, round after round, asks for a full block and is not flagged |
| Firmware.ReassemblesBelow | khdf/liteos/osal/src/osal_firmware.c:144-147 | that holds from every offset of files up to 2^32 - 64 bytes, and fails from the start of every longer one |
| DeviceAttribute.Serialize | uhdf2/shared/src/dev_attribute_serialize.c:27-53 | appends the encoding, and succeeds exactly when it fits |
| DeviceAttribute.Deserialize | uhdf2/shared/src/dev_attribute_serialize.c:55-113 | accepts exactly the readable streams, given memory for the record and two names, and leaves what follows the attribute; without memory for the match attribute that one is lost |
| DeviceAttribute.DecodeEncode | uhdf2/shared/src/dev_attribute_serialize.c:27-113 | a serialized attribute before any suffix reads back as itself and leaves the suffix |
| DeviceAttribute.UniqueList | uhdf2/shared/src/dev_attribute_serialize.c:27-113 | two lists of attributes with the same encoding are the same list |
| DeviceAttribute.DeserializeAll | uhdf2/shared/src/dev_attribute_serialize.c:55-113 | reading to the end of a buffer of attributes gives back the list that was written |
| DeviceQuery.FillQueryDeviceInfo | uhdf2/manager/src/devmgr_query_device.c:40-67 | the reply holds, host after host and in order, an entry for each offered device; it fails exactly for an unknown status or a full buffer |
| DeviceQuery.PartOfHosts | uhdf2/manager/src/devmgr_query_device.c:45-67 | what is written so far never exceeds the whole reply, so an early stop means the whole would not have fitted |
| DeviceQuery.HostInOrder | uhdf2/manager/src/devmgr_query_device.c:45-67 | the reply for one host is, device after device, name and type of each public or capacity device of the status asked for, and nothing for any other |
| DeviceQuery.HostsInOrder | uhdf2/manager/src/devmgr_query_device.c:45-67 | the whole reply is host after host |
| DeviceQuery.HostsOffer | uhdf2/manager/src/devmgr_query_device.c:45-67 | a node is in the reply if and only if it is that of such a device of some host |
| DeviceQuery.ObtainDeviceInfo | uhdf2/hdi/src/devmgr_client.c:44-79 | on any reply: the list grows by the entries it holds, in order, unknown types dropped, and the count is kept; it fails exactly when there are more names than allocations, and then empties the list |
| DeviceQuery.DecodeEncode | uhdf2/hdi/src/devmgr_client.c:52-76 | reading what the manager wrote gives the entries of known type, in order |
| DeviceQuery.KnownInOrder | uhdf2/hdi/src/devmgr_client.c:60-72 | the client keeps local and remote services, in order, and nothing else |
| DeviceQuery.Query | uhdf2/hdi/src/devmgr_client.c:44-79 | end to end: the client's list is the offered devices of all hosts with a known type, a node being in it if and only if it is that of a public or capacity device of the status with type local or remote; the count is its length |

## Left out

- SmqSyncer: real time, fairness of the scheduler, logging, and words other than one; futex errors other than those named.
- SmqDeadline.TimeoutToRealtime: does not model overflow of a 64-bit second count beyond the range its last clause gives.
- SmqBlocking: how long a time-out lasts, and futex errors that end a call. A call loads both offsets in one step; with several threads on one side the code can interleave even those loads.
- SmqInterleave: more than one writer or reader, for which the code has no protection, and memory orders weaker than the acquire and release the code asks for.
- SmqRing: a capacity of 0.
- NetBuffer.NetBuf.ResizeRoom: promises nothing after an overrun, where the program's behaviour is undefined.
- NetBufQueue: the spin locks, so that each queue operation is one step.
- UartRing.RxRing.ReadBlocking: watched for any finite number of turns, since the loop need not end.
- UART set-up, pin multiplexing, mutexes, error codes and the transmit side.
- ServiceRegistry: security checks and interface tokens are booleans; remotes dropped on early error returns; listing and getting services.
- ServiceRegistry.Stub.OnServiceDied: requires a remote that the stub has read; reading the target of a released object again, which the program does for a late report, is modelled as finding its name gone.
- StubCollector: destructor callbacks, null arguments, and the unlocked read of the constructor map for a log message (`uhdf2/hdi/src/stub_collector.cpp:63-66`), which is a data race.
- ServiceListeners: notification of listeners and the mutex of the holder list; the remote of a registration that runs out of memory, which is not given back.
- HostRespawn: the message loop and the mutex; the internals of the hash map, of which an entry is a host's name and number.
- Firmware: releasing a firmware; Firmware.OsalFirmware.ReadToEnd takes reads that return all the bytes there are.
- DeviceQuery: the request, whose status is written with one width and read with another (`uhdf2/hdi/src/devmgr_client.c:105`, `uhdf2/manager/src/devmgr_query_device.c:39`), and the byte layout of parcels.
- Vendor drivers, network device glue, IPC proxies, OSAL wrappers, HCS parsing and driver loading, which call libraries that are not part of this model.
