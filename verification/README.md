# Metronome: ring buffer, audio queue and address text

A Dafny 4.11 model of the parts of Metronome that carry its data, with proofs about them.

**The ring buffer** (`src/ringbuf.c`) is modelled at two levels that share their definitions.

* `Tasks.dfy` gives one call of `rb_read` or `rb_write` as the steps other tasks can see: the
  section under the lock is one step, and every flag check, every give and every take of a binary
  semaphore is a step of its own. `ReaderStep` and `WriterStep` work on the circular store itself
  (`CircularStore.dfy`: offsets in `[0, size]`, strict wrap comparison, fill counter).
* `TaskSystem.dfy` interleaves any number of such calls and of control calls. A run is a sequence of
  events; the schedule, the data, expiring waits and control calls are all in the events, so each
  theorem about every event sequence is a theorem about every interleaving.
* `Solo.dfy` runs one call by itself to its end and states its exact result.
* `RingBuffers.dfy` is the imperative program: a class over an array with the two offsets, the
  counter and the flags, whose `Read` and `Write` loops are proved to leave the state, the
  caller's block and the result that the same steps lead to in `Solo.dfy`. A call that waits
  without limit while nobody can wake it ends as `Asleep` there.

On these stand first-in first-out order over all runs, word alignment (`Alignment.dfy`), stability
under interference (`Stability.dfy`), the wake-up protocol (`Wakeup.dfy`), the effect of abort, done
and unblock (`Closing.dfy`), what `RB_DONE` says about the ring (`Drained.dfy`) and `RB_ABORT` about
the bytes moved (`Hidden.dfy`), and for one reader and one writer termination of every interleaving
together with one outcome for all of them (`Pair.dfy`).

**The audio queue** (`src/audio_network_buffer.cpp`) guards its reads by the free space of the ring.
`AudioQueue.dfy` has the class and what one call comes to by itself, `AudioTraffic.dfy` whole runs of
the queue, `AudioGuards.dfy` the program's guard beside one that asks for filled bytes.

**Address text** (`src/ip_address.cpp`): `Ip4Text.dfy` has the accumulator parser and the exact
language it accepts, `Ip6Text.dfy` the fixed-width parser over an arbitrary `sscanf`; both have their
printers and the round trips.

Properties one might expect that do not hold, each with the condition under which they do:

* Two calls that wait without limit need not end in a ring below four bytes, which `rb_create`
  admits: from creation on they can go round in circles (`Pair.TinyRingLivelock`), in rings of all these
  sizes and no others (`Pair.CyclesOnlyBelowFour`). A given pair of calls can be caught so if and only if the
  ring is also smaller than the demand and than what is queued and written (`Pair.PairsThatEnd`).
* `RB_DONE` does not mean that the ring is empty. Without any write, one to three bytes can be left
  behind (`Drained.DoneMayHideTail`): for a lone reader it means empty if and only if, when the call starts,
  the flag is set, or the ring is empty, or it holds four bytes or the demand
  (`Drained.DrainedWithoutWrites`). With a write during the call, all of the data can be left, even if the
  flag was set before (`Drained.DoneMayHideData`): then it means empty if and only if the first look finds
  something (`Drained.DrainedDespiteWrites`; a demand of 0 and a ring of 0 bytes aside).
* A negative result does not mean that nothing was moved: `RB_ABORT` hides bytes, and the abort may come
  while the call runs. For a lone reader some run does so if and only if, when the call starts, the flag of the
  writer is clear and a word but not the whole demand is queued (`Hidden.TakenHiddenWithoutWrites`), or, if a
  writer may write, the demand is more than a word and not queued yet and the ring holds a word
  (`Hidden.TakenHiddenDespiteWrites`). For a lone writer, with that flag clear: some but not all of its bytes fit
  (`Hidden.PlacedHiddenWithoutReads`), or, if a reader may read, they do not all fit and are more than one
  (`Hidden.PlacedHiddenDespiteReads`). With nobody else at work, the abort flag must have been set before
  (`Solo.AbortHidesReadBytes`, `Solo.AbortHidesWrittenBytes`).
* `rb_done_write` does not release a writer: a run from creation leaves one asleep for good after it
  (`Closing.WriterSleepsThroughDone`). With the flag set, a writing call can still end so, in some run of
  readers, control calls and itself, if and only if it waits without limit, is past its check of the flag, and neither a token nor an abort
  that it still checks awaits it (`Closing.DoneLeavesWriterAsleep`).
* `read_audio` may wait on an empty ring and refuse on a full one. By itself it delivers only while free
  space and filled bytes both cover the read (`AudioQueue.WhenAudioIsDelivered`); with a writer it delivers if
  and only if the free space covers the read when it is called and enough is queued or written
  (`AudioTraffic.ReadMeetsWrite`). A ring that gets too full stays so for good: whenever no read is in
  progress the queue is dead if and only if the bytes accepted exceed those delivered by more than `size - d`
  (`AudioGuards.DeadByBacklog`), before the first read or after any number of them.
* An IPv6 text of 39 characters with a group that does not scan leaves the scope identifier as memory had it
  (`Ip6Text.Ip6Address.FromString`, `src/ip_address.cpp:112`); every other text sets it to 0.

`include/ringbuf.h:119` promises that a NULL block only advances the pointers. The code advances the
NULL pointer itself after the first chunk (`src/ringbuf.c:227`), so this is not so for reads of several
chunks; the model reads into a real block.

## Model

| member | source | states |
|---|---|---|
| `CircularStore.TakenIsPrefix` | src/ringbuf.c:209-225 | a read of `n`, in one piece or two, hands out the `n` oldest bytes, leaves the others queued in order, and keeps `w` at `r + fill` up to one wrap |
| `CircularStore.FilledIsAppended` | src/ringbuf.c:287-299 | a write, in one piece or two, appends its bytes and disturbs no queued byte |
| `CircularStore.RestingAtTheEnd` | src/ringbuf.c:209-216 | both offsets may rest at `size`; there the counter alone tells an empty ring from a full one |
| `CircularStore.PastedSlotwise` | src/ringbuf.c:287-296 | the two-piece copy in equals writing each byte to its wrapped slot, and only this |
| `Chunks.ReadChunkWords` | src/ringbuf.c:168-181 | a read chunk is whole words, the whole demand, or the tail after the last write; it is 0 exactly when nothing may be read |
| `Chunks.ProgressDichotomy` | src/ringbuf.c:168-265 | at every fill and for all open demands some side can move bytes, if and only if the ring holds four bytes or more |
| `Tasks.ReaderStepConserves` | src/ringbuf.c:161-242 | every step of a reading call moves a prefix of the queue to the caller or nothing, and keeps the representation |
| `Tasks.WriterStepConserves` | src/ringbuf.c:255-315 | every step of a writing call appends a prefix of the caller's open bytes or nothing, and keeps the representation |
| `Tasks.ReaderKeepsFlags` | src/ringbuf.c:161-242 | a reading call never gives the semaphore it waits on, and clears no flag but `unblock_reader_flag` |
| `Tasks.WriterKeepsFlags` | src/ringbuf.c:255-315 | a writing call never gives the semaphore it waits on, and touches no flag |
| `TaskSystem.ApplyConserves` | src/ringbuf.c:116-374 | every event of any task or control call keeps: accepted bytes are delivered bytes followed by queued bytes |
| `TaskSystem.ResetClears` | src/ringbuf.c:116-129 | `rb_reset` as an event, field by field: offsets and counter at 0, all four flags clear, both tokens as they were, no call changed |
| `TaskSystem.FifoOverEveryRun` | src/ringbuf.c:161-316 | from creation, over every interleaving of any number of calls, aborted and timed-out ones included, bytes come out in the order they went in, none lost, none twice |
| `Alignment.PartialReadsAreWords` | src/ringbuf.c:170-181 | while the writer is not done every reading call consumes a multiple of four bytes or exactly its demand, whatever others do between its chunks |
| `Alignment.ReadOffsetStaysOnWords` | src/ringbuf.c:209-222 | if ring and read requests are whole words the read offset stays on a word over the whole run, for writes of any length |
| `Stability.FilledReadIsServed` | src/ringbuf.c:168-232 | a lone reader whose demand is filled when it calls never waits and gets exactly the head of the queue at that moment, for any behaviour of writers and control calls |
| `Stability.FilledReadReturnsItsLength` | src/ringbuf.c:228-242 | that call returns its whole length |
| `Stability.RoomyWriteIsPlaced` | src/ringbuf.c:261-306 | a lone writer that finds space for its data never waits and places all of it |
| `Wakeup.StepIsWakeful` | src/ringbuf.c:183-310 | every step keeps the wake-up invariants: no lost data, no lost space, not both asleep, controls release |
| `Wakeup.EveryRunIsWakeful` | src/ringbuf.c:183-374 | in every reachable state with one reader and one writer: a committed reader with something to read has a token or one owed to it, the same for a writer with space, the two are never both asleep, and a set flag has released whoever passed its check |
| `Wakeup.ReaderSleepIsJustified` | src/ringbuf.c:183-206 | a reader asleep with nobody about to wake it faces an idle writer, no readable chunk and no flag |
| `Wakeup.WriterSleepIsJustified` | src/ringbuf.c:267-284 | a writer asleep with nobody about to wake it faces an idle reader, a full ring and no abort |
| `Closing.OwnStepsAdd` | src/ringbuf.c:161-316 | what the bounds below count: every step of the one call and no other event |
| `Closing.ClosedReadIsBounded` | src/ringbuf.c:187-194 | once done or aborted, a reading call has at most a fixed number of own steps left, whatever others do |
| `Closing.UnblockedReadIsBounded` | src/ringbuf.c:195-199 | the same for a lone reading call once `unblock_reader_flag` is set, though it may first go round by way of its wait |
| `Closing.ClosedWriteIsBounded` | src/ringbuf.c:270-277 | the same for a writing call once done or aborted |
| `Closing.NoReadWaitAfterAbort` | src/ringbuf.c:191-206 | after an abort no reading call that still has its abort check ahead, and no later one, goes to wait; a call already past that check may still go to wait once |
| `Closing.NoWriteWaitAfterAbort` | src/ringbuf.c:274-284 | after an abort no writing call that still has its abort check ahead, and no later one, goes to wait; a call already past that check may still go to wait once |
| `Closing.ClosedCallsCanMove` | src/ringbuf.c:318-374 | in every reachable state with one reader and one writer: after a completed abort neither task is asleep, after a completed `rb_done_write` or a completed `rb_unblock_reader` whose flag still stands the reader is not |
| `Closing.DoneLeavesWriterAsleep` | src/ringbuf.c:270-284 | with `is_done_write` set, some run of readers, control calls and this writer ends with it asleep for good if and only if its wait is unlimited, no token is given, and it is asleep, about to give, or about to check an abort flag that is clear |
| `Closing.WriterSleepsThroughDone` | src/ringbuf.c:356-364 | a run from creation, in a ring of any size: one write of more than it holds, then a completed `rb_done_write`, and the writer sleeps with no call left that would wake it |
| `Closing.DoneDoesNotWakeWriters` | src/ringbuf.c:356-364 | a writer asleep before the two steps of `rb_done_write` is asleep after them |
| `Drained.DrainedWithoutWrites` | src/ringbuf.c:168-190 | a lone reader starts a call and nothing is written: no run returns `RB_DONE` over queued bytes if and only if the flag is set, or the ring is empty, or it holds four bytes or the demand |
| `Drained.DrainedDespiteWrites` | src/ringbuf.c:168-190 | with an idle writer that may start to write: no such run if and only if the first look finds something to read, the demand is 0 or the ring has no byte |
| `Drained.DoneMeansDrained` | src/ringbuf.c:168-190 | with the flag set and nothing written, for any number of readers and a call at any point: its `RB_DONE` exit means an empty ring if and only if the ring is empty now or the call has not yet looked in vain |
| `Drained.DoneMayHideTail` | src/ringbuf.c:173-190 | a run without writes that returns `RB_DONE` over one to three bytes |
| `Drained.DoneMayHideData` | src/ringbuf.c:183-190 | a run in which a write falls between the look and the flag check and the call returns `RB_DONE` over all the data, whether the flag was set before the call or after the write |
| `Hidden.TakenHiddenWithoutWrites` | src/ringbuf.c:187-242 | a lone reader starts a call and nothing is written: some run returns an error over bytes it has taken if and only if `is_done_write` is clear and at least a word but less than the demand is queued |
| `Hidden.TakenHiddenDespiteWrites` | src/ringbuf.c:187-242 | with an idle writer that may write: if and only if `is_done_write` is clear, the demand is not queued and is more than a word, and the ring holds a word |
| `Hidden.AbortMayHideTaken` | src/ringbuf.c:191-242 | a run in which the abort begins only after the first chunk and the call returns `RB_ABORT` over the bytes it took |
| `Hidden.PlacedHiddenWithoutReads` | src/ringbuf.c:270-315 | a lone writer, nothing read: some run returns an error over placed bytes if and only if `is_done_write` is clear and some but not all of the data fits |
| `Hidden.PlacedHiddenDespiteReads` | src/ringbuf.c:270-315 | with an idle reader that may read: if and only if `is_done_write` is clear, the data does not fit and is more than one byte, and the ring holds a byte |
| `Pair.EveryPairRunEnds` | src/ringbuf.c:161-306 | if the ring holds a word, or the open demand, or what is queued and still to be written, each step of two unlimited calls lowers a measure, so every interleaving is finite without fairness |
| `Pair.PairsThatEnd` | src/ringbuf.c:161-306 | two unlimited calls, for every content, demand, data and tokens: they can be caught in a circle if and only if the ring has fewer than four bytes, fewer than the demand, and fewer than are queued and to be written |
| `Pair.TransfersAreBounded` | src/ringbuf.c:224-301 | in a ring of any size no run moves bytes more often than there are bytes to move |
| `Pair.NoTransferNoChange` | src/ringbuf.c:224-301 | the steps counted are those that change the fill: a run that counts none leaves it as it was |
| `Pair.PairOutcome` | src/ringbuf.c:161-306 | for every pair of calls that must end and every schedule a finished run has one outcome, that of a lone reader on the whole stream: what the reader has, what is queued, what is left to the writer, and who has returned |
| `Pair.MatchedPair` | src/ringbuf.c:161-315 | a reader that asks for what is queued plus what is written gets exactly that; both calls return their lengths and the ring ends empty |
| `Pair.TinyRingLivelock` | src/ringbuf.c:59-62 | in a ring below four bytes a run from creation leads to two new calls that can wake each other forever: a lap of their steps returns to its first state |
| `Pair.CyclesOnlyBelowFour` | src/ringbuf.c:161-306 | such circular runs exist, in any state and in states reached from creation, if and only if the ring is smaller than four bytes |
| `Solo.ReadAlone` | src/ringbuf.c:161-242 | the exact bytes, state and exit of a reading call alone, from any point of its loop and for all flags and tokens |
| `Solo.ReadResult` | src/ringbuf.c:161-242 | what `rb_read` returns alone: the length, all that is left once done, whole words, `RB_DONE`, `RB_TIMEOUT`, or an abort that hides what was taken; it sleeps exactly when it may |
| `Solo.AbortHidesReadBytes` | src/ringbuf.c:228-242 | with no other task at work a negative result comes with bytes taken if and only if the abort flag is set, `is_done_write` is not, and the call could take some bytes but not all |
| `Solo.FourBytesHidden` | src/ringbuf.c:228-242 | an input where it does: four bytes queued, five asked for, the four gone and `RB_ABORT` returned |
| `Solo.AbortHidesWrittenBytes` | src/ringbuf.c:307-315 | the same exact condition for a writing call with no other task at work |
| `Solo.CompleteDrain` | src/ringbuf.c:174-190 | after the last write, repeated reads of any size return the whole content in order, the 1 to 3 byte tail included |
| `Solo.WriteAlone` | src/ringbuf.c:255-315 | the exact effect of a writing call alone: it places what fits |
| `Solo.WriteResult` | src/ringbuf.c:255-315 | what `rb_write` returns alone, in every case |
| `SoloRuns.SoloReadIsARun` | src/ringbuf.c:151-243 | the lone reading call is one particular run of the system, so the class, the lone call and the interleavings speak of the same steps |
| `SoloRuns.SoloWriteIsARun` | src/ringbuf.c:245-316 | the same for the lone writing call |
| `SoloRuns.AbortIsARun` | src/ringbuf.c:318-346 | the four steps of `rb_abort`, uninterrupted, set both flags and both tokens and nothing else |
| `SoloRuns.DoneWriteIsARun` | src/ringbuf.c:356-364 | the two steps of `rb_done_write`, uninterrupted, set the flag and the reader's token and nothing else |
| `SoloRuns.UnblockReaderIsARun` | src/ringbuf.c:366-374 | the same for `rb_unblock_reader` |
| `RingBuffers.RingBuffer.constructor` | src/ringbuf.c:77-84 | a new ring, field by field: storage all zero, offsets and counter 0, no flag set, no token given |
| `RingBuffers.RingBuffer.Create` | src/ringbuf.c:57-88 | NULL exactly for blocks below two bytes or when an allocation fails, otherwise a ring of `block_size * n_blocks` in the state of a new one, field by field |
| `RingBuffers.RingBuffer.Reset` | src/ringbuf.c:116-129 | offsets and counter at 0, flags clear, storage and given tokens as they were; the same as the event of the step model |
| `RingBuffers.ReadReturns` | src/ringbuf.c:183-242 | what a lone read returns, in numbers: the length if it is queued; once done, all that is left or -2; -3 on abort; if unblocked or out of time the whole words taken or -4; else it sleeps |
| `RingBuffers.ReadMoves` | src/ringbuf.c:168-226 | which bytes a lone read hands out and leaves, in every case, with the word rounding written out |
| `RingBuffers.ReadSignals` | src/ringbuf.c:200-241 | what it does to flags and semaphores: it takes its own token if it has to wait, gives `can_write` if it waits or took a byte, clears `unblock_reader_flag`, and touches nothing else |
| `RingBuffers.RingBuffer.Read` | src/ringbuf.c:151-243 | the loop over the array ends in the state, the caller's block and the result of the stepwise call run alone, and all of the above holds of it: value, block, content, flags and tokens |
| `RingBuffers.RingBuffer.AwaitData` | src/ringbuf.c:183-207 | done, abort and unblock are checked in this order, then give before wait |
| `RingBuffers.CopyOut` | src/ringbuf.c:209-222 | one copy or two put byte after byte from its wrapped slot into the caller's block, within bounds, and nothing else |
| `RingBuffers.WriteReturns` | src/ringbuf.c:270-315 | what a lone write returns, in numbers: the length if it fits; once done, what fitted or -2; -3 on abort; else it sleeps, or out of time what fitted or -4 |
| `RingBuffers.WriteMoves` | src/ringbuf.c:261-301 | which bytes a lone write places, in every case |
| `RingBuffers.WriteSignals` | src/ringbuf.c:278-309 | what it does to flags and semaphores: it takes its own token if it has to wait, gives `can_read` if it waits or placed a byte, and touches nothing else |
| `RingBuffers.RingBuffer.Write` | src/ringbuf.c:245-316 | the loop over the array ends in the state and the result of the stepwise call run alone, and all of the above holds of it: value, content, flags and tokens |
| `RingBuffers.RingBuffer.AwaitSpace` | src/ringbuf.c:267-285 | done and abort are checked in this order, then give before wait |
| `RingBuffers.CopyIn` | src/ringbuf.c:287-296 | one copy or two put the caller's bytes into their wrapped slots, within bounds, and touch no other slot, slot by slot |
| `RingBuffers.RingBuffer.DoneWrite` | src/ringbuf.c:356-364 | sets the flag, then gives `can_read` only |
| `RingBuffers.RingBuffer.UnblockReader` | src/ringbuf.c:366-374 | sets the flag, then gives `can_read` |
| `RingBuffers.RingBuffer.Abort` | src/ringbuf.c:318-346 | sets both flags and gives both semaphores |
| `AudioQueue.AudioNetworkBuffer.constructor` | src/audio_network_buffer.cpp:6-8 | the queue is an empty ring of 32768 bytes |
| `AudioQueue.AudioNetworkBuffer.ReadAudio` | src/audio_network_buffer.cpp:10-15 | refused with 0 and no effect when the free space is below the size, otherwise an unlimited read; the value in every case, in numbers |
| `AudioQueue.AudioNetworkBuffer.WriteAudio` | src/audio_network_buffer.cpp:16-19 | an unlimited write: what is queued after it and the value in every case, in numbers |
| `AudioQueue.WhenAudioIsDelivered` | src/audio_network_buffer.cpp:10-15 | with no flag set and no other task at work a call delivers if and only if both free space and filled bytes cover the size, returns 0 if and only if the free space does not, and sleeps otherwise |
| `AudioQueue.ServedAloneFromTwice` | src/audio_network_buffer.cpp:10-15 | alone, a read can be served at some fill if and only if the ring has twice the read size |
| `AudioTraffic.ReadAudioIsARun` | src/audio_network_buffer.cpp:10-15 | the lone call is one particular run of the queue |
| `AudioTraffic.AllOrNothing` | src/audio_network_buffer.cpp:10-19 | with any number of tasks, in every run from creation, a returned `read_audio` gave its whole size or 0, and a returned `write_audio` placed exactly the data of the last call in its slot and returned its length |
| `AudioTraffic.AudioConserves` | src/audio_network_buffer.cpp:10-19 | over every run of the queue the bytes accepted are the bytes delivered followed by the bytes queued |
| `AudioTraffic.StartedReadDelivers` | src/audio_network_buffer.cpp:10-15 | a read in progress, after any use of the queue by one reader and one writer and in a ring of any size: the calls settle in boundedly many steps, and it has delivered its size, in order, if and only if what it had, what was queued and what was being written are enough; otherwise the writer has returned and the read sleeps with too little |
| `AudioTraffic.ReadMeetsWrite` | src/audio_network_buffer.cpp:10-19 | a read and a write begun by idle tasks in any reachable state: every interleaving of the two is finite, and in each the read delivers the head of the queue if and only if its guard admits it (free space at least the size) and queued plus written bytes are enough |
| `AudioTraffic.NewRingDelivers` | src/audio_network_buffer.cpp:10-19 | a run in which a read waits in a new ring of any size from `d` on and the next write delivers to it |
| `AudioGuards.AbsorbedForever` | src/audio_network_buffer.cpp:10-19 | once the free space is below the read size and no read is in progress, in all further use every read returns 0 and touches nothing, nothing is delivered, fill never falls, and at most the free bytes are still accepted |
| `AudioGuards.ShutWhenTooFull` | src/audio_network_buffer.cpp:10-19 | with both tasks idle some further use delivers a byte if and only if the free space covers the read size |
| `AudioGuards.DeadByBacklog` | src/audio_network_buffer.cpp:6-19 | after any use of the queue that leaves no read in progress it is dead if and only if the bytes accepted exceed those delivered by more than `size - d`, and then every further read is refused and nothing more is delivered |
| `AudioGuards.ShutByBacklog` | src/audio_network_buffer.cpp:6-19 | after any use that leaves both tasks idle, some further use delivers a byte if and only if the backlog is at most `size - d` |
| `AudioGuards.DeadBeforeFirstRead` | src/audio_network_buffer.cpp:6-19 | the instance before the first read: dead if and only if more than `size - d` bytes were accepted, and then no byte is ever delivered |
| `AudioGuards.DeviceSizes` | src/main.cpp:86-94 | the same with the device's ring and read size: more than 30848 bytes, however written |
| `AudioGuards.SizesOfTheDevice` | src/audio_network_buffer.cpp:6-8 | a ring of 32768 bytes, reads of 1920, packets of up to 512 |
| `AudioGuards.PacketsShutTheDevice` | src/dram_task.cpp:29-32 | packets of at most 512 bytes each (`include/audio_chunk.h:25`) that come to more than 30848 bytes in all lead there |
| `AudioGuards.FilledGuardNeverWaits` | src/audio_network_buffer.cpp:10-15 | by contrast, in every run of the queue guarded by filled bytes the lone reader never commits to waiting and can always take its next step |
| `AudioGuards.NextReadDelivers` | src/audio_network_buffer.cpp:10-15 | so guarded, from every state with an idle reader and `d` bytes queued the next read gets the head of the queue, in every interleaving, and can do so in three steps |
| `AudioGuards.NeverShut` | src/audio_network_buffer.cpp:10-19 | so guarded, with both tasks idle a write of what is missing and a read always deliver `d` bytes, in a ring of `d` bytes or more |
| `Ip4Text.Ip4Address.FromString` | src/ip_address.cpp:30-51 | the four bytes are the meaning of the text, zeros on any error |
| `Ip4Text.Ip4Address.Scan` | src/ip_address.cpp:33-50 | the loop accepts exactly the language and stores its fields |
| `Ip4Text.Ip4Address.ScanChar` | src/ip_address.cpp:37-46 | each character extends the scan exactly or makes the text hopeless; the 16-bit accumulator never wraps, for texts of any length |
| `Ip4Text.DigitTable` | src/ip_address.cpp:38-39 | the ten digits, no others, and what each stands for |
| `Ip4Text.ValueStep` | src/ip_address.cpp:39 | the value of a run is positional in base ten, 0 for the empty run |
| `Ip4Text.LeadingZero` | src/ip_address.cpp:39 | leading zeros do not change the value of a run |
| `Ip4Text.Language` | src/ip_address.cpp:36-50 | accepted are exactly three dots between four digit runs of value at most 255, empty runs and leading zeros included; every other text is 0.0.0.0 |
| `Ip4Text.OwnAddress` | src/main.cpp:64-66 | the program's own access point address means 192, 168, 100, 1 |
| `Ip4Text.OwnMask` | src/main.cpp:64-66 | and its mask 255, 255, 255, 0 |
| `Ip4Text.EmptyRunText` | src/ip_address.cpp:36-50 | "1..002.3" is 1.0.2.3 |
| `Ip4Text.TooLargeText` | src/ip_address.cpp:40 | "256.0.0.1" is 0.0.0.0 |
| `Ip4Text.TooShortText` | src/ip_address.cpp:49 | "1.2" is 0.0.0.0 |
| `Ip4Text.PrefixPlausible` | src/ip_address.cpp:36-47 | a text that has gone wrong cannot recover, so leaving early is right |
| `Ip4Text.PrintedText` | src/ip_address.cpp:69-73 | the printed text character by character: four numbers in decimal without padding, with dots between them |
| `Ip4Text.NoLeadingZero` | src/ip_address.cpp:71 | no number is printed with a leading zero, except 0 itself |
| `Ip4Text.RoundTrip` | src/ip_address.cpp:69-73 | parsing the printed address gives it back; the text has 7 to 15 characters |
| `Ip4Text.NormalForm` | src/ip_address.cpp:30-73 | parse, print, parse equals parse on every text; two texts mean the same exactly when they print the same |
| `Ip6Text.Ip6Address.FromString` | src/ip_address.cpp:105-119 | zeros for a wrong length or any scan without a match, otherwise each byte as its own scan left it; the scope identifier is 0, except that giving up in the middle of a text leaves it as it was |
| `Ip6Text.Ip6Address.Parse` | src/ip_address.cpp:109-114 | the loop reads byte `k` at stride 5 and offset 0 or 2, and clears on the first failure |
| `Ip6Text.HexTable` | src/ip_address.cpp:111 | the hex digits of both cases, no others, and what each stands for |
| `Ip6Text.ParserTable` | src/ip_address.cpp:109-116 | where each of the sixteen bytes is read, in numbers, and what a scan stores |
| `Ip6Text.ParseCases` | src/ip_address.cpp:108-117 | case by case: sixteen zeros for a wrong length or a scan without a match, the scanned value, or the byte as memory had it at the end of input |
| `Ip6Text.DigitsDecide` | src/ip_address.cpp:109-114 | only the digits count: any separators give the same sixteen bytes |
| `Ip6Text.PrintedText` | src/ip_address.cpp:173-181 | the printed digits group by group: each byte in two lower-case digits, high one first, in order |
| `Ip6Text.PrintedForm` | src/ip_address.cpp:173-181 | 39 characters in the fully expanded form of section 2.2 of RFC 4291, lower case |
| `Ip6Text.RoundTrip` | src/ip_address.cpp:105-181 | parsing the printed form restores all sixteen bytes, whatever memory held before and for any `sscanf` that reads two hex digits |
| `Ip6Text.PrintIsInjective` | src/ip_address.cpp:173-181 | different addresses print differently |

## Left out

- Heap and kernel objects: whether the allocations in `rb_create` succeed is a parameter; `rb_destroy` and the handles of semaphores and lock are not modelled.
- NULL handles and NULL blocks, which return `RB_FAIL` or make pseudo reads.
- Integer widths of sizes and lengths: both are unbounded and not negative here; the program's `int` and `uint32_t` ranges, pointer overflow and an overflowing `block_size * n_blocks` are not modelled.
- The failure branch of taking the lock: with an unlimited wait it is not reached.
- Tick counts and priorities: a finite wait is a wait that may expire at any moment without a token.
- `rb_reset` beside running calls: it takes no lock, so it is an event only while no call is active.
- Weaker memory orders: accesses to the shared fields are taken in one order seen by all tasks.
- Several readers or several writers in the wake-up properties: a binary semaphore wakes one waiter. First-in first-out, representation and alignment are proved for any number.
- RingBuffers.RingBuffer.Read: runs with no other task at work and into a real block; interference is covered by the step model that it refines.
- RingBuffers.RingBuffer.Write: runs with no other task at work, as for `Read`.
- AudioQueue.AudioNetworkBuffer.constructor: does not model a failed allocation, after which the queue works on a NULL handle.
- AudioQueue.AudioNetworkBuffer.ReadAudio: runs with no other task at work, other tasks are in `AudioTraffic`; does not model the conversion of a negative result to an unsigned size, as the queue never sets the flags that lead to one (`AudioTraffic.AllOrNothing`).
- AudioQueue.AudioNetworkBuffer.WriteAudio: runs with no other task at work, other tasks are in `AudioTraffic`.
- Ip6Text.Ip6Address.FromString: does not model `sscanf` itself, which is a parameter; beyond two hex digits nothing is assumed of it.
- The accessors `rb_bytes_filled`, `rb_is_full`, `rb_is_done_write` and `rb_get_size`: single field reads.
- The other IPv6 members: the byte-array constructor and `get_bytes` treat eight bytes as eight labels, and the IPv4 mapping is a stub.
- `calc_broadcast`, endpoints, address comparison: small fixed-width facts.
- Sockets, UDP client, network task, wifi, mDNS, packet validation: calls into lwIP, ESP-IDF and mbedTLS.
