# A Dafny model of libxpdk

libxpdk puts POSIX-like calls (`xpdk_read`, `xpdk_write_async`, `xpdk_readv`, ...)
in front of one SPDK thread. Callers take a message from a fixed pool, put it on
a ring and wait or return; the SPDK thread takes messages off the ring, runs
their handlers and later gets completions from the block device. This project
models that machinery as the C code has it, including its defects, and proves
what holds in every run. Where a property one would expect is false of the code,
the exact condition under which it holds is proved instead, in both directions.

`dafny verify dfyconfig.toml` checks everything.

## The parts

| files | what they model |
|---|---|
| `Blocks` | byte-to-block arithmetic in the C widths (64-bit sums, 32-bit block counts and products) |
| `BlockIo`, `BlockIoLaws` | the read and write handlers on byte arrays: zero-padded writes, direct and bounced reads, DMA allocations |
| `Vectored` | gather and scatter loops, the vectored calls around an ordinary read or write |
| `BatchContext`, `BatchRuns`, `BatchProtocol` | the batch context's two in-place queues; its interleavings with any number of submitters; what it assumes of its requests, derived from the protocol |
| `Perf`, `PerfLaws` | operation totals, integer moving average, one-second windows |
| `Descriptors` | the table of 256 slots, and opens and closes over time |
| `Messages` | pool, ring, dispatcher and poller, in place and as values |
| `Protocol`, `ProtocolInvariant`, `ProtocolSteps` | the step system of clients, SPDK thread and device; its invariant |
| `ProtocolResults`, `ProtocolHistories`, `ProtocolRuns`, `ProtocolTails`, `ProtocolTouches`, `ProtocolStrands`, `ProtocolDescriptors`, `ProtocolCounters`, `ProtocolProgress` | what follows for every run |
| `Codes`, `Finite` | return codes; counting facts |

SPDK itself is a small environment inside the model: a bounded FIFO ring, a
finite pool (a multiset, since nothing stops a double put), a device that is an
array of `numBlocks * blockSize` bytes. Its decisions (allocation fails, the
device layer refuses, the device fails, how much it had moved by then, the time
of day) are inputs. Completions are separate steps, never part of a submission.
The device layer refuses a request whose blocks are outside the device, as
`spdk_bdev_*_blocks` does.

A client call is split where another thread could notice: allocating and filling
in a message, sending it, seeing the flag, taking the result, putting it back.
Completions are split too: status, byte count and flag are three writes, and the
callback and the freeing of an asynchronous request are two. The SPDK thread may
have any number of messages under way, which covers nested polling inside a
synchronous handler. Runs start as `xpdk_init_opts` leaves the library: every
message in the pool, every slot free.

The handlers' effect on bytes is given at the handler's return (`HandleRead`,
`HandleWrite`) and, for a read, also at the moment its completion flag is set
(`ReadToFlag`). What a caller finds when its call returns depends on how far the
handler's copy has got by then, which is an input (`copied`) of the calls that
wait.

## Where the code and its description differ

- Error codes follow the repository's README (lines 151-156); in `include/xpdk.h`
  lines 16-24 another declaration is pasted over them.
- A write on a descriptor opened read-only is not refused by the handler: its
  test masks the flags with `O_RDONLY`, which is zero (`PermissionTests`).
- A bounced asynchronous read succeeds without filling the caller's buffer
  (`AsyncDeliversIff`).
- A bounced synchronous read sets the completion flag before it copies, so the
  caller can return, and reuse the message, too early (`EarlyReturnIff`,
  `StaleReadIff`). A vectored read then scatters what its linear buffer happened
  to hold, and the rest of the copy goes to the buffer it has freed
  (`ReadvDeliversIff`, `Readv`), or to the buffer of whatever call has got the
  message by then (`ReusedReadIff`).
- Trim and write-zeros test only whether the slot is in use, so on a slot whose
  open is in flight or has failed they pass on a null handle (`NullHandleIff`,
  `NullHandleInRuns`).
- An asynchronous request that its handler refuses is marked complete and then
  lost: no callback, no free (`ExactlyOnePlace`, `StrandedIffAnswered`). Every
  message of `xpdk_batch_submit` ends like that (`BatchSubmitStrands`), one such
  request in a batch context makes the wait in its clean-up endless
  (`StrandedBlocksCleanup`), and a library that has lost all its messages can
  never be shut down (`NoCallsAnyMore`, `LossPossibleIff`).
- Ring size and pool size are separate options; a send can be refused unless the
  ring holds at least as many messages as the pool (`NeverBusyIff`).
- Reads and writes match `pread` and `pwrite` (IEEE Std 1003.1-2017, XSH chapter
  3) only for some alignments and sizes (`ReadIsPreadIff`, `WriteIsPwriteIff`).
- A direct read of 2^32 blocks or more reports success for all of it and
  transfers the block count modulo 2^32 (`DirectLength`, `ReadIsPreadIff`).

## Model

| member | source | states |
|---|---|---|
| `Blocks.RoundedBounds` | src/xpdk_io.c:75 | rounding up to blocks loses no byte, adds less than a block, and adds none exactly for whole blocks |
| `Blocks.BlockCountExact` | src/xpdk_perf.c:223-225 | the 32-bit block count is the true one if and only if the true one is below 2^32; the same expression is used by read, write, trim and write-zeros |
| `Blocks.BounceFits` | src/xpdk_io.c:147-160 | the DMA buffer, whose size is a 32-bit product, holds `count` bytes if and only if the rounded size is below 2^32, and is then exactly the rounded size |
| `Blocks.DirectLength` | src/xpdk_io.c:73-104 | a transfer of whole blocks moves exactly `count` bytes if the block count fits in 32 bits and fewer otherwise |
| `Blocks.CoverIff` | src/xpdk_io.c:73-75 | the selected blocks contain the requested byte range if and only if offset mod block size plus count is at most the rounded count |
| `BlockIo.Copy` | src/xpdk_io.c:160 | memcpy: the range is replaced by the source's bytes, the rest is untouched |
| `BlockIo.HandleWrite` | src/xpdk_io.c:130-191 | on success the selected blocks hold the data then zeros; nothing outside them changes on any outcome, and nothing at all if the device layer refuses the request, range test included; success, each error code and the buffer overrun each happen exactly under their condition; no DMA buffer leaks |
| `BlockIo.PaddedWrite` | src/xpdk_io.c:151-189 | the padded buffer reaches the device as data followed by zeros; a request refused at submission or out of range leaves the device alone |
| `BlockIo.HandleRead` | src/xpdk_io.c:56-127 | at the handler's return: the exact outcome for every input; on success exactly the first bytes of the caller's buffer that the path delivers are the device's (all, a 32-bit cut of them, or none for a bounced asynchronous read) and the rest is untouched; nothing is written by a refused request; the bounce buffer leaks exactly when a bounced synchronous read fails at the device |
| `BlockIo.ReadSucceedsIff` | src/xpdk_io.c:59-125 | when the read handler succeeds, overruns its bounce buffer, or fails with which status, exactly, on the request, the slot and what the environment decides |
| `BlockIo.ReadToFlag` | src/xpdk_io.c:56-112 | the state when the completion flag is set: a bounced synchronous read has reported success while the caller's buffer is still as it was |
| `BlockIo.FinishRead` | src/xpdk_io.c:120-124 | the copy after the flag: the caller's buffer gets the bounce buffer's bytes, which is then freed; overrun exactly if it is too short |
| `BlockIo.DirectRead` | src/xpdk_io.c:77-104 | the direct path fills exactly the transferred length and nothing beyond, and nothing if refused |
| `BlockIo.BouncedRead` | src/xpdk_io.c:81-112 | up to the completion, the data of a successful synchronous read is in the bounce buffer; overrun exactly if the buffer's size was cut; who still holds the buffer afterwards |
| `BlockIoLaws.WriteThenRead` | src/xpdk_io.c:73-190 | reading back what was written with the same offset and count gives the data, for every alignment |
| `BlockIoLaws.WrittenBytes` | src/xpdk_io.c:147-175 | byte by byte: data, then zeros to the end of the last block, otherwise unchanged |
| `BlockIoLaws.DisjointWritesCommute` | src/xpdk_io.c:147-175 | writes to disjoint blocks commute |
| `BlockIoLaws.WriteIsPwriteIff` | include/xpdk.h:185-193 | when nothing goes wrong, the write handler succeeds and leaves what `pwrite` would, for all contents, if and only if offset and count are whole blocks and the count is below 2^32 |
| `BlockIoLaws.ReadIsPreadIff` | include/xpdk.h:175-183 | when nothing goes wrong, the synchronous read handler returns success with what `pread` gives, for all contents, if and only if the offset is a whole number of blocks and the block count (direct) or rounded size (bounced) fits in 32 bits |
| `BlockIoLaws.WriteLikePwrite` | src/xpdk_io.c:130-191 | the write handler run under that condition: never an overrun, and a success is a `pwrite` |
| `BlockIoLaws.ReadLikePread` | src/xpdk_io.c:56-127 | the read handler run under that condition: never an overrun, and a success is a `pread` |
| `BlockIoLaws.SyncDeliversIff` | src/xpdk_io.c:20-26 | a synchronous read that reports success has filled the buffer when the call returns, for all contents and every schedule, if and only if no bounce buffer is needed and the block count fits in 32 bits |
| `BlockIoLaws.WriteThenReadHandlers` | src/xpdk_io.c:56-191 | both handlers in sequence: if both succeed the reader's buffer holds exactly the written bytes, and the read succeeds if its environment does |
| `BlockIoLaws.BothReadPaths` | src/xpdk_io.c:77-124 | direct and bounced synchronous reads leave the same first `count` bytes and nothing beyond |
| `BlockIoLaws.AsyncDeliversIff` | src/xpdk_io.c:32-53 | when nothing goes wrong, an asynchronous read reports success with the caller's buffer filled, for all contents, if and only if no bounce buffer is needed and the block count fits in 32 bits |
| `BlockIoLaws.PermissionTests` | src/xpdk_io.c:140-145 | from the bit masks and slot fields: a write is admitted exactly on an attached slot, a read exactly if it also lacks the write-only bit, whatever access the open asked for |
| `Vectored.CalculateSize` | src/xpdk_vectored.c:11-18 | the loop computes the sum of the segment lengths modulo 2^64 |
| `Vectored.Gather` | src/xpdk_vectored.c:21-28 | the buffer starts with the concatenation of the segments, its rest is untouched |
| `Vectored.Scatter` | src/xpdk_vectored.c:31-38 | segments that do not overlap receive consecutive pieces of the buffer |
| `Vectored.SplitFlat` | src/xpdk_vectored.c:21-38 | scattering what was gathered gives the segments back |
| `Vectored.FlatSplit` | src/xpdk_vectored.c:21-38 | gathering what was scattered gives the buffer back, for every segmentation |
| `Vectored.Writev` | src/xpdk_vectored.c:76-106 | on success the device holds the concatenated segments as one write would leave them; nothing outside the selected blocks changes; success, each error code and overrun have exact conditions, wrapped sizes included; no buffer leaks |
| `Vectored.Readv` | src/xpdk_vectored.c:41-73 | for every schedule of the handler's copy: on success each segment holds its piece of the linear buffer, of which exactly what was delivered by then is the device's and the rest uninitialised; how many bytes the handler writes to the buffer after it was freed; on failure the segments are untouched; outcome and leaks exact, wrapped sizes included |
| `Vectored.ReadvDeliversIff` | src/xpdk_vectored.c:63-71 | a successful vectored read has filled its segments when it returns, for every device content, buffer address, old buffer content and schedule, if and only if the total is whole blocks, the block size divides 4096 and the block count fits in 32 bits; the same for what an asynchronous one's callback is shown |
| `Vectored.WritevThenReadv` | src/xpdk_vectored.c:41-106 | writing one segmentation and reading into any other of equal size keeps the byte stream whenever the read is direct (a test the caller can make) or the handler's copy came in time |
| `Vectored.VectoredCompletion` | src/xpdk_vectored.c:198-213 | after a successful read the user's callback sees the segments filled; otherwise they are untouched; buffer and wrapper are released once |
| `Vectored.ReadvAsync` | src/xpdk_vectored.c:109-149 | the callback runs at most once, and exactly if the message and device layers took the request; on success it sees exactly what the path delivered, over an uninitialised buffer; buffer and wrapper are released exactly if it ran; overrun exactly for a cut bounce buffer or a wrapped total |
| `BatchContext.BatchInit` | src/xpdk_batch.c:15-60 | a context exactly for sizes 1 to 1024 with all resources had, with empty queues |
| `BatchContext.BatchCtx.Reserve` | src/xpdk_batch.c:95-107 | BUSY exactly when the pending queue is full, otherwise the entry is appended |
| `BatchContext.BatchCtx.RollBack` | src/xpdk_batch.c:129-134 | the last pending entry goes, whoever put it there |
| `BatchContext.BatchCtx.ShiftDown` | src/xpdk_batch.c:167-169 | memmove to the front of a queue |
| `BatchContext.BatchCtx.CompletionCallback` | src/xpdk_batch.c:178-209 | the oldest pending entry moves to the completed queue with the reported status; the unchecked append overruns exactly when that queue is full |
| `BatchContext.BatchCtx.ProcessCompletions` | src/xpdk_batch.c:140-175 | the oldest completed entries leave: none if asked for none, at most as many as asked for, fewer only if all leave; the rest stays in order |
| `BatchRuns.PendingIsUnresolved` | src/xpdk_batch.c:69-76 | under every interleaving the pending counter equals the submissions not yet resolved, stays within the capacity, reaches zero only when there are none, and every callback finds an entry |
| `BatchRuns.EntriesStayIntact` | src/xpdk_batch.c:103-127 | under every interleaving each entry keeps the operation, descriptor, count and offset it was submitted with; a flush is never accepted |
| `BatchRuns.ProcessTakes` | src/xpdk_batch.c:150-170 | what one call to process completions takes in a run, with the same bounds |
| `BatchRuns.StrandedBlocksCleanup` | src/xpdk_batch.c:71-74 | once an accepted request never calls back, something is pending in every continuation |
| `BatchProtocol.StepsAreBatchSteps` | src/xpdk_batch.c:109-127 | every protocol step does to the asynchronous requests in flight and the stranded ones what an accept, callback or strand step of the batch context does, or nothing |
| `BatchProtocol.FatesAreFinal` | src/xpdk_io.c:39-50 | in every continuation a request that has called back, was stranded or was refused stays so; there is never a second callback |
| `BatchProtocol.FatesMean` | src/xpdk_io.c:39-42 | those fates told from a history's events: called back exactly with its callback's status, stranded exactly with its published one, refused exactly if the ring was full |
| `BatchRuns.CompletedQueueSafeIff` | src/xpdk_batch.c:190-200 | no append runs past the completed queue in any run if and only if the client keeps submitted minus processed at or below the capacity |
| `BatchRuns.QueuesKeepOrder` | src/xpdk_batch.c:95-204 | with one submitter (or capacity one) processed, completed and pending entries are the submissions not rolled back, in order; the k-th finished entry is the k-th accepted one as submitted, with the k-th callback's status, and no flush |
| `BatchRuns.InOrderIsEnough` | src/xpdk_batch.c:185-203 | completions in the order of acceptance give every finished request its own status |
| `BatchRuns.OwnStatusIff` | src/xpdk_batch.c:185-203 | for a given order of steps, every finished request has had its own callback and carries that one's status, whatever the statuses are, if and only if the device called back in the order of acceptance |
| `BatchRuns.RollBacksRightIff` | src/xpdk_batch.c:129-134 | roll-backs hit only the failing request in every run if and only if at most one thread submits or the capacity is one |
| `BatchRuns.TwoSubmitters` | src/xpdk_batch.c:95-134 | a run of two submitters in which the failing request stays and the other one's entry is dropped |
| `Perf.DeviceStats.InitStats` | src/xpdk_perf.c:16-21 | every statistics field becomes zero; the window start and its baselines stay |
| `Perf.DeviceStats.ResetStats` | src/xpdk_perf.c:161-166 | every statistics field and the baselines become zero; the window starts now |
| `Perf.DeviceStats.Update` | src/xpdk_perf.c:24-72 | one update, with 64-bit wrap-around throughout |
| `PerfLaws.EmaBetweenIff` | src/xpdk_perf.c:40 | one averaging step stays between average and latency for all values up to a bound if and only if the bound is below 2^61 |
| `PerfLaws.TotalsExact` | src/xpdk_perf.c:31-55 | the operation, byte and error counters are the totals over all samples |
| `PerfLaws.AveragesBetween` | src/xpdk_perf.c:36-51 | over every sequence of updates each average stays between the least and greatest latency seen |
| `PerfLaws.ConstantLatency` | src/xpdk_perf.c:36-51 | repeated averaging with one latency reaches it exactly from above, stops 7 short from below (or does not move if it is nearer), within as many steps as it was away from that value |
| `PerfLaws.ConstantLatencyUpdates` | src/xpdk_perf.c:31-55 | the same for whole sequences of updates from any state, reads and writes separately, mixed with other operations and errors |
| `PerfLaws.TowardsLimit` | src/xpdk_perf.c:40 | each step moves strictly towards that limit until it is reached and then stays |
| `PerfLaws.WindowsTelescope` | src/xpdk_perf.c:57-71 | with zero baselines they never exceed the totals; closed windows plus the open one sum to the totals |
| `PerfLaws.WindowStarts` | src/xpdk_perf.c:58-70 | over every sequence of updates from any state the open window starts, and closes, where the clock values alone say |
| `PerfLaws.BaselinesExact` | src/xpdk_perf.c:62-69 | the baselines are the totals over the samples up to the last one that ended a window |
| `PerfLaws.WindowsSafeIff` | src/xpdk_perf.c:16-21 | after opening, no window difference wraps in any sequence if and only if the slot's old baselines were zero |
| `PerfLaws.ResetIsSafe` | src/xpdk_perf.c:161-166 | after a reset no window difference ever wraps |
| `PerfLaws.ReportedRates` | src/xpdk_perf.c:61-71 | after every sequence of updates, told from the samples alone: if the last one ends a window, the rates are what came in since the previous end, per second of the time since then, rounded down; if not, what was reported before |
| `Descriptors.FirstFree` | src/xpdk_core.c:491-502 | the lowest free slot, or NOMEM exactly when all are in use |
| `Descriptors.DeviceTable.FindFreeFd` | src/xpdk_core.c:491-502 | the scanning loop claims that slot and no other |
| `Descriptors.DeviceTable.HandleOpen` | src/xpdk_bdev.c:88-124 | which status when; the slot keeps the caller's flags; a refused submission frees it and leaves the rest behind |
| `Descriptors.DeviceTable.OpenComplete` | src/xpdk_bdev.c:55-85 | whatever the slot holds by then: a device failure changes nothing, success with a channel attaches, no channel detaches; the slot stays in use |
| `Descriptors.DeviceTable.HandleClose` | src/xpdk_bdev.c:127-155 | succeeds exactly for slots in use and clears them |
| `Descriptors.DeviceTable.CloseAll` | src/xpdk_core.c:402-407 | slots in use whose close call got through the message layer are cleared; all others are left as they are |
| `Descriptors.DescriptorsOverRuns` | src/xpdk_bdev.c:88-155 | from an empty table, in every run without a premature close: returned descriptors are usable, no slot is shared, an open is refused exactly when in-flight, returned and leaked slots make 256 |
| `Descriptors.PrematureCloseBreaks` | src/xpdk_bdev.c:67-71 | closing a number and then completing an open keeps descriptors usable if and only if the close did not hit that open |
| `Descriptors.FailedOpenLeaks` | src/xpdk_bdev.c:60-78 | a failed completion leaves its slot in use and unusable, and no open gets it |
| `Descriptors.NoHandleIff` | src/xpdk_bdev.c:60-78 | a slot in use has no device handle exactly while its open is in flight or after its open has failed |
| `Descriptors.OwnedIsNotPremature` | src/xpdk_bdev.c:127-155 | closing a descriptor that an open returned and that was not closed since never hits an open in flight |
| `Messages.HandlersStepTable` | src/xpdk_bdev.c:88-155 | the dispatcher's open and close handlers change the table exactly as the begin and close steps of its own model, and no other handler touches it |
| `Messages.OpenAnswers` | src/xpdk_bdev.c:91-121 | NODEV, NOMEM, IO_ERROR or passed on, each exactly when; the lowest free slot is claimed with the caller's flags |
| `Messages.FlushAnswers` | src/xpdk_io.c:197-220 | INVALID exactly if the slot is not in use or lacks device, handle or channel; IO_ERROR exactly if it has all and the submission is refused |
| `Messages.IoAnswers` | src/xpdk_io.c:59-112 | INVALID, NOMEM, IO_ERROR or passed on for a read or write, each exactly when, on the slot's fields and flag bits |
| `Messages.DirectAnswers` | src/xpdk_perf.c:115-170 | what close, get-info, the statistics and rate-limit calls, trim, write-zeros, listing and batch submission answer, on the slot's fields |
| `Messages.NullHandleIff` | src/xpdk_perf.c:213-233 | a handler passes a null device handle on exactly when it is that of a trim or write-zeros on a slot in use without one; reads, writes and flushes never do |
| `Messages.DispatchAgreesWithIo` | src/xpdk_core.c:101-111 | a read or write is handed to the device exactly when the byte-moving handler's submission is taken, range test included, with a bounce buffer exactly when that one uses one, and otherwise gets the same answer |
| `Messages.TurboIsStandardPolls` | src/xpdk_core.c:80-151 | one turbo poll has the effect of 32 standard polls on ring, messages, table and counters, for every ring content |
| `Messages.Context.MsgAlloc` | src/xpdk_core.c:421-437 | NULL exactly for an empty pool, otherwise a wiped element of it |
| `Messages.Context.MsgFree` | src/xpdk_core.c:440-446 | puts the element into the pool, with no check |
| `Messages.Context.Send` | src/xpdk_core.c:473-489 | BUSY exactly when the ring is full, otherwise appended at the end |
| `Messages.Context.Dispatch` | src/xpdk_core.c:90-147 | one turn of the dispatch loop |
| `Messages.Context.Poll` | src/xpdk_core.c:73-151 | the loop stops after its quota, at an empty ring and after a shutdown; busy exactly if there was a message |
| `ProtocolSteps.ReachableInv` | src/xpdk_core.c:421-489 | every state reachable under any interleaving has, for each request, a stage that fixes its history, its message's fields and where the message is |
| `ProtocolResults.ExactlyOnePlace` | src/xpdk_core.c:421-489 | each message is in exactly one of pool, client, ring, handler or device, waiter, stranded; stranded are exactly the asynchronous ones marked complete |
| `ProtocolResults.CountsSumToPoolSize` | src/xpdk_core.c:231-235 | the six counts add up to the pool size |
| `ProtocolResults.FreesAreSafe` | src/xpdk_io.c:44-53 | no message is freed twice, or while on the ring, with the SPDK thread or in another client's hands; the only reference that can be left is that of the rest of a synchronous read whose call has returned; nothing else fills the pool |
| `ProtocolResults.RingIsFifo` | src/xpdk_core.c:85-88 | messages leave the ring in the order they entered; it never holds more than the pool |
| `ProtocolCounters.CountersExact` | src/xpdk_core.c:90-105 | in every run the two context counters are the messages taken off the ring and the reads and writes among them, modulo 2^64 |
| `ProtocolRuns.NeverBusyIff` | src/xpdk_core.c:458-462 | no send is ever refused in any run if and only if the ring holds as many messages as the pool |
| `ProtocolRuns.PollIsRun` | src/xpdk_core.c:73-151 | a whole poll is a run of dispatch and marking steps that continues the given state and ends with the memory the loop leaves |
| `ProtocolRuns.ReachableRun` | src/xpdk_core.c:73-151 | a run that continues a reachable state ends in one, so every result here holds when the poller returns |
| `ProtocolHistories.HistoriesSoFar` | src/xpdk_async.c:19-39 | at every moment each request's history begins one of five complete ones: one callback with its own status and then one free; or its own status, byte count or claimed descriptor returned; or its handler's answer, or a listing's count, returned; or refused; or stranded |
| `ProtocolHistories.CallResults` | src/xpdk_io.c:252-256 | in every run, on the history's events alone: a device failure returns IO_ERROR; on success a read or write returns its count, a flush 0, an open the slot its own handler claimed; an answered call returns its answer; opens, reads, writes and flushes return no error only after their device's success; a callback gets the device's verdict |
| `ProtocolHistories.ReturnsWhatIoReports` | src/xpdk_io.c:15-29 | the value a read or write returns is what the handler that moves its bytes reports |
| `ProtocolHistories.QuiescentHistories` | src/xpdk_io.c:32-53 | when nothing is under way every history is complete |
| `ProtocolHistories.StrandedIffAnswered` | src/xpdk_io.c:60-64 | a message is stranded if and only if its request was asynchronous and its handler answered it |
| `ProtocolHistories.BatchSubmitStrands` | src/xpdk_core.c:143-146 | a batch submission is refused by the ring or answered INVALID and stranded, in every run |
| `ProtocolHistories.PublishedIsStable` | src/xpdk_core.c:464-469 | from the setting of the flag until the caller puts the message back, taking of the result included, nobody else changes, takes or moves the message |
| `ProtocolTouches.StaleReadIff` | src/xpdk_io.c:120-124 | some run from initialisation lets the SPDK thread read a message after its caller freed it if and only if the call is a bounced synchronous read on a number from 0 to 255 |
| `ProtocolTouches.EarlyReturnIff` | src/xpdk_io.c:20-29 | some run from initialisation lets a call return before its data is copied if and only if it is a bounced synchronous read on a number from 0 to 255 |
| `ProtocolTouches.ReusedReadIff` | src/xpdk_io.c:122 | some run from initialisation lets the rest of a call copy with the buffer and count of another call that has got its message since, if and only if the first is a bounced synchronous read; the other can be any call |
| `ProtocolTouches.FreedExceptBounced` | src/xpdk_io.c:120-124 | whatever still refers to a message when it is freed belongs to bounced synchronous reads that have returned |
| `ProtocolTails.ReachableTails` | src/xpdk_io.c:114-125 | in every run what the SPDK thread still owes belongs to a synchronous read that its device completed and whose flag is set |
| `ProtocolStrands.StrandedForever` | src/xpdk_io.c:60-64 | a stranded message stays stranded in every continuation |
| `ProtocolStrands.NoCallsAnyMore` | src/xpdk_core.c:271-276 | once all messages are stranded no continuation contains another call, a shutdown included |
| `ProtocolStrands.LossPossibleIff` | src/xpdk_core.c:143-146 | the library can lose all its messages if and only if its ring can hold one |
| `ProtocolDescriptors.DescriptorsInRuns` | src/xpdk_bdev.c:88-155 | in every run from initialisation without an early close, for the account told from the run's dispatched opens and closes and completions: it is the table's; each returned descriptor is the slot its own open claimed and is usable; opens in flight share no slot; an open is refused exactly when in-flight, returned and leaked slots make 256 |
| `ProtocolDescriptors.SettledSlots` | src/xpdk_bdev.c:55-85 | in such a run an open that succeeded leaves its number usable, and one that failed leaves its slot in use and unusable, until a close of that number is dispatched |
| `ProtocolDescriptors.FlagsInRuns` | src/xpdk_bdev.c:107-110 | in such a run a returned descriptor's slot holds its own open's flags until a close: a read is refused exactly if that open had the write-only bit, a write never |
| `ProtocolDescriptors.PoliteIsClean` | src/xpdk_bdev.c:127-155 | if every close names a descriptor that an open returned and that was not closed since, no close hits an open in flight |
| `ProtocolDescriptors.NullHandleInRuns` | src/xpdk_perf.c:213-256 | in such a run a trim or write-zeros passes a null handle exactly when it names the slot of an open in flight or of a failed one |
| `ProtocolProgress.CanDrain` | src/xpdk_core.c:187-195 | from every reachable state without a shutdown request there is a continuation of that state without new calls in which everything comes to its end |
| `ProtocolProgress.EveryRunDrains` | src/xpdk_core.c:449-470 | every such continuation, whatever devices and schedulers do, is no longer than a given measure and can stop only where nothing is left to do, with every history complete |

## Left out

- SPDK internals (ring, pool, bdev, DMA allocator, nested thread polling): foreign code, replaced by the environment described above.
- `src/xpdk_qos.c`: passes values to SPDK and back; what SPDK answers to setting limits is an input here.
- The argument tests before a message is taken (NULL pointers, zero counts, a library that is not initialised): they answer INVALID; the calls here are those that pass.
- `xpdk_poll`, `xpdk_batch_wait`: they rest on the clock and on the return value of `spdk_thread_poll`.
- The handler of `xpdk_batch_submit`: the dispatcher never calls it; what happens to its messages is modelled.
- The `global_callback` of a batch context: no source file sets it, so the unlock inside the processing loop never happens.
- Trim and write-zeros on the device: they report success on submission and have no completion; their block arithmetic and their answers are modelled.
- The overall averages in the statistics query: one division each.
- Thread start-up, CPU affinity, option defaults, printing, `xpdk_strerror`, what a device listing or query copies (a listing's count is modelled).
- What happens to messages on the ring or at the device after a shutdown: the code gives them no completion. Safety results cover such states; the progress results assume no shutdown request.
- A user callback that makes a synchronous call: it would wait on the SPDK thread for that thread itself; callbacks return at once here.
- The spin in `xpdk_msg_send_sync` appears as a step that is possible once the flag is set, not as a loop, since it ends only through other threads.
- Memory ordering weaker than program order between the SPDK thread and its callers.
- Writev: on an overrun the allocation count is not stated, because the code has no defined behaviour there; the same holds for the other byte-moving methods.
- Readv: the late copy goes to the freed buffer; that a reused message can send it elsewhere is shown in the protocol (`ReusedReadIff`), not in the bytes.
- OpenComplete: a device handle that is overwritten after an early close is not counted as leaked.
- `xpdk_writev_async`: gathers first and then takes the same completion path.
