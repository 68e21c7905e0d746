# Verified model of the Xilinx DMA drivers

This project models the scatter-gather engine of the XDMA driver and five smaller pieces of the XDMA
and QDMA drivers and tools in Dafny 4.11, and proves what they promise. `dafny verify dfyconfig.toml`
checks everything.

## What is modelled

**Descriptor compiler** (`Descriptor`, `Fetch`, `Scatter`, `UserBuffer`, `Compile`, `Memory`). A user
buffer is cut into page segments, page segments into bounded pieces, pieces into slices of a ring of
32-byte descriptors with next pointers and adjacency hints. `Fetch` is an interpreter for that
format: a device that fetches blocks of adjacent descriptors until it executes one with the STOPPED
flag (PG195, "DMA/Bridge Subsystem for PCI Express"). The central result is
`CompilingPreservesMeaning`: compiling a request and running it is one linear copy.

**Engine** (`EngineModel`, `EngineInvariant`, `EngineRuns`, `EngineDriver`, `RingUse`, `RingAccount`).
`EngineModel` gives every section of the driver that runs under the engine lock as one step, and a
device that executes one descriptor per step. `EngineInvariant` and `EngineRuns` prove what holds in
every state of every interleaving. `EngineDriver.Engine` is the structure itself, updated in place;
each of its methods is proved equal to the step of the model. `RingAccount` shows when several
outstanding transfers keep clear of each other on the ring.

**Synchronous submit** (`Submit`, `Rounds`, `SubmitLoop`, `SubmitDriver`, `EndToEnd`). The submit path
among arbitrary steps of interrupts, pollers, offline and online, all given by a schedule. `Rounds`
gives one round as a function of engine and schedule and says when it is rejected and when it succeeds;
`SubmitLoop` proves what whole requests keep; the methods of `SubmitDriver` do it in place and are proved
equal. `EndToEnd.ReadWrite` puts pinning, cutting, submitting and running together: what reaches device
memory is the user buffer.

**Aperture** (`Aperture`, `ApertureDriver`, `ApertureWhole`): transfers whose device address wraps inside a
power-of-two window; the walk of the scatter list, the build loops in place, and when all transfers of a
request together move it.

**The rest**: the circular block allocator (`MemPool`), the balancing of engines over completion
threads (`WorkThreads`), the JTAG shift loop (`Xvc`), the netlink attribute writer and reader
(`Netlink`), and the QDMA queue table (`QueueTable`). `Arith` holds
facts about division, `Masks` about masks of powers of two.

## Assumptions

- Little-endian host; the ring is 32-byte aligned on the bus; no 64-bit address wraps.
- `desc_blen_max` is not 0 (it is clamped to 2^28-1 on loading). Bus addresses of pinned pages are the
  pages' own. The ring has fewer than 2^32-1 slots.
- Memory-mapped engines, `eop_flush` off, no cyclic transfers.
- The device executes the descriptors it is programmed with in list order, counts them, and stops at
  the STOPPED one; clearing RUN takes effect at once. In non-incrementing mode every device access
  of a descriptor is at its device address.
- An interrupt that is served finds BUSY clear. A submitter that waits aborts only its own transfer,
  which is the queue head, because the descriptor mutex admits one synchronous submit at a time.
- `engine_service` takes its count, flag and register values from a `Report`. Theorems about the
  state of the driver allow any report within the field widths and the BUSY rule above; "truthful" or
  "fresh" reports (not ahead of the device in its current run) are assumed only where bytes moved are
  claimed.
- Allocator: at least one block is asked for, the pool has at most 2^31-1 blocks and less than 4 GiB, its
  table starts all free. JTAG: at most 2^32-32 bits.

## Where the code does not do what one would expect

The code is modelled as it is. These are proved as results, with the exact condition where one exists:

- A pinned buffer of 4 GiB or more always ends in the "Invalid user buffer length" exit, since each
  segment takes the remaining length modulo 2^32 (`UserBuffer.MapUserBuf`).
- `xdma_init_request` computes the room for an oversized entry in 32 bits. An entry longer than
  `desc_blen_max` and within that many bytes of 4 GiB gets one slot for all its pieces, which are written
  before the "more than supported length" check (`Scatter.RoomIs`, `Scatter.OneEntryFits`,
  `Scatter.InitRequest`). Page segments never do that (`EndToEnd.PagesFit`).
- `transfer_init` does not check that `desc_used` stays within the ring; outstanding transfers overlap
  exactly when it does not (`RingUse.ApartIffCountFits`, `RingAccount.BuildFreeIff`).
- `engine_service_poll` reads the written-back count before it takes the engine lock. A count left
  over from an aborted run can complete the next transfer, and those queued behind it
  (`EngineRuns.StaleWriteBackRun`, `EngineRuns.CompletedButNotCopied`).
- Aborting a transfer that is not at the head leaves it on the queue (`EngineRuns.AbortBehindHead`).
- After a timeout whose status read fails, the transfer stays queued while its request is freed and its
  descriptors are zeroed; after a rejected queueing its descriptors stay in the ring and counted in
  `desc_used` (`SubmitLoop.Epilogue`).
- The scatter list of an aperture request is walked from its head for every transfer, so a second
  transfer moves the wrong host bytes unless the first stopped inside the first entry
  (`Aperture.LaterTransferIff`, `Aperture.RestartsAtHead`); a request is moved as a whole exactly if the
  ring never ends behind the first entry (`ApertureWhole.WholeIff`). The stored offset belongs to a later
  entry but is taken off the first one: if it is behind that entry's end, the 32-bit length wraps around
  and the descriptors leave the scatter list (`Aperture.BuildStaysInsideIff`, `Aperture.RunsPastEntry`). If no
  visited entry has bytes left, the build makes no descriptor and the linking loop, which counts to
  `desc_cnt - 1` unsigned, leaves the ring (`Aperture.BuildEmitsIff`, `Aperture.EmptyBuild`,
  `ApertureDriver.LinkDescriptors`).
- The allocator's scan never ends in the states `MemPool.Diverges` describes, some of them reachable
  with two-block requests; once it has met a chunk it searches on, and wraps, but never finds a place
  (`MemPool.Pool.Search`).
- The offsets of blocks and block table are computed in 32 bits: in a pool of 4 GiB or more some block
  reaches into or behind the table (`MemPool.PoolFitsIff`).
- A JTAG shift of 2^32-7 bits or more gets an allocation of 0 bytes and copies outside it
  (`Xvc.CopiesInsideIff`); beyond 2^32-32 bits the loop counter wraps around and the loop never ends
  (`Xvc.LoopEndsIff`).
- The thread scan compares with the first thread only; from unbalanced counts it can pick a busier
  thread (`WorkThreads.PickIsLeastIff`).
- On a physical function, `qdma_queue_add` leaves a queue enabled but uncounted if the queue-range
  set-up or the counting fails (`QueueTable.AddKeepsIff`, `QueueTable.AddStops`,
  `QueueTable.StuckQueueRun`).

## Model

| member | source | states |
|---|---|---|
| `Descriptor.ControlRoundTrip` | xdma-driver/xdma/libxdma.c:2328-2353 | Whatever control byte and adjacency count the driver packs into a control word, the device unpacks the same byte, count and magic. |
| `Fetch.GetNextAdj` | xdma-driver/xdma/libxdma.c:647-663 | The adjacency hint always fits the six bits of its field. |
| `Fetch.AdjIsLeft` | xdma-driver/xdma/libxdma.c:647-663 | The hint computed from the low half of an address is the number of descriptors left before the end of the 64-descriptor block or of the chain. |
| `Fetch.WalkPrefix` | xdma-driver/xdma/libxdma.c:743-759 | Started as engine_start programs it, after k steps the device has executed slots p..p+k-1 once each, in order, and knows exactly how many adjacent descriptors it still holds. |
| `Fetch.FetchCount` | xdma-driver/xdma/libxdma.c:647-663 | How many blocks have been fetched after k steps, for any starting slot. |
| `Fetch.FetchFrames` | xdma-driver/xdma/libxdma.c:647-663 | No block fetched on the way crosses a 2 KiB boundary. |
| `Fetch.BlockFetchRefinesList` | xdma-driver/xdma/libxdma.c:647-663 | For any number of steps the block-fetching device and a device that follows every next pointer execute the same descriptors and halt at the only STOPPED one; the walk takes ceil((s mod 64 + n)/64) fetches. |
| `Scatter.CutEntry` | xdma-driver/xdma/libxdma.c:3119-3135 | One scatter entry becomes ceil(len/limit) pieces; if they have room, piece k starts k limits into the entry and is a limit long, or what is left, their concatenation is the entry, and nothing before them changes; a piece is written outside the array exactly if they have no room. |
| `Scatter.RoomIs` | xdma-driver/xdma/libxdma.c:3101-3111 | Room counted by the first loop and pieces made by the second, for any list: their difference is what empty and oversized entries spare less what entries whose 32-bit length computation wraps around lack. |
| `Scatter.OneEntryFits` | xdma-driver/xdma/libxdma.c:3104-3105 | A single entry overruns the array exactly if it is longer than the limit and its length plus the limit exceeds 2^32. |
| `Scatter.InitRequest` | xdma-driver/xdma/libxdma.c:3092-3148 | For any list: all pieces go into the array, and the "more than supported" exit is not taken, exactly if what wrapped entries lack is covered by what the others spare; then the pieces are bounded, non-empty and flatten to the same bytes in order. The count is the sum of ceil(len/limit), total_len the 32-bit sum. |
| `UserBuffer.FillSgl` | xdma-driver/xdma/cdev_sgdma.c:320-336 | Nothing is left over exactly for buffers below 4 GiB; then every segment is non-empty, inside its page, and the list is the address translation of the buffer. |
| `UserBuffer.MapUserBuf` | xdma-driver/xdma/cdev_sgdma.c:272-350 | Which of the exits is taken, as an if-and-only-if for each; on success ceil((offset+len)/4096) page segments that are the buffer. The "Invalid user buffer length" exit is reached by a fully pinned buffer exactly when it is 4 GiB or longer. |
| `Compile.CompiledLink` | xdma-driver/xdma/libxdma.c:2261-2353 | A compiled descriptor carries magic, the STOPPED/EOP/COMPLETED byte on the last one only, and the adjacency of its next pointer. |
| `Compile.PlacedAddresses` | xdma-driver/xdma/libxdma.c:2378-2400 | Descriptor i of a built transfer has the length and host address of piece i and the device address behind the pieces before it, or the same one for all if the address does not advance. |
| `Compile.CompiledIsChained` | xdma-driver/xdma/libxdma.c:2957-3033 | A compiled slice is one terminated chain at any ring position, for any pieces. |
| `Compile.ChainMovesLinear` | xdma-driver/xdma/libxdma.c:2918-2954 | The first k descriptors of a slice move the linear copy of the first k pieces. |
| `Compile.TransferIsLinearCopy` | xdma-driver/xdma/libxdma.c:2957-3033 | Programming the engine with a transfer and letting it run until it stops moves exactly the flattened pieces, to or from consecutive device addresses (or the fixed one). |
| `Compile.SlicesExact` | xdma-driver/xdma/libxdma.c:2960-3020 | A request of rem > 0 descriptors at cursor p of a ring of d uses exactly ceil((p+rem)/d) transfers, none empty, none wrapping, together all of it. |
| `Compile.TwoTransfersSuffice` | xdma-driver/xdma/libxdma.h:480-480 | Two transfer structures are enough for every request that fits the ring: one if it fits before the end, else two. |
| `Compile.CompilingPreservesMeaning` | xdma-driver/xdma/libxdma.c:2918-3148 | For every list of pieces, ring content, ring position, direction and address mode, building and running all transfers of a request one after the other is one linear copy of the flattened list. |
| `Memory.RequestReachesDevice` | xdma-driver/xdma/libxdma.c:2918-3148 | After the moves of a host-to-device request device byte ep+k holds host byte k of the list and every other device byte is unchanged. |
| `Memory.RequestReachesHost` | xdma-driver/xdma/libxdma.c:2918-3148 | After a device-to-host request every buffer byte holds the device byte of its position; for a repeated address the last position counts. |
| `EndToEnd.PagesFit` | xdma-driver/xdma/cdev_sgdma.c:320-336 | The segments of a buffer below 4 GiB never make xdma_init_request run out of room. |
| `EndToEnd.AlignedIff` | xdma-driver/xdma/cdev_sgdma.c:179-225 | The alignment check looks at the start of buffer and device range only; for an alignment of 2^k up to a page, in incrementing mode, it passes exactly if every byte of the buffer has a host and a device address with the same remainder. |
| `EndToEnd.AlignedRest` | xdma-driver/xdma/cdev_sgdma.c:179-225 | For alignments that are powers of two, in numbers and both modes: a fixed-address engine takes a request exactly if buffer and device address are multiples of the one and the length of the other; an incrementing one exactly if both addresses have the same remainder. |
| `EndToEnd.ReadWrite` | xdma-driver/xdma/cdev_sgdma.c:352-402 | From the user buffer to device memory or back. The call is refused, and the engine untouched, exactly for the wrong direction or alignment (in remainders, for both address modes), a buffer that cannot be mapped, or a device seen offline. Otherwise, under truthful reports, exactly the first `moved` bytes of the buffer are exchanged, in order, with consecutive device addresses, or all with the same one on a fixed-address engine; in the first case no other device byte changes; every counted byte is among them, on success all of them, and the count is the length of the buffer. On an engine that is online, a schedule that attends to every transfer succeeds. |
| `EngineDriver.Engine.constructor` | xdma-driver/xdma/libxdma.c:2789-2899 | A new engine satisfies the engine invariant: idle, empty queue, nothing in use. |
| `EngineDriver.Engine.Stop` | xdma-driver/xdma/libxdma.c:540-576 | Clears RUN in the device and running in the driver, nothing else. |
| `EngineDriver.Engine.Start` | xdma-driver/xdma/libxdma.c:681-776 | Refuses a running engine or an empty queue; otherwise programs the head transfer with the adjacency of its first block and resets shutdown and desc_dequeued. |
| `EngineDriver.Engine.ServiceTransferList` | xdma-driver/xdma/libxdma.c:827-884 | The in-place loop removes and completes the transfers the recursive specification does, with the same remaining count. |
| `EngineDriver.Engine.ServiceFinalTransfer` | xdma-driver/xdma/libxdma.c:917-1022 | Error bit: the head fails and the engine stops; short count: the head fails with the count as its completed descriptors; otherwise it completes with all of them. It always leaves the queue, and desc_dequeued grows by its size unless the error bit is set. |
| `EngineDriver.Engine.ServiceResume` | xdma-driver/xdma/libxdma.c:1054-1088 | Afterwards the engine runs exactly if transfers are queued: a stopped one is restarted and its status read, one without transfers is stopped, and marked idle if it was down under a shutdown request. |
| `EngineDriver.Engine.Service` | xdma-driver/xdma/libxdma.c:1098-1204 | One service call is the specified step for any written-back count, error flag, status and register value. |
| `EngineDriver.Engine.TransferQueue` | xdma-driver/xdma/libxdma.c:2447-2524 | Rejects exactly an empty transfer, an offline device and a shutdown request, and then changes nothing; otherwise the transfer is last on the queue as SUBMITTED and an idle engine is started. |
| `EngineDriver.Engine.TransferAbort` | xdma-driver/xdma/libxdma.c:2403-2438 | Removes the transfer if it is the head, marks it ABORTED if it was SUBMITTED, fails on an empty one. |
| `EngineDriver.Engine.Offline` | xdma-driver/xdma/libxdma.c:4558-4583 | Requests shutdown and stops the engine in one locked section. |
| `EngineDriver.Engine.Online` | xdma-driver/xdma/libxdma.c:4610-4628 | Withdraws the shutdown request and nothing else. |
| `EngineDriver.Engine.DescInit` | xdma-driver/xdma/libxdma.c:2261-2287 | Links exactly the given slots into one list and terminates the last. |
| `EngineDriver.Engine.TransferBuild` | xdma-driver/xdma/libxdma.c:2918-2954 | Piece i gets host address, length and the device address after the bytes before it; the request advances by what was built; all other slots stay. |
| `EngineDriver.Engine.SetControls` | xdma-driver/xdma/libxdma.c:3002-3029 | Control bits on the last descriptor only, then the adjacency of every descriptor. |
| `EngineDriver.Engine.TransferInit` | xdma-driver/xdma/libxdma.c:2957-3033 | The passes over the ring, done in place, give the closed form of every descriptor, leave other slots alone, take min(rest of request, ring) cut at the ring end, and advance cursor, desc_used and request. |
| `EngineDriver.StagesAreCompiled` | xdma-driver/xdma/libxdma.c:2994-3029 | Linking, filling and controlling a descriptor in the order of the driver is the closed form the device semantics is proved about. |
| `EngineInvariant.BuiltIsLoaded` | xdma-driver/xdma/libxdma.c:2957-3033 | A freshly built transfer is a chain in the ring whose execution is its copy. |
| `EngineInvariant.StartKeeps` | xdma-driver/xdma/libxdma.c:681-776 | Starting from any consistent queue leaves the device programmed with the head transfer, at its first descriptor. |
| `EngineInvariant.ServiceKeeps` | xdma-driver/xdma/libxdma.c:1098-1204 | Any service call keeps the invariant; if it sees a non-zero count on a running engine, the engine afterwards runs exactly when transfers are queued. |
| `EngineInvariant.QueueKeeps` | xdma-driver/xdma/libxdma.c:2447-2524 | An accepted transfer is queued on a running engine, a rejected one changes nothing; the invariant is kept. |
| `EngineInvariant.TimeoutKeeps` | xdma-driver/xdma/libxdma.c:3618-3637 | The timeout branch of a waiter (status read, abort, stop) keeps the invariant. |
| `EngineInvariant.BuildKeeps` | xdma-driver/xdma/libxdma.c:2957-3033 | Building into free slots disturbs neither queued transfers nor the running one. |
| `EngineInvariant.HwStepKeeps` | xdma-driver/xdma/libxdma.c:743-770 | A step of the device keeps the invariant and executes the next descriptor of the head transfer. |
| `EngineInvariant.StepKeeps` | xdma-driver/xdma/libxdma.c:1098-1204 | The invariant is inductive over builds, queueings, services, timeouts, offline, online and device steps. |
| `EngineRuns.InvAlways` | xdma-driver/xdma/libxdma.c:681-776 | In every state of every interleaving: a running engine has a non-empty queue, the device is on the head transfer, desc_dequeued is 0, a transfer is queued exactly while SUBMITTED, and shutdown requested implies not running and never idle. |
| `EngineRuns.StaysDown` | xdma-driver/xdma/libxdma.c:1111-1119 | Under a shutdown request no step but online starts the engine or lets the device move a byte. |
| `EngineRuns.OfflineIsQuiet` | xdma-driver/xdma/libxdma.c:4558-4568 | After offline the engine stays down and the device log unchanged over any run without online; ENGINE_SHUTDOWN_IDLE is never set. |
| `EngineRuns.RunIsFifo` | xdma-driver/xdma/libxdma.c:2427-2433 | At every point of every run the removed transfers followed by the queue are the submission history, and both histories only grow. |
| `EngineRuns.ServeListIsLongestPrefix` | xdma-driver/xdma/libxdma.c:827-884 | One call completes the longest prefix of the queue whose running descriptor sum stays strictly below the count; desc_dequeued plus the remaining count is unchanged; nothing else is touched. |
| `EngineRuns.QueueVerdict` | xdma-driver/xdma/libxdma.c:827-1022 | What a service call makes of every queued transfer, on report and queue alone: COMPLETED exactly if the count exceeds the descriptors up to its end, or equals them with no error bit; FAILED if the count ends inside it or at its end with an error bit, with the completed descriptors it is given; otherwise queued and unchanged. The error bit is that of the status register if the call has no count or an error flag, else the one read before. No byte moves. |
| `EngineRuns.HeadVerdict` | xdma-driver/xdma/libxdma.c:917-1022 | The head is COMPLETED exactly when the count exceeds its size, or equals it with no error bit in what the call reads or was left with; else FAILED; it is off the queue either way. |
| `EngineRuns.ServiceEnds` | xdma-driver/xdma/libxdma.c:1110-1204 | What else a service call changes: a stopped engine has its status read; a call that sees no count stops the device and nothing more; one that sees a count restarts the device exactly if transfers are left, and reads the status again then. |
| `EngineRuns.ServiceSubtracts` | xdma-driver/xdma/libxdma.c:1182-1197 | The count is taken less what was dequeued in this run, in 32 bits: if the rest does not reach past the head, the head alone is taken off and judged by the rest. |
| `EngineRuns.CompletedMeansCopied` | xdma-driver/xdma/libxdma.c:1098-1204 | If the count is not ahead of the device in its current run, COMPLETED holds exactly when every descriptor was executed without error, and then the device has moved exactly the copy of the transfer. |
| `EngineRuns.RunCopies` | xdma-driver/xdma/libxdma.c:1098-1204 | In any run, at a service with a fresh count, a transfer turns COMPLETED only as the queue head and only after its whole copy was moved. |
| `EngineRuns.OnlyHeadMoved` | xdma-driver/xdma/libxdma.c:743-770 | All the device has moved in its current run are the executed descriptors of the head transfer. |
| `EngineRuns.CompletedButNotCopied` | xdma-driver/xdma/libxdma.c:1305-1340 | For every queue position, the head and those behind it: exactly when the transfer is reported COMPLETED although the device has not executed it, namely when a count left over from an earlier run reaches the descriptors of the queue up to its end. |
| `EngineRuns.StaleWriteBackRun` | xdma-driver/xdma/libxdma.c:1330-1335 | Such a run exists: the poller reads the written-back count before it takes the lock, the waiter times out, a second transfer is started, and the old count completes it although nothing of it moved. |
| `EngineRuns.AbortBehindHead` | xdma-driver/xdma/libxdma.c:2427-2436 | Aborting a transfer behind the head leaves it on the queue as ABORTED, which breaks the invariant. |
| `Submit.IdleRun` | xdma-driver/xdma/libxdma.c:1098-1204 | Whatever the rest of the system does to an engine with an empty queue, transfers, ring, counters and moved bytes stay as they are. |
| `Submit.PendingRun` | xdma-driver/xdma/libxdma.c:3573-3581 | Over any interleaving while a waiter sleeps, its transfer is the only outstanding one, queued exactly until it is settled, the device moves a prefix of its copy, and under truthful reports COMPLETED means all of it. |
| `Rounds.RoundVerdict` | xdma-driver/xdma/libxdma.c:3538-3644 | What a round reports: rejected exactly if the device was seen offline or a shutdown was requested when the transfer was offered; else success, failure or interruption exactly by the state of the transfer when the wait ended (COMPLETED, FAILED, still SUBMITTED and queued). |
| `Rounds.BusyIff` | xdma-driver/xdma/libxdma.c:2447-2524 | The same rejection on the inputs alone: the flag as it was checked, or the last offline or online step before queueing was an offline (or none, and a shutdown was already requested). |
| `Rounds.RoundFacts` | xdma-driver/xdma/libxdma.c:3534-3659 | After any round the cursor is behind the slice, desc_used is as before unless it was rejected, the engine is idle unless the status could not be read after a timeout, and a prefix of the copy of the slice was moved; under truthful reports all of it if the round reports success. The slots of the slice are all-zero descriptors, or hold it as built after a rejection, and no other slot has changed. |
| `Rounds.WipedIsNotExecuted` | xdma-driver/xdma/libxdma.c:2362-2365 | A slot that was given back is not executed: it has no magic. |
| `Rounds.FirstReportDecides` | xdma-driver/xdma/libxdma.c:3563-3604 | A round that is not rejected and whose transfer is reported for the first time after m of its descriptors: success exactly if the report shows all of them and no error bit, otherwise an I/O error, whatever happens afterwards. |
| `Rounds.ErrorEndsRound` | xdma-driver/xdma/libxdma.c:917-945 | A transfer reported at its last descriptor with an error bit in the status register, by an interrupt or by a write-back with its error flag set, ends the round with an I/O error. |
| `Rounds.ServedRound` | xdma-driver/xdma/libxdma.c:3563-3604 | A round whose schedule queues the transfer, lets the device execute its descriptors and then reports them without an error succeeds, whatever happens afterwards. |
| `Rounds.RoundStaysOnline` | xdma-driver/xdma/libxdma.c:3563-3604 | A round during which nobody takes the engine offline leaves no shutdown request behind. |
| `SubmitLoop.StagesReached` | xdma-driver/xdma/libxdma.c:3534-3658 | After k completed rounds: cursor, device address and desc_used are where they should be, as many rounds are left as the ring position requires, and under truthful reports the device has moved exactly the linear copy of the descriptors submitted so far. |
| `SubmitLoop.SimplyAttended` | xdma-driver/xdma/libxdma.c:3573-3604 | Such schedules exist: as many device steps as descriptors, then an interrupt without an error bit. |
| `SubmitLoop.AttendedSucceeds` | xdma-driver/xdma/libxdma.c:3534-3659 | On an engine that is online, if every transfer is executed and reported and nobody takes the engine offline, no round fails: the request completes. |
| `SubmitLoop.Epilogue` | xdma-driver/xdma/libxdma.c:3534-3672 | For a whole request and any schedule: it completes with as many transfers as the ring position requires; a round is rejected exactly if the device was seen offline or a shutdown was requested; if it is online and attended to it completes; desc_used is back unless the last round was rejected; the queue is empty unless a status could not be read; going round the ring from the cursor on entry, as many slots as were built are all-zero descriptors, but for a rejected transfer, and the others as they were; under truthful reports a prefix of the copy was moved that contains every completed round. |
| `SubmitDriver.Offer` | xdma-driver/xdma/libxdma.c:3539-3544 | Building the next slice in place, among other steps, gives exactly the offered engine of the round. |
| `SubmitDriver.QueueAndWait` | xdma-driver/xdma/libxdma.c:3563-3581 | The transfer is accepted exactly if the device was not seen offline and no shutdown is requested; then the engine is the one the wait leaves. |
| `SubmitDriver.TransferDestroy` | xdma-driver/xdma/libxdma.c:2902-2905 | The descriptors of the transfer become all-zero, every other slot and all else stays. |
| `SubmitDriver.GiveUp` | xdma-driver/xdma/libxdma.c:3618-3637 | If the status can be read, it is stored, the transfer at the head leaves the queue as ABORTED and the engine stops; otherwise nothing changes. |
| `SubmitDriver.Settle` | xdma-driver/xdma/libxdma.c:3581-3647 | Under the lock after the wait the return value is decided by the state of the transfer alone; a transfer still SUBMITTED is aborted and the engine stopped if the status can be read; in every case the descriptors of the slice become all-zero, no other slot changes, and desc_used drops by their number. |
| `SubmitDriver.SubmitRound` | xdma-driver/xdma/libxdma.c:3534-3659 | One round in place is the function Round of engine, slice, device address and schedule: return value and whole new state. |
| `SubmitDriver.SubmitRounds` | xdma-driver/xdma/libxdma.c:3530-3659 | For every schedule the loop ends, and its rounds are those of SubmitLoop: the completed transfers are a prefix of the request, the count is their length, success is reported exactly when all completed, and everything Epilogue states holds. |
| `SubmitDriver.XferSubmit` | xdma-driver/xdma/libxdma.c:3448-3672 | The whole call: each refusal as an if-and-only-if on the inputs, in this order: the device is offline, the direction is wrong, the list maps to nothing, its pieces have no room; then the engine is untouched. Otherwise the software descriptors flatten to the list, and the result is that of the loop, a byte count if any transfer completed. |
| `RingUse.ApplyIs` | xdma-driver/xdma/libxdma.c:2960-3020 | A slice starts at the cursor and takes what is wanted up to the end of the ring; it is accounted for, and the oldest is given back first. |
| `RingUse.ApartIffCountFits` | xdma-driver/xdma/libxdma.c:2960-3020 | Over any run of transfers taken at the cursor and retired in order, outstanding slices follow each other round the ring, desc_used is their sum, and they own disjoint slots exactly when desc_used does not exceed the ring size, which transfer_init does not check. |
| `RingAccount.BuildFreeIff` | xdma-driver/xdma/libxdma.c:2960-3020 | On an engine with any number of outstanding transfers, the slice at the cursor is clear of all of them exactly if desc_used plus its length does not exceed the ring size. |
| `RingAccount.BuildIsTake` | xdma-driver/xdma/libxdma.c:2957-3033 | Building the slice transfer_init takes is the take of the ring account. |
| `RingAccount.RetireIsRetire` | xdma-driver/xdma/libxdma.c:3646-3647 | Giving back the oldest transfer is its retirement. |
| `RingAccount.BuildGood` | xdma-driver/xdma/libxdma.c:2957-3033 | Building such a slice keeps the engine invariant, every outstanding transfer as it was built, and the account. |
| `RingAccount.RetireGood` | xdma-driver/xdma/libxdma.c:3646-3647 | Giving back the descriptors of the oldest outstanding transfer once it has left the queue keeps all three. |
| `RingAccount.IdleIsGood` | xdma-driver/xdma/libxdma.c:2789-2899 | An engine with nothing queued and nothing in use is a start for such runs. |
| `RingAccount.RoomIsEnough` | xdma-driver/xdma/libxdma.c:2960-3020 | Over every run of builds that respect desc_used, queueings, services, aborts, offline, online, device steps and oldest-first retirement, every build goes into free slots and the engine invariant holds: free slots need not be assumed. |
| `Masks.MaskIsMod` | xdma-driver/xdma/libxdma.c:3260-3260 | Masking with 2^k-1 is the remainder modulo 2^k, for apertures and alignments alike. |
| `Aperture.WalkWraps` | xdma-driver/xdma/libxdma.c:3263-3306 | For any stored position, also one behind the end of the entry, where the 32-bit length wraps around: every descriptor is inside the window, non-empty and within min(aperture, limit), and byte k has device address base + (offset+k) mod aperture. |
| `Aperture.BuildEmitsIff` | xdma-driver/xdma/libxdma.c:3257-3309 | A build makes a descriptor exactly if a slot is free, the list does not count as exhausted, and an entry it visits from the head of the list has bytes left. |
| `Aperture.BuildStaysInsideIff` | xdma-driver/xdma/libxdma.c:3268-3301 | Its descriptors stay inside the scatter list exactly if the stored offset is not behind the end of the first entry (or nothing is built for it). |
| `Aperture.BuildIsSoundIff` | xdma-driver/xdma/libxdma.c:3257-3309 | So a build is sound, non-empty and inside the list, exactly under a condition on sg_idx, sg_offset, the list and the free slots. |
| `Aperture.WalkTakesRest` | xdma-driver/xdma/libxdma.c:3259-3309 | From a position inside its first entry: the host bytes of a transfer followed by what its final cursor has left are what the first cursor had. |
| `Aperture.WalkCounts` | xdma-driver/xdma/libxdma.c:3259-3309 | A transfer makes as many descriptors as list and window require, counted before the build, up to the free slots. |
| `Aperture.CountBound` | xdma-driver/xdma/libxdma.c:3272-3280 | An entry takes at most one descriptor per full maximum length, one per window boundary it meets, and one more. |
| `Aperture.OneTransferIsExact` | xdma-driver/xdma/libxdma.c:3158-3306 | The first transfer moves the whole request exactly if the free slots suffice for the descriptors its list takes in this window; then byte k of the flattened list goes to or comes from base + (k mod aperture). |
| `Aperture.LaterTransferIsExact` | xdma-driver/xdma/libxdma.c:3257-3309 | A later transfer still moves the right bytes if the one before it stopped inside the first scatter entry. |
| `Aperture.LaterTransferIff` | xdma-driver/xdma/libxdma.c:3257-3309 | For lists of non-empty entries without repeated bytes and any position (entry i, offset o) at which a transfer is due to go on, it starts with the right host bytes if and only if i is 0, because the walk restarts at the head of the list. |
| `Aperture.RequestWraps` | xdma-driver/xdma/libxdma.c:3225-3384 | Over all transfers of a request, from any ring cursor: byte k in the order of moving has device address base + (k mod aperture), although the request offset is kept in 32 bits. |
| `Aperture.RestartsAtHead` | xdma-driver/xdma/libxdma.c:3259-3263 | A two-entry request with one ring slot left: the second transfer moves the bytes of entry 0 again. |
| `Aperture.EmptyBuild` | xdma-driver/xdma/libxdma.c:3225-3263 | Entries of 4 and 8 bytes, aperture 16, limit 4, one slot left at first: the third build is due with bytes to go and makes no descriptor, however many slots are free. |
| `Aperture.RunsPastEntry` | xdma-driver/xdma/libxdma.c:3266-3269 | Entries of 4 and 16 bytes, two slots left: the second build starts 8 bytes into the 4-byte entry, its length wraps around, and its descriptors leave the scatter list. |
| `ApertureDriver.FillEntry` | xdma-driver/xdma/libxdma.c:3268-3301 | From any stored offset the loop over one entry makes the pieces the walk prescribes and stops at its end or at the end of the ring. |
| `ApertureDriver.FillDescriptors` | xdma-driver/xdma/libxdma.c:3257-3309 | The two nested loops, in place and from any stored position, write the pieces of the walk and store its final position and offset in the request. |
| `ApertureDriver.LinkDescriptors` | xdma-driver/xdma/libxdma.c:3315-3339 | The linking and adjacency loops give every descriptor next pointer, magic, control bits and adjacency; without a descriptor, and only then, the linking loop runs over the end of the ring. |
| `ApertureDriver.BuildTransfer` | xdma-driver/xdma/libxdma.c:3241-3342 | One build round, from any stored position, compiles the walk of the scatter list into the ring, in the same closed form as transfer_init, and accounts for it; the linking loop stays in the ring exactly if an entry that is visited has bytes left. |
| `Aperture.TransferWraps` | xdma-driver/xdma/libxdma.c:3241-3342 | Running what was built moves byte k of the transfer to or from base + (offset+k) mod aperture, for any offset, ring position and scatter list. |
| `ApertureDriver.RequestWrapsOnDevice` | xdma-driver/xdma/libxdma.c:3225-3384 | Building and running the transfers of a request one after the other, from any ring content and cursor: byte k moved has device address base + (k mod aperture). |
| `ApertureWhole.BuildFrom` | xdma-driver/xdma/libxdma.c:3257-3309 | A build that starts inside entry 0 moves the next bytes of the request, and by the free slots alone stays in entry 0, stops on a byte of a later entry, or takes all there is. |
| `ApertureWhole.WholeIff` | xdma-driver/xdma/libxdma.c:3225-3309 | For non-empty entries without a repeated byte, from any ring cursor: the transfers of a request together move exactly the flattened list if and only if the ring never ends while descriptors of the entries behind the first are still to be made, a condition on list, window, cursor and ring size. |
| `ApertureWhole.WholeOnDeviceIff` | xdma-driver/xdma/libxdma.c:3225-3384 | The same for what the device moves: byte k of the list at base + (k mod aperture) for every k, and nothing else, exactly under that condition. |
| `MemPool.PoolFitsIff` | qdma-driver/apps/dma-utils/dmaxfer.c:118-134 | Every block, at its 32-bit offset, ends before the block table exactly if the pool is smaller than 4 GiB. |
| `MemPool.Pool.constructor` | qdma-driver/apps/dma-utils/dmaxfer.c:118-134 | A pool below 4 GiB with an all-free table satisfies the allocator invariant. |
| `MemPool.Pool.Search` | qdma-driver/apps/dma-utils/dmaxfer.c:144-178 | The scan ends whenever it does not circle, and finds a place exactly when the window at the cursor (or at 0 when it would overrun) holds no live chunk head, although it goes on searching past occupied blocks. |
| `MemPool.ScanStep` | qdma-driver/apps/dma-utils/dmaxfer.c:157-171 | One iteration of the scan in a state that does not circle: until it meets a chunk it searches the first window, afterwards it can no longer find a place; it restarts from 0 at most once, and returns early only if there is no place. |
| `MemPool.Pool.Alloc` | qdma-driver/apps/dma-utils/dmaxfer.c:144-189 | Succeeds exactly if the blocks at the cursor, or from 0 on if those would overrun, are inside the pool and hold no chunk; then the chunk is there, in bounds and disjoint from every live one, the table changes at its first block only, and the cursor is behind it; otherwise nothing changes. |
| `MemPool.Pool.Free` | qdma-driver/apps/dma-utils/dmaxfer.c:191-212 | Forgets the chunk that starts in the addressed block and nothing else; NULL is ignored. |
| `MemPool.WindowIsFree` | qdma-driver/apps/dma-utils/dmaxfer.c:157-178 | A window without chunk heads is free of live chunks, because none straddles the cursor. |
| `MemPool.NeverOverlaps` | qdma-driver/apps/dma-utils/dmaxfer.c:144-212 | Over any run of allocations and frees from an all-free table no block belongs to two live chunks, and all chunks are in bounds. |
| `MemPool.DivergesForEver` | qdma-driver/apps/dma-utils/dmaxfer.c:157-171 | When the scan overruns the end, may wrap, and overruns again from block 1, it never ends. |
| `MemPool.OneBlockEnds` | qdma-driver/apps/dma-utils/dmaxfer.c:157-171 | The one-block requests all callers make always end. |
| `MemPool.TwoBlocksCanCircle` | qdma-driver/apps/dma-utils/dmaxfer.c:157-171 | A reachable table on which a two-block request never returns. |
| `WorkThreads.BalancedPickIsLeast` | xdma-driver/xdma/xdma_thread.c:245-258 | If work counts differ by at most one, the scan picks a least loaded thread although it compares with the first thread only. |
| `WorkThreads.AddsStayWithin` | xdma-driver/xdma/xdma_thread.c:237-274 | Any number of adds never spreads the counts further than they were, or than one. |
| `WorkThreads.PickIsLeastIff` | xdma-driver/xdma/xdma_thread.c:245-258 | In any state, on the counts alone: the picked thread is a least loaded one exactly if some thread behind the first is idle, or the first is least, or the last one below the first is not above those before it. |
| `WorkThreads.UnbalancedPick` | xdma-driver/xdma/xdma_thread.c:245-258 | Counts 5, 1, 3: the third thread is picked although the second has less work. |
| `WorkThreads.Threads.PickThread` | xdma-driver/xdma/xdma_thread.c:239-258 | The scan returns the first idle thread behind the first, else the last one below the first, else the first. |
| `WorkThreads.Threads.AddWork` | xdma-driver/xdma/xdma_thread.c:237-274 | The engine is put on the picked list only; every engine is on exactly the list of its thread and counts are list lengths. |
| `WorkThreads.Threads.RemoveWork` | xdma-driver/xdma/xdma_thread.c:206-235 | The engine leaves its list, the count follows; an engine without a thread changes nothing. |
| `WorkThreads.WithoutKeepsOrder` | xdma-driver/xdma/xdma_thread.c:206-235 | The other engines of the list stay in their order. |
| `Xvc.ClockConcat` | xdma-driver/xdma/cdev_xvc.c:165-198 | Clocking a concatenation is clocking its parts in turn. |
| `Xvc.ClockOne` | xdma-driver/xdma/cdev_xvc.c:165-198 | One clock takes one TMS and one TDI bit and yields one TDO bit. |
| `Xvc.BitsConcat` | xdma-driver/xdma/cdev_xvc.c:165-198 | The bits of a buffer are those of its bytes in turn, lowest first. |
| `Xvc.ShiftBits` | xdma-driver/xdma/cdev_xvc.c:58-91 | One register shift clocks LENGTH bits and times out exactly when the control register reads busy for all 100 polls. |
| `Xvc.ShiftWord` | xdma-driver/xdma/cdev_xvc.c:171-197 | One word advances device state and TDO buffer as serial clocking of its bits does; TMS and TDI buffers are untouched. |
| `Xvc.Shift` | xdma-driver/xdma/cdev_xvc.c:158-198 | For any length up to 2^32-32 bits and any device step function, shifting 32-bit words with a short last word leaves the device in the state bit-serial clocking leaves it in, with the same TDO bits; it fails exactly when some word hangs. |
| `Xvc.Ioctl` | xdma-driver/xdma/cdev_xvc.c:93-225 | Opcode 1 returns what was shifted out, opcode 2 shifts the same but returns the TDI bytes, any other opcode does nothing. |
| `Xvc.CopiesInsideIff` | xdma-driver/xdma/cdev_xvc.c:137-194 | Every copy of every round of the shift loop stays inside the allocation exactly for less than 2^32-7 bits; from there on the allocation is of 0 bytes. |
| `Xvc.LoopEndsIff` | xdma-driver/xdma/cdev_xvc.c:175-176 | The shift loop ends exactly for at most 2^32-32 bits; beyond, its 32-bit counter wraps around for ever. |
| `Netlink.Message.SetHeader` | qdma-driver/apps/dma-utils/dmactl.c:208-216 | A message with a fresh header is 20 bytes long and holds no attributes. |
| `Netlink.Message.AddInt` | qdma-driver/apps/dma-utils/dmactl.c:218-229 | The message then encodes the old attributes followed by this one: eight bytes at its end, length, type and value with the low byte first, nothing else changed, and a length that is a multiple of four. |
| `Netlink.Message.AddMsg` | qdma-driver/apps/dma-utils/dmactl.c:231-244 | The same for a NUL-terminated message string: its bytes are stated, and the message grows to the next multiple of four. |
| `Netlink.EncodesSnoc` | qdma-driver/apps/dma-utils/dmactl.c:218-244 | Appending behind nlmsg_len leaves every earlier attribute readable and adds exactly one. |
| `Netlink.EveryAttrAligned` | qdma-driver/apps/dma-utils/dmactl.c:218-254 | Every attribute of a message starts at a multiple of four, right behind those before it. |
| `Netlink.Message.RecvAttrs` | qdma-driver/apps/dma-utils/dmactl.c:246-280 | On a message made of attributes the reader consumes exactly the message, stores integers, emits strings in order, and stops at the first unknown type. |
| `Netlink.RoundTrip` | qdma-driver/apps/dma-utils/dmactl.c:208-280 | Any sequence of valid attributes appended to a fresh header is read back as that sequence. |
| `Netlink.LastValueWins` | qdma-driver/apps/dma-utils/dmactl.c:269-274 | After reading, each type holds the last value written for it. |
| `Netlink.ReadsMessages` | qdma-driver/apps/dma-utils/dmactl.c:253-274 | Reading succeeds exactly when every type is known, and then emits exactly the strings, in order. |
| `Netlink.StopsAtUnknown` | qdma-driver/apps/dma-utils/dmactl.c:253-265 | At the first unknown type reading fails, with the table and the strings of the attributes before it. |
| `QueueTable.Table.constructor` | qdma-driver/driver/libqdma/qdma_device.c:258-275 | The table of three consecutive queue arrays starts all disabled, each place with its own index. |
| `QueueTable.Table.IsUsableQueue` | qdma-driver/driver/libqdma/libqdma_export.c:1258-1348 | The mask arithmetic accepts a request exactly when its place is free and it can coexist with every queue at that index. |
| `QueueTable.CompatibleIff` | qdma-driver/driver/libqdma/libqdma_export.c:1258-1348 | In a row that obeys the rules an index is refused exactly if its place is taken or the new queue would break them. |
| `QueueTable.Table.GetDescqById` | qdma-driver/driver/libqdma/qdma_device.c:386-423 | Peeling qmax off twice lands on the table place the identifier names; identifiers beyond the table and, on request, disabled queues are refused. |
| `QueueTable.Table.GetIdFromDescq` | qdma-driver/driver/libqdma/qdma_device.c:327-365 | Exactly which places are found, and that every queue in use is found under its own identifier. |
| `QueueTable.Table.IncrementActive` | qdma-driver/driver/libqdma/qdma_access/qdma_resource_mgmt.c:644-695 | Counts one more queue of the type unless the resource entry is exhausted. |
| `QueueTable.Table.DecrementActive` | qdma-driver/driver/libqdma/qdma_access/qdma_resource_mgmt.c:698-742 | Counts one queue less, never below zero. |
| `QueueTable.Table.QueueAdd` | qdma-driver/driver/libqdma/libqdma_export.c:1363-1660 | The in-place operation, with its masks, state changes and counters, is the specified step for every outcome of its helpers. |
| `QueueTable.Table.QueueStart` | qdma-driver/driver/libqdma/libqdma_export.c:1694-1844 | Only an ENABLED queue goes ONLINE, and only if the hardware set-up succeeds. |
| `QueueTable.Table.QueueStop` | qdma-driver/driver/libqdma/libqdma_export.c:1948-1981 | Only an ONLINE queue goes back to ENABLED. |
| `QueueTable.Table.QueueRemove` | qdma-driver/driver/libqdma/libqdma_export.c:940-1039 | Only an ENABLED queue is removed; the counters of its configured type (and of CMPT for streaming C2H) drop. |
| `QueueTable.RoomForUsable` | qdma-driver/driver/libqdma/libqdma_export.c:1481-1499 | In a consistent table an index that is still usable for a type leaves room under its counter. |
| `QueueTable.AddRefusals` | qdma-driver/driver/libqdma/libqdma_export.c:1363-1499 | Which requests are refused with which code, each as an if-and-only-if; queues and counters stay. |
| `QueueTable.AddedIsEnabled` | qdma-driver/driver/libqdma/libqdma_export.c:1560-1660 | An add that got further: the named place is ENABLED with type, mode and index, the handle is that place, the counter of its type (and of CMPT for streaming C2H) is one higher, and nothing else changes; where counting or preparation fails, the counters stay. |
| `QueueTable.AddSucceedsIff` | qdma-driver/driver/libqdma/libqdma_export.c:1363-1660 | From a consistent table, with working helpers, an add succeeds exactly when the request is well formed and the index compatible: a usable index is never refused for capacity. |
| `QueueTable.AddKeepsIff` | qdma-driver/driver/libqdma/libqdma_export.c:1560-1624 | On table, request and helper outcomes alone: an add breaks the table exactly if the request is well formed, compatible and within qmax and then the queue-range set-up fails or the resource entry has no room left for it (or for its completion queue). |
| `QueueTable.AddStops` | qdma-driver/driver/libqdma/libqdma_export.c:1560-1624 | Those are the adds that report a failed preparation or no queues left. |
| `QueueTable.RemoveKeeps` | qdma-driver/driver/libqdma/libqdma_export.c:910-1039 | Removing keeps modes, labels and counters consistent. |
| `QueueTable.RemoveUndoesAdd` | qdma-driver/driver/libqdma/libqdma_export.c:910-1039 | Removing what was just added restores every queue state and all counters. |
| `QueueTable.StartedIsOnline` | qdma-driver/driver/libqdma/libqdma_export.c:1694-1844 | A start succeeds exactly for an ENABLED queue whose set-up works; the queue is ONLINE then, and nothing else changed; otherwise nothing changes. |
| `QueueTable.StoppedIsEnabled` | qdma-driver/driver/libqdma/libqdma_export.c:1948-1981 | A stop succeeds exactly for an ONLINE queue; the queue is ENABLED then, and nothing else changed. |
| `QueueTable.RemovedIsDisabled` | qdma-driver/driver/libqdma/libqdma_export.c:940-1039 | A remove succeeds exactly for an ENABLED queue; the queue is DISABLED then, one less is counted under its type, and under CMPT for streaming C2H. |
| `QueueTable.StartThenStop` | qdma-driver/driver/libqdma/libqdma_export.c:1694-1981 | A started queue is refused by start and remove; stopping it gives back the table before the start, and it can be removed again. |
| `QueueTable.EveryRunIsConsistent` | qdma-driver/driver/libqdma/libqdma_export.c:1258-1624 | Over any run of explicit-index add, start, stop and remove, if the queue-range set-up works and the resource entry allows qmax queues: the two directions of an index share a mode, a completion queue never meets a streaming queue, counters equal the queues in use (streaming C2H also as CMPT) and never exceed qmax. |
| `QueueTable.StuckQueueRun` | qdma-driver/driver/libqdma/libqdma_export.c:1567-1576 | After one failed queue-range set-up the half-added queue can be removed at the expense of the wrong counter: an enabled H2C queue is no longer counted. |

## Left out

- Register and MMIO access, BAR mapping, interrupt and PCI set-up, character-device glue, debugfs: input and output with no property of its own; the registers the engine reads are parameters of its steps.
- Streaming engines, `eop_flush` and cyclic transfers: repeated polls add cumulative counts to `desc_cmpl`, so no exact count holds there.
- Asynchronous submits that need more than two transfers and `xdma_xfer_completion`: of several outstanding transfers the ring slots, the queue and their completion are modelled (`RingUse`, `RingAccount`, `EngineRuns`), retired oldest first.
- The queueing and waiting of `xdma_xfer_aperture`, the same code as in the synchronous submit: its transfers are built and run one after the other. What its linking loop writes behind the ring when a build makes no descriptor, and what becomes of such a request.
- Failures of allocation, mapping and register reads other than the status read after a timeout: they return before the modelled state changes.
- Interior lock steps: a locked section is one step; `transfer_init` releases nothing in between.
- The allocator copy in `dmaperf.c` (lines 404-495), which repeats the one in `dmaxfer.c`.
- MemPool.Pool.Search: only for states where the scan does not circle; `MemPool.DivergesForEver` proves that it never ends in the others.
- MemPool.Pool.Alloc: only for states where the scan does not circle; `MemPool.DivergesForEver` proves that it never returns in the others.
- `mempool_create`'s table memory, which the source does not clear: the constructor starts from a cleared table.
- Automatic index choice in `qdma_queue_add`: it advances the queue pointer twice, so it marks a queue other than the one it chose.
- `qdma_queue_config`, which rewrites neither mode nor type nor index of a queue and so no modelled field; virtual functions, whose counters live behind a mailbox.
- QueueTable.Table.QueueStop: only the state change, not the draining of pending requests.
- QueueTable.Table.QueueStart: the hardware checks and set-up are one outcome.
- Netlink header fields other than the length, the error text of an unknown type, and string attributes other than the message string, whose bytes the reader stores as an integer.
- XVC on big-endian hosts, and the copies between user space and kernel space, which cannot change the bytes.
- Xvc.Shift: up to 2^32-32 bits, where the loop ends; `Xvc.LoopEndsIff` proves that it does not end beyond, `Xvc.CopiesInsideIff` where it leaves the allocation.
- Xvc.Ioctl: the same limit; an allocation that fails returns before anything is shifted.
- Scatter.InitRequest: where the pieces that do not fit the array are written, and the 32-bit size of the allocation.
- IOMMU mappings that merge or move segments between pinning and `xdma_init_request`: `EndToEnd.ReadWrite` takes the list as pinned.
- The handle, channel and magic-number checks on entry of `xdma_xfer_submit` and `char_sgdma_read_write`; `pci_map_sg` is modelled as the identity, failing on an empty list only.
- `io_submit`-style reads and writes of `cdev_sgdma.c`, which use the asynchronous submit.
- MemPool.Pool.constructor: pools of 4 GiB or more, whose layout `MemPool.PoolFitsIff` proves to be unsound.
