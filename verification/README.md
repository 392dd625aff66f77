# Compute-in-memory offload: model and proofs

This project models the path of a 4-bit neural-network inference from user memory to the simulated
compute-in-memory device and back, and proves what that path computes.

- `PageTable.dfy`, `Coalescing.dfy`, `PagedCopy.dfy`: page tables, byte-at-a-time copies as the
  meaning of a transfer, the greedy coalescing of physically contiguous pages into bursts, and the
  chunk computation of the DMA library.
- `FewestBursts.dfy`: the fewest bursts that can move a buffer, and when the greedy loop needs no more.
- `SingleRange.dfy`: when the transfers that take only a first physical address move the buffer.
- `CimSram.dfy`: one byte array with weights, biases, input and output, and the tiled in-place
  multiply-accumulate kernel with its 32-bit accumulator.
- `MemController.dfy`, `History.dfy`: the register state machine with BUSY, DONE, sticky ERR,
  write-1-to-clear and the interrupt line, and whole runs of it.
- `Bridge.dfy`, `SessionTime.dfy`: the framed byte-stream server in front of the controller, over sockets
  that deliver any part of what was asked for, and the time it reports over a session.
- `IrqDriver.dfy`, `SerialClient.dfy`: the interrupt-counting kernel driver as interleaved atomic
  steps with any number of readers, and clients that wait for each operation.
- `CimLibrary.dfy`: the userspace library on a platform made of physical memory, DMA registers, the
  bridge with controller and SRAM behind it, and the driver's counters.
- `Reference.dfy`, `Inference.dfy`: the CPU forward pass, the write/read round trip, and inference end
  to end.
- `Schedule.dfy`: client programs on the interleaved system of device, interrupt handler and client,
  and inference under every schedule.
- `Quantize.dfy`, `Classification.dfy`: quantisation over exact reals, its error bound, and when the
  device predicts the class of the floating-point network.
- `Testbench.dfy`: the word-at-a-time client of the registers.
- `Bytes.dfy`, `Wrappers.dfy`: words, encodings, overwrites, and an option type.

## Results worth reading first

- `Inference.Infer`: paged writes of weights, biases and input, one compute and a paged read succeed
  exactly when every page of the four buffers is known and present; then the user's output buffer holds
  the CPU's logits, and no byte of physical memory outside that buffer's frames has changed.
- `Classification.Classify`: if the floating-point winner leads by more than the two channels' error
  bounds, the class computed from the words the device returned is that winner.
- `Schedule.AnySchedule`, `Schedule.InferAnySchedule`: whatever the order in which device, interrupt
  handler, signals and client move, a finished program has left what its operations leave one after
  another; for inference, the CPU's logits. `Schedule.NeverStuck`,
  `Schedule.RunsEnd`: some step always leads on, and a run of n operations with k signals has at most
  12n + k other steps that change anything.
- `FewestBursts.GreedyFewestIff`: for a buffer of any length, nothing that moves it in contiguous bursts,
  cut at any byte, is shorter than the greedy loop exactly when every contiguous stretch is snug, an
  arithmetic condition on its place and length. Stretches below 4 GiB are
  (`Coalescing.GreedyFewest`); `FewestBursts.TwiceTheMaximum` is one that is not.
- `Coalescing.GreedyOptimal`, `Coalescing.GreedyCount`: against splits at page boundaries the loop is
  always optimal, and below 4 GiB its bursts are one plus the number of frame jumps.
- `History.RegistersFollowHistory`: every register, status bit and the interrupt line in every reachable
  state as a function of what was accessed before.
- `IrqDriver.EventsAccounted`, `IrqDriver.NothingLostIff`: where every event of the device goes in any
  interleaving, and that none is lost exactly in the runs where no two merge and no counter wraps.
  `IrqDriver.TakesZeroIff`: when exactly one of several readers is handed zero.
- `SingleRange.SingleWriteIff`, `SingleRange.SingleReadIff`: the single-range transfers move the
  program's buffer exactly when it is physically contiguous and, for writes, below 4 GiB.
- `SerialClient.WaitSeesExactlyOne`, `SerialClient.CompletionAdvances`: under every interleaving a wait
  takes exactly one completion, and no channel, signal or client can move another channel's completion
  back.
- What the machine-level operations read and write, in literal addresses, bits and bytes:
  `CimSram.WeightOperand` and its neighbours, `PagedCopy.LoadedByte`, `Bridge.HeaderOnWire`,
  `Bridge.RequestOnWire`, `Bridge.ReplyOnWire`, `History.RegisterReadBack`, `MemController.AccessStatus`.
- `Quantize.RowScaleUnique`, `Quantize.QuantizeNetwork`: what makes a number the scale of a row, and each
  quantised value the nearest one.
- `Bridge.Framing`, `Bridge.BridgeServer.Run`: for any chunking of the stream, one reply per request, in
  order.

## Where the code differs from its own description

The model follows the code in these places.

- The interrupt line is described as "IRQ enable and DONE"
  (`mem_ctrl/src/mem_controller.cpp`). It is sampled only at START and at writes to REG_STATUS, so
  enabling the interrupt later leaves it low: `History.StaleLine`. `History.LineExactWhen` says exactly
  when it is right, `History.LineFollowsStatus` that it is in runs like the library's.
- The header of `mem_ctrl/linux/sc_dev_kmod/sc_dev_irq.c` promises that no interrupt is lost below
  2^32. Two events of one channel that meet in the device's status register before it is cleared are
  counted once: `IrqDriver.TwoEventsOneCount` is such a run, and `IrqDriver.NothingLostIff` says exactly
  when the promise holds. For serial clients it does: `SerialClient.OneTokenEach`.
- The same header lets any number of readers block on a channel. A woken reader can find the counter
  emptied: `IrqDriver.SecondReaderTakesZero`, and exactly when: `IrqDriver.TakesZeroIff`.
- `cim/src/cim_dma.c` describes sending one page at a time; the code coalesces adjacent frames. The
  single-range write cuts the length to 32 bits without a check, the single-range read refuses it. The
  single-range mode is called safe for contiguous memory: `SingleRange.SingleWriteIff` and
  `SingleRange.SingleReadIff` show that it is safe there and nowhere else.
- `mem_ctrl/src/sram.cpp` describes inputs in [-8, 7]; the code clamps them to [0, 15].
- A write message larger than the bridge's buffer is answered without taking its payload from the
  stream, which is then read as headers: `Bridge.OversizeWriteDesyncs`.
- A failed answer to an oversize request goes unnoticed, and the server carries out one more request for
  a client that is gone: `Bridge.GoneButServed`.
- The address of the compute trigger is not reserved for compute commands: a word write or a burst there
  also runs a compute, `MemController.WriteTriggers` and `MemController.BurstTriggers`.
- A read of the interrupt device clears the count before it copies it out; if the copy faults, the count
  is lost: `IrqDriver.ScDev.Read`.
- No library function clears ERR, so one failed word read makes all later ones fail:
  `CimLibrary.ReadAfterFailure`.

## Assumptions

- The page size is positive and at most 2^32 - 1, so that one page fits a burst; masking with its
  complement is taken as aligning down, as it is for a power of two.
- Present pages are backed by physical memory (`PageTable.Backed`), and buffers end below 2^64.
- No access is made whose 32-bit sum of address and length wraps and then passes the range check: the copy
  behind it would leave the array (`CimSram.Meaningful`, `MemController.Defined`). Every other access is
  modelled, wrapped sums that are refused and the compute trigger's address included. A word read START at
  that address, which loads a word that nothing has set, is excluded.
- The emulated DMA engine, which is in a submodule and not part of this model, moves exactly the
  programmed range through the bridge and raises one completion per START; a START whose reply carries
  the interrupt line raises one control completion.
- Invocations of the interrupt handler do not overlap. A notification of the interrupt manager followed
  by a wait of zero time takes effect before the caller goes on (section 4.2.1 of IEEE Std 1666-2011).
- Hosts are little-endian, and signed overflow of the accumulator wraps. `CimSram.SafeBiasIff` says
  exactly when there is none.

## Model

| member | source | states |
|---|---|---|
| PageTable.EntryOf | cim/src/cim_dma.c:131-140 | a raw entry of nine flag bits over a 55-bit frame number decodes to that frame, present exactly when the topmost bit is set |
| PageTable.ReachIff | cim/src/cim_dma.c:131-137 | the copied prefix is the one length whose bytes are all present and whose next byte is not |
| PageTable.ScatterSplit | cim/src/cim_dma.c:254-261 | storing a buffer in two parts leaves what storing it whole leaves |
| PageTable.ScatterOutside | cim/src/cim_dma.c:254-261 | storing to a virtual buffer changes no physical byte outside its frames |
| PageTable.ScatterLast | cim/src/cim_dma.c:254-261 | a physical byte keeps the last store made to it through any virtual address |
| PageTable.ScatterRun | cim/src/cim_dma.c:254-261 | a physically contiguous run of single-byte stores equals one block overwrite |
| PageTable.GatherAppend | cim/src/cim_dma.c:171-178 | bytes read through the page table over a contiguous run are one slice of physical memory |
| PageTable.RoundTripIffInjective | cim/src/cim_dma.c:185-266 | storing any bytes and loading them back is the identity exactly when no two bytes of the buffer share a physical byte |
| PageTable.DistinctFramesInjective | cim/src/cim_dma.c:222-224 | distinct frames for distinct pages are enough for that |
| Coalescing.ChunkContiguous | cim/src/cim_dma.c:139-169 | a transaction covers only present, physically adjacent bytes and stops early only at a page boundary |
| Coalescing.GreedyWalks | cim/src/cim_dma.c:131-179 | the transactions advance virtual and SRAM address in lock step, each non-empty, within 32 bits and contiguous, and end exactly at the first absent page |
| Coalescing.ChunkMaximal | cim/src/cim_dma.c:146-169 | no acceptable contiguous piece at that address is longer than the chunk |
| Coalescing.GreedyOptimal | cim/src/cim_dma.c:131-179 | any split into contiguous pieces of at most UINT32_MAX bytes, cut at page boundaries while more than that is left and anywhere after, has at least as many pieces |
| Coalescing.GreedyFewest | cim/src/cim_dma.c:131-179 | up to UINT32_MAX bytes no sequence of contiguous transactions that moves the buffer, cut at any byte, is shorter |
| FewestBursts.FewestBound | cim/src/cim_dma.c:131-179 | any sequence of contiguous transactions that moves a buffer has at least the sum over its contiguous stretches of length over UINT32_MAX, rounded up |
| FewestBursts.NeededIs | cim/src/cim_dma.c:164-165 | that rounding up is the least number of pieces of at most 2^32 - 1 bytes |
| FewestBursts.FewestReached | cim/src/cim_dma.c:131-179 | some sequence has exactly that many |
| FewestBursts.GreedyPieces | cim/src/cim_dma.c:139-169 | the loop's count, stretch by stretch: whole pages up to UINT32_MAX while more is left, then the rest |
| FewestBursts.SnugIff | cim/src/cim_dma.c:164-165 | in a stretch the loop needs the minimum exactly when the shortfalls of the page-aligned transactions fit into what rounding up leaves free |
| FewestBursts.GreedyFewestIff | cim/src/cim_dma.c:131-179 | for any length no sequence of contiguous transactions, cut at any byte, is shorter exactly when every stretch is of that kind |
| FewestBursts.TwiceTheMaximum | cim/src/cim_dma.c:164-165 | twice UINT32_MAX bytes in adjacent 4 KiB pages take three transactions where two would do |
| Coalescing.GreedyLegal | cim/src/cim_dma.c:131-179 | the greedy split is itself such a split, so the minimum is reached |
| Coalescing.GreedyCount | cim/src/cim_dma.c:131-179 | up to UINT32_MAX bytes the count is one plus the number of frame jumps |
| Coalescing.OneBurstIffContiguous | cim/src/cim_dma.c:131-179 | the paged loop issues one transaction for a buffer exactly when it is physically contiguous |
| SingleRange.RangeIsBufferIff | cim/src/cim_dma.c:291-300 | the physical range at the first byte is the buffer for all memory contents exactly when the buffer is contiguous |
| SingleRange.SingleWriteIff | cim/src/cim_dma.c:291-300 | the single-range write with its truncated length stores the buffer for all memories exactly when the source is contiguous and below 4 GiB |
| SingleRange.SingleReadIff | cim/src/cim_dma.c:275-280 | the single-range read leaves what byte-wise stores leave, for all memories and data, exactly when the destination is contiguous |
| SingleRange.SingleReadStraysIff | cim/src/cim_dma.c:275-280 | it never changes a byte outside the destination's frames exactly when those frames hold the whole range |
| SingleRange.ExchangedFrames | cim/src/cim_dma.c:275-280 | that can be so for a buffer that is not contiguous |
| PagedCopy.LastPageRead | cim/src/cim_dma.c:106-119 | the bulk pagemap read reaches the page of the last byte and no further, so look-ahead stays in range |
| PagedCopy.CoalesceChunk | cim/src/cim_dma.c:139-169 | the look-ahead loop ends with the greedy chunk and the index of its last page, without leaving the entries read |
| PagedCopy.NextChunk | cim/src/cim_dma.c:132-169 | presence (bit 63), physical address (low 55 bits times page size plus offset) and length of the next transaction from the raw 64-bit entries |
| PagedCopy.LookUp | cim/src/cim_dma.c:11-32 | translation of one address from the raw entry, 0 when it is missing or bit 63 is clear |
| PagedCopy.MappedRaw | cim/src/cim_dma.c:16-31 | an address is mapped exactly when its page has a raw entry with bit 63 set, and where it then is |
| PagedCopy.LoadedByte | cim/src/cim_dma.c:131-141 | every byte of a present buffer, read through the raw entries |
| PagedCopy.SucceedsIff | cim/src/cim_dma.c:117-181 | a paged copy returns OK exactly when all entries exist, all pages are present and the channel had no stale completion |
| PagedCopy.FailsAtFirstAbsent | cim/src/cim_dma.c:132-137 | it returns the I/O error after r bytes exactly when those are present and the next page is not |
| PagedCopy.LoopAdvances | cim/src/cim_dma.c:171-178 | one more transaction keeps the loop invariant: prefix done, rest of the plan still to do |
| PagedCopy.LoopMeetsStale | cim/src/cim_dma.c:171-173 | with a stale completion count the copy ends after exactly one transaction |
| CimLibrary.Platform.DmaTransferSinglePhys | cim/src/cim_dma.c:35-59 | the programmed range is in SRAM, one completion is consumed, result OK or protocol error by the count before |
| CimLibrary.Platform.DmaReadSinglePhys | cim/src/cim_dma.c:61-84 | the SRAM range is in physical memory, one completion is consumed |
| CimLibrary.Platform.DmaTransferPaged | cim/src/cim_dma.c:102-183 | SRAM is the old SRAM with exactly the bytes fetched through the page table before the end of the copy; result, burst log and simulated time as specified, for every page table, offset, length and completion count |
| CimLibrary.Platform.DmaReadPaged | cim/src/cim_dma.c:185-266 | physical memory is the old one with exactly those SRAM bytes stored through the page table; SRAM unchanged; result, burst log and simulated time as for writes |
| CimLibrary.Platform.WriteTurn | cim/src/cim_dma.c:131-179 | one turn of the outer loop keeps the invariant and makes progress |
| CimLibrary.Platform.ReadTurn | cim/src/cim_dma.c:214-262 | the same for reads |
| CimLibrary.Platform.VirtToPhys | cim/src/cim_dma.c:11-32 | the physical address of a present byte, from the raw entry, otherwise 0 |
| CimLibrary.Platform.CimDmaWriteSram | cim/src/cim_dma.c:285-303 | argument errors, single-range mode with its truncated length, and paged mode |
| CimLibrary.Platform.CimDmaReadSram | cim/src/cim_dma.c:270-283 | argument errors, single-range mode with its length check, and paged mode |
| CimLibrary.Platform.CimCompute | cim/src/cim.c:158-167 | SRAM becomes the computed memory, registers and line as after a compute START, one completion consumed |
| CimLibrary.Platform.CimReadSramU32Irq | cim/src/cim.c:169-190 | OK exactly for an aligned address in range with no stale completion and ERR clear before; then the word is the one stored there |
| CimLibrary.ReadAfterFailure | cim/src/cim.c:182-186 | after one out-of-range read a read in range also reports a protocol error |
| CimLibrary.PagedTime | mem_ctrl/include/timing_params.h:51-55 | the time the bridge reports for a successful paged copy below 4 GiB is 5 ns per byte, 500 ns, and 500 ns per frame jump |
| CimSram.BuiltShapesFit | mem_ctrl/include/mem_controller_registers.h:48-66 | both built network sizes fit the 4 MB memory |
| CimSram.Layout | mem_ctrl/include/mem_controller_registers.h:54-66 | where weights, biases, input and output begin and end, in bytes |
| CimSram.WeightOperand | mem_ctrl/src/sram.cpp:155 | weight j of row i is the signed byte i*n + j of the weight region, clamped to [-8, 7] |
| CimSram.InputOperand | mem_ctrl/src/sram.cpp:154 | input j is the unsigned byte j of the input region, clamped to [0, 15] |
| CimSram.WordOperands | mem_ctrl/src/sram.cpp:136-162 | biases and outputs are signed little-endian words in their regions |
| CimSram.ComputePrice | mem_ctrl/src/sram.cpp:130-133 | a compute takes 40 ns for every pair of a begun tile of 64 inputs and one of 64 outputs |
| CimSram.TransactionMeans | mem_ctrl/src/sram.cpp:50-95 | trigger, refusal, read and write, byte by byte |
| CimSram.TilesPartition | mem_ctrl/src/sram.cpp:130-149 | the tiles cover every input index exactly once |
| CimSram.MacBound | mem_ctrl/src/sram.cpp:152-159 | after k inputs the sum has moved by at least -120k and at most 105k whatever bytes are stored |
| CimSram.SafeBiasIff | mem_ctrl/src/sram.cpp:142-163 | no partial sum overflows, for any memory with that bias, exactly when -2^31 + 120n <= b <= 2^31 - 1 - 105n |
| CimSram.AccExact | mem_ctrl/src/sram.cpp:144-160 | wrapping at every step gives the exact sum wrapped once |
| CimSram.ComputeInPlace | mem_ctrl/src/sram.cpp:121-167 | every output word is bias plus clamped dot product over the memory before the call; all bytes outside the output region are kept |
| CimSram.ComputeIdempotent | mem_ctrl/src/sram.cpp:121-167 | computing again changes nothing, as outputs are not inputs |
| CimSram.Sram.ComputeInMemory | mem_ctrl/src/sram.cpp:121-167 | the in-place loops leave that memory and report the tile time |
| CimSram.Sram.TileSum | mem_ctrl/src/sram.cpp:146-160 | one tile adds exactly its inputs to the accumulator although outputs are written to the same array |
| CimSram.Sram.BTransport | mem_ctrl/src/sram.cpp:41-96 | compute trigger, bounds error, read and write, with memory, buffer, status and time |
| MemController.WriteTriggers | mem_ctrl/src/sram.cpp:50-57 | a word write START to the compute trigger's address runs a compute, at its price |
| MemController.BurstTriggers | mem_ctrl/src/mem_controller.cpp:204-252 | a burst there passes the range check, runs a compute, leaves its data alone and is priced as a transfer |
| MemController.Controller.RunOperation | mem_ctrl/src/mem_controller.cpp:273-336 | registers, memory, line and time after a START |
| MemController.Controller.BTransport | mem_ctrl/src/mem_controller.cpp:54-76 | routing to registers, bursts or an address error, with the whole new state |
| MemController.Controller.HandleDma | mem_ctrl/src/mem_controller.cpp:172-253 | bounds and zero-length errors first, then the burst |
| MemController.Controller.HandleCtrl | mem_ctrl/src/mem_controller.cpp:90-157 | register reads and writes, write-1-to-clear, START |
| MemController.AccessStatus | mem_ctrl/src/mem_controller.cpp:66-75 | exactly which accesses are refused, with which status, and that a refused one changes and costs nothing |
| MemController.ControlBits | mem_ctrl/include/mem_controller_registers.h:38-46 | which bits of the lowest byte are START, WRITE, IRQEN and COMPUTE, and clear DONE and ERR |
| History.RegisterReadBack | mem_ctrl/src/mem_controller.cpp:133-146 | after any history a register read returns, as bytes, 2 for DONE and 4 for ERR, the loaded word, or the last word written |
| History.RegistersFollowHistory | mem_ctrl/src/mem_controller.cpp:90-157 | in every reachable state BUSY is 0, DONE, ERR, RDATA, the other registers and the line are the stated functions of the history |
| History.StartFollows | mem_ctrl/src/mem_controller.cpp:273-336 | the same for the step that runs an operation |
| History.LineExactWhen | mem_ctrl/src/mem_controller.cpp:375-382 | the line equals enable and DONE exactly unless DONE is set and the enable bit changed since it was sampled |
| History.LineFollowsStatus | mem_ctrl/src/mem_controller.cpp:103-126 | in runs where each REG_CONTROL write carries START the line always equals enable and DONE |
| History.LateEnableIsStale | mem_ctrl/src/mem_controller.cpp:103-110 | enabling without START after an unsampled completion leaves the line low |
| History.StaleLine | mem_ctrl/src/mem_controller.cpp:363-373 | such a state is reachable |
| History.TimeAccounting | mem_ctrl/src/mem_controller.cpp:154-156 | a session's simulated time is the stated price of its accepted accesses; rejected ones cost nothing |
| Bridge.DecodeEncodeHeader | mem_ctrl/include/bridge.h:22-34 | the packed 32-byte header decodes to what was encoded |
| Bridge.HeaderOnWire | mem_ctrl/include/bridge.h:22-34 | the header's fields byte by byte, numbers lowest byte first |
| Bridge.StatusCodes | mem_ctrl/src/bridge.cpp:69 | the status bytes: 1, 0, and 255 down to 252 for the four errors |
| Bridge.RequestOnWire | mem_ctrl/src/bridge.cpp:62-131 | byte 0 says write, byte 1 says burst; how many bytes follow the request and the reply, and the access made |
| Bridge.ReplyOnWire | mem_ctrl/src/bridge.cpp:138-165 | the reply's bytes: echo, interrupt line, time, and 1 for success or -1 to -4 for the errors |
| Bridge.RefusedOnWire | mem_ctrl/src/bridge.cpp:63-73 | oversize requests and empty burst reads are answered 252 and 255 and change nothing |
| Bridge.Socket.RecvAll | mem_ctrl/src/bridge.cpp:8-18 | all bytes arrive, however the stream is cut, or the peer has closed |
| Bridge.Socket.SendAll | mem_ctrl/src/bridge.cpp:20-30 | all bytes are sent in order, or false after exactly the bytes the peer took |
| Bridge.BridgeServer.Handle | mem_ctrl/src/bridge.cpp:62-165 | one request: oversize error, register access or burst, payload buffer and reply header |
| Bridge.BridgeServer.Run | mem_ctrl/src/bridge.cpp:54-166 | the loop serves the complete requests in the stream until a reply to a request that is not oversize cannot be sent, and leaves output and device in the state after them |
| Bridge.GonePeerGetsPrefix | mem_ctrl/src/bridge.cpp:153-165 | a peer that goes away has got exactly a prefix of the replies; one that takes them all has got every reply |
| Bridge.GoneButServed | mem_ctrl/src/bridge.cpp:63-73 | for a peer that takes nothing more the server skips the failed answers to oversize requests, carries out the next other request, and sends nothing |
| SessionTime.ReportedIsCost | mem_ctrl/src/bridge.cpp:136-148 | the times in the replies of a session add up to the price of the accesses its requests make; none wraps |
| Bridge.Framing | mem_ctrl/src/bridge.cpp:54-166 | any sequence of requests is parsed back from its bytes, and the output is one reply per request in order |
| Bridge.ReplyShape | mem_ctrl/src/bridge.cpp:153-165 | a reply is one header that echoes address, size and direction, plus the read payload |
| Bridge.OversizeWriteDesyncs | mem_ctrl/src/bridge.cpp:63-73 | header and payload are consumed together exactly unless a write is over the buffer size |
| Bridge.BlockWrite | mem_ctrl/src/bridge.cpp:208-222 | a block write in the data region stores exactly its body and touches no register |
| Bridge.BlockRead | mem_ctrl/src/bridge.cpp:225-245 | a block read returns exactly those bytes and changes nothing |
| CimLibrary.RegisterWriteServed | mem_ctrl/src/bridge.cpp:87-98 | a register write message is that register write, and the reply carries the line |
| CimLibrary.RegisterReadServed | mem_ctrl/src/bridge.cpp:100-111 | a register read message returns the register and changes nothing |
| IrqDriver.EventsAccounted | mem_ctrl/linux/sc_dev_kmod/sc_dev_irq.c:74-98 | in every run the events raised are those counted, those pending or held by the handler, and those merged into an uncleared one |
| IrqDriver.Conservation | mem_ctrl/linux/sc_dev_kmod/sc_dev_irq.c:89-143 | under any interleaving of handler and readers, counts handed out plus the counter equal the handler's increments, up to 2^32 per wrap |
| IrqDriver.NothingLostIff | mem_ctrl/linux/sc_dev_kmod/sc_dev_irq.c:15-18 | counts handed out, counter and events on their way equal the events raised exactly in runs without a merge and without a wrap |
| IrqDriver.TwoEventsOneCount | mem_ctrl/linux/sc_dev_kmod/sc_dev_irq.c:81-86 | a legal run in which two events are counted once |
| IrqDriver.LateEvent | mem_ctrl/linux/sc_dev_kmod/sc_dev_irq.c:80-86 | in every continuation of a run, an event between status read and clear is counted or on its way if its channel was not pending, and merged if it was |
| IrqDriver.TakesZeroIff | mem_ctrl/linux/sc_dev_kmod/sc_dev_irq.c:129-143 | with any number of readers, a woken reader finds zero exactly when one of them took after it woke and nothing was counted since |
| IrqDriver.TakenIsPositive | mem_ctrl/linux/sc_dev_kmod/sc_dev_irq.c:129-143 | with one reader per channel a woken reader takes at least one |
| IrqDriver.SecondReaderTakesZero | mem_ctrl/linux/sc_dev_kmod/sc_dev_irq.c:129-143 | with two readers a run exists in which one is handed zero |
| IrqDriver.ScDev.Isr | mem_ctrl/linux/sc_dev_kmod/sc_dev_irq.c:74-101 | one run of the handler, with events arriving inside it |
| IrqDriver.ScDev.Read | mem_ctrl/linux/sc_dev_kmod/sc_dev_irq.c:119-149 | return-and-clear of a positive count, interrupted with no count touched, or failed, with the count cleared if only the copy to the reader failed |
| IrqDriver.ScDev.WaitIrqCount | cim/src/cim_internal.c:18-37 | retries after any number of signals and returns the count; any other failure is an I/O error |
| IrqDriver.ScDev.WaitOneIrq | cim/src/cim_internal.c:39-54 | OK exactly for a read that succeeds with a count of one |
| SerialClient.OneTokenEach | mem_ctrl/linux/sc_dev_kmod/sc_dev_irq.c:74-149 | per channel, in flight + pending + held by the handler + counter is 1 while an operation is outstanding and 0 otherwise |
| SerialClient.WaitSeesExactlyOne | cim/src/cim_internal.c:39-54 | a wait that takes an event takes exactly one, across signals and retries |
| SerialClient.CompletionAdvances | cim/src/cim_internal.c:18-37 | nothing moves an outstanding completion back, and until it is counted some device or handler step moves it forward |
| Schedule.AnySchedule | cim/src/cim_internal.c:39-54 | for any program of bursts and computes and any interleaving with device, handler and signals, a finished run has left the operations' effects in order |
| Schedule.WaitsSucceed | cim/src/cim_internal.c:39-54 | in every such run a wait that ends has seen one completion, of an operation the device has carried out |
| Schedule.NeverStuck | mem_ctrl/linux/sc_dev_kmod/sc_dev_irq.c:74-149 | in every state of every run some step brings the program closer to its end |
| Schedule.RunsEnd | cim/src/cim_internal.c:30-32 | steps other than signals that change anything are at most 12 per operation, plus one per signal |
| Schedule.WritesMean | cim/src/cim_dma.c:131-179 | any sequence of contiguous bursts that walks a buffer puts its bytes in SRAM |
| Schedule.ReadsMean | cim/src/cim_dma.c:214-262 | the same for reads, against byte-wise stores |
| Schedule.InferAnySchedule | cim/src/cim.c:158-167 | three paged writes, a compute and a paged read give the CPU's logits under every schedule, and keep other memory |
| Reference.NeuralNetworkHypothesisQ4 | cim/examples/CPU_inst.c:21-32 | the CPU loops compute bias plus dot product of every row |
| Reference.CpuOperands | cim/examples/CPU_inst.c:24-28 | the CPU's weight j of row i is the signed byte i*n + j of its buffer, its bias a signed little-endian word |
| Reference.ClampedIffFourBit | mem_ctrl/src/sram.cpp:12-26 | clamping leaves data alone exactly when it is four-bit data |
| Reference.DeviceAgrees | mem_ctrl/src/sram.cpp:142-163 | the device's sum is the CPU's sum of the clamped data, and of the data itself when it is four-bit |
| Reference.SafeIsExact | cim/examples/CPU_inst.c:26-30 | with safe biases the 32-bit sums are exact |
| Inference.Stage | cim/src/cim_dma.c:285-303 | a buffer arrives whole, exactly when all its pages are known and present |
| Inference.StageRange | cim/src/cim_dma.c:296-300 | a contiguous source arrives whole in one burst |
| Inference.FetchRange | cim/src/cim_dma.c:275-280 | a contiguous destination receives exactly the SRAM bytes in one burst, and other memory is unchanged |
| Inference.Fetch | cim/src/cim_dma.c:270-283 | the program sees exactly the SRAM bytes, and other physical memory is unchanged |
| Inference.RoundTrip | cim/src/cim_dma.c:102-266 | writing a buffer and reading it into another with its own page map copies it, touching no other physical byte |
| Inference.Infer | cim/src/cim_dma.c:270-303 | end to end over these two and `cim_compute`: success exactly when all buffers are available, and then the output buffer holds the CPU's logits |
| Quantize.ClampNeverFires | cim/train_network/src/quantize_network.c:78-84 | with the channel's own scale every weight rounds into [-7, 7] |
| Quantize.WeightError | cim/train_network/src/quantize_network.c:80-84 | each weight errs by at most half the scale |
| Quantize.PixelBits | cim/harness/src/mnist_bench.c:119-122 | a four-bit pixel is the one number u with 16u <= p < 16u + 16 |
| Quantize.PixelError | cim/harness/src/mnist_bench.c:119-122 | each pixel errs by at most 1/17 |
| Quantize.BiasError | cim/train_network/src/quantize_network.c:86-88 | the bias errs by at most scale/30 |
| Quantize.QuantisationError | cim/train_network/src/quantize_network.c:67-89 | float logit and dequantised logit differ by at most n*s*31/34 + s/30 |
| Quantize.ClearWinnerAgrees | cim/examples/CPU_inst.c:103-109 | a winner by more than the summed bounds is the argmax of both classifiers |
| Quantize.Argmax | cim/harness/src/mnist_bench.c:111-117 | the first index of a largest element |
| Quantize.ScaledArgmax | cim/examples/CPU_inst.c:103-109 | the first index of a largest scaled logit |
| Quantize.RowScaleUnique | cim/train_network/src/quantize_network.c:67-77 | the scale is the one number that is a seventh of a row's largest magnitude, or a seventh for a row of zeros |
| Quantize.LargestIsSeven | cim/train_network/src/quantize_network.c:76-84 | a weight of the largest magnitude becomes 7 or -7 |
| Quantize.RoundIs | cim/train_network/src/quantize_network.c:82 | rounding is to the nearest integer, and to the even one of two |
| Quantize.QuantizeNetwork | cim/train_network/src/quantize_network.c:67-89 | the loops fill every channel's scale (a seventh of its largest magnitude), weights (nearest to weight over scale) and bias (nearest to bias over scale/15) |
| Quantize.ScanMaxAbs | cim/train_network/src/quantize_network.c:69-74 | the largest magnitude of a row |
| Quantize.QuantizeImage | cim/harness/src/mnist_bench.c:124-129 | every pixel's upper four bits: 16 times the result is at most the pixel and less than 16 below it |
| Classification.PackedHypothesis | cim/examples/CPU_inst.c:21-32 | on the quantised network the CPU's sums are the quantised logits |
| Classification.DeviceClassifies | cim/examples/CIM_inst.c:151-157 | with a clear float winner, the argmax over the returned words is that winner |
| Classification.Classify | cim/examples/CIM_inst.c:111-157 | writing weights and biases and the scaled argmax, with the input, the compute and the logits through the library's own calls in place of the job, give the float network's class |
| Testbench.PackWord | mem_ctrl/src/old_testbench.cpp:235-244 | four bytes shifted into a word, zeros past the end, are those bytes in memory order |
| Testbench.CtrlWait | mem_ctrl/src/old_testbench.cpp:119-138 | with the line high it clears DONE and the line |
| Testbench.StoreWord | mem_ctrl/src/old_testbench.cpp:231-250 | the wait never blocks; the word is stored, or refused with ERR when out of range |
| Testbench.LoadU8Vector | mem_ctrl/src/old_testbench.cpp:227-251 | exactly the words that fit are stored, zero-padded, where the word addresses do not wrap |
| Testbench.LoadTouches | mem_ctrl/src/old_testbench.cpp:227-251 | the vector is in memory where it fits, and at most three bytes past it change, to zero |
| Testbench.LoadEqualsBurst | mem_ctrl/src/mem_controller.cpp:218-229 | where the vector fits, that is the memory after one burst of the padded vector |
| Testbench.BurstRefused | mem_ctrl/src/mem_controller.cpp:204-209 | where it does not, the burst is refused whole while the word path stores what fits |

## Left out

- The emulated device, its job registers and its interrupt pending register: not in this repository; end to end the library's own transfers and compute call are used instead of the job path.
- CimLibrary.Platform.DmaTransferSinglePhys: requires the burst to lie in the data region and in physical memory, because what the emulated engine does with a refused burst is not known here.
- CimLibrary.Platform.DmaReadSinglePhys: as the write.
- CimLibrary.Platform.CimDmaWriteSram: inherits that; a failed allocation or a failed system call is not modelled, a pagemap that is too short is.
- CimLibrary.Platform.CimDmaReadSram: as the write.
- CimLibrary.Platform.DmaTransferPaged: requires the range to lie in the data region. The two nested loops are split into methods, one for the look-ahead and one for a turn of the outer loop, with the loop's variables in one record.
- CimLibrary.Platform.CimReadSramU32Irq: does not cover the address 0xFFFFFFFC, whose 32-bit end address wraps to 0 and passes the range check.
- CimLibrary.Platform.DmaReadPaged: as the write.
- CimSram.Sram.BTransport: excludes only accesses whose wrapped 32-bit sum passes the range check, as their copy leaves the array.
- MemController.Controller.BTransport: the same for bursts and word operations, and a word read START at the compute trigger's address, as it loads a word that nothing has set.
- MemController.Controller.HandleDma: the same for bursts.
- MemController.Controller.HandleCtrl: the same for a START that runs a word operation.
- MemController.Controller.RunOperation: the same.
- Classification.Classify: exact reals for single precision, and the library's own calls for the job.
- Quantize.QuantizeNetwork: exact reals for single precision, unbounded integers for the bias.
- Testbench.CtrlWait: requires the line to be high, as with it low the call waits for an edge.
- CimSram.Sram.ComputeInMemory: when the layout does not fit, the error report is taken to return, as the statement after it does.
- Testbench.LoadU8Vector: requires the 32-bit word addresses not to wrap, as in all but one alignment of the base some word would then leave the array.
- IrqDriver.ScDev.Read: a signal may interrupt the wait whether or not a count is there already.
- Schedule.InferAnySchedule: one client, on the contents of the two memories; the registers behind the bursts are those of the library's methods.
- Data pointers of blocking transactions are passed as byte sequences in and out; aliasing of those buffers is not modelled.
- Byte-enable masks: no caller sets one.
- Initialisation and closing, device files, memory mapping, timeouts and permission errors: system calls.
- Reconnection of the bridge's socket, and the rounding of simulated time through floating point.
- IEEE rounding of the network's floats, softmax, training and file loaders: bounds are over exact reals.
- The float and unsigned testbench loaders other than the byte vector, and the float matrix loader: the same register sequence per word.
