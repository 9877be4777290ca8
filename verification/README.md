# Avalon-MM DMA engine for PCIe, modelled in Dafny

This project models the transfer engine of the Intel/Altera Avalon-MM DMA
controller for PCIe. It covers both Linux drivers for that controller, plus
two helper libraries that came with the same tree.

- **The staging driver** (`drivers/staging/avalon-dma`). Clients submit
  either a contiguous buffer or a scatter-gather table. Descriptors move
  through four queues: free, submitted, issued and completed. The head of
  `issued` is the active transfer.
- **The dmaengine driver** (`drivers/dma/avalon`). It runs the same
  controller behind the kernel's virt-dma channel.

Both drivers work the same way:

1. A transfer is cut into chunks of at most `0x100000 - 0x100` bytes.
2. Each chunk is written as one 32-byte hardware descriptor into a table
   of 128 slots.
3. The controller is started with six register writes.
4. When the table completes, the interrupt handler either restarts the
   same transfer from its cursor or retires it and starts the next one.
   A tasklet (staging) or virt-dma then runs the completion callbacks.

The helper libraries are:

- **`lib/sbitmap.c`**: the sparse tag bitmap. It spreads `depth` tags over
  words, takes a tag by searching from a per-CPU hint, and gives tags back.
- **`block/blk-mq-cpumap.c`**: maps CPUs to hardware queues, sizes a tag
  set's co-queues, and finds the memory node of a hardware queue.

Modules follow the source files:

- `HwDesc`: descriptor layout and register writes.
- `Encoder`: `setup_descs` in both drivers.
- `SgList`: scatter-gather cursors and the shape both packers produce.
- `StagingPacker` and `EnginePacker`: the two `setup_descs_sg` variants.
- `StagingCore`, `StagingStart` and `StagingIrq`: the staging driver's
  descriptor pool, start path, interrupt handler and tasklet.
- `DmaEngine`: the dmaengine driver's channel.
- `Sbitmap` and `CpuMap`: the two libraries.
- `Common` and `Arith`: shared types and arithmetic facts.

Errors are modelled as follows:

- A `BUG`/`BUG_ON` becomes `Err(Fatal)`.
- `-EINVAL`, `-EBUSY` and `-ENOENT` become `Inval`, `Busy` and `NoEnt`.
- An allocation that can fail becomes a boolean parameter.
- The controller's busy-wait for its done flag becomes a precondition
  (`Polled`).

The main theorems are:

- **The encoder and the packers.** They cover the transfer exactly, in
  consecutive slots, at the right device addresses. After each start, the
  caller's cursor moves forward by exactly the bytes handed to the
  controller.
- **Soundness.** When clients submit only startable transfers
  (`Pending`: a direction to or from the device, bytes left and, for a
  table, every segment positive), no `BUG` is reachable through submit,
  issue, interrupt or tasklet. Each
  interrupt either finishes the active transfer or hands the controller
  more of it.
- **sbitmap.** `bt_get` fails exactly when every tag is taken.
  `sbitmap_put` undoes `bt_get`.
- **CPU map.** The queue map is monotone in the easy case. It never names
  a queue that does not exist.

**A hazard the model shows** (both drivers): the interrupt handler ignores
the result of restarting or starting the next transfer (interrupt.c:81-84
in staging, avalon-core.c:165-168 in dmaengine). Suppose the transfer
queued behind the active one cannot be packed: a zero-length buffer in the
staging driver, or an empty segment array in the dmaengine driver. Its
start then fails with `-EINVAL`.
In the staging driver such a `-EINVAL` need not leave the table as it
was: a scatter-gather table with an empty segment after a non-empty one
has the descriptors of the earlier segments already written when packing
gives up (`StagingStart.PartialWriteOnInval`).
The active descriptor is then set while both markers are idle, so the next
`issue_pending` with work queued hits `BUG_ON(active_desc)`.

- `StagingStart.IssuePending` and `DmaEngine.IssuePending` state this as
  `Err(Fatal)`.
- The soundness lemmas show it cannot happen when only startable
  descriptors are submitted (`Pending`).

Neither driver checks at submit time that a transfer can be started, so a
client can also reach a `BUG` directly:

- The staging `avalon_dma_submit_xfer` accepts any direction. Issuing a
  transfer whose direction is neither to nor from the device hits the
  `BUG()` of `avalon_dma_start_xfer`, although nothing is active
  (`StagingStart.BadDirectionIssueBugs`).
- The dmaengine `prep_slave_sg` accepts a single segment of length 0.
  Packing it writes no descriptor, so issuing it hits `BUG_ON(!ret)` in
  `setup_dma_descs` (`DmaEngine.ZeroLengthIssueBugs`).

## Model

| member | source | states |
|---|---|---|
| HwDesc.SetupDesc | drivers/staging/avalon-dma/avalon-dma-util.c:8-23 | the source and destination addresses are stored as 32-bit halves that reassemble to the 64-bit addresses; the three reserved words are 0; for a chunk within the maximum size in one of the 128 slots the control word gives back the slot id, and for a multiple of 4 bytes also the length |
| HwDesc.CtlWordFields | drivers/staging/avalon-dma/avalon-dma-util.c:19 | the dword count and the id shifted by 18 do not overlap in the control word, so the bitwise OR equals their sum |
| HwDesc.StartXfer | drivers/dma/avalon/avalon-hw.c:176-187 | `start_xfer` is six 32-bit writes inside one control block, with the last-pointer write last; afterwards the table-address registers reassemble the table's bus address, the end-point registers hold the end point, and table size and last pointer hold the last slot |
| Encoder.EncodeLoop | drivers/staging/avalon-dma/avalon-dma-util.c:54-79 | a chunk is written if and only if the length is non-zero; no slot past 127 is used; chunk k starts k*max bytes into both ranges and carries min(rest, max) bytes; the reported byte count equals the chunk lengths' sum, min(len, chunks*max); unless the table filled up, every byte is covered |
| Encoder.EncodeLoopCount | drivers/staging/avalon-dma/avalon-dma-util.c:54-75 | the number of descriptors written is min(ceil(len / max), 128 - start) |
| Encoder.EncodeClosed | drivers/dma/avalon/avalon-hw.c:49-72 | the descriptor loop equals an independent closed-form encoding, chunk by chunk |
| Encoder.EncodeLoopEncodes | drivers/staging/avalon-dma/avalon-dma-util.c:35-79 | for either direction, the chunks cut the device range and the host range at the same offsets into consecutive slots from `start` |
| Encoder.StagingSetupDescs | drivers/staging/avalon-dma/avalon-dma-util.c:25-80 | BUG if and only if the direction is not to/from the device or the start slot is past the table; -EINVAL if and only if the length is 0; otherwise at least one chunk, encoding the extent |
| Encoder.EngineSetupDescs | drivers/dma/avalon/avalon-hw.c:28-75 | -EINVAL if and only if the start slot is past the table; a zero length writes nothing and reports 0 bytes; otherwise it encodes the extent |
| SgList.SgDone | drivers/dma/avalon/avalon-core.c:98-111 | BUG if and only if the cursor is on the last segment with its offset past the segment's end; true if and only if the cursor is on the last segment at its end |
| SgList.PosCompleteIff | drivers/staging/avalon-dma/avalon-dma-interrupt.c:14-27 | with non-empty segments, a valid cursor's byte position is at most the table's total, and equals it if and only if the cursor is complete |
| SgList.Settle | drivers/dma/avalon/avalon-hw.c:135-156 | after a `setup_descs` that keeps its promises, the packer's capacity check and leftover-bytes check never fail; the loop stops exactly when the table is full or the last segment is done, and otherwise continues on the next segment at the next device address |
| SgList.ChainLast | drivers/dma/avalon/avalon-hw.c:112-160 | the last piece a packer writes either fills the table or finishes the last segment; it is the only piece on the starting segment, or else it starts at offset 0 of a later segment |
| SgList.ChainSums | drivers/dma/avalon/avalon-hw.c:112-171 | the byte positions and the slots telescope across the pieces: the start position plus every piece but the last gives the last piece's position; the descriptors carry exactly the bytes reported |
| SgList.ChainIds | drivers/staging/avalon-dma/avalon-dma-util.c:151-176 | the descriptors of a pack occupy consecutive slots from the start slot |
| SgList.ChainAdvance | drivers/dma/avalon/avalon-core.c:32-39 | the caller's cursor update after a pack lands on the byte position just past the last descriptor |
| SgList.ChainResume | drivers/staging/avalon-dma/avalon-dma-core.c:420-428 | after a pack, the updated cursor is valid, advanced by exactly the descriptors' bytes, and either the table is full or the list is finished |
| SgList.ChainFirstNonEmpty | drivers/dma/avalon/avalon-hw.c:130-140 | a pack that starts inside a segment, with room in the table, writes at least one descriptor carrying at least one byte |
| SgList.ResumePlaced | drivers/dma/avalon/avalon-hw.c:97-128 | resuming from a cursor, and skipping a used-up segment, gives every descriptor a device address equal to the base plus its byte position in the list |
| SgList.ChainPlaced | drivers/dma/avalon/avalon-hw.c:122-159 | when the device address is carried from segment to segment by adding segment lengths, every piece's device range starts at the base plus its byte position |
| StagingPacker.StagingStep | drivers/staging/avalon-dma/avalon-dma-util.c:134-180 | one iteration: BUG on a bad direction, a full table or an offset past the segment's end; -EINVAL only from an empty segment; otherwise the piece encodes the rest of the segment and stops exactly on a full table or the last segment |
| StagingPacker.StagingRun | drivers/staging/avalon-dma/avalon-dma-util.c:133-180 | what the loop leaves in the table and the error it returns: BUG exactly on a bad direction, a full table or an offset past the end; any other error is -EINVAL and only when a remaining segment is empty; with no error, what it wrote is a chain |
| StagingPacker.StagingRunInval | drivers/staging/avalon-dma/avalon-dma-util.c:51-62 | when the loop gives up with -EINVAL, what it has already written is one whole encoding per segment, of the segments from the cursor up to the empty one it stopped at, and none of them filled the table |
| StagingPacker.SgWrittenSlots | drivers/staging/avalon-dma/avalon-dma-util.c:82-190 | what `setup_descs_sg` writes is its pack when it succeeds; on -EINVAL it is descriptors in consecutive slots from the start slot that leave the last slot free |
| StagingPacker.EmptyAfterFullRun | drivers/staging/avalon-dma/avalon-dma-util.c:51-62 | an 8-byte segment followed by an empty one: the loop writes one descriptor for the first and then gives up with -EINVAL |
| SgList.RunIds | drivers/staging/avalon-dma/avalon-dma-util.c:54-75 | the descriptors of a run of whole pieces have consecutive identities from the run's first slot, and end before the last slot of the table |
| StagingPacker.StagingLoop | drivers/staging/avalon-dma/avalon-dma-util.c:133-180 | the loop fails with BUG exactly on a bad direction, a full table or an offset past the end; it returns -EINVAL only when some remaining segment is empty; if all remaining segments are non-empty it succeeds, and its pieces form a chain |
| StagingPacker.StagingSetupDescsSg | drivers/staging/avalon-dma/avalon-dma-util.c:82-190 | an out-of-range or finished cursor gives -EINVAL; BUG exactly for a valid unfinished cursor with a bad direction or start slot; otherwise a non-empty chain from the resumed device address, with the stop segment and byte count of its last piece |
| StagingPacker.StagingPackPlaced | drivers/staging/avalon-dma/avalon-dma-util.c:99-177 | every descriptor of a staging pack covers device memory at the base address plus its byte position in the table |
| StagingPacker.StagingPackAdvances | drivers/staging/avalon-dma/avalon-dma-core.c:407-431 | a successful pack writes at least one descriptor, so BUG_ON(!ret) never fires; the cursor update advances the position by exactly the bytes written and strictly, onto a valid cursor, leaving a full table or a finished list |
| EnginePacker.EngineStep | drivers/dma/avalon/avalon-hw.c:112-160 | one iteration: -EINVAL exactly for an offset past the segment's end or a full table; otherwise the piece encodes the rest of the segment and stops exactly on a full table or the last segment |
| EnginePacker.EngineLoop | drivers/dma/avalon/avalon-hw.c:112-160 | the loop succeeds if and only if the first offset is within its segment and the start slot is in the table, and then its pieces form a chain |
| EnginePacker.Finish | drivers/dma/avalon/avalon-hw.c:165-171 | the stop cursor is the last piece's segment and byte count when something was written; otherwise it is the start segment with 0 bytes, because the loop's offset was reset |
| EnginePacker.EngineSetupDescsSg | drivers/dma/avalon/avalon-hw.c:77-174 | -EINVAL only, for a start segment past the array or a bad direction; a finished cursor writes nothing; otherwise a chain from the resumed device address, with the stop cursor of its last piece |
| EnginePacker.EnginePackPlaced | drivers/dma/avalon/avalon-hw.c:97-159 | every descriptor of an engine pack covers device memory at the base address plus its byte position in the list |
| EnginePacker.EnginePackAdvances | drivers/dma/avalon/avalon-core.c:18-42 | after a pack that wrote descriptors, the cursor update advances the position by exactly the bytes written, onto a valid cursor; the slots are consecutive from `start`; the table is full or the list finished |
| EnginePacker.EnginePackProgress | drivers/dma/avalon/avalon-core.c:25-39 | with non-empty segments and room in the table, an unfinished cursor always yields at least one descriptor and a strictly larger position |
| StagingCore.Init | drivers/staging/avalon-dma/avalon-dma-core.c:112-120 | a freshly initialised engine satisfies the soundness invariant: empty queues, no active descriptor, both markers at -1 |
| StagingCore.GetDesc | drivers/staging/avalon-dma/avalon-dma-core.c:60-85 | fails if and only if the free queue is empty and allocation fails; otherwise the free head is returned unchanged, or a new zeroed descriptor, with a fresh identity, becomes the only free entry |
| StagingCore.Queued | drivers/staging/avalon-dma/avalon-dma-core.c:117-120 | every queued identity names a pool descriptor and sits in exactly one of the four queues |
| StagingCore.QueuedOnce | drivers/staging/avalon-dma/avalon-dma-core.c:117-120 | no identity occurs twice across the queues |
| StagingCore.SubmitXfer | drivers/staging/avalon-dma/avalon-dma-core.c:268-305 | -EBUSY if and only if no descriptor is free and allocation fails; otherwise exactly one descriptor, filled with the request, is appended to `submitted`; it is the free head or a fresh one; the other queues, the markers and the other descriptors are unchanged, and the invariant holds |
| StagingCore.SubmitViaGetDesc | drivers/staging/avalon-dma/avalon-dma-core.c:279-300 | submitting is `get_desc_locked` followed by moving its descriptor from the free head to the tail of `submitted` |
| StagingCore.SubmitSound | drivers/staging/avalon-dma/avalon-dma-core.c:268-305 | submitting a startable request keeps a sound engine sound |
| StagingCore.SubmitBuffer | drivers/staging/avalon-dma/avalon-dma-core.c:349-365 | a buffer is queued with its offset at 0, and fails only when no descriptor can be had |
| StagingCore.SubmitSg | drivers/staging/avalon-dma/avalon-dma-core.c:368-383 | a scatter-gather table is queued with its cursor at the first segment, offset 0, and fails only when no descriptor can be had |
| StagingStart.SetupBuf | drivers/staging/avalon-dma/avalon-dma-core.c:386-405 | BUG if and only if the offset is past the size or the direction is bad; -EINVAL if and only if nothing is left; otherwise at least one chunk from slot 0 encodes the rest of the buffer, and the offset advances by exactly their bytes, reaching the size unless the table is full |
| StagingStart.SetupSg | drivers/staging/avalon-dma/avalon-dma-core.c:407-431 | -EINVAL for an invalid or finished cursor; BUG exactly for a bad direction on a valid one; otherwise the cursor advances strictly, by exactly the bytes of at least one chunk from slot 0, and the list is finished unless the table is full |
| StagingStart.SetupDmaDescs | drivers/staging/avalon-dma/avalon-dma-core.c:433-448 | dispatches on the transfer kind and keeps it; success means 1 to 128 chunks from slot 0 |
| StagingStart.SetupPending | drivers/staging/avalon-dma/avalon-dma-core.c:386-448 | a startable descriptor always packs, and is then in flight |
| StagingStart.SetupNoBug | drivers/staging/avalon-dma/avalon-dma-core.c:386-448 | a valid direction and an in-range cursor never reach a BUG |
| StagingStart.Arm | drivers/staging/avalon-dma/avalon-dma-core.c:450-498 | a start stores the packed payload in the started descriptor and sets the marker for its direction to the last slot; the queues, the other descriptors and the other marker do not change |
| StagingStart.ArmHw | drivers/staging/avalon-dma/avalon-dma-core.c:248-266 | the direction's table gets its flags cleared and the chunks stored from slot 0; the register log gains exactly the six `start_xfer` writes for that direction's control block and end point |
| StagingStart.Start | drivers/staging/avalon-dma/avalon-dma-core.c:450-511 | BUG if and only if the direction is unprogrammable or a buffer's offset is past its size; a setup error gives -EINVAL, with the direction's done flags cleared and the chunks packing wrote before failing (`Written`) left in that table, and nothing else changed; otherwise the descriptor is armed with what setup produced |
| StagingStart.Written | drivers/staging/avalon-dma/avalon-dma-core.c:386-448 | on success the chunks written are exactly the packed ones; on failure they run from slot 0 and, when there are any, leave the last slot free; a buffer that fails to pack writes nothing, because `setup_descs` refuses it before the first write (avalon-dma-util.c:35-52) |
| StagingStart.Load | drivers/staging/avalon-dma/avalon-dma-core.c:461-465 | the started direction's table has its done flags cleared and holds the given chunks from slot 0, its later slots keep their old descriptors, and the other table, the bus addresses, the register log and the queues are untouched |
| StagingStart.PartialWriteOnInval | drivers/staging/avalon-dma/avalon-dma-core.c:476-490 | a to-device table of an 8-byte segment followed by an empty one: the start returns -EINVAL, yet slot 0 of the `rd` table already holds the descriptor of the first segment, and every other slot is unchanged |
| StagingStart.StartPending | drivers/staging/avalon-dma/avalon-dma-core.c:450-511 | starting a startable descriptor succeeds and leaves it in flight with a marker armed; nothing else changes |
| StagingStart.StartKeeps | drivers/staging/avalon-dma/avalon-dma-core.c:450-511 | a start, whether it fails or not, moves no descriptor between queues and changes no other descriptor |
| StagingStart.IssuePending | drivers/staging/avalon-dma/avalon-dma-core.c:307-346 | -ENOENT with nothing changed when nothing is submitted; otherwise `submitted` is appended to `issued`. BUG if and only if work was submitted, the engine is idle, and either a descriptor is still active or the head's start is a BUG (a direction neither to nor from the device, or a buffer offset past its size). A failed start leaves nothing active |
| StagingStart.BadDirectionIssueBugs | drivers/staging/avalon-dma/avalon-dma-core.c:268-305 | submit accepts a transfer whose direction is neither to nor from the device; issuing it on an idle engine with nothing queued is the BUG() of the start path (lines 500-511), although nothing is active |
| StagingStart.Splice | drivers/staging/avalon-dma/avalon-dma-core.c:320-321 | moving `submitted` to the tail of `issued` keeps the engine invariant |
| StagingStart.StartInv | drivers/staging/avalon-dma/avalon-dma-core.c:326-337 | starting the head of `issued` on an idle engine keeps the invariant, and a success makes it the active descriptor |
| StagingStart.IssueInv | drivers/staging/avalon-dma/avalon-dma-core.c:307-346 | `issue_pending` keeps the engine invariant |
| StagingStart.IssueSound | drivers/staging/avalon-dma/avalon-dma-core.c:307-346 | on a sound engine with work submitted, `issue_pending` never hits a BUG or a failed start; it keeps the engine sound, with the head of `issued` active |
| StagingStart.Sync | drivers/staging/avalon-dma/avalon-dma-core.c:180-219 | busy if and only if any queue other than `free` is non-empty; BUG if and only if the queues are drained but a descriptor is active; otherwise every free descriptor's direction becomes NONE and nothing else changes |
| StagingStart.SyncQuiesced | drivers/staging/avalon-dma/avalon-dma-core.c:207-214 | once the queues are drained on an engine that keeps its invariant, sync succeeds and leaves every descriptor free, with direction NONE |
| StagingIrq.DescDone | drivers/staging/avalon-dma/avalon-dma-interrupt.c:6-30 | BUG if and only if the cursor is past its end; done if and only if a buffer's offset reached its size, or a table's cursor is complete |
| StagingIrq.DoneIffNothingLeft | drivers/staging/avalon-dma/avalon-dma-interrupt.c:6-30 | for a descriptor in flight the done test never hits a BUG, and is true if and only if no byte is left to hand to the controller |
| StagingIrq.RestartProgress | drivers/staging/avalon-dma/avalon-dma-interrupt.c:81-84 | a restart of an unfinished transfer always succeeds, and strictly decreases the bytes left |
| StagingIrq.Retire | drivers/staging/avalon-dma/avalon-dma-interrupt.c:66-79 | the head of `issued` moves to the tail of `completed`, with direction NONE; the next issued descriptor becomes active, or none |
| StagingIrq.RetireInv | drivers/staging/avalon-dma/avalon-dma-interrupt.c:66-79 | retiring the active descriptor of an idle engine keeps the invariant |
| StagingIrq.Interrupt | drivers/staging/avalon-dma/avalon-dma-interrupt.c:32-92 | with both markers idle, the interrupt is not handled and nothing changes; otherwise it is handled, and schedules the tasklet if and only if the active descriptor was done |
| StagingIrq.IrqRetires | drivers/staging/avalon-dma/avalon-dma-interrupt.c:66-91 | after an interrupt that schedules the tasklet, the old active descriptor is the new tail of `completed`, and `issued` has lost exactly its head |
| StagingIrq.IrqKeeps | drivers/staging/avalon-dma/avalon-dma-interrupt.c:81-84 | an interrupt that restarts the active descriptor moves nothing between queues |
| StagingIrq.IrqInv | drivers/staging/avalon-dma/avalon-dma-interrupt.c:32-92 | the handler keeps the engine invariant, even when its restart fails |
| StagingIrq.IrqSound | drivers/staging/avalon-dma/avalon-dma-interrupt.c:32-92 | on a sound engine whose armed table completed, the handler never hits a BUG, handles the interrupt, and keeps the engine sound |
| StagingIrq.Callbacks | drivers/staging/avalon-dma/avalon-dma-interrupt.c:104-107 | the tasklet runs at most one callback per completed descriptor, and only callbacks those descriptors carry |
| StagingIrq.Tasklet | drivers/staging/avalon-dma/avalon-dma-interrupt.c:94-112 | the completed queue is appended to `free` and emptied; nothing else changes; each call it makes is the callback of a completed descriptor |
| StagingIrq.TaskletCallsAll | drivers/staging/avalon-dma/avalon-dma-interrupt.c:100-107 | every completed descriptor that has a callback has it run |
| StagingIrq.TaskletSound | drivers/staging/avalon-dma/avalon-dma-interrupt.c:94-112 | the tasklet keeps the invariant, and keeps a sound engine sound |
| StagingIrq.TaskletDrains | drivers/staging/avalon-dma/avalon-dma-interrupt.c:100-102 | a second tasklet run finds nothing completed, runs no callback and changes nothing |
| StagingIrq.IrqThenTasklet | drivers/staging/avalon-dma/avalon-dma-interrupt.c:66-112 | after an interrupt that retired a descriptor, the tasklet runs the earlier completions' callbacks, then the retired descriptor's callback |
| StagingIrq.IrqCallbacks | drivers/staging/avalon-dma/avalon-dma-interrupt.c:32-92 | an interrupt changes no descriptor's callback |
| DmaEngine.DataDirection | drivers/dma/avalon/avalon-core.c:302-313 | memory-to-device maps to "to device" and device-to-memory maps to "from device"; every other transfer direction maps to an unprogrammable one |
| DmaEngine.Init | drivers/dma/avalon/avalon-core.c:203-207 | an initialised channel is sound, with empty queues, nothing active and both markers at -1 |
| DmaEngine.Config | drivers/dma/avalon/avalon-core.c:280-289 | only the slave source and destination addresses change |
| DmaEngine.PrepSlaveSg | drivers/dma/avalon/avalon-core.c:291-321 | NULL if and only if the direction is not memory-to-device or device-to-memory, or allocation fails; otherwise the descriptor targets the configured destination or source address, with its cursor at the first segment, offset 0 |
| DmaEngine.PrepPending | drivers/dma/avalon/avalon-core.c:302-318 | a prepared descriptor over non-empty segments is startable, and has all of its bytes left |
| DmaEngine.SetupDmaDescs | drivers/dma/avalon/avalon-core.c:18-42 | -EINVAL for a bad direction or an invalid cursor; BUG when a finished cursor writes nothing; a startable descriptor always packs, and its cursor advances by exactly the bytes of 1 to 128 chunks from slot 0 |
| DmaEngine.SetupProgress | drivers/dma/avalon/avalon-core.c:18-42 | packing a startable descriptor strictly decreases the bytes left |
| DmaEngine.ClearFlags | drivers/dma/avalon/avalon-core.c:55-78 | only the done flags of the started direction's table are cleared |
| DmaEngine.Arm | drivers/dma/avalon/avalon-core.c:55-95 | the head of `issued` is replaced by its advanced copy, and the marker for its direction is set to the last slot; the queues' other entries, the active flag and the slave addresses do not change |
| DmaEngine.Start | drivers/dma/avalon/avalon-core.c:44-96 | BUG if and only if the direction is unprogrammable or packing writes nothing; a startable head always starts; a setup error gives -EINVAL with only the done flags cleared |
| DmaEngine.StartPending | drivers/dma/avalon/avalon-core.c:44-96 | starting a startable head succeeds, leaves it in flight with a marker armed, and keeps the rest of `issued` |
| DmaEngine.StartInv | drivers/dma/avalon/avalon-core.c:44-96 | starting the head of an idle channel keeps the invariant |
| DmaEngine.IsDescComplete | drivers/dma/avalon/avalon-core.c:98-111 | BUG only from an offset past the last segment's end; complete if and only if the cursor is at the end of the last segment |
| DmaEngine.CompleteIffNothingLeft | drivers/dma/avalon/avalon-core.c:98-111 | for a descriptor in flight, completeness never hits a BUG, and holds if and only if no byte is left |
| DmaEngine.Retire | drivers/dma/avalon/avalon-core.c:150-162 | the head of `issued` moves to `completed`, with direction NONE; the channel stays active if and only if more was issued |
| DmaEngine.Interrupt | drivers/dma/avalon/avalon-core.c:113-173 | with both markers idle, the interrupt is not handled and nothing changes; otherwise it is handled on an active channel |
| DmaEngine.IrqQueues | drivers/dma/avalon/avalon-core.c:144-168 | a complete active descriptor is retired to `completed`; an incomplete one stays at the head of `issued`; nothing else moves |
| DmaEngine.IrqInv | drivers/dma/avalon/avalon-core.c:113-173 | the handler keeps the channel invariant, even when its restart fails |
| DmaEngine.IrqSound | drivers/dma/avalon/avalon-core.c:113-173 | on a sound channel whose armed table completed, the handler never hits a BUG, and keeps the channel sound |
| DmaEngine.IssuePending | drivers/dma/avalon/avalon-core.c:323-358 | nothing happens when no work is queued; otherwise `submitted` is appended to `issued`. BUG if and only if work is queued, the channel is idle, and either it is still active or starting the head is a BUG (a bad direction, or a pack that writes nothing, such as a single zero-length segment) |
| DmaEngine.ZeroLengthIssueBugs | drivers/dma/avalon/avalon-core.c:18-31 | a prepared single segment of length 0 is not startable, and issuing it on an idle channel with nothing queued is the BUG_ON(!ret) of `setup_dma_descs` |
| DmaEngine.IssueInv | drivers/dma/avalon/avalon-core.c:323-358 | `issue_pending` keeps the channel invariant |
| DmaEngine.IssueSound | drivers/dma/avalon/avalon-core.c:323-358 | on a sound channel, `issue_pending` never hits a BUG, and keeps the channel sound |
| Sbitmap.Shrink | lib/sbitmap.c:241-246 | the shrinking loop stops at the widest word, no wider than it started, of which four fit in the depth |
| Sbitmap.BitsPerWord | lib/sbitmap.c:231-246 | a full long for fewer than 4 tags; otherwise four words of the chosen width fit in the depth |
| Sbitmap.BitsPerWordWidest | lib/sbitmap.c:231-246 | every narrower-or-equal width of which four words fit is at most the chosen width, so the choice is the widest |
| Sbitmap.Words | lib/sbitmap.c:248 | the words hold the depth, and one word fewer would not |
| Sbitmap.UpdateCount | lib/sbitmap.c:207-210 | one depth per word, none above a word's capacity |
| Sbitmap.UpdateCountSum | lib/sbitmap.c:207-210 | the word depths add up to min(depth, words * capacity) |
| Sbitmap.UpdateCountAt | lib/sbitmap.c:207-210 | word i gets a full word while the tags last, then the remainder, then 0 |
| Sbitmap.WakeCnt | lib/sbitmap.c:212-214 | the wake batch is SBM_WAIT_BATCH, cut down to depth/4 but never below 1 |
| Sbitmap.Alloc | lib/sbitmap.c:219-263 | BUG if and only if the depth is 0; NULL if and only if allocation fails; otherwise a well-formed map with every tag free, whose word width is `BitsPerWord(depth)`, whose word count and word depths are the ones the sizing rules give, and whose wake batch is `WakeCnt(depth)` |
| Sbitmap.WordsHoldDepth | lib/sbitmap.c:201-217 | the words of a well-formed map hold exactly `depth` tags, and every word holds at least one |
| Sbitmap.AllocSpread | lib/sbitmap.c:235-246 | four or more tags are spread over at least four words |
| Sbitmap.TagRoundTrip | include/linux/sbitmap.h:16-17 | splitting a tag into word and bit, and joining them back, are inverses |
| Sbitmap.FindNextZeroBit | lib/sbitmap.c:40-41 | the lowest clear bit at or after the offset, or the size when there is none |
| Sbitmap.GetWord | lib/sbitmap.c:32-57 | the lowest clear bit at or after the hint, else the lowest clear bit before it; -1 if and only if the word is full |
| Sbitmap.GetWordInWord | lib/sbitmap.c:32-57 | with a hint inside the word, the search fails if and only if the word is full, and any bit found is within the word's depth |
| Sbitmap.Search | lib/sbitmap.c:67-77 | a found bit is clear and inside its word's depth; returns none if and only if every word still to visit is full |
| Sbitmap.SearchFirst | lib/sbitmap.c:67-77 | the word found is the first one, in visiting order, with a clear bit, every word tried before it being full; the bit is what `bt_get_word` finds in that word, searched from the hint's bit in the first word tried and from bit 0 in later ones |
| Sbitmap.VisitCovers | lib/sbitmap.c:67-77 | starting at any word and wrapping around, the loop visits every word within `nr_maps` steps |
| Sbitmap.BtGet | lib/sbitmap.c:59-96 | a tag found is below the depth, was free and is now taken; failure leaves the map unchanged and resets the hint to 0; the hint moves past the tag only when the hint itself was taken, wrapping at depth-1 |
| Sbitmap.BtGetFullIff | lib/sbitmap.c:59-96 | `bt_get` fails if and only if every tag below the depth is taken |
| Sbitmap.BtGetOnlyTag | lib/sbitmap.c:59-96 | allocating keeps the map well formed and changes no tag but the one taken |
| Sbitmap.Put | lib/sbitmap.c:169-181 | BUG if and only if the tag is outside 0..depth-1; otherwise the tag is free afterwards and the map stays well formed |
| Sbitmap.PutOnlyTag | lib/sbitmap.c:169-181 | `sbitmap_put` frees its tag and no other |
| Sbitmap.GetPutRestores | lib/sbitmap.c:59-181 | putting back the tag `bt_get` handed out restores the map exactly |
| Sbitmap.IndexInc | lib/sbitmap.c:20-23 | the next wait-queue index counts up to 7, then wraps to 0 |
| Sbitmap.IndexIncRoundRobin | lib/sbitmap.c:20-23 | k steps from any index land on (index + k) mod 8, so the queues are visited round-robin |
| CpuMap.QueueIndex | block/blk-mq-cpumap.c:18-22 | a rank below the CPU count maps to an existing queue |
| CpuMap.QueueIndexMono | block/blk-mq-cpumap.c:18-22 | queue indices never decrease as the rank grows |
| CpuMap.QueueIndexStrict | block/blk-mq-cpumap.c:18-22 | with at least as many queues as ranks, distinct ranks get distinct queues |
| CpuMap.FirstSibling | block/blk-mq-cpumap.c:24-33 | the lowest CPU of the sibling mask when it has one; otherwise the CPU itself |
| CpuMap.FirstSiblingLe | block/blk-mq-cpumap.c:24-33 | when every CPU is its own sibling, the first sibling is never a later CPU |
| CpuMap.CountCpus | block/blk-mq-cpumap.c:44-52 | counts the online CPUs, and the online CPUs whose first sibling was not seen before; the second count never exceeds the first |
| CpuMap.UniqPos | block/blk-mq-cpumap.c:44-52 | with some CPU online, there is at least one core |
| CpuMap.EasyMonotone | block/blk-mq-cpumap.c:61-70 | in the easy case the online CPUs' queues never decrease with the CPU number, and increase strictly when there are at least as many queues as CPUs |
| CpuMap.MapCpu | block/blk-mq-cpumap.c:55-84 | an offline CPU gets queue 0; in the easy case an online CPU gets its rank spread over the queues; otherwise a leading CPU gets its core's rank spread over the queues, and a sibling copies its leader's entry |
| CpuMap.MapStep | block/blk-mq-cpumap.c:55-84 | one turn of the mapping loop keeps its invariant: entries before the CPU are final, entries after it untouched |
| CpuMap.UpdateQueueMap | block/blk-mq-cpumap.c:35-88 | returns 1 with the map untouched when the mask cannot be allocated; otherwise returns 0 with offline CPUs on queue 0, the easy or the sibling entries for online CPUs, and every entry naming an existing queue |
| CpuMap.AdjustTagSet | block/blk-mq-cpumap.c:90-131 | one hardware queue per co-queue for a kdump kernel, a failed allocation, or fewer hardware queues than cores; one co-queue per core with fewer hardware queues than CPUs; otherwise one per CPU. Each co-queue spans the largest equal share, so co-queues never span more hardware queues than there are |
| CpuMap.DivShare | block/blk-mq-cpumap.c:126-129 | `hw / n` shares of `n` fit in `hw`, and one more does not |
| CpuMap.FirstCpuOf | block/blk-mq-cpumap.c:141-144 | the lowest CPU mapped to the queue, or none if and only if no CPU is mapped to it |
| CpuMap.HwQueueToNode | block/blk-mq-cpumap.c:137-147 | NUMA_NO_NODE if and only if no CPU is mapped to the queue; otherwise the node of the lowest CPU mapped to it |
| CpuMap.MappedQueueHasNode | block/blk-mq-cpumap.c:137-147 | a queue that some CPU is mapped to has a node: that of a CPU no later than that one |

## Left out

- **The controller's busy-wait.** The interrupt handlers poll for the done flag of the last descriptor. The model states the poll's exit condition as the precondition `Polled` and does not model the waiting.
- **Concurrency.** Spinlocks, interrupt masking and the scheduling of the tasklet are left out. Every operation is modelled as atomic under its lock.
- **StagingStart.Sync: one attempt only.** The `msleep` retry loop of `avalon_dma_sync` is left out. A non-empty queue is modelled as `Busy`, because the loop's termination depends on the interrupt handler running in between.
- **The register writes only.** MMIO is modelled as a log of 32-bit register writes. The controller's own behaviour is the `Polled` precondition, and `dma_alloc_coherent` of the descriptor tables is left out, because they are outside the driver's logic.
- **virt-dma internals.** `vchan_tx_prep`, `vchan_tx_submit`, `vchan_issue_pending` and `vchan_cookie_complete` are modelled as FIFO queue moves. The cookies and the descriptor-free callbacks are left out, because virt-dma is not part of this model.
- **Probe and remove.** The error paths of `avalon_dma_init` (mask setup, IRQ request, table allocation), the PCI glue and the ioctl and character-device interface are left out. `Init` models the state after a successful init.
- **The dmaengine end points.** The end-point addresses of the dmaengine driver come from its header. The model keeps them as parameters of the hardware record.
- **`percpu_tags`.** The library is left out, as is the rest of the tree outside the modelled files.
- **sbitmap waiting.** The wait loop of `sbitmap_get`, `bt_wake_ptr`, the atomic `wait_cnt` of `sbitmap_put` and `sbitmap_free` are left out. They are scheduler interactions; `Put` models the bit clear and its BUG_ON.
- **Sbitmap.GetWord: no competing setter.** The retry of `bt_get_word` when another CPU sets the bit first is not modelled, because only one CPU is modelled.
- **Sbitmap: word width.** `BITS_PER_LONG` is fixed at 64, and unsigned arithmetic is unbounded. The depths the source is called with are far from 2^32, so `depth + tpw - 1` cannot wrap.
- **CpuMap: unbounded arithmetic.** `cpu * nr_queues` is computed without 32-bit wrap-around, because CPU and queue counts are far from 2^16.
- **CpuMap: the topology.** The possible CPUs are 0..nr_cpu_ids-1. `cpu_to_node` and `local_memory_node` become the `node` parameter of `HwQueueToNode`. `is_kdump_kernel()` and the mask allocation become boolean parameters.
- **CpuMap.AdjustTagSet: at least one CPU online.** The source divides by the online-CPU count (line 129) when no CPU is online.
- **CpuMap.UpdateQueueMap: the topology guarantee.** The bound that every entry names an existing queue is stated only when every CPU is in its own sibling mask (`OwnSibling`), which the kernel's topology code guarantees. Otherwise a sibling could copy an entry that has not been written yet.
- **HwDesc.SetupDesc: no BUG_ON.** The staging `setup_desc` BUGs on a zero size or an id past 127, and warns on a size that is not a multiple of 4. These checks are not modelled, because `setup_descs`, its only caller, never passes such values (`Encoder.EncodeLoop` states the chunk bounds).
- **StagingCore.GetDesc: allocation as a flag.** Without `AVALON_DMA_DESC_ALLOC`, `get_desc_locked` never allocates. That build is the case `allocOk == false`.
- **Callbacks as tokens.** A completion callback and its parameter are modelled as a token. Calling it is modelled as listing the token.
- **SgList.SgDone, StagingIrq.DescDone, DmaEngine.IsDescComplete: the end marker.** The source tests `sg_is_last`, the end marker of the scatterlist. The packers stop after `nents` or `sg_len` entries. The model takes the last of those entries as the marked one. A table whose marker lies beyond them (`nents < orig_nents`) is not modelled. In the source such a transfer never completes, and its restart hits `BUG_ON(!ret)`. The same reading is used by the staging packer's skip test (`StagingPacker.StagingSetupDescsSg`).
- **The unknown-type BUG.** The staging driver's BUG for an unknown transfer type (avalon-dma-core.c:297-298 and 442-444) is left out, because the `Payload` datatype has only the two known kinds.
- **The header/source mismatch.** In the dmaengine driver, `avalon-core.c` uses descriptor fields that its header declares under other names. `avalon-core.c` uses `sg_curr` as a `struct scatterlist *`, with `sg_offset` and `sg_dma_len`. The model follows the header instead: the cursor is the index pair `seg_curr`/`seg_off` over `nr_segs` entries of `seg[]` (avalon-core.h:25-28). That is also the signature of `setup_descs_sg` in avalon-hw.h:74-79.
