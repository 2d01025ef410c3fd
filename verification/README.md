# Arsenal kernel verification

A Dafny model of the parts of the Arsenal kernel and its LinuxKPI shim where correctness is a matter of
protocol: descriptor rings shared with devices, page tables and frames, the scheduler and its context
switch, and the shim's queues and lists. To verify it, use `dafny verify dfyconfig.toml`.

## How it is organised

| files | what they model |
|---|---|
| `VirtqueueProtocol`, `Virtqueue`, `VirtqueueStores` | the split virtqueue: an abstract driver/device protocol, the descriptor table and rings that implement it, and both sides' operations one store at a time |
| `VirtioNet`, `VirtioShim` | the two users of that queue: the network driver's buffer tables, and the shim's token tables and queue sizes |
| `LapRing`, `XhciEventRing`, `NvmeQueue` | rings whose entries carry a lap bit (cycle or phase) |
| `XhciTransferRing`, `XhciReports`, `XhciKeyboard` | the keyboard's transfer ring, one dword write at a time, against a concurrent controller; the poller that re-arms it, over a queue of events and over the event ring |
| `Frames`, `Paging`, `MapMmio` | frame pool, deep clone of the page tables, MMIO mapping |
| `ContextSwitch`, `Scheduler`, `IrqDiscipline` | stacks and registers; rotation and waiting times; interrupts and locks between single steps |
| `Workqueue`, `KbdRing` | lock-free and half-locked queues, one atomic access at a time |
| `Madt`, `Balloon` | the MADT record walk; the intrusive list and balloon pages |
| `SeqFacts` | facts about sequences, sets and ring indices |

Each protocol is a value-level state with one function per step, an invariant, a lemma per step and
theorems over all runs. The code that updates memory in place is a class whose methods are proved to
perform those steps; `Repr`, `Matches` or `Valid` ties the bytes to the protocol state. Devices are part of
the runs: a virtio device may complete held requests in any order, and an xHCI controller may step between
any two dword writes or loads of the driver.

## Where the code differs from what is said of it

- A waiting task is not always served within ten ticks per position: `preempt` compares a wrapping
  difference with the slice, and a difference of 2^64 - 1 wraps to zero on the next tick. `BoundedWaiting`
  gives the exact condition.
- `cancel_work` exchanges the state byte and filters the queue in two accesses. It can return true for work that
  runs (`CancelledStillRuns`, `CancelledButRan`) and can delete another caller's entry (`RequeuedAndLost`);
  `CancelSoundIff` gives the exact condition.
- `cancel_work_sync` is documented to return true for work that was running; it returns false
  (`SyncMissesRunning`); `SyncIff` says exactly when it returns true.
- The keyboard poller re-arms its endpoint for every Transfer Event, not only its own, while enumeration of later
  ports posts theirs past its cursor. `OneReportAndTheForeign` and `ForeignBound` say how many reports are then
  outstanding and how many such events the ring bears.
- `next_event` and `try_event` load the status dword before the control dword that validates it, so a completion
  code can be a lap old (`StaleCompletion`); `EveryCursorSees` gives the exact condition. The No-Op drain loads
  them the other way round, which is right (`ControlFirstIsRight`).
- A poller that first looks 17 to 31 events late takes none of them and does not re-arm while no other
  device posts (`DeadOnArrival`, `DeadForever`).
- `submit_qe` does not test for a full queue: with 63 commands waiting the controller sees an empty one, and with 64
  the oldest is overwritten (`Submit`). The driver keeps one.
- The NVMe callers mask the status word after the phase bit was already shifted out, so status code 1 is
  accepted as success (`MaskAcceptsOneFailure`).
- The keyboard ring is described as single-producer, and `inject` is a second one; `HeadStaysAheadIff` says
  when head stays ahead of tail, `TwoProducersAccount` and `OneInterrupt` when pushes then go missing uncounted, and
  `HeadFallsBehind` and `OffersUnpushed` show bytes offered that nobody pushed.
- `push_chain` truncates the part count to 16 bits before comparing it with the free count; longer chains
  then panic on the index buffer of eight (`PushChain`).
- The shim's shadow free count is given back one per completion whatever the chain length; `ShadowCount` says when
  it is exact.
- `cpu.rs` lines 46-47 say the idle task is never enqueued; the rotation enqueues it like any other task
  (`IdleIsQueued`).
- `reclaim_bootloader` is documented as safe after the deep clone, and at this revision boot does not call it yet;
  `BootAndReclaim` proves that the page tables are safe in the documented order.
- `deep_clone_table` tests an entry for zero, not for the present bit, and so does the model.

## What is assumed

- Devices obey their side: a virtio device completes only requests it has taken, an NVMe controller posts no more
  than one lap ahead of the driver, an xHCI controller writes an event's control dword last, and memory is read
  in the order x86 stores it. Acquire and release fences are not modelled beyond that order.
- The memory map's entries do not overlap, the heap is not empty, and usable memory starts at or above
  0x1000, as the Limine protocol promises; frame 0 is therefore never pooled. The bootloader's page tables
  lie outside usable memory.
- A task writes only to its own stack, not to other stacks or their saved pointers, and has room for a switch
  frame when it calls the scheduler.
- A received buffer token is consumed at most once, and a transmit buffer's address is not in use.
- `preempt_count` is zero in the waiting-time results; the kernel never raises it.
- `put_page` drops the last reference only of a page whose frame is handed out.

## Model

| member | source | states |
|---|---|---|
| `VirtqueueProtocol.InitInv` | arsenal-kernel/src/virtio.rs:585-612 | a new queue satisfies the protocol invariant with every descriptor free |
| `VirtqueueProtocol.PushInv` | arsenal-kernel/src/virtio.rs:660-710 | publishing a chain keeps the invariant: free list and outstanding chains partition the descriptors, chains are disjoint, and every published head is exactly one of pending, held by the device, completed or reclaimed |
| `VirtqueueProtocol.FetchInv` | arsenal-kernel/src/virtio.rs:700-707 | the device taking the next available entry keeps the invariant; it never takes a head it already holds |
| `VirtqueueProtocol.CompleteInv` | arsenal-kernel/src/virtio.rs:716-731 | the device completing any head it holds, in any order and with any length, keeps the invariant |
| `VirtqueueProtocol.PopInv` | arsenal-kernel/src/virtio.rs:716-756 | the next used entry always names an outstanding chain, and reclaiming it keeps the invariant |
| `VirtqueueProtocol.StagesSplit` | arsenal-kernel/src/virtio.rs:623-756 | pending, held and unread completions together are exactly the outstanding heads, each once |
| `VirtqueueProtocol.RingBounds` | arsenal-kernel/src/virtio.rs:623-756 | outstanding requests split into the three stages by count, and with the free descriptors never exceed the queue size |
| `VirtqueueProtocol.RingRoom` | arsenal-kernel/src/virtio.rs:700-707 | neither ring can be overrun: a push always finds an unread-free available slot and a completion a free used slot |
| `VirtqueueProtocol.RunInv` | arsenal-kernel/src/virtio.rs:623-756 | the invariant holds after every interleaving of driver and device steps |
| `VirtqueueProtocol.EveryRunReturnsDescriptors` | arsenal-kernel/src/virtio.rs:623-756 | in every run from a new queue, published equals reclaimed plus outstanding, and once everything is reclaimed all descriptors are back on the free list |
| `Virtqueue.RingAppend` | arsenal-kernel/src/virtio.rs:700-707 | writing at the wrapped index extends the ring contents by one history entry and loses no unread one |
| `Virtqueue.WrapIndex` | arsenal-kernel/src/virtio.rs:643-645 | reducing a wrapped 16-bit index modulo the queue size finds the slot of the unwrapped count (sizes divide 2^16) |
| `Virtqueue.WrappedEqual` | arsenal-kernel/src/virtio.rs:716-720 | 16-bit indices less than 2^16 apart are equal exactly when the true counts are: the empty test is right across wrap-around |
| `Virtqueue.FillEncodes` | arsenal-kernel/src/virtio.rs:681-698 | the descriptors written form the request as a linked chain with NEXT on all but the last |
| `Virtqueue.FillSame` | arsenal-kernel/src/virtio.rs:681-698 | only the chain's own descriptors are written |
| `Virtqueue.UnchainLinks` | arsenal-kernel/src/virtio.rs:733-755 | following NEXT and relinking prepends the chain, reversed, to the free chain |
| `Virtqueue.UnchainSame` | arsenal-kernel/src/virtio.rs:733-755 | reclaiming writes only the chain's own descriptors |
| `Virtqueue.ReprPush` | arsenal-kernel/src/virtio.rs:660-710 | the memory after a chain push represents the protocol state after the abstract push |
| `Virtqueue.ReprPushOne` | arsenal-kernel/src/virtio.rs:623-652 | the same for the single-descriptor push |
| `Virtqueue.ReprPop` | arsenal-kernel/src/virtio.rs:716-756 | the memory after a reclaim represents the protocol state after the abstract pop |
| `Virtqueue.ReprFetch` | arsenal-kernel/src/virtio.rs:700-707 | advancing the device's read index represents the abstract fetch |
| `Virtqueue.ReprComplete` | arsenal-kernel/src/virtio.rs:716-731 | a used-ring write represents the abstract completion |
| `Virtqueue.FetchReady` | arsenal-kernel/src/virtio.rs:700-707 | the available index tells exactly whether something is pending, and the slot holds its head |
| `Virtqueue.PopReady` | arsenal-kernel/src/virtio.rs:716-731 | the used index tells exactly whether a completion is unread, and the slot holds the next one in order |
| `Virtqueue.Virtqueue.constructor` | arsenal-kernel/src/virtio.rs:555-613 | a queue of a legal size represents the initial protocol state |
| `Virtqueue.Virtqueue.LinkFreeChain` | arsenal-kernel/src/virtio.rs:585-596 | each descriptor links to its successor, the last to 0 |
| `Virtqueue.Virtqueue.PushDescriptor` | arsenal-kernel/src/virtio.rs:623-652 | fails exactly when no descriptor is free and then changes nothing; otherwise refines the one-part push, returns the old free head, and leaves there a descriptor with the caller's address, length and every flag but NEXT |
| `Virtqueue.Virtqueue.PushChain` | arsenal-kernel/src/virtio.rs:660-710 | fails exactly on an empty chain or one whose 16-bit length exceeds the free count, panics exactly on more than eight parts otherwise, and else refines the abstract push: the given parts, published next in order |
| `Virtqueue.Virtqueue.FirstFree` | arsenal-kernel/src/virtio.rs:668-678 | collects the first n free descriptors in order, and the free head that remains |
| `Virtqueue.Virtqueue.FillChain` | arsenal-kernel/src/virtio.rs:681-698 | writes exactly the linked request into the table |
| `Virtqueue.Virtqueue.FreeChain` | arsenal-kernel/src/virtio.rs:733-755 | walks the chain by its NEXT flags and returns all of it, and nothing else, to the free chain |
| `Virtqueue.Virtqueue.PopUsed` | arsenal-kernel/src/virtio.rs:716-756 | empty exactly when all completions are reclaimed; otherwise returns the oldest unread completion and refines the abstract pop |
| `Virtqueue.Virtqueue.DeviceFetch` | arsenal-kernel/src/virtio.rs:700-707 | a device reading the available ring sees every published head exactly once, in order |
| `Virtqueue.PublishedSays` | arsenal-kernel/src/virtio.rs:623-698 | every published request can be read off the table: address, length and the caller's flags on every bit but 0, with bit 0 and the successor exactly where another part follows |
| `Virtqueue.Virtqueue.DeviceReadChain` | arsenal-kernel/src/virtio.rs:681-698 | a device following NEXT from a published head reads exactly the parts the driver pushed, in order, with all their flags but NEXT |
| `Virtqueue.Virtqueue.DeviceComplete` | arsenal-kernel/src/virtio.rs:716-731 | a used-ring entry written by the device refines the abstract completion, next in order |
| `VirtqueueStores.FieldsFill` | arsenal-kernel/src/virtio.rs:681-698 | the field stores of a push, four to a descriptor, add up to the linked request |
| `VirtqueueStores.FieldsSame` | arsenal-kernel/src/virtio.rs:681-698 | whatever field store a push is at, only its own descriptors differ |
| `VirtqueueStores.DeviceSees` | arsenal-kernel/src/virtio.rs:681-755 | at every store of a push or a reclaim the device finds exactly the published heads, and every request it may look at unharmed |
| `VirtqueueStores.DriverSees` | arsenal-kernel/src/virtio.rs:716-731 | between a used element's store and the index store the driver finds exactly the completions published, oldest first |
| `VirtqueueStores.PublishOk` | arsenal-kernel/src/virtio.rs:700-707 | the index store turns the half-written memory into the whole push |
| `VirtqueueStores.ReclaimStoreOk` | arsenal-kernel/src/virtio.rs:733-755 | link by link, a reclaim ends as the whole pop of the memory it began with |
| `VirtqueueStores.Run` | arsenal-kernel/src/virtio.rs:660-756 | the memory represents the protocol in every interleaving of the two sides' single stores |
| `VirtqueueStores.NeverHalfWritten` | arsenal-kernel/src/virtio.rs:660-756 | in every such interleaving the device takes published heads once and in order, each with its whole request, and the driver completions oldest first |
| `VirtioNet.RxInjective` | arsenal-kernel/src/virtio_net.rs:133-188 | posted receive descriptors name distinct buffers, and each points at its buffer |
| `VirtioNet.RxHasRoom` | arsenal-kernel/src/virtio_net.rs:245-264 | whenever a buffer is off the ring a descriptor is free: re-posting cannot fail |
| `VirtioNet.RxPush` | arsenal-kernel/src/virtio_net.rs:245-264 | posting a buffer keeps descriptor-to-buffer an injection |
| `VirtioNet.RxPop` | arsenal-kernel/src/virtio_net.rs:315-332 | receiving frees exactly the completed buffer and keeps the table |
| `VirtioNet.RxState.constructor` | arsenal-kernel/src/virtio_net.rs:133-188 | every pool buffer starts posted |
| `VirtioNet.RxState.Post` | arsenal-kernel/src/virtio_net.rs:163-175 | a buffer that is off the ring is posted, always successfully |
| `VirtioNet.UnreadOwned` | arsenal-kernel/src/virtio_net.rs:315-332 | an unread completion names an outstanding head the device no longer holds |
| `VirtioNet.FramesAfterFill` | arsenal-kernel/src/virtio_net.rs:315-332 | the device writing into a buffer it holds disturbs no frame waiting to be received |
| `VirtioNet.RxState.Receive` | arsenal-kernel/src/virtio_net.rs:315-332 | returns the buffer of the oldest completion, holding the bytes the device wrote for it, with the payload length saturating at zero; nothing exactly when there is no completion |
| `VirtioNet.RxState.Consume` | arsenal-kernel/src/virtio_net.rs:245-264 | hands over exactly what the device wrote after the header and re-posts the buffer; a token whose length overruns the buffer panics with the buffer still off the ring |
| `VirtioNet.RxState.DeviceStep` | arsenal-kernel/src/virtio_net.rs:163-175 | following a posted descriptor the device may write, and may fill the whole buffer it names; a buffer out with a token is not touched |
| `VirtioNet.TxPush` | arsenal-kernel/src/virtio_net.rs:192-212 | recording a sent buffer keeps the in-flight table exact |
| `VirtioNet.TxPop` | arsenal-kernel/src/virtio_net.rs:216-220 | reaping drops exactly the buffer of the completed descriptor |
| `VirtioNet.TxNoUseAfterFree` | arsenal-kernel/src/virtio_net.rs:192-220 | whatever the device may still read points at a live buffer |
| `VirtioNet.TxState.Submit` | arsenal-kernel/src/virtio_net.rs:192-212 | too large and queue full are reported exactly when they hold and change nothing; otherwise the frame is published next and its box retained under its descriptor |
| `VirtioNet.TxState.TokenConsume` | arsenal-kernel/src/virtio_net.rs:272-301 | panics exactly on a payload over the MTU, drops the frame exactly when the queue is full, else sends it |
| `VirtioNet.TxState.DeviceReads` | arsenal-kernel/src/virtio_net.rs:192-212 | following any descriptor it may still look at, the device reads from a live box a zero header and exactly the payload submitted under it |
| `VirtioNet.TxState.ReapOne` | arsenal-kernel/src/virtio_net.rs:216-220 | one completion releases one buffer: the one that was sent under it |
| `VirtioNet.TxState.Reap` | arsenal-kernel/src/virtio_net.rs:216-220 | all completions are reaped and no buffer still owned by the device is released |
| `VirtioShim.HighBit` | linuxkpi/src/virtio.rs:150-156 | the top set bit brackets a number between a power of two and its double |
| `VirtioShim.SizeChosen` | linuxkpi/src/virtio.rs:150-156 | for every 16-bit maximum the chosen size is the largest legal queue size not above it |
| `VirtioShim.PowersApart` | linuxkpi/src/virtio.rs:150-156 | distinct powers of two differ by at least a factor of two |
| `VirtioShim.QueueLayout` | arsenal-kernel/src/virtio.rs:555-569 | descriptor table, available ring and used ring are aligned, follow one another with no gap but alignment, and fit one frame for exactly the powers of two up to 128 |
| `VirtioShim.ShimPush` | linuxkpi/src/virtio.rs:1032-1036 | recording a token under the new head overwrites no token in use; the shadow count catches up exactly when the add uses up the queue |
| `VirtioShim.ShimPop` | linuxkpi/src/virtio.rs:1122-1134 | the completed head always has a token and it is the one given; a chain of n adds n - 1 to the shadow deficit |
| `VirtioShim.ShimQueue.constructor` | linuxkpi/src/virtio.rs:899-913 | a new queue has no tokens and a full shadow count |
| `VirtioShim.ShimQueue.Add` | linuxkpi/src/virtio.rs:978-1038 | succeeds exactly for one to eight segments that fit, and then publishes them in order, device-writable exactly for an in-buffer, under the caller's token; failure changes nothing |
| `VirtioShim.ShimQueue.GetBuf` | linuxkpi/src/virtio.rs:1109-1136 | returns the token given with the completed request, each once; null when nothing is complete |
| `VirtioShim.ShimQueue.ShadowCount` | linuxkpi/src/virtio.rs:1032-1035 | the shadow free count is a lower bound, and exact if and only if no multi-segment request has completed since an add last used up the queue |
| `VirtioShim.AddDeficit` | linuxkpi/src/virtio.rs:1032-1035 | an add of n leaves the smaller of the deficit and what is free after it |
| `VirtioShim.TwoSegmentsLeaveItShort` | linuxkpi/src/virtio.rs:1130-1134 | one two-segment request, added, served and taken back on a new queue, leaves the shadow count one short of the kernel's |
| `VirtioShim.FindVqs` | linuxkpi/src/virtio.rs:845-921 | succeeds exactly when there is a queue and every named one has a nonzero maximum; named slots get distinct queues of the largest legal size |
| `LapRing.NextLap` | arsenal-kernel/src/xhci.rs:1366-1371 | the lap bit flips exactly when the index wraps |
| `LapRing.PostedStep` | arsenal-kernel/src/xhci.rs:1356-1382 | a producer writing with its lap bit keeps the ring a window of the history |
| `LapRing.BitTellsNew` | arsenal-kernel/src/xhci.rs:1356-1382 | for a consumer at most one lap behind, the bit matches exactly when its slot holds an unread entry, which is the next one |
| `LapRing.LapAt` | arsenal-kernel/src/xhci.rs:1366-1371 | m laps on the slot is the same and the bit flipped m times |
| `LapRing.OverrunSees` | arsenal-kernel/src/xhci.rs:1356-1382 | a consumer m laps behind finds the entry m laps after the one it is due, and takes it for new exactly when m is even |
| `XhciEventRing.FieldsOfEvent` | arsenal-kernel/src/xhci.rs:1365-1366 | the type is bits 15-10 of the control dword, the completion code bits 31-24 of the status dword |
| `XhciEventRing.PostOk` | arsenal-kernel/src/xhci.rs:1356-1362 | the controller's status write and then control write keep the ring a window of what was posted |
| `XhciEventRing.LoadOk` | arsenal-kernel/src/xhci.rs:1358-1361 | the status load finds the due event's status if it was begun, and otherwise that of a lap earlier |
| `XhciEventRing.TakeIs` | arsenal-kernel/src/xhci.rs:1358-1371 | a cursor with at most sixteen events beyond it finds nothing exactly when there is none, and otherwise the next event's kind |
| `XhciEventRing.TakeAtAnyLag` | arsenal-kernel/src/xhci.rs:1358-1371 | exactly what a cursor reads however far behind it is: the kind m laps late for even m, nothing for odd m |
| `XhciEventRing.StaleCompletion` | arsenal-kernel/src/xhci.rs:1358-1366 | an event posted between the two loads comes with the completion code of a lap earlier, right exactly when the codes agree |
| `XhciEventRing.ControlFirstIsRight` | arsenal-kernel/src/xhci.rs:388-399 | loaded control first, as the No-Op drain does, the status is the event's own whatever is written in between within a lap |
| `XhciEventRing.PostKeepsCursor` | arsenal-kernel/src/xhci.rs:1356-1382 | controller writes change nothing a cursor has loaded or seen |
| `XhciEventRing.CopyOk` | arsenal-kernel/src/xhci.rs:976-986 | a copied cursor is a cursor in its own right, starting where the first one is |
| `XhciEventRing.RunInv` | arsenal-kernel/src/xhci.rs:1356-1382 | ring and cursors stay consistent in every interleaving of dword writes, dword loads and copies |
| `XhciEventRing.EveryCursorSees` | arsenal-kernel/src/xhci.rs:701-712 | in every such run each cursor that never looked with more than sixteen events beyond it has seen every event since it was made, once and in order, with the right kind, and the right completion code iff its status was written before it was loaded or the stale code agrees |
| `XhciEventRing.EventRing.constructor` | arsenal-kernel/src/xhci.rs:310-325 | a zeroed ring holds no events for cycle state 1 |
| `XhciEventRing.EventRing.ControllerWrite` | arsenal-kernel/src/xhci.rs:1356-1382 | one dword write of the controller is the specified posting |
| `XhciEventRing.EventReader.constructor` | arsenal-kernel/src/xhci.rs:384-385 | the enumerator starts at slot 0 with cycle state 1 |
| `XhciEventRing.EventReader.CopyOf` | arsenal-kernel/src/xhci.rs:976-986 | the poller starts where the enumerator is |
| `XhciEventRing.EventReader.TryEvent` | arsenal-kernel/src/xhci.rs:1356-1382 | two loads with any controller writes between, then the test and advance: exactly the specified poll |
| `XhciEventRing.EventReader.Drain` | arsenal-kernel/src/xhci.rs:1387-1404 | polls until nothing is found while the controller goes on; a cursor that kept up has then taken every event |
| `XhciTransferRing.InitInv` | arsenal-kernel/src/xhci.rs:1325-1351 | a zeroed ring satisfies the transfer-ring invariant |
| `XhciTransferRing.EarlyWriteInv` | arsenal-kernel/src/xhci.rs:1325-1351 | the first three dwords of a TRB are invisible to the controller |
| `XhciTransferRing.LinkDoneInv` | arsenal-kernel/src/xhci.rs:1328-1337 | the Link TRB's last dword publishes it in the current cycle and flips the producer's |
| `XhciTransferRing.FillDoneInv` | arsenal-kernel/src/xhci.rs:1338-1347 | the last dword of a Normal TRB publishes it |
| `XhciTransferRing.ControllerSees` | arsenal-kernel/src/xhci.rs:1325-1351 | the controller finds its cycle bit at its dequeue slot exactly when a completed TRB is waiting there, and the TRB is then whole |
| `XhciTransferRing.ControllerInv` | arsenal-kernel/src/xhci.rs:1325-1351 | executing a TRB or following the Link keeps the invariant |
| `XhciTransferRing.Run` | arsenal-kernel/src/xhci.rs:1325-1351 | the invariant holds in every interleaving of single dword writes and controller steps |
| `XhciTransferRing.RunRefinesFifo` | arsenal-kernel/src/xhci.rs:1325-1351 | in every such run the controller executes the armed TRBs in order, none twice, none half-written |
| `XhciTransferRing.ControllerProgress` | arsenal-kernel/src/xhci.rs:1325-1351 | a waiting TRB is executed within two controller steps |
| `XhciTransferRing.ArmInvIff` | arsenal-kernel/src/xhci.rs:1325-1351 | an arm keeps the ring a queue if and only if fewer than 255 transfers are outstanding |
| `XhciTransferRing.OneTooMany` | arsenal-kernel/src/xhci.rs:1325-1351 | with 255 outstanding, wherever the enqueue index is, one more hides the TRB or Link the controller is waiting at |
| `XhciTransferRing.NormalBits` | arsenal-kernel/src/xhci.rs:1343-1346 | the last dword of a Normal TRB bit by bit: cycle, short-packet and completion interrupts, type 1, nothing else |
| `XhciTransferRing.LinkBits` | arsenal-kernel/src/xhci.rs:1334-1334 | the last dword of the Link bit by bit: cycle, Toggle Cycle, type 6, nothing else |
| `XhciTransferRing.ArmIs` | arsenal-kernel/src/xhci.rs:1325-1351 | one whole arm leaves its TRB in its slot, on a wrap with a Link before it, and adds one to the armed |
| `XhciTransferRing.EpRing.constructor` | arsenal-kernel/src/xhci.rs:976-995 | the driver starts at slot 0 with cycle 1 over a zeroed ring at the given address |
| `XhciTransferRing.EpRing.ArmReport` | arsenal-kernel/src/xhci.rs:1325-1351 | exactly one arm of the specification, at any number outstanding: the TRB points at the report buffer, asks for eight bytes and reports its completion; the ring stays a queue iff fewer than 255 were outstanding |
| `XhciTransferRing.EpRing.WriteLink` | arsenal-kernel/src/xhci.rs:1328-1337 | writes the four dwords of the Link in order |
| `XhciTransferRing.EpRing.WriteNormal` | arsenal-kernel/src/xhci.rs:1338-1347 | writes the four dwords of the Normal TRB in order |
| `XhciReports.NextLedger` | arsenal-kernel/src/xhci.rs:1387-1404 | every dword write, controller look, event and poller step keeps one arm per Transfer Event taken, whichever device it is from, and one own event per TRB executed - since every TRB asks for it |
| `XhciReports.OneReportAndTheForeign` | arsenal-kernel/src/xhci.rs:1387-1404 | in every run outstanding reports plus unseen own events are one plus the foreign Transfer Events taken; at most one iff none was taken |
| `XhciReports.TwoReportsOutstanding` | arsenal-kernel/src/xhci.rs:1387-1404 | a run with one foreign Transfer Event ends with two reports outstanding |
| `XhciReports.Halted` | arsenal-kernel/src/xhci.rs:1325-1404 | for every n above 254 a run with n foreign Transfer Events taken ends with TRBs waiting and the controller at a halt |
| `XhciReports.ForeignBound` | arsenal-kernel/src/xhci.rs:1325-1404 | the controller serves the endpoint's TRBs in order in every run with n foreign Transfer Events taken if and only if n is at most 254 |
| `XhciKeyboard.LedgerStep` | arsenal-kernel/src/xhci.rs:1356-1404 | over the real sixteen-slot ring, a poller that has not been late makes the steps of the queue model, or none |
| `XhciKeyboard.KeepsUp` | arsenal-kernel/src/xhci.rs:1356-1404 | in every run in which it never looked with more than sixteen events beyond it, outstanding reports and unseen own events are one plus the foreign Transfer Events taken |
| `XhciKeyboard.DeadForever` | arsenal-kernel/src/xhci.rs:1356-1404 | a poller 17 to 32 events behind takes nothing and re-arms nothing, in every run without further foreign events |
| `XhciKeyboard.DeadOnArrival` | arsenal-kernel/src/xhci.rs:701-712 | 17 to 31 events posted by the enumeration of later ports before the poller first looks put it there |
| `NvmeQueue.AtMostFull` | arsenal-kernel/src/nvme.rs:558-602 | commands a queue apart have different identifiers, so at most 64 can be waiting intact |
| `NvmeQueue.SqAppend` | arsenal-kernel/src/nvme.rs:558-602 | a submission overwrites nothing unread if and only if fewer than 64 commands were waiting |
| `NvmeQueue.TailMeetsHead` | arsenal-kernel/src/nvme.rs:558-602 | after it the tail meets the controller's head if and only if 63 were waiting |
| `NvmeQueue.QueuePair.constructor` | arsenal-kernel/src/nvme.rs:189-211 | a new pair is quiet, with phase 1 expected of a zeroed completion queue |
| `NvmeQueue.QueuePair.Submit` | arsenal-kernel/src/nvme.rs:558-602 | appends the entry with the next command identifier modulo 2^16; what waits survives iff fewer than 64 did, and the controller sees an empty queue iff 63 did |
| `NvmeQueue.QueuePair.ControllerFetch` | arsenal-kernel/src/nvme.rs:558-602 | the controller reads the submitted entries in order |
| `NvmeQueue.QueuePair.ControllerPost` | arsenal-kernel/src/nvme.rs:608-648 | a completion written with the producer's phase extends the history |
| `NvmeQueue.QueuePair.Poll` | arsenal-kernel/src/nvme.rs:608-648 | empty exactly when all completions are consumed, wrong-identifier exactly when the next has another identifier, else consumes it and returns its status |
| `NvmeQueue.QueuePair.Command` | arsenal-kernel/src/nvme.rs:558-648 | submit and the whole polling loop: times out iff the answer comes after the poll limit, panics iff it is to another identifier, else returns its status and leaves the pair quiet, for any number of commands |
| `NvmeQueue.MaskAcceptsOneFailure` | arsenal-kernel/src/nvme.rs:487-493 | the callers' mask after the phase shift accepts exactly status 0 and status 1 |
| `Frames.RegionExact` | arsenal-kernel/src/frames.rs:40-53 | rounding a region in yields exactly the whole frames inside it, once each |
| `Frames.UsableExact` | arsenal-kernel/src/frames.rs:80-106 | the split around the heap yields exactly the region's frames that do not touch the heap |
| `Frames.PooledExact` | arsenal-kernel/src/frames.rs:80-106 | for disjoint map entries the pool is exactly the usable frames off the heap, without duplicates |
| `Frames.ReclaimedExact` | arsenal-kernel/src/frames.rs:119-127 | for disjoint map entries the reclaimed frames are exactly the whole frames of bootloader-reclaimable memory, once each |
| `Frames.KindsApart` | arsenal-kernel/src/frames.rs:80-127 | no frame is inside regions of two kinds |
| `Frames.FrameAllocator.AddRegion` | arsenal-kernel/src/frames.rs:40-53 | appends exactly the region's frames; free and handed-out frames stay disjoint and duplicate-free |
| `Frames.FrameAllocator.AllocFrame` | arsenal-kernel/src/frames.rs:55-58 | fails exactly on an empty pool; never hands out a frame that is out |
| `Frames.FrameAllocator.FreeFrame` | arsenal-kernel/src/frames.rs:60-62 | the frame returns to the pool, which stays duplicate-free and disjoint from what is out iff the frame was not in it, and rightly counted as well iff the frame was out |
| `Frames.FrameAllocator.Init` | arsenal-kernel/src/frames.rs:80-106 | the pool becomes exactly the usable frames off the heap; succeeds exactly when there is one |
| `Frames.FrameAllocator.AddUsable` | arsenal-kernel/src/frames.rs:85-97 | adds the parts of one entry below and above the heap |
| `Frames.FrameAllocator.ReclaimBootloader` | arsenal-kernel/src/frames.rs:119-127 | appends exactly the reclaimable frames and returns their number; the pool stays duplicate-free iff none of them was in it or out already |
| `Paging.WalkByMeaning` | arsenal-kernel/src/paging.rs:66-101 | translation depends only on the tree a table stands for |
| `Paging.FrameAt` | arsenal-kernel/src/paging.rs:66-101 | what an entry means, and the tables below it, depend only on the tables it reaches |
| `Paging.CloneCopy` | arsenal-kernel/src/paging.rs:84-91 | copying an unused or leaf entry extends the clone by one entry |
| `Paging.CloneSub` | arsenal-kernel/src/paging.rs:92-96 | pointing an entry at a cloned child with the same flags extends the clone by one subtree |
| `Paging.CloneDone` | arsenal-kernel/src/paging.rs:66-101 | after 512 entries the copy means what the source means |
| `Paging.PathOfAddress` | arsenal-kernel/src/paging.rs:66-101 | the four indices and the page offset make up the low 48 bits of the address |
| `Paging.CloneTranslates` | arsenal-kernel/src/paging.rs:66-101 | every virtual address translates alike before and after, with the same flags along the path |
| `Paging.CloneCopiesBits` | arsenal-kernel/src/paging.rs:84-96 | every bit met along any path is copied, present or not, but for the addresses of tables |
| `Paging.CloneOwnsTables` | arsenal-kernel/src/paging.rs:66-101 | the clone's tables are exactly the frames taken, each used once |
| `Paging.PageTables.DeepClone` | arsenal-kernel/src/paging.rs:66-101 | succeeds exactly when the pool covers every table; then the result is a clone in fresh frames, and nothing outside them is written |
| `Paging.BootAndReclaim` | arsenal-kernel/src/paging.rs:172-197 | after boot, clone and reclaim, translations are unchanged, the pool is in order and no live table frame is in it; this happens exactly when usable memory covers the tables |
| `MapMmio.RangeStart` | arsenal-kernel/src/paging.rs:124-130 | the first virtual page is the first physical page in the direct map |
| `MapMmio.RangePages` | arsenal-kernel/src/paging.rs:127-130 | the rounded loop bounds cover exactly the pages that meet the range |
| `MapMmio.NeededStep` | arsenal-kernel/src/paging.rs:145-170 | one more page costs exactly the tables still missing |
| `MapMmio.TablesByRegion` | arsenal-kernel/src/paging.rs:145-170 | a page needs one table per level, those of its 2-MiB, 1-GiB and 512-GiB regions |
| `MapMmio.AddressSpace.CreateTables` | arsenal-kernel/src/paging.rs:103-110 | succeeds exactly when the pool covers the missing tables, one frame each |
| `MapMmio.AddressSpace.MapTo` | arsenal-kernel/src/paging.rs:156-156 | the mapper's contract: each outcome exactly when its cause holds, and an existing mapping is never changed |
| `MapMmio.AddressSpace.MapMmio` | arsenal-kernel/src/paging.rs:123-170 | every page meeting the range ends mapped, old mappings are kept, new ones are direct-map and uncached; panics exactly when the tables cost more frames than are free |
| `ContextSwitch.Cpu.PushAll` | arsenal-kernel/src/sched.rs:73-81 | the six callee-saved registers and RFLAGS land in the save area in order |
| `ContextSwitch.Cpu.PopAll` | arsenal-kernel/src/sched.rs:82-90 | the save area is read back in the opposite order, then the return address |
| `ContextSwitch.Cpu.SwitchStacks` | arsenal-kernel/src/sched.rs:70-92 | the instruction sequence computes the specified switch |
| `ContextSwitch.Cpu.BuildFrame` | arsenal-kernel/src/task.rs:61-120 | a new task's first frame has exactly the shape the switch pops |
| `ContextSwitch.ComputeInv` | arsenal-kernel/src/sched.rs:70-92 | a running task that writes only outside suspended stacks cannot disturb a suspended context |
| `ContextSwitch.SwitchInv` | arsenal-kernel/src/sched.rs:70-92 | switching resumes exactly the context saved for the target and saves the current one |
| `ContextSwitch.SpawnInv` | arsenal-kernel/src/task.rs:61-120 | building a task disturbs no other |
| `ContextSwitch.FreshEntry` | arsenal-kernel/src/task.rs:61-120 | a new task starts at its entry with cleared registers, interrupts on and every other flag clear but the reserved one, its own stack aligned as after a call |
| `ContextSwitch.Run` | arsenal-kernel/src/sched.rs:70-92 | the stack discipline holds in every run of computing, switching and spawning |
| `ContextSwitch.SuspendedKept` | arsenal-kernel/src/sched.rs:70-92 | a suspended context is unchanged until it is switched to, whatever runs meanwhile |
| `ContextSwitch.SwitchRoundTrip` | arsenal-kernel/src/sched.rs:70-92 | a task switched out and later back in finds its registers, stack pointer and return address as they were |
| `ContextSwitch.FreshRoundTrip` | arsenal-kernel/src/task.rs:61-120 | however long a new task waits, its first switch enters it as built |
| `Scheduler.Cpu.SpawnTask` | arsenal-kernel/src/sched.rs:172-176 | a new task goes to the tail |
| `Scheduler.Cpu.YieldNow` | arsenal-kernel/src/sched.rs:180-246 | rotates: head becomes current, current goes to the tail; nothing on an empty queue |
| `Scheduler.Cpu.TimerTick` | arsenal-kernel/src/apic.rs:237-247 | counts the tick and rotates when the slice is used up |
| `Scheduler.RunKeepsTasks` | arsenal-kernel/src/sched.rs:172-301 | over every run, current and queue hold exactly the initial and spawned tasks |
| `Scheduler.RunNoDuplicates` | arsenal-kernel/src/sched.rs:172-301 | a task is never queued twice, nor queued while current |
| `Scheduler.ServedWithin` | arsenal-kernel/src/sched.rs:252-301 | a task at position k runs within the remaining slice plus k full slices, whatever yields and spawns come between |
| `Scheduler.NotBefore` | arsenal-kernel/src/sched.rs:252-301 | and with ticks alone not one tick earlier |
| `Scheduler.BoundedWaiting` | arsenal-kernel/src/sched.rs:252-301 | the ten-ticks-per-position bound holds for all runs if and only if the elapsed count is not 2^64 - 1 |
| `Scheduler.HeldOff` | arsenal-kernel/src/sched.rs:255-257 | while preempt_count is raised ticks only count and nobody is switched |
| `Scheduler.IdleIsQueued` | arsenal-kernel/src/sched.rs:307-335 | in every run from boot the idle task is queued exactly when it is not current |
| `IrqDiscipline.CallInv` | arsenal-kernel/src/sched.rs:172-260 | entering spawn, yield or the handler keeps the invariant |
| `IrqDiscipline.MoveInv` | arsenal-kernel/src/sched.rs:191-231 | pop, install and push move one task between queue, hand and current, losing none |
| `IrqDiscipline.SpawnPushInv` | arsenal-kernel/src/sched.rs:172-176 | spawn adds exactly its task |
| `IrqDiscipline.SwitchInv` | arsenal-kernel/src/sched.rs:233-245 | the task switched to becomes the running one and resumes where it left |
| `IrqDiscipline.StepRefines` | arsenal-kernel/src/sched.rs:172-301 | every micro-step is one whole tick, yield or spawn of the abstract scheduler, or nothing |
| `IrqDiscipline.RunRefines` | arsenal-kernel/src/sched.rs:172-301 | every run of the interruptible scheduler is a run of the abstract one |
| `IrqDiscipline.FiredTicks` | arsenal-kernel/src/apic.rs:237-247 | every timer interrupt of a run is one finished tick, but for one still in its handler |
| `IrqDiscipline.InterruptibleServed` | arsenal-kernel/src/sched.rs:252-301 | with interrupts at every point IF allows, a task at position k becomes current in every run of ten ticks per position, unless the elapsed count is 2^64 - 1 |
| `IrqDiscipline.NextInv` | arsenal-kernel/src/sched.rs:172-301 | every micro-step keeps the invariant, and only spawn adds a task |
| `IrqDiscipline.Run` | arsenal-kernel/src/sched.rs:172-301 | the invariant holds in every run, with interrupts at every point IF allows |
| `IrqDiscipline.EveryRunIsSafe` | arsenal-kernel/src/irq.rs:24-64 | in every run the lock is held only with IF clear, nobody waits for a lock this core holds, no task is duplicated, and each guard restores the IF of its own caller |
| `IrqDiscipline.WithoutGuardHandlerSpins` | arsenal-kernel/src/irq.rs:24-64 | with IF set inside the locked section the handler would spin for ever: the guard is necessary |
| `Workqueue.CasLaw` | linuxkpi/src/workqueue.rs:139-159 | winning the exchange adds one entry and one claim |
| `Workqueue.PushBackLaw` | linuxkpi/src/workqueue.rs:154-155 | the later push moves an entry, whichever pending call it belongs to |
| `Workqueue.RunnerLaw` | linuxkpi/src/workqueue.rs:279-298 | pop, RUNNING store, body and IDLE store each keep the ledger; a store over an IDLE byte is recorded |
| `Workqueue.CancelCasLaw` | linuxkpi/src/workqueue.rs:174-181 | a won cancel leaves its entry unclaimed |
| `Workqueue.RetainLaw` | linuxkpi/src/workqueue.rs:182-184 | the filter deletes every entry of its work, however many |
| `Workqueue.EveryInterleaving` | linuxkpi/src/workqueue.rs:139-298 | in every interleaving of single accesses the ledger of each work holds, and with no cancel in flight the work is sound iff its cancels deleted as many entries as succeeded and the runner never ran it over an IDLE byte |
| `Workqueue.CancelSoundIff` | linuxkpi/src/workqueue.rs:168-188 | a cancel of a sound pending work is sound, whatever happens between exchange and filter, iff the filter finds exactly one entry and the runner did not store RUNNING over the IDLE byte |
| `Workqueue.CancelWindow` | linuxkpi/src/workqueue.rs:168-188 | for queued work in terms of its pops, wins and pushes in the window: without a win, sound iff not popped; without a pop, sound iff no new entry was pushed |
| `Workqueue.CancelledButRan` | linuxkpi/src/workqueue.rs:168-188 | popped and run inside the window, work is both cancelled with success and run |
| `Workqueue.RequeuedAndLost` | linuxkpi/src/workqueue.rs:168-188 | queued again inside the window, its new entry is deleted too and the byte stays PENDING |
| `Workqueue.StuckForever` | linuxkpi/src/workqueue.rs:139-159 | such work never runs and queue_work always refuses it, until somebody cancels it |
| `Workqueue.PopAndRequeueBalance` | linuxkpi/src/workqueue.rs:168-188 | a pop and a new win in one window can make up for each other |
| `Workqueue.CancelledStillRuns` | linuxkpi/src/workqueue.rs:168-188 | work the runner has already popped is cancelled with success and still runs |
| `Workqueue.RequeueFromBodyRefused` | linuxkpi/src/workqueue.rs:279-298 | a body that queues or cancels its own work is refused: the byte is RUNNING around it |
| `Workqueue.ByteIff` | linuxkpi/src/workqueue.rs:139-222 | in every reachable state the byte is not IDLE exactly when the runner is between body and IDLE store, or more was queued than run and cancelled, not counting runs over an IDLE byte |
| `Workqueue.SyncIff` | linuxkpi/src/workqueue.rs:203-222 | in every run cancel_work_sync returns true iff its exchange won or at its last load the byte is so occupied |
| `Workqueue.SyncMissesRunning` | linuxkpi/src/workqueue.rs:190-222 | called on running work it waits and returns false, in every interleaving, unless somebody queues the work again first |
| `Workqueue.NeverCancelled` | linuxkpi/src/workqueue.rs:139-159 | work nobody cancels is sound in every interleaving, whatever is done to other works |
| `Workqueue.FirstInFirstOut` | linuxkpi/src/workqueue.rs:139-298 | in every interleaving what has run, is taken and is queued is, in that order, a subsequence of what was pushed |
| `Workqueue.NothingOvertakes` | linuxkpi/src/workqueue.rs:139-298 | for the works nobody has cancelled it is all of what was pushed, in order; with no cancel, the pushes themselves |
| `Workqueue.SoundQueue` | linuxkpi/src/workqueue.rs:139-298 | when every work is sound the queue holds no work twice and only pending ones |
| `Workqueue.QuiescentQueue` | linuxkpi/src/workqueue.rs:139-298 | with nobody mid-call, sound work is queued exactly when pending and is not running |
| `Workqueue.Shim.QueueWork` | linuxkpi/src/workqueue.rs:139-159 | returns true exactly for idle work, which then goes to the tail; otherwise nothing changes |
| `Workqueue.Shim.CancelWork` | linuxkpi/src/workqueue.rs:168-188 | returns true exactly for pending work, which leaves the queue while all others keep their places |
| `Workqueue.Shim.DrainOne` | linuxkpi/src/workqueue.rs:279-298 | runs the oldest queued work, or reports an empty queue |
| `KbdRing.ProducerInv` | arsenal-kernel/src/kbd.rs:156-171 | each load and store of the producer keeps the invariant |
| `KbdRing.ConsumerInv` | arsenal-kernel/src/kbd.rs:173-186 | each load and store of the consumer keeps the invariant |
| `KbdRing.EveryInterleaving` | arsenal-kernel/src/kbd.rs:156-186 | in every interleaving bytes come out in order, none lost but the counted drops, and a slot is never written while it is read |
| `KbdRing.WholePushIs` | arsenal-kernel/src/kbd.rs:156-171 | an uninterrupted push drops exactly when 255 bytes are queued, else appends |
| `KbdRing.WholePopIs` | arsenal-kernel/src/kbd.rs:173-186 | an uninterrupted pop is empty exactly when nothing is queued, else takes the oldest |
| `KbdRing.KeyboardRing.constructor` | arsenal-kernel/src/kbd.rs:143-154 | the ring starts empty |
| `KbdRing.KeyboardRing.RingPush` | arsenal-kernel/src/kbd.rs:156-171 | the code performs the steps of a whole push |
| `KbdRing.KeyboardRing.RingPop` | arsenal-kernel/src/kbd.rs:173-186 | the code performs the steps of a whole pop and returns the byte taken |
| `KbdRing.TwoNextAccounts` | arsenal-kernel/src/kbd.rs:156-171 | with a second producer, every access of either and of the consumer keeps head and tail where the counts put them |
| `KbdRing.HeadStaysAheadIff` | arsenal-kernel/src/kbd.rs:244-246 | over every interleaving of injects, interrupts and pops, no more is ever delivered than head covers iff no inject stores a head the consumer has passed and no consumer past its test stores a tail at head == tail |
| `KbdRing.TwoProducersAccount` | arsenal-kernel/src/kbd.rs:244-246 | while head stays ahead, at every fill level: pushes are delivered, in the ring by its indices or counted as dropped, iff no inject stores head after the interrupt has published since it loaded it |
| `KbdRing.NothingLost` | arsenal-kernel/src/kbd.rs:244-246 | producers that never overtake each other keep head ahead and lose nothing |
| `KbdRing.OnlyPushedBytes` | arsenal-kernel/src/kbd.rs:156-186 | while head stays ahead the ring delivers and offers only bytes that were pushed, however the producers overlap |
| `KbdRing.ApartIsSafe` | arsenal-kernel/src/kbd.rs:244-246 | producers that never overlap are as good as one: order kept and nothing lost |
| `KbdRing.OneInterrupt` | arsenal-kernel/src/kbd.rs:244-246 | one interrupt at any of inject's accesses, at every fill level: both pushes are in the ring by its indices or counted as dropped iff the ring was full or the interrupt falls outside the four accesses |
| `KbdRing.HeadFallsBehind` | arsenal-kernel/src/kbd.rs:156-186 | two interrupts and two pops inside an inject leave head one behind tail, the ring looking all but full, and the next pop delivering a byte of an earlier lap |
| `KbdRing.OffersUnpushed` | arsenal-kernel/src/kbd.rs:156-186 | on a new ring that byte was never pushed |
| `Madt.Walk` | arsenal-kernel/src/acpi.rs:223-275 | the loop computes the recursive walk from the first record |
| `Madt.WalkInvertsEncoding` | arsenal-kernel/src/acpi.rs:223-275 | walking an encoding collects its records in order, whatever precedes it, ignoring one trailing byte |
| `Madt.WalkReadsRecords` | arsenal-kernel/src/acpi.rs:223-275 | a walk that does not panic has read a list of well-formed records covering the table |
| `Madt.WalkSucceedsIff` | arsenal-kernel/src/acpi.rs:223-275 | the walk succeeds exactly on tables that are records and at most one stray byte |
| `Madt.CollectTyped` | arsenal-kernel/src/acpi.rs:240-273 | one record adds itself to its own list; one of another kind, or too short, changes nothing |
| `Madt.WalkFinds` | arsenal-kernel/src/acpi.rs:223-275 | walking any records finds exactly their processors, I/O APICs and overrides, in order, whatever other records come between |
| `Madt.TypedCovers` | arsenal-kernel/src/acpi.rs:240-273 | every record is one of the typed ones |
| `Madt.WalkDecodes` | arsenal-kernel/src/acpi.rs:223-275 | whatever the bytes, a walk that does not panic returns exactly the processors, I/O APICs and overrides the table holds |
| `Madt.CpuFields` | arsenal-kernel/src/acpi.rs:241-250 | the local-APIC record round-trips |
| `Madt.IoapicFields` | arsenal-kernel/src/acpi.rs:251-258 | the I/O-APIC record round-trips |
| `Madt.OverrideFields` | arsenal-kernel/src/acpi.rs:259-268 | the interrupt-override record round-trips |
| `Balloon.InitListHead` | linuxkpi/src/list.rs:63-72 | a head alone is the empty list; null is ignored |
| `Balloon.ListInsert` | linuxkpi/src/list.rs:82-94 | linking between two neighbours inserts at that place in both directions |
| `Balloon.ListAdd` | linuxkpi/src/list.rs:102-108 | prepends |
| `Balloon.ListAddTail` | linuxkpi/src/list.rs:116-122 | appends |
| `Balloon.ListDel` | linuxkpi/src/list.rs:133-147 | removes exactly the entry, wherever it is, and leaves it a list of its own |
| `Balloon.ListEmpty` | linuxkpi/src/list.rs:156-164 | 1 exactly for an empty list or null |
| `Balloon.AllocPages` | linuxkpi/src/page.rs:89-115 | a page exactly when the pool's next frame is nonzero and the descriptor allocates; failure returns the frame, except that a frame 0 is lost |
| `Balloon.PutPage` | linuxkpi/src/page.rs:137-159 | frees exactly on the last reference, panics exactly below zero |
| `Balloon.BalloonDev.Enqueue` | linuxkpi/src/page.rs:237-256 | the page goes to the tail |
| `Balloon.BalloonDev.Dequeue` | linuxkpi/src/page.rs:267-292 | the oldest page comes out, unlinked; null exactly when there is none |
| `Balloon.BalloonDriver.constructor` | linuxkpi/src/page.rs:220-292 | an empty balloon over the pool, whatever else is out |
| `Balloon.BalloonDriver.Inflate` | linuxkpi/src/page.rs:89-256 | a page moves from pool to balloon or nothing changes; the frames owned by the two together stay the same, and so do everybody else's |
| `Balloon.BalloonDriver.Deflate` | linuxkpi/src/page.rs:137-292 | the oldest page's frame returns to the pool; the frames owned by the two together stay the same, and so do everybody else's |

## Left out

- Addresses are unbounded naturals: overflow of 64-bit physical and virtual sums is not modelled.
- Registers, doorbells and configuration space of virtio, xHCI and NVMe, and `activate_queue`'s register writes.
- Suppression flags, event indices and indirect descriptors, which the driver does not negotiate.
- VirtioNet.RxState.Consume: states the bytes the closure is given, not what it does with them.
- The smoltcp device traits.
- `next_event`'s spin limit, xHCI enumeration, control transfers and HID report decoding.
- XhciEventRing.EventReader.TryEvent: dwords 0 and 1, which `next_event` also loads before dword 3, behave as dword 2 does
  and have no place of their own; the dequeue-pointer register is not modelled.
- XhciKeyboard.Run: an executed TRB and its event are one step, and so are an event's two dwords.
- NvmeQueue.QueuePair.Command: one completion per command, late or misaddressed; completions nobody asked for are
  covered by `Poll` alone.
- NVMe PRP lists, identify data and namespaces.
- MapMmio.AddressSpace.MapTo: states the mapper's contract over page numbers and intermediate tables, since the mapper is
  library code outside the repository; it does not walk the tables of `Paging`.
- TLB flushes, CR3 flags and the write to CR3.
- ContextSwitch.Cpu.SwitchStacks: floating-point and caller-saved registers are the compiler's concern and not in the model.
- IrqDiscipline.Run: one core; other cores' run queues and TLB shootdown are not modelled.
- `alloc_workqueue` and `destroy_workqueue`, which are stubs.
- Workqueue.Shim.DrainOne: work bodies are recorded as run; what they compute is not modelled. Works are initialised
  once; `linuxkpi_work_init` on queued work is not modelled.
- Madt.Walk: starts at the record area; RSDP and XSDT lookup and checksums are not modelled.
- `alloc_pages` of any order but 0, `free_pages`, the descriptor's `kfree`, and null arguments of the balloon calls.
- Balloon.BalloonDriver.Inflate: the driver that pairs these calls is vendored C code (`virtio_balloon.c`) and not itself
  modelled; the class pairs them as the page and list contracts require, under the device lock.
- Scancode decoding, heap, PCI, SMP start-up, network stack, randomness, UI and the userland, which would add
  only easy members.
