# Verified models of ESP-IDF

Dafny models of seven parts of ESP-IDF in which state, arithmetic or concurrency make the
behaviour hard to see from the code, with proofs of what they keep and what they compute.
`dafny verify dfyconfig.toml` checks everything.

| part | modules | modelled files |
|---|---|---|
| application tracing | `TraceRing`, `TraceFrames`, `TraceAlloc`, `TraceProtocol` | `components/app_trace/app_trace_util.c`, `components/app_trace/app_trace_membufs_proto.c` |
| guards of static objects | `InitGuards` | `components/cxx/cxx_guards.cpp` |
| over-the-air updates | `OtaSelect`, `OtaTool`, `OtaWriter` | `components/app_update/esp_ota_ops.c`, `components/app_update/otatool.py`, `components/bootloader_support/src/` |
| BitScrambler assembler | `BsParser`, `BsInputs`, `BsBits`, `BsEncoder`, `BsProgram` | `tools/bsasm.py` |
| command scheduling of idf.py | `TaskOrder` | `tools/idf.py` |
| console arguments | `SplitArgv` | `components/console/split_argv.c` |
| DFU archives | `DfuArchive` | `tools/mkdfu.py` |

`Bytes` (little-endian fields, 32-bit addition, overwriting part of a sequence), `Arith`
(remainders) and `Wrappers` (a missing result) are shared.

## How the models are made

**Application tracing.** Two layers. The ring is a FIFO queue: its control fields determine
which storage index holds which queued byte, and a request appends or removes at the ends of
the queue. The protocol is a class with the two blocks, the two rings and the markers; ghost
fields hold what the host was given, what it reads now and which packets were accepted. The
invariant says that (bytes given to the host) ++ (current block up to its marker) ++ (pending
ring) is the concatenation of the framed packets, in allocation order. Which packets get room,
and where, is a function of the fill levels; the calls are proved to follow it. What the host does when
a switch is attempted is a script of refusals (with or without a timeout) and releases (with
the block content that it leaves behind). Allocation, filling and finishing of a packet are
one step, since the caller holds the lock for all three. The blocks may have any two sizes from
4 to 2^31 - 1 bytes, and the rings are smaller than 2^31 bytes, too; the frame header is the
16-bit one. The host announces no more data than its block holds.

**Guards.** A transition system over any finite set of tasks and any guards. A step is one
access to the shared mutex, semaphore, waiting count or guard; tasks interleave freely,
initialisers nest, and only the task that was answered 1 calls release or abort, once.

**Updates.** Selection is stated over pairs of otadata entries, and the calls are methods of a
class whose ghost log keeps the flash content after every erase and write, which is what a
reset at that point leaves behind. CRC, image verification and the partition table are
parameters. The writer is a class over a flash partition in which programming a byte that is
not blank does not store the value that was given; a ghost field records whether an update did
that.

**Assembler.** The parser's loop is proved against a small state machine, for which the
properties are shown. Label addresses of the first pass are compared with the list that the
second pass builds. Instructions are encoded through the bit stream and read back; what the
multiplexers select in hardware is written out independently of the assembler.

**The others** are stated as the source has them: a list that is reordered in a loop, a line
that is split in place in its buffer, an archive that is built by appending entries.

## Findings

Each of these is a proved statement about the code as it is.

- `esp_apptrace_rb_produce` and `esp_apptrace_rb_consume` add in 32 bits. When the sum wraps
  they hand out a region behind the end of the storage; otherwise they are exact
  (`TraceRing.Ring.Produce`, `TraceRing.Ring.Consume`).
- A frame of 32768 data bytes or more does not read back, since its size runs into the bit of
  the core (`TraceFrames.DeframeFrameIff`). `CONFIG_APPTRACE_BUF_SIZE` does not rule it out.
- `esp_apptrace_membufs_wait4buf` gets the size of a packet in 16 bits, while the marker is
  advanced by all of it. A packet of 65536 bytes or more with its header stays inside of what it
  got exactly if wait4buf is not needed or finds a block that holds all pending bytes and the
  packet (`TraceAlloc.InsideIff`). Without a pending buffer and with equal blocks this is always
  so (`TraceAlloc.InsideWithoutRing`); in general it is not, and a run of three packets overruns
  a block by 940 bytes (`TraceAlloc.PacketOverrunsBlock`, `TraceProtocol.OverrunRun`).
- A task that waits for a guard in progress can use up the wake-ups of all others
  (`InitGuards.TokensDrained`), and four tasks can reach a state in which the waiter of a ready
  guard has no token (`InitGuards.WaiterStranded`). As long as no task waits for a guard in
  progress, nobody is left behind (`InitGuards.NobodyStranded`).
- In a partition table with a gap between the OTA slots, the application and the boot loader
  count different numbers of slots and can select different ones. They agree on every decision
  exactly for tables without a gap (`OtaSelect.BootloaderAgrees`,
  `OtaSelect.BootloaderAgreesIffNoGap`).
- Setting the test application as the boot partition selects the first OTA slot, since only
  the low four bits of the subtype are used (`OtaSelect.SetThenGet`).
- From an active entry with sequence number 0, a switch to the last slot fails exactly for the
  slot counts that are not powers of two (`OtaSelect.WrittenBootsIff`, `OtaSelect.SetFromZero`).
  Numbers that the device writes start from 1.
- With a gap in the table, what the boot loader records at a first boot need not select the slot
  that it started, for the application exactly if this slot is behind the gap
  (`OtaSelect.FirstBootRecorded`).
- If no suitable sequence number is left below 2^32 and the slot count is a power of two, the
  search for one does not end (`OtaSelect.SearchEndless`).
- Returning to the factory application erases two sectors; a reset in between boots a third
  application in exactly the case that `OtaSelect.FactoryErasedHalfway` describes.
- `otatool.py` ignores the state of entries. After a rejected update it chooses another sector
  than the device in exactly two cases (`OtaTool.SectorsDiffer`), overwrites the only usable
  entry in exactly two (`OtaTool.OverwritesOnlyUsable`), and since it keeps the state of the
  entry that it overwrites, what it writes may have no effect (`OtaTool.ToolImageBoots`,
  `OtaTool.SecondSwitchLost`).
- The final flush in `esp_ota_end` does not erase. It meets erased flash exactly under the
  condition of `OtaWriter.FinalFlushErased`; two buffers of 10 and 4096 bytes violate it
  (`OtaWriter.FinalFlushHitsUnerasedSector`).
- `ALIGN_UP` in `esp_ota_begin` wraps for image sizes in the last sector below 2^32, and then
  nothing is erased (`OtaWriter.AlignUpBounds`).
- A lookup-table input whose index equals the table width is accepted and selects a
  comparison result instead (`BsInputs.InputSoundIff`).
- A label behind the eighth instruction has an address that does not fit its field; a loop on
  counter A becomes one on counter B (`BsEncoder.LabelBehindTheEnd`).
- A label whose name has a capital letter or a space is stored, but no instruction can refer to
  it (`BsParser.LabelReferableIff`).
- For tables of 16 bits the values 65536 and 65537 are admitted and stored as 0 and 1
  (`BsProgram.CellReadsBackIff`).
- A source that ends after a comma is accepted (`BsParser.UnfinishedAccepted`), and exactly
  then parts of instructions are lost (`BsParser.NothingLostIff`).
- The largest allowed number of trailing bytes, 8192, does not fit the header
  (`BsProgram.ToBinary`).
- With a part size of 0, `mkdfu.py` drops every file (`DfuArchive.ChunksCompleteIff`), and it
  cuts names of more than 64 bytes in the index (`DfuArchive.ReadRecordIff`).
- The console documentation speaks of whitespace between arguments; the code separates at
  spaces only. The two are the same exactly for lines without other whitespace outside of
  quotes and escape sequences (`SplitArgv.SpacesAreWhitespaceIff`).

## Model

| member | source | states |
|---|---|---|
| TraceRing.Ring.Produce | components/app_trace/app_trace_util.c:89-129 | Succeeds exactly when a contiguous region exists; the region holds no queued byte and becomes the newest part of the queue; unless the 32-bit sum wraps, in which case it runs past the storage |
| TraceRing.Ring.Consume | components/app_trace/app_trace_util.c:131-155 | Succeeds exactly when the oldest bytes are contiguous, and removes those; exact up to the same wrap-around |
| TraceRing.LargestRequest | components/app_trace/app_trace_util.c:89-129 | The sizes that a request may have, in terms of the two pointers |
| TraceRing.Ring.ReadSize | components/app_trace/app_trace_util.c:157-168 | The largest request that can be consumed, 0 only for an empty queue |
| TraceRing.Ring.WriteSize | components/app_trace/app_trace_util.c:170-185 | Every request up to it can be produced, and 0 means that the queue is full |
| TraceRing.FillQueue | components/app_trace/app_trace_util.c:89-129 | Filling a granted region appends exactly these bytes to the queue |
| TraceRing.RemoveQueue | components/app_trace/app_trace_util.c:131-155 | A consumed region held the oldest bytes, and the rest of the queue stays in order |
| TraceRing.PatchQueue | components/app_trace/app_trace_util.c:89-129 | Writing inside the newest region changes these queued bytes and no others |
| TraceFrames.DeframeFrameIff | components/app_trace/app_trace_membufs_proto.c:36-45 | A frame reads back, with what follows it, if and only if it has less than 32768 data bytes |
| TraceFrames.DeframeFrameAllIff | components/app_trace/app_trace_membufs_proto.c:273-286 | A reader of the stream of frames recovers every packet with its core and its data if and only if all are that short |
| TraceProtocol.DownWrite | components/app_trace/app_trace_membufs_proto.c:206-232 | Appends the host's data to the down ring, exactly as many as there is room for but one byte; its assertion cannot fail |
| TraceProtocol.PumpPending | components/app_trace/app_trace_membufs_proto.c:118-136 | Moves the oldest pending bytes to the block, in order, until the block is full or nothing is pending |
| TraceProtocol.Membufs.Swap | components/app_trace/app_trace_membufs_proto.c:80-140 | A refused switch changes nothing; a granted one gives exactly the filled part to the host, moves pending bytes over and takes in as many of the host's data as fit |
| TraceProtocol.Membufs.SwapWait | components/app_trace/app_trace_membufs_proto.c:142-165 | Succeeds exactly when an attempt is granted before the time is over, and then takes in what the host announced with this attempt; the attempts behind it are left; the stream is unchanged and the backlog shrinks by the old marker |
| TraceAlloc.WinsIff | components/app_trace/app_trace_membufs_proto.c:142-165 | Waiting succeeds if and only if some attempt is granted and all before it are refused in time |
| TraceProtocol.Membufs.SwitchKeepsStream | components/app_trace/app_trace_membufs_proto.c:80-140 | A switch neither loses, duplicates nor reorders bytes |
| TraceAlloc.InsideIff | components/app_trace/app_trace_membufs_proto.c:234-349 | When a packet stays inside of the room it got, for any size, fill levels and attempts to switch |
| TraceAlloc.InsideWithoutRing | components/app_trace/app_trace_membufs_proto.c:254-268 | Without a pending buffer and with equal blocks it always does |
| TraceAlloc.PacketOverrunsBlock | components/app_trace/app_trace_membufs_proto.c:234-349 | Three packets, the last of which does not |
| TraceAlloc.RoomWhenNothingPends | components/app_trace/app_trace_membufs_proto.c:288-349 | Which packets get room while nothing is pending |
| TraceAlloc.RoomWhenBytesPend | components/app_trace/app_trace_membufs_proto.c:288-349 | Which packets get room while bytes are pending, in terms of the ring after the pump |
| TraceAlloc.TriedLevels | components/app_trace/app_trace_membufs_proto.c:288-310 | What the first attempt of an allocation does to the blocks and the pending bytes |
| TraceAlloc.NoSwitchNeeded | components/app_trace/app_trace_membufs_proto.c:312-340 | While nothing is pending, a packet that fits goes behind the marker, and otherwise to the pending ring if that has room, without an attempt to switch |
| TraceProtocol.Membufs.Wait4Buf | components/app_trace/app_trace_membufs_proto.c:234-271 | The slot and the levels are as planned; a slot that holds the packet is the newest part of the stream; without one the stream is unchanged |
| TraceProtocol.Membufs.UpBufferGet | components/app_trace/app_trace_membufs_proto.c:288-349 | The same, behind everything that was traced before; pending bytes always come with a filled block, whatever the sizes of the two; too large a request changes nothing |
| TraceProtocol.OverrunRun | components/app_trace/app_trace_membufs_proto.c:56-349 | A run from the start after which a packet is outside of its block |
| TraceProtocol.Membufs.Trace | components/app_trace/app_trace_membufs_proto.c:273-360 | An accepted packet joins the stream behind all earlier ones, a declined one leaves no trace, and the host's block is not written between switches; the fill levels say exactly which packets are accepted, declined, or written outside of their room |
| TraceProtocol.Membufs.DownBufferGet | components/app_trace/app_trace_membufs_proto.c:167-198 | Passes on the oldest bytes, as many as were asked for and lie in one piece: those in the down ring, or, if there are none, those that the first switch with data brings at a poll with a signal; each once and in order, without touching the trace stream; says at which poll it is served, gives up or is still running; its assertion cannot fail |
| TraceProtocol.ArrivesAt | components/app_trace/app_trace_membufs_proto.c:167-198 | While the host signals, the data announced with the first block that has any are the ones that arrive, whichever poll that is, as many as the down ring holds |
| TraceProtocol.ArrivesEnds | components/app_trace/app_trace_membufs_proto.c:167-198 | Data arrive only at a poll with a signal, from an announcement and into a ring with room; it gives up only at a poll without a signal when the time is over, and is running only if there was no such poll |
| TraceProtocol.Membufs.Flush | components/app_trace/app_trace_membufs_proto.c:362-384 | Ends; succeeds if and only if as many switches are granted in time as it takes to get the block down to the size, and makes no more; a successful flush of everything leaves block and ring empty and the host with all frames |
| InitGuards.StepInv | components/cxx/cxx_guards.cpp:66-211 | Every step of every task keeps the invariants of mutex, guards, positions, tallies, waiting count and wake-ups |
| InitGuards.ExactlyOnce | components/cxx/cxx_guards.cpp:113-211 | In every reachable state one task at most initialises a guard, ready and pending exclude each other, a guard is released at most once, and grants are releases plus aborts plus one while pending |
| InitGuards.ReadyIffReleased | components/cxx/cxx_guards.cpp:170-211 | From the start, a guard is ready if and only if a release got past its update; the tallies are the numbers of releases and of aborts that did |
| InitGuards.TalliesCount | components/cxx/cxx_guards.cpp:170-211 | The same for every part of a run |
| InitGuards.EndsAreStarted | components/cxx/cxx_guards.cpp:170-211 | Every release or abort that started got past its own update or is before it; neither turns into the other |
| InitGuards.GrantsCount | components/cxx/cxx_guards.cpp:113-168 | The tally of grants is the number of acquires answered 1, or about to be |
| InitGuards.AbortResets | components/cxx/cxx_guards.cpp:192-211 | After an abort the guard is neither pending nor ready |
| InitGuards.AcquireAnswered | components/cxx/cxx_guards.cpp:113-168 | An acquire of a guard that is not pending, with the mutex free, is answered 1 if and only if the guard is not ready, so also after an abort |
| InitGuards.WaiterAnswered | components/cxx/cxx_guards.cpp:66-168 | The same for a task that waited and was woken |
| InitGuards.CallEnds | components/cxx/cxx_guards.cpp:105-211 | A release or abort as a whole: the new state of guard, holder and tallies, and one token for every waiting task |
| InitGuards.CallsAreSound | components/cxx/cxx_guards.cpp:113-211 | The assertions of release and abort hold; answer 1 means sole initialiser, answer 0 means ready |
| InitGuards.ReadyIsFinal | components/cxx/cxx_guards.cpp:136-168 | A ready guard stays ready and is never granted, released or aborted again |
| InitGuards.WaitingIsExact | components/cxx/cxx_guards.cpp:66-103 | The waiting count is the number of tasks inside the wait loop |
| InitGuards.NobodyStranded | components/cxx/cxx_guards.cpp:66-111 | With no task waiting for a pending guard and no signalling in progress there is a token for every blocked task |
| InitGuards.TokenTheft | components/cxx/cxx_guards.cpp:66-103 | A waiter of a pending guard can use up a token and wait again |
| InitGuards.TokensDrained | components/cxx/cxx_guards.cpp:66-103 | It can use up all tokens |
| InitGuards.WaiterStranded | components/cxx/cxx_guards.cpp:66-190 | A run from the start after which the waiter of a ready guard has no token |
| InitGuards.SomeoneMoves | components/cxx/cxx_guards.cpp:66-211 | With no task waiting for a pending guard, some call in progress can take a step |
| InitGuards.SettledDrains | components/cxx/cxx_guards.cpp:66-168 | Once all guards in use are ready, every call returns after a number of steps that is fixed in advance, in any order of steps |
| OtaSelect.NextIsLeast | components/app_update/esp_ota_ops.c:575-590 | The sequence number is the least one from the active one on with the right remainder, less than one slot count above it |
| OtaSelect.FindSeq | components/app_update/esp_ota_ops.c:575-590 | The search loop, on 32-bit numbers, ends with that number if it fits 32 bits |
| OtaSelect.SearchEndless | components/app_update/esp_ota_ops.c:585-587 | If it does not fit and the slot count is a power of two, the loop condition stays true |
| OtaSelect.ErasedBootsOld | components/app_update/esp_ota_ops.c:526-597 | After the erase of a switch the device boots what it booted before |
| OtaSelect.WrittenBootsIff | components/app_update/esp_ota_ops.c:526-597 | After the write of a switch the device boots the requested slot, except for the last slot from number 0 with a slot count that does not divide 2^32 |
| OtaSelect.WrittenBootsNew | components/app_update/esp_ota_ops.c:526-597 | With numbers from 1 on there is no exception, and the numbers stay so |
| OtaSelect.SetThenGet | components/app_update/esp_ota_ops.c:599-697 | The boot partition is the one that was set, if and only if it is not the test application and not that exception |
| OtaSelect.SetFromZero | components/app_update/esp_ota_ops.c:552-597 | From number 0, a switch to the last slot works exactly for slot counts that are powers of two |
| OtaSelect.FactoryErasedHalfway | components/app_update/esp_ota_ops.c:599-640 | When a reset between the two erases boots a third application |
| OtaSelect.ConfirmKeepsBoot | components/app_update/esp_ota_ops.c:904-942 | Confirming marks the active entry as valid, keeps the other one and does not change what boots |
| OtaSelect.ConfirmedSurvives | components/bootloader_support/src/bootloader_utility.c:377-466 | A confirmed application is selected by every later boot, however many there are |
| OtaSelect.RollbackPossibleIff | components/app_update/esp_ota_ops.c:848-902 | A rollback is possible if and only if some slot decides what boots, the other entry is usable or there is a factory application, and without the active entry an application with a good image boots; its target is this application |
| OtaSelect.RejectBootsTarget | components/app_update/esp_ota_ops.c:848-942 | After a rejection, and after a reset during it, the application boots whose image was verified; the active entry is marked as invalid and the other one kept; where no rollback is possible, nothing changes |
| OtaSelect.BootloaderAgrees | components/bootloader_support/src/bootloader_utility.c:377-466 | Exactly when application and boot loader select the same image, in terms of the table and the active number |
| OtaSelect.BootloaderAgreesIffNoGap | components/bootloader_support/src/bootloader_utility.c:192-197 | They agree on every decision if and only if no OTA partition follows a gap in the table |
| OtaSelect.InvalidateKeepsBoot | components/app_update/esp_ota_ops.c:1041-1097 | Erasing the inactive entry, which esp_ota_begin does with rollback, does not change what boots, and leaves at most the factory application to return to |
| OtaSelect.OneAttempt | components/bootloader_support/src/bootloader_utility.c:377-466 | With rollback, the slot that the boot loader maps a new number to is selected once, and again only if it was confirmed; without a gap in the table it is the requested slot |
| OtaSelect.FirstBootRecorded | components/bootloader_support/src/bootloader_utility.c:491-503 | What the boot loader writes at a first boot selects the slot that it has started, for the loader if and only if the slot is below the number of OTA partitions, and for the application if and only if it is in front of the first gap |
| OtaSelect.RunSetThenGet | components/app_update/esp_ota_ops.c:552-697 | After any mix of switches, confirmations, rejections, invalidations, boots and power failures during calls, from erased otadata, the boot partition is the one set next, factory included, and a switch between slots is crash-safe |
| OtaSelect.Device.AppCount | components/app_update/esp_ota_ops.c:542-550 | The number of slots up to the first gap |
| OtaSelect.OtadataPartition.GetActive | components/bootloader_support/src/bootloader_common_loader.c:69-171 | The usable entry with the larger number, the first one on a tie |
| OtaSelect.OtadataPartition.RewriteOtaSeq | components/app_update/esp_ota_ops.c:526-540 | Erases and writes one sector and leaves the other alone |
| OtaSelect.OtadataPartition.RewriteOtaData | components/app_update/esp_ota_ops.c:552-597 | Fails exactly for a slot that is not there; otherwise the inactive sector gets the number, the state and the CRC of the new entry |
| OtaSelect.OtadataPartition.SetBootPartition | components/app_update/esp_ota_ops.c:599-640 | The new otadata, what boots from it, and that the device boots the old application at the intermediate point |
| OtaSelect.OtadataPartition.GetBootPartition | components/app_update/esp_ota_ops.c:670-697 | The application that the entries select, or the default one |
| OtaSelect.OtadataPartition.FindDefault | components/app_update/esp_ota_ops.c:642-668 | Factory, else the first OTA slot, else the test application |
| OtaSelect.DefaultPrefers | components/app_update/esp_ota_ops.c:642-668 | When each of the applications is the default one |
| OtaSelect.OtadataPartition.CheckRollbackIsPossible | components/app_update/esp_ota_ops.c:848-902 | Answers true if and only if, without the active entry, an application with a good image would boot that the other entry selects or that is the factory application |
| OtaSelect.OtadataPartition.CurrentOtaIsWorkable | components/app_update/esp_ota_ops.c:904-942 | Its result, the new otadata, and that after a rejection every intermediate state boots the verified application |
| OtaTool.GetOtadataInfo | components/app_update/otatool.py:66-81 | Reads number and CRC of both entries |
| OtaTool.SwitchOtaPartition | components/app_update/otatool.py:89-184 | Raises exactly when there is no such slot or the number overflows; otherwise one entry gets number and CRC, and nothing else changes |
| OtaTool.FindSeqUnbounded | components/app_update/otatool.py:146-160 | The tool's loop finds the least number with the right remainder, too |
| OtaTool.ToolsAgree | components/app_update/otatool.py:89-184 | Without rejected entries, tool and device choose the same sector and number |
| OtaTool.SectorsDiffer | components/app_update/otatool.py:131-184 | The two cases in which they choose different sectors, in terms of validity, state and number of the entries |
| OtaTool.NumbersAgree | components/app_update/otatool.py:146-160 | When they choose the same number, in terms of the entries computed from and the remainders |
| OtaTool.OverwritesOnlyUsable | components/app_update/otatool.py:89-184 | The tool overwrites the only usable entry if and only if both are in order and the leading one alone was rejected |
| OtaTool.ToolImageBoots | components/app_update/otatool.py:89-184 | The image that the tool writes boots the requested slot if and only if the overwritten entry was not rejected or the other one selects that slot anyway |
| OtaTool.SecondSwitchLost | components/app_update/otatool.py:89-184 | After one rejected update, the second of two switches by the tool has no effect |
| OtaWriter.AdvanceOk | components/app_update/esp_ota_ops.c:314-382 | The erase of a call covers what it programs although the cached bytes are not counted |
| OtaWriter.AdvanceAllOk | components/app_update/esp_ota_ops.c:295-388 | After buffers of any sizes no byte is unaccounted for, and at most 15 are cached |
| OtaWriter.EraseRangeCovers | components/app_update/esp_ota_ops.c:314-328 | The erase starts at or behind the programmed bytes and reaches the end of the last sector affected |
| OtaWriter.FinalFlushErased | components/app_update/esp_ota_ops.c:489-504 | When the final flush stays inside the erased region |
| OtaWriter.FinalFlushHitsUnerasedSector | components/app_update/esp_ota_ops.c:489-504 | Two buffers after which it does not |
| OtaWriter.AlignUpBounds | components/app_update/esp_ota_ops.c:188-201 | ALIGN_UP rounds up to sectors exactly when the sum does not wrap; otherwise it is 0 |
| OtaWriter.Begin | components/app_update/esp_ota_ops.c:141-210 | What is erased, and the state in which an update starts; the announced size, or the whole partition for size 0 or an unknown one, is blank |
| OtaWriter.Update.StaysIntact | components/app_update/esp_ota_ops.c:295-388 | As long as a write ends within what was erased or blank, for example the announced size, only blank bytes are programmed, and this stays so for the next one |
| OtaWriter.MagicBytes | components/app_update/esp_ota_ops.c:331-345 | The bytes that an image or a partition table starts with |
| OtaWriter.Update.Write | components/app_update/esp_ota_ops.c:295-388 | A call appends the whole buffer to programmed and cached bytes and never disturbs what was programmed; it programs blank bytes only, always in sequential mode and otherwise exactly if they were erased for the update or blank before; it fails only for a wrong magic number, a full partition or a flash fault |
| OtaWriter.Update.TopUp | components/app_update/esp_ota_ops.c:349-371 | Completing a cached block neither loses nor reorders bytes |
| OtaWriter.Update.WriteBlocks | components/app_update/esp_ota_ops.c:373-386 | Whole blocks are programmed and the rest is cached, in order |
| OtaWriter.Update.End | components/app_update/esp_ota_ops.c:478-504 | The last block meets blank flash if and only if each of its bytes was erased for the update or blank before, and then flash holds the stream, padded to a block |
| BsParser.Parse | tools/bsasm.py:115-228 | The loop computes the elements of the source; the two internal errors cannot occur |
| BsParser.ElementsCanonical | tools/bsasm.py:115-228 | Accepted sources leave no element open; texts are clean, and labels stand alone between bundles |
| BsParser.ParsePrint | tools/bsasm.py:115-228 | Printing canonical elements and parsing them gives the same elements |
| BsParser.ParseNormal | tools/bsasm.py:115-228 | Parsing, printing and parsing again changes nothing |
| BsParser.CommentsIgnored | tools/bsasm.py:130-150 | A comment up to the end of its line could be left out of any source |
| BsParser.LayoutIgnored | tools/bsasm.py:153-170 | Any blanks are one space; blanks around line ends and commas, empty lines and carriage returns before line ends could be left out |
| BsParser.Refusals | tools/bsasm.py:170-196 | A comma with nothing before it, a colon with nothing before it, behind a blank or inside a bundle are refused with their own error, whatever follows |
| BsParser.IsMetaIff | tools/bsasm.py:282-287 | Meta-instructions start with "cfg " or "lut ", in capital letters or not |
| BsParser.FindLabels | tools/bsasm.py:595-620 | The first pass finds the labels and marks all parts of meta-instructions |
| BsParser.LabelsDefined | tools/bsasm.py:595-620 | A label is known if and only if it is defined, and the last definition counts |
| BsParser.Collect | tools/bsasm.py:661-800 | The second pass collects the bundles that end |
| BsParser.LabelReferableIff | tools/bsasm.py:543-549 | Some instruction can refer to a label if and only if its name has no capital letters and no spaces |
| BsParser.LabelPoints | tools/bsasm.py:595-800 | The address of a label is the index of the bundle that follows it |
| BsParser.LabelInside | tools/bsasm.py:595-800 | It is the address of an instruction if and only if one follows |
| BsParser.NothingLostIff | tools/bsasm.py:661-800 | Every part of an instruction ends up in one, in order, if and only if the source does not end inside a bundle |
| BsParser.UnfinishedAccepted | tools/bsasm.py:115-228 | Sources that do are accepted |
| BsInputs.ParseInputFails | tools/bsasm.py:343-427 | Which inputs are refused |
| BsInputs.FlagsAreExact | tools/bsasm.py:343-427 | The flags of an input hold if and only if the multiplexer selects the source that was named, addressed as it was written |
| BsInputs.InputSoundIff | tools/bsasm.py:405-416 | An accepted input is translated soundly if and only if it is not the bit behind the lookup table |
| BsInputs.ClashIff | tools/bsasm.py:432-447 | Two inputs are refused together if and only if no settings suit both |
| BsInputs.RangeAcceptedIff | tools/bsasm.py:454-521 | A range between any two sources is accepted if and only if both are addressed alike and of one kind, or one is a table bit and the other lies below the table |
| BsInputs.RangeNames | tools/bsasm.py:454-521 | A range between sources of one kind gives each source between them in order |
| BsInputs.MixedNames | tools/bsasm.py:454-521 | A mixed range gives sources of the first kind up to the table and its bits behind that |
| BsInputs.SetOutputs | tools/bsasm.py:670-691 | Each output gets its input; refused exactly for unequal lengths or an output that is already set |
| BsBits.BitStream.AddBits | tools/bsasm.py:819-830 | Appends exactly the low bits of the value, least significant first |
| BsBits.BitStream.ToByteArray | tools/bsasm.py:832-833 | The bytes are the bits, except for an incomplete last byte |
| BsBits.OrBetween | tools/bsasm.py:917-935 | A field put between a lower and a higher one by a bitwise or is added |
| BsEncoder.DecodeEncodeIff | tools/bsasm.py:912-935 | Opcode fields never overlap and read back, if and only if the target is below 8 |
| BsEncoder.LabelBehindTheEnd | tools/bsasm.py:926-927 | What target 8 does |
| BsEncoder.ReadBits | tools/bsasm.py:890-961 | From the bits of an instruction all 32 selections, the opcode, both amounts and the settings are read back |
| BsEncoder.CompatibleIff | tools/bsasm.py:886-899 | The checks by pairs pass if and only if some settings suit all inputs, the condition included |
| BsEncoder.EncodeInst | tools/bsasm.py:875-961 | Refused if and only if no settings suit all inputs, the condition of a branch included; otherwise 36 bytes that read back to the inputs of the instruction, 94 for an output without one, settings that suit them, and both amounts, and, if and only if its target is below 8, to its opcode |
| BsEncoder.EncodedNames | tools/bsasm.py:343-427 | In an encoded instruction each output selects in hardware the source that was written, addressed as it was written, and an output that is not set is low |
| BsEncoder.EncodedCondition | tools/bsasm.py:890-935 | A branch tests the source that was written |
| BsProgram.Words | tools/bsasm.py:845-864 | The table memory holds each value in its width, in order, filled up with zeros to a word |
| BsProgram.CellsAt | tools/bsasm.py:845-864 | Where each value is in the table memory |
| BsProgram.MissingIsLeast | tools/bsasm.py:845-864 | No more zeros are added than it takes to complete the word |
| BsProgram.CellReadsBackIff | tools/bsasm.py:638-660 | Every admitted value of the table reads back, with or without a sign, except for 65536 and 65537 in 16 bits |
| BsProgram.ToBinary | tools/bsasm.py:841-966 | When a program is refused; the value of each header field; and where header, instructions and table are in the file |
| TaskOrder.PullDeps | tools/idf.py:660-686 | Dependencies that did not run are in the list afterwards, one of them in front |
| TaskOrder.PullOrder | tools/idf.py:688-692 | Order dependencies that are listed are moved to the front |
| TaskOrder.Order | tools/idf.py:652-701 | The loop ends; the result holds exactly what was asked for and what it depends on, each once, dependencies first, and order dependencies first that were asked for; the first commands given run before everything that they and what they pull do not need |
| TaskOrder.GivenOrderKept | tools/idf.py:652-701 | Commands that each come behind their dependencies and listed order dependencies run exactly as given |
| SplitArgv.SplitLine | components/console/split_argv.c:41-107 | A line of words splits into their meanings, for words with and without quotes, with escape sequences, known or not, any spaces around them, and an open quote or a backslash at the end |
| SplitArgv.EveryLine | components/console/split_argv.c:41-107 | Every line can be read in this form |
| SplitArgv.SplitJoin | components/console/esp_console.h:264-289 | Splitting a line in which each argument was quoted or escaped gives back exactly these arguments |
| SplitArgv.SpacesAreWhitespaceIff | components/console/esp_console.h:267-268 | Splitting at spaces is splitting at whitespace if and only if the line has no other whitespace outside of quotes and escape sequences |
| SplitArgv.JoinNoNul | components/console/esp_console.h:264-289 | Such a line is a C string if the arguments are |
| SplitArgv.ScannedEnd | components/console/split_argv.c:27-31 | Ending an argument in place keeps all arguments found so far and what is still unread |
| SplitArgv.ScannedKeep | components/console/split_argv.c:50-97 | Keeping or skipping a character does, too |
| SplitArgv.SplitInPlace | components/console/split_argv.c:33-112 | The pointers lead to the first arguments of the line, as many as fit, a null pointer follows, and nothing behind the line is touched |
| DfuArchive.FromHexHex | tools/mkdfu.py:61-62 | Header fields read back |
| DfuArchive.HeaderSays | tools/mkdfu.py:58-82 | The value of each of the thirteen fields of a header |
| DfuArchive.ReadEntryEntry | tools/mkdfu.py:58-82 | A reader of the format gets back name and data of an entry and finds the next one |
| DfuArchive.ReadAllEntries | tools/mkdfu.py:226-233 | It gets back all entries in order up to the trailer |
| DfuArchive.ChunksConcat | tools/mkdfu.py:172-189 | The chunks make up the file, and all but the last are full |
| DfuArchive.ChunksCompleteIff | tools/mkdfu.py:186-189 | They make up the file if and only if the part size is positive or the file is empty |
| DfuArchive.FilePieceAt | tools/mkdfu.py:172-189 | Name and address of each chunk |
| DfuArchive.FromDigitsDigits | tools/mkdfu.py:186-189 | The number in the name of a chunk is written in decimal digits, without a zero in front |
| DfuArchive.ChunkNamesDiffer | tools/mkdfu.py:172-189 | The chunks of a file have different names |
| DfuArchive.ReadRecordIff | tools/mkdfu.py:88-89 | An index record reads back if and only if the name fits its field |
| DfuArchive.IndexRead | tools/mkdfu.py:191-195 | The record k of the index carries address, flags, name and MD5 of the entry k, if and only if the name fits 64 bytes |
| DfuArchive.EspDfuWriter.AddFlashEntry | tools/mkdfu.py:213-224 | Adds one entry and its index record |
| DfuArchive.EspDfuWriter.AddFile | tools/mkdfu.py:172-189 | Adds the chunks of a file, one behind the other |
| DfuArchive.EspDfuWriter.Finish | tools/mkdfu.py:191-211 | Fails exactly for an address beyond 32 bits; otherwise the reader finds the index, then all entries; the length is whole blocks and the suffix, whose fields have the values of the USB DFU specification, and the CRC covers all before it |

## Left out

- TraceProtocol.Membufs.Trace: the header for SystemView and blocks of less than 4 bytes, for which the size limit wraps, are not modelled. Where a packet would be written outside of its room, the model stops.
- TraceProtocol.Membufs.Swap: a host that announces more data than its block holds, which the source does not check, is not modelled.
- TraceProtocol.Membufs.DownBufferGet: how the host signals data is a script; the timer is not modelled.
- TraceProtocol.Membufs.Flush: a timeout is a refusal that ends the call, not a measured time.
- InitGuards.StepInv: the creation of mutex and semaphore and the time before the scheduler starts.
- OtaSelect.FindSeq: a number that does not fit 32 bits, where the loop goes on with wrapped sums; for slot counts that are powers of two it does not end.
- OtaSelect.OtadataPartition.SetBootPartition: secure boot, anti-rollback and image verification are a set of good images; flash faults and finding or mapping the otadata partition are left out.
- OtaSelect.RunSetThenGet: the boot loader's own writes are not interrupted, and sequence numbers stay below 2^32 - 1, which bounds the length of a run.
- OtaWriter.Update.Write: calls after a failed one are not modelled, nor is the list of handles; a flash operation that fails leaves the flash as it was. Reading the magic word of a partition table needs two bytes.
- OtaWriter.Begin: the sector size is a power of two, so that ALIGN_UP rounds; refused partitions and handles are left out, and an update exists even if its erase failed. The invalidation of the inactive otadata entry that follows with rollback is part of OtaSelect.
- OtaWriter.Update.End: verification of the image and copying to a final partition are left out, as are resuming and writing with an offset.
- BsParser.Parse: line and column numbers, which only error messages use.
- BsParser.FindLabels: values of meta-instructions; BsProgram takes them as given.
- BsParser.LabelReferableIff: capital letters are those from A to Z.
- BsInputs.ParseInput: the spelling of inputs, numbers and mnemonics; sources are given by kind and index.
- BsEncoder.Encode: the reduction of literals to 16 or 5 bits; operands are given in range.
- TaskOrder.Order: duplicate names, options of commands, and running them. The dependency graph is acyclic and no command lists a dependency twice.
- SplitArgv.SplitInPlace: `argv` has room for at least the null pointer.
- DfuArchive.EspDfuWriter.Finish: MD5 and CRC are parameters, names are bytes, and no file is named like the trailer. Files are smaller than 4 GiB. The flash-parameters entry is an ordinary one.
- The dispatch layer of application tracing, TLS, ADC, the console's command registry and the tool installer: argument checks, calls into libraries and plain lists.
