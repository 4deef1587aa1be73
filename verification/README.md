# The qMonstatek RPC link, verified

qMonstatek is a desktop program that talks to the M1 handheld over USB serial or WiFi. This Dafny
project models its link, from the bytes on the wire up to file and firmware transfers, and
proves what the link is for: frames survive any fragmentation, transfers deliver the file, every
transfer ends once, and the two checksum dialects cost exactly what they cost.

`dafny verify dfyconfig.toml` checks the whole project.

| file | what it models |
|---|---|
| `Bytes.dfy`, `BitVectors.dfy` | bytes, 16- and 32-bit values, little-endian encoding |
| `Crc16.dfy` | both CRC-16 tables and loops, as division by x^16+x^12+x^5+1 (ITU-T V.41), and their error detection |
| `LegacyCrc.dfy` | when the legacy table lets two messages collide |
| `CrcSession.dfy` | the process-wide dialect latch and the ping probing |
| `Framing.dfy` | the batch grammar of the byte stream |
| `RpcFrame.dfy` | the incremental four-state parser and the frame builder |
| `HostModel.dfy` | the transfer machines and queues as functions on values |
| `M1Device.dfy` | the same as the source has it, a class whose handlers update its fields |
| `HostRuns.dfy` | the invariant of all runs, and the ledger of starts and endings |
| `HostReports.dfy` | the same ledger read off the host's log alone |
| `HostOutcomes.dfy` | what single events do: NACKs, timeouts, disconnects, confirmations, refusals, names |
| `HonestDevice.dfy`, `Transfers.dfy` | a device that executes commands literally; acknowledged transfers |
| `EndToEnd.dfy` | host, codec and device over two byte streams cut arbitrarily |
| `FolderUpload.dfy`, `FolderDelivery.dfy` | the directory and file queues, and what they leave on the card |
| `FolderStreams.dfy` | a folder upload over the two byte streams |
| `QueueEnds.dfy` | when an upload queue ends, and where it stalls |
| `LogLines.dfy`, `FileList.dfy` | log-line assembly and file-list parsing |
| `NetworkWorker.dfy` | the UDP screen filter and the transmit buffer |
| `MdnsNames.dfy` | the DNS name reader and the query builder (RFC 1035) |

Handlers and loops are methods over fields, proved equal to functions; the laws are lemmas about
those functions. Pending operations, timers and connections are fields too: a timer is an armed
flag, and its firing is an event. A source class appears with the fields that the modelled part
uses; `Machine` groups the five fields that each transfer machine has.

## What turned out not to hold

For each of these, the condition under which the code does meet the expectation is proved exactly.

- A frame round trip needs a payload of at most 8192 bytes (`Framing.RoundTripExactly`). The header
  comment of `src/backend/protocol/rpc_protocol.h`, line 8, says 1200; the code accepts 8192.
- A completed upload has delivered the file exactly when the file is smaller than 2 GiB
  (`Transfers.DeliveredExactly`): sizes are 32 bits wide, and the chunk length is a signed int.
- Progress reports never fall, and end at 100, exactly up to 42949672 bytes
  (`Transfers.ReportsExactly`, `Transfers.ProgressExactly`).
- An upload queue reports its end exactly when every file can be opened and is not empty; otherwise it
  stands at the first that cannot be started (`QueueEnds.QueueEndsExactly`).
- Listed file sizes are the device's exactly below 2 GiB (`FileList.ListingExactly`).
- A received frame is accepted if either table fits, so the burst detection of the correct table
  does not carry over to the receiver. `CrcSession.DamagedFrameAccepted` and
  `CrcSession.DamagedLegacyFrameAccepted` say exactly when a damaged frame gets through, for a
  sender of either dialect, `CrcSession.DamageIsNoticed` gives a condition under which it never does, and
  `Framing.DamagedFramesDelivered` has frames that do. In the legacy dialect itself, messages
  collide exactly when a step merges their registers (`LegacyCrc.LegacyCollidesExactly`), which for two
  adjacent bytes takes one of 46 pairs of entries (`LegacyCrc.LegacyDetects`, `LegacyCrc.ConfusableExactly`).
- Files queued while an update or an erase runs are not uploaded and block every later upload
  (`HostOutcomes.QueueBehindUpdateStalls`).
- A legacy sender's first frame latches its dialect exactly if the two tables disagree about that frame
  (`CrcSession.SenderIsLatched`).
- The name reader stops at the tenth pointer: `MdnsNames.NameReadExactly` says when that loses
  labels. The query builder writes label lengths up to 255 without a check; up to 191 bytes a label
  reads back, although section 2.3.4 of RFC 1035 allows only 63 (`MdnsNames.QueryReadsBackExactly`).
- Buffered frames are kept exactly when no write found 64 of them waiting
  (`NetworkWorker.FramesKeptExactly`).

Assumptions of the transfer theorems: an ACK carries no reference to its command, so they
ask that nothing else can claim it (`Transfers.Exclusively`: no bank swap or erase pending, no
other transfer), and in `EndToEnd` that there is one ACK for each command, no timeout and no
disconnect. The invariant and the ledger of `HostRuns` need none of this; the ledger only
asks that a single file command is never the START of a transfer, as none in the source is.

## Model

| member | source | states |
|---|---|---|
| `Crc16.Crc16Ccitt` | src/backend/protocol/crc16.cpp:88-94 | the loop over the buffer computes the checksum function of the correct table, which the lemmas below identify with polynomial division |
| `Crc16.Crc16CcittLegacy` | src/backend/protocol/crc16.cpp:96-102 | the same loop over the legacy table |
| `Crc16.TableEntryIsDivision` | src/backend/protocol/crc16.cpp:12-45 | each of the 256 entries is the remainder of its index after eight shifts of the generator x^16+x^12+x^5+1 |
| `Crc16.TableLoopIsDivision` | src/backend/protocol/crc16.cpp:88-94 | for every message and initial value the table loop is bit-by-bit division of the message by 0x1021 |
| `Crc16.CrcAffine` | src/backend/protocol/crc16.cpp:88-94 | for messages of one length, the checksum of the xor (of messages and of initial values) is the xor of the checksums |
| `Crc16.LowBytePermutation` | src/backend/protocol/crc16.cpp:12-45 | the low bytes of the correct table's entries are all distinct |
| `Crc16.StepInjective` | src/backend/protocol/crc16.cpp:91 | one step loses nothing: for a fixed byte it is injective on the register, for a fixed register on the byte |
| `Crc16.BurstDetected` | src/backend/protocol/crc16.cpp:88-94 | messages of one length that differ only inside sixteen consecutive bits, at any bit position, have different checksums |
| `Crc16.AdjacentBytesDetected` | src/backend/protocol/crc16.cpp:88-94 | an error inside two adjacent bytes, with any text before and after it, changes the checksum |
| `Crc16.OddErrorsDetected` | src/backend/protocol/crc16.cpp:88-94 | an odd number of flipped bits changes the checksum |
| `Crc16.LegacyDiffersExactly` | src/backend/protocol/crc16.h:9-13 | the two tables differ at the indices 0x40-0x5F and 0xD7-0xE4 and at no other |
| `Crc16.StepsAgreeExactly` | src/backend/protocol/crc16.cpp:91-99 | one step is the same in both dialects if and only if it does not read one of those 46 entries |
| `Crc16.DialectsAgree` | src/backend/protocol/crc16.cpp:88-102 | a message that never reads a corrupted entry has the same checksum in both dialects |
| `Crc16.LegacyStepNotInjective` | src/backend/protocol/crc16.cpp:62-83 | in the legacy table the entries 0x40 and 0xEA share their low byte, and two registers step to the same one |
| `LegacyCrc.StepsMergeExactly` | src/backend/protocol/crc16.cpp:99 | a legacy step takes two registers (and bytes) to one if and only if the entries it reads differ by the shifted difference of the registers |
| `LegacyCrc.LegacyCollidesExactly` | src/backend/protocol/crc16.cpp:96-102 | two different messages of one length share their legacy checksum if and only if some step merges their still different states and the messages agree behind it |
| `LegacyCrc.ConfusableExactly` | src/backend/protocol/crc16.cpp:53-86 | two legacy entries share their low byte for exactly 46 pairs, one for each corrupted entry, listed by index |
| `LegacyCrc.LegacyDetects` | src/backend/protocol/crc16.cpp:96-102 | the legacy dialect detects an error inside two adjacent bytes unless a step reads such a pair |
| `LegacyCrc.LegacyMissesBurst` | src/backend/protocol/crc16.cpp:96-102 | two pairs of leading bytes share their legacy checksum whatever follows them, so the legacy dialect misses that error |
| `LegacyCrc.TablesMissBurst` | src/backend/protocol/crc16.cpp:137-150 | two other pairs of leading bytes, one under each table, share their checksum whatever uncorrupted text follows |
| `CrcSession.Session.Crc16CcittTx` | src/backend/protocol/crc16.cpp:109-114 | an outgoing checksum is that of the dialect in force |
| `CrcSession.Session.SetTxCrcDialect` | src/backend/protocol/crc16.cpp:116-119 | sets the dialect of outgoing frames and leaves the lock |
| `CrcSession.Session.ResetCrcDialect` | src/backend/protocol/crc16.cpp:131-135 | back to the fresh state: correct dialect, not locked |
| `CrcSession.Session.Crc16ValidateRx` | src/backend/protocol/crc16.cpp:137-150 | accepts exactly the checksums of either table, and only the first acceptance since the reset changes the latch |
| `CrcSession.Session.PingTick` | src/backend/device/m1_device.cpp:78-87 | the ping timer flips the dialect unless it is locked |
| `CrcSession.AttributedExactly` | src/backend/protocol/crc16.cpp:137-150 | a received checksum is attributed to the correct dialect if and only if it is the body's remainder under the correct table, to the legacy one if and only if it is only the legacy table's, and to none if and only if it is neither |
| `CrcSession.SenderIsAttributed` | src/backend/protocol/crc16.cpp:137-150 | a frame built by a correct sender is attributed to that dialect; one of a legacy sender if and only if the two tables disagree about its body |
| `CrcSession.SenderIsLatched` | src/backend/protocol/crc16.h:16-18 | the first frame that validates in a session latches its sender's dialect, whatever comes before and after: always for a correct sender, and for a legacy sender if and only if the tables disagree about it |
| `CrcSession.LatchOfSession` | src/backend/protocol/crc16.cpp:104-150 | after any history, the latch depends on the current session alone: locked exactly when a frame has validated, then for good on the dialect of the first such frame; before that the pings alternate, starting from the correct one |
| `CrcSession.ConsecutivePingsProbeBoth` | src/backend/device/m1_device.cpp:78-87 | until a frame validates, any two consecutive timer pings go out in different dialects |
| `CrcSession.DamagedFrameAccepted` | src/backend/protocol/crc16.cpp:137-150 | a frame of a correct sender, damaged inside two adjacent bytes, is accepted if and only if its new body has the received value as legacy checksum |
| `CrcSession.DamagedLegacyFrameAccepted` | src/backend/protocol/crc16.cpp:137-150 | a frame of a legacy sender, damaged anyhow, is accepted if and only if a legacy step merges the two bodies or the new body has the received value as correct checksum |
| `CrcSession.DamageIsNoticed` | src/backend/protocol/crc16.cpp:137-150 | for either sender, damage inside two adjacent bytes is rejected if the new body reads no corrupted entry and, for a legacy sender, no step reads a pair with one low byte |
| `CrcSession.DamageGoesUnnoticed` | src/backend/protocol/crc16.cpp:137-150 | for either sender there are two-byte damages that are accepted, whatever (uncorrupted) text follows |
| `RpcFrame.FrameCodec.constructor` | src/backend/protocol/rpc_frame.cpp:10-16 | a new parser waits for a sync byte and numbers from 0 |
| `RpcFrame.FrameCodec.Reset` | src/backend/protocol/rpc_frame.cpp:69-79 | waits for a sync byte again, drops everything unfinished, numbers from 0 |
| `RpcFrame.FrameCodec.NextSeq` | src/backend/protocol/rpc_frame.cpp:81-84 | returns the counter and advances it modulo 256 |
| `RpcFrame.FrameCodec.ProcessByte` | src/backend/protocol/rpc_frame.cpp:86-145 | one byte takes the parser from one unfinished prefix to the next as the batch grammar would: same frames, same errors, same leftover, same dialect latch |
| `RpcFrame.FrameCodec.FinalizeFrame` | src/backend/protocol/rpc_frame.cpp:147-177 | announces the frame or its CRC error as the received checksum decides, and updates the latch |
| `RpcFrame.FrameCodec.Feed` | src/backend/protocol/rpc_frame.cpp:62-67 | for every byte sequence the parser's signals, residual state and latch are those of the batch grammar on what was pending plus the data |
| `RpcFrame.BuildFrameRaw` | src/backend/protocol/rpc_frame.cpp:26-60 | the bytes sync, command, number, little-endian length, payload, checksum in the dialect in force; without a payload pointer the length is announced and nothing follows it but the checksum of the header |
| `RpcFrame.BuildFrame` | src/backend/protocol/rpc_frame.cpp:18-24 | the payload length is cut to sixteen bits, and only that many bytes are sent |
| `RpcFrame.StreamLatch` | src/backend/protocol/rpc_frame.cpp:160-169 | the latch after a stream obeys the law of the latch after its single frames |
| `Framing.RestIsUnfinished` | src/backend/protocol/rpc_frame.cpp:86-145 | what a scan leaves over is a state the parser can be in |
| `Framing.BatchConcat` | src/backend/protocol/rpc_frame.cpp:62-67 | scanning a + b is scanning a, then scanning b behind what a left over |
| `Framing.FragmentationIrrelevant` | src/backend/protocol/rpc_frame.cpp:62-67 | however a stream is cut into calls of feed, the same frames and the same leftover come out |
| `Framing.WireScansBack` | src/backend/protocol/rpc_frame.cpp:26-60 | a built frame is scanned back to itself, with its checksum, in either dialect |
| `Framing.PacketBytes` | src/backend/protocol/rpc_frame.cpp:32-57 | the bytes of a packet one by one: 0xAA, command, number, the length's low and high byte, the payload, the checksum's low and high byte |
| `Framing.PacketScansBack` | src/backend/protocol/rpc_frame.cpp:86-145 | a frame with any checksum is scanned as one candidate with that checksum |
| `Framing.ChecksumDecides` | src/backend/protocol/rpc_frame.cpp:147-177 | for any frame and any received checksum: the frame is delivered if that is the body's remainder under either table, and otherwise its CRC error is reported and nothing delivered; the parser is idle again |
| `Framing.DamagedFrameIsDropped` | src/backend/protocol/rpc_frame.cpp:160-169 | a frame of either sender damaged inside two adjacent bytes, not in its length, is answered with exactly its CRC error, if no corrupted or confusable entries are read |
| `Framing.DamagedWireIsDropped` | src/backend/protocol/rpc_frame.cpp:160-169 | the same for the bytes on the wire, damaged anywhere between the header and the checksum |
| `Framing.OwnChecksumAccepted` | src/backend/protocol/rpc_frame.cpp:160-176 | a frame built in either dialect is accepted by the receiver |
| `Framing.DamagedFramesDelivered` | src/backend/protocol/rpc_frame.cpp:147-177 | whole damaged frames that are delivered: with any payload from a legacy sender, and one from a sender of correct checksums |
| `Framing.ProperPrefixIsUnfinished` | src/backend/protocol/rpc_frame.cpp:86-145 | no proper prefix of a built frame emits or loses anything |
| `Framing.RoundTripExactly` | src/backend/protocol/rpc_frame.cpp:18-177 | what was built is decoded to the same command, number and payload if and only if the payload has at most 8192 bytes; longer ones are refused or, from 65536 on, cut |
| `Framing.StreamRoundTrip` | src/backend/protocol/rpc_frame.cpp:26-177 | any list of built frames, each in either dialect and behind any bytes other than 0xAA, decodes to exactly that list and leaves the parser waiting for a sync byte |
| `Framing.NextFrame` | src/backend/protocol/rpc_frame.cpp:86-177 | a frame that starts while the parser is idle is delivered first, and what follows is scanned as if it stood alone |
| `Framing.ResyncWithinBound` | src/backend/protocol/rpc_frame.cpp:86-145 | from every parser state, over any bytes at all, the parser waits for a sync byte again after at most 8198 of them |
| `Framing.NoiseResyncs` | src/backend/protocol/rpc_frame.cpp:86-145 | after 8198 bytes without a sync byte the parser is idle |
| `Framing.FrameAfterGapIsDelivered` | src/backend/protocol/rpc_frame.cpp:86-177 | from every parser state, a built frame after such a gap is delivered, last and whole |
| `Framing.ResyncBoundIsTight` | src/backend/protocol/rpc_protocol.h:21-25 | over 8197 bytes the parser may never be idle |
| `M1Device.Device.constructor` | src/backend/device/m1_device.cpp:99-169 | a new device is idle, with no queue and no pending operation |
| `M1Device.Device.UploadFile` | src/backend/device/m1_device.cpp:522-569 | is the model's upload request: refused while anything runs, or for a missing or empty file; otherwise START is sent and the timer armed |
| `M1Device.Device.FileUploadSendNextChunk` | src/backend/device/m1_device.cpp:571-598 | the next 512-byte chunk or FINISH, in the source's 32-bit widths |
| `M1Device.Device.FileCommand` | src/backend/device/m1_device.cpp:600-631 | delete, rename, mkdir, mount and unmount: the next unclaimed ACK belongs to this command |
| `M1Device.Device.UploadFiles` | src/backend/device/m1_device.cpp:635-662 | queues the files under their remote names and starts the first |
| `M1Device.Device.CollectItems` | src/backend/device/m1_device.cpp:646-653 | the loop gives each file, in order, the remote path with exactly one slash before its name |
| `M1Device.Device.UploadFolder` | src/backend/device/m1_device.cpp:664-730 | queues the sorted directories and the files, and makes the first directory |
| `M1Device.Device.CollectEntries` | src/backend/device/m1_device.cpp:688-702 | the loop splits the listing into remote directories (the folder first) and files, in order |
| `M1Device.Device.SortDirs` | src/backend/device/m1_device.cpp:704-707 | an insertion sort standing for the library's sort by length |
| `M1Device.Device.StartUploadQueue` | src/backend/device/m1_device.cpp:732-742 | starts the first file of the queue, or reports an empty queue |
| `M1Device.Device.AdvanceUploadQueue` | src/backend/device/m1_device.cpp:744-758 | starts the next file, or empties the queue and reports its length |
| `M1Device.Device.AdvanceMkdirQueue` | src/backend/device/m1_device.cpp:760-778 | makes the next directory, or turns to the files |
| `M1Device.Device.StartFwUpdate` | src/backend/device/m1_device.cpp:801-850 | refused while anything runs, or for a bad size; otherwise START is sent; rejected images stay loaded, as in the source |
| `M1Device.Device.FwUpdateSendNextChunk` | src/backend/device/m1_device.cpp:852-878 | the next 1024-byte chunk or FINISH |
| `M1Device.Device.SwapBanks` | src/backend/device/m1_device.cpp:880-884 | the swap is pending |
| `M1Device.Device.EraseInactiveBank` | src/backend/device/m1_device.cpp:886-898 | refused while anything runs, otherwise pending |
| `M1Device.Device.StartEspUpdate` | src/backend/device/m1_device.cpp:946-1058 | as the M1 update, with the structural check of the image unless forced |
| `M1Device.Device.EspUpdateSendNextChunk` | src/backend/device/m1_device.cpp:1060-1089 | the next 1024-byte chunk or FINISH |
| `M1Device.Device.HandleAck` | src/backend/device/m1_device.cpp:1445-1602 | an ACK goes to the first of erase, swap, M1 update, ESP32 update, upload, pending file command |
| `M1Device.Device.HandleFwAck` | src/backend/device/m1_device.cpp:1478-1502 | START's ACK and each chunk's ACK bring the next chunk, FINISH's ACK completes |
| `M1Device.Device.HandleEspAck` | src/backend/device/m1_device.cpp:1504-1529 | the same for the ESP32 update |
| `M1Device.Device.HandleFileAck` | src/backend/device/m1_device.cpp:1531-1559 | the same for the upload, where completion goes on with the queue if there is one |
| `M1Device.Device.HandleCommandAck` | src/backend/device/m1_device.cpp:1561-1601 | confirms the pending command; MKDIR advances the directory queue; a stale ACK is absorbed only if nothing claims it |
| `M1Device.Device.HandleNack` | src/backend/device/m1_device.cpp:1604-1737 | a NACK goes to the same owner; an aborted upload takes both queues with it; a refused command forgets only itself |
| `M1Device.Device.FwTimeoutFires` | src/backend/device/m1_device.cpp:101-128 | the timeout ends the M1 update with an error |
| `M1Device.Device.EspTimeoutFires` | src/backend/device/m1_device.cpp:132-153 | the timeout sends FINISH, ends the update with an error and expects one stale reply |
| `M1Device.Device.FileTimeoutFires` | src/backend/device/m1_device.cpp:157-165 | the timeout ends the upload with an error and leaves the queues |
| `M1Device.Device.OnTransportDisconnected` | src/backend/device/m1_device.cpp:1766-1798 | every transfer under way ends with an error, timers stop, queues and a pending swap are dropped, a pending erase stays |
| `M1Device.Device.Handle` | src/backend/device/m1_device.cpp:522-1799 | any event on a state that keeps the invariant is the model's step and keeps the invariant |
| `M1Device.Device.HandleAll` | src/backend/device/m1_device.cpp:522-1799 | any sequence of events is the model's run and keeps the invariant; on a new device the log of each machine then balances: starts are reported completions plus reported aborts plus one if active |
| `HostRuns.StepKeepsInv` | src/backend/device/m1_device.cpp:522-1799 | every request, reply, timer and disconnect keeps the invariant of runs |
| `HostRuns.RunKeepsInv` | src/backend/device/m1_device.cpp:99-165 | over every run at most one of the three transfers and the bank erase is active; a machine is active exactly while its timer is armed; while active its offset is at most its size, which is the length of its data (0 before START's ACK, the size before FINISH's); queue indices are -1 or in range |
| `HostRuns.AckMachineOk` | src/backend/device/m1_device.cpp:1478-1559 | an ACK keeps a machine's invariant and data, and idles it exactly when FINISH was waiting |
| `HostRuns.RejectedStartChangesNothing` | src/backend/device/m1_device.cpp:522-533 | a start or erase while anything is under way adds one error report and changes nothing else |
| `HostRuns.ImagePassesAtOneAddress` | src/backend/device/m1_device.cpp:989-1038 | an image that passes the check for the factory address never passes the one for the application address, and conversely: the mix-up that the source's comment warns of |
| `HostRuns.WrongImageIsNotFlashed` | src/backend/device/m1_device.cpp:989-1038 | unless forced, starting with an image that passes for the other address sends nothing and reports one error |
| `HostRuns.StepBalance` | src/backend/device/m1_device.cpp:1478-1725 | no step but the ACK of FINISH changes starts minus aborts minus active |
| `HostRuns.RunBalance` | src/backend/device/m1_device.cpp:1478-1793 | over every run that balance grows by exactly the completions |
| `HostRuns.EveryTransferEndsOnce` | src/backend/device/m1_device.cpp:1478-1793 | over every run from the fresh state and for each machine, accepted starts are completions plus reported aborts plus one if it is active |
| `HostOutcomes.LastAckEnds` | src/backend/device/m1_device.cpp:1478-1555 | the ACK of FINISH stops the transfer and reports its completion, and leaves everything else |
| `HostOutcomes.NackEnds` | src/backend/device/m1_device.cpp:1690-1725 | a NACK stops the running transfer, drops its data and reports its code; an upload takes both queues with it, and everything else stays |
| `HostOutcomes.NackWithoutTransfer` | src/backend/device/m1_device.cpp:1673-1736 | without a transfer a NACK is reported for a pending erase, else for a pending swap, else absorbed once as stale, else reported by itself and the pending command forgotten |
| `HostOutcomes.NackOfSwap` | src/backend/device/m1_device.cpp:1682-1688 | a pending swap takes a NACK before any transfer does |
| `HostOutcomes.TimeoutEnds` | src/backend/device/m1_device.cpp:99-165 | a timeout stops its transfer and reports it, keeps the queues, and for the ESP32 sends FINISH first and expects a stale reply |
| `HostOutcomes.NoTimeoutWithoutTransfer` | src/backend/device/m1_device.cpp:99-165 | without a transfer no timer fires |
| `HostOutcomes.DisconnectEnds` | src/backend/device/m1_device.cpp:1766-1798 | a disconnect stops everything, reports what ran, empties the queues and drops the pending swap and the stale reply; a pending erase and a pending command stay |
| `HostOutcomes.CommandIsConfirmed` | src/backend/device/m1_device.cpp:1561-1601 | each file command is sent and its ACK brings its own confirmation, once, and sets the mounted flag where it should; other ACKs bring none |
| `HostOutcomes.BankOperations` | src/backend/device/m1_device.cpp:1452-1476 | swap and erase send their commands, and a pending one takes the next ACK before anything else, the erase first |
| `HostOutcomes.CommandNumbers` | src/backend/protocol/rpc_protocol.h:38-85 | the command numbers by which the other end tells the commands apart |
| `HostOutcomes.StartAnnounces` | src/backend/device/m1_device.cpp:801-850 | an accepted start sends exactly one START, with the file's size and then the path, a zero word or the flash address, byte by byte |
| `HostOutcomes.RefusedStartReports` | src/backend/device/m1_device.cpp:946-1038 | a start that is not accepted sends nothing, reports one error (a missing file as such), and leaves the rest; a rejected M1 image stays loaded, the others are dropped |
| `HostOutcomes.AcceptedImages` | src/backend/device/m1_device.cpp:977-1038 | an ESP32 image passes at the factory address if and only if it has the bootloader byte and a partition table, at the application's address if and only if it has that byte, no table and at most 1600 KiB, and anywhere else always |
| `HostOutcomes.RejectedUploads` | src/backend/device/m1_device.cpp:637-669 | an upload of files or of a folder while one is queued or running changes nothing but one report |
| `HostOutcomes.EmptyUploads` | src/backend/device/m1_device.cpp:655-678 | no files or no folder: one report, and no queue starts |
| `HostOutcomes.QueueBehindUpdateStalls` | src/backend/device/m1_device.cpp:528-533 | files queued while an update or an erase runs are not uploaded and block every later upload |
| `HostOutcomes.OneSlash` | src/backend/device/m1_device.cpp:650-651 | with or without a slash at its end, a remote directory gets exactly one |
| `HostOutcomes.FilesAreNamed` | src/backend/device/m1_device.cpp:646-653 | each file of an upload goes under its own name into that directory |
| `HostOutcomes.FolderIsNamed` | src/backend/device/m1_device.cpp:680-702 | a folder goes under its own name into that directory, its listing below it |
| `HostOutcomes.RemoteNames` | src/backend/device/m1_device.cpp:692-702 | the remote directories and files are exactly the listed ones, each behind base and slash |
| `HostReports.StepEnds` | src/backend/device/m1_device.cpp:1544-1555 | only the ACK of FINISH adds to the reported completions, and it adds one: its own report, or for a queued file the announcement of the next file or of the end |
| `HostReports.RunEnds` | src/backend/device/m1_device.cpp:1478-1793 | over every run the reported completions are the completed transfers |
| `HostReports.EveryEndIsReported` | src/backend/device/m1_device.cpp:1478-1793 | over every run from the fresh state, read off the log alone: starts are reported completions plus reported aborts plus one if active |
| `Transfers.StartsExactly` | src/backend/device/m1_device.cpp:522-569 | with no swap or queue pending, a start request starts the transfer exactly when nothing runs and the file is acceptable, and leaves a running one alone |
| `Transfers.AckSendsChunk` | src/backend/device/m1_device.cpp:1534-1543 | an ACK in mid-transfer sends the chunk that starts at the acknowledged offset, and changes nothing else of the host |
| `Transfers.AckCompletes` | src/backend/device/m1_device.cpp:1544-1554 | the ACK of FINISH completes the transfer |
| `Transfers.AckedUntilFinish` | src/backend/device/m1_device.cpp:571-598 | from any point of a transfer, as many ACKs as chunks are left send exactly those chunks in order, and one more sends FINISH |
| `Transfers.AckedTransfer` | src/backend/device/m1_device.cpp:571-598 | the whole log of an acknowledged transfer, ending with one FINISH and one completion |
| `Transfers.ChunkCount` | src/backend/device/m1_device.cpp:581-583 | the number of chunks of c bytes is the rest of the file divided by c, rounded up |
| `Transfers.RoundTripsOfWhole` | src/backend/device/m1_device.cpp:852-878 | a transfer of n bytes takes 2 + ceil(n/c) ACKs |
| `Transfers.NotCompleteEarlier` | src/backend/device/m1_device.cpp:1478-1559 | no smaller number of ACKs completes it |
| `Transfers.ChunksReassemble` | src/backend/device/m1_device.cpp:571-598 | the device's content grows by each chunk: from a prefix of the file to the whole |
| `Transfers.ChunksFit` | src/backend/protocol/rpc_protocol.h:21-25 | every DATA payload has more than 4 and at most 4 + c bytes, within MAX_PAYLOAD |
| `Transfers.ProgressMonotone` | src/backend/device/m1_device.cpp:595-597 | up to 42949672 bytes, a later offset is never a lower percentage, and all lie between 0 and 100 |
| `Transfers.FinalProgressExactly` | src/backend/device/m1_device.cpp:595-597 | the percentage of the whole file is 100 if and only if it has at most 42949672 bytes, because offset*100 is 32 bits wide |
| `Transfers.ReportsExactly` | src/backend/device/m1_device.cpp:581-597 | the progress reports in the log of a file below 2 GiB never fall if and only if it has at most 42949672 bytes; the last one is 100 under the same condition; then all lie between 0 and 100 |
| `Transfers.PercentsFall` | src/backend/device/m1_device.cpp:595-597 | above that size there are two consecutive reports of which the second is lower |
| `Transfers.ProgressExactly` | src/backend/device/m1_device.cpp:571-598 | an accepted transfer's reports never fall and end at 100 if and only if its 32-bit size is at most 42949672 |
| `Transfers.AcceptedCompletes` | src/backend/device/m1_device.cpp:571-598 | every accepted transfer completes after the stated number of ACKs with the stated commands, 2 GiB and above included |
| `Transfers.DeliveredExactly` | src/backend/device/m1_device.cpp:544-598 | completion is reported for every accepted file, and the device holds the file if and only if it is smaller than 2 GiB |
| `HonestDevice.DataAppends` | src/backend/device/m1_device.cpp:585-593 | a chunk whose offset is the length received so far is appended |
| `EndToEnd.StepStaysOnTrack` | src/backend/device/m1_device.cpp:1093-1103 | delivering any number of bytes in either direction keeps the end-to-end invariant |
| `EndToEnd.TransferIsSafe` | src/backend/device/m1_device.cpp:571-598 | host, codec and device together, for every cut and interleaving of the two byte streams: the device's content is always a prefix of the file, completion is reported only when the device has the whole file, and the host is idle only then, with the completion as its last report |
| `EndToEnd.RunReports` | src/backend/device/m1_device.cpp:1544-1555 | in no run is a completion reported while the transfer is active |
| `EndToEnd.RunStaysOnTrack` | src/backend/device/m1_device.cpp:1093-1103 | every run keeps that invariant: one command or one reply under way, in whatever pieces, each chunk starting where the device's content ends |
| `EndToEnd.RunTells` | src/backend/device/m1_device.cpp:835-850 | over every run the device is told exactly the payload of the START that was sent |
| `EndToEnd.RequestIsServed` | src/backend/device/m1_device.cpp:522-598 | from an accepted request to the end: where completion is reported, the device holds the file of the request, as many bytes as it was told, under the path or at the address it was told |
| `EndToEnd.RoundsComplete` | src/backend/device/m1_device.cpp:1478-1559 | from any point of the transfer the remaining round trips deliver the file |
| `EndToEnd.TransferCompletes` | src/backend/device/m1_device.cpp:852-878 | an accepted transfer of n bytes is delivered and reported after 2 + ceil(n/c) round trips |
| `FolderUpload.SortSorts` | src/backend/device/m1_device.cpp:704-707 | the sorted list is a permutation, ordered by path length |
| `FolderUpload.SortingPutsParentsFirst` | src/backend/device/m1_device.cpp:704-707 | in whatever order the directories were listed, afterwards each one's parent stands before it |
| `FolderUpload.QueueRuns` | src/backend/device/m1_device.cpp:744-758 | with every command acknowledged, the files of the queue go up one after the other, once each, ending with the queue's length |
| `FolderUpload.DirsRun` | src/backend/device/m1_device.cpp:760-778 | with every MKDIR acknowledged, the rest of the directories is made in order, and only the last ACK starts a file |
| `FolderUpload.FolderUploadRuns` | src/backend/device/m1_device.cpp:664-778 | the complete command log of an acknowledged folder upload, after which the host is quiet |
| `FolderUpload.ParentsFirstMakesAll` | src/backend/device/m1_device.cpp:704-730 | a device that refuses a directory without a parent refuses none of a list with parents first |
| `FolderUpload.FolderTreeIsMade` | src/backend/device/m1_device.cpp:685-730 | the directories of a recursive listing are all made, none refused |
| `FolderDelivery.FileIsStored` | src/backend/device/m1_device.cpp:571-598 | a file's chunks and FINISH store exactly its content under the open path |
| `FolderDelivery.QueueIsStored` | src/backend/device/m1_device.cpp:744-758 | the commands of the queue store its files in order |
| `FolderDelivery.DirsAreMade` | src/backend/device/m1_device.cpp:760-778 | the MKDIR commands make the directories that the tree lemma counts |
| `FolderDelivery.FolderIsDelivered` | src/backend/device/m1_device.cpp:664-778 | after an acknowledged folder upload the card refused nothing, gained exactly the folder's directories, and stored each file's content under its remote path |
| `FolderDelivery.FilesAreDelivered` | src/backend/device/m1_device.cpp:635-662 | after an acknowledged upload of single files into an existing directory, each is stored with its content under its remote path, none refused |
| `FolderDelivery.StoredExactly` | src/backend/device/m1_device.cpp:744-758 | with distinct remote paths each file is found with its content, and every other file is as before |
| `FolderStreams.AckWorks` | src/backend/device/m1_device.cpp:1532-1581 | in a folder upload every ACK brings exactly one next command that fits a frame, or ends the upload with its report |
| `FolderStreams.RunStaysUnderway` | src/backend/device/m1_device.cpp:1093-1103 | over the byte streams, in whatever pieces, one command or one ACK is under way and the card has obeyed everything but the former |
| `FolderStreams.FolderUploadIsSafe` | src/backend/device/m1_device.cpp:664-778 | for every cut and interleaving of the two byte streams, the end of a folder upload is reported only when the card holds the whole folder |
| `FolderStreams.FolderArrives` | src/backend/device/m1_device.cpp:664-778 | after one round trip for each directory and 2 + ceil(n/512) for each file, the card holds the whole folder |
| `QueueEnds.AcksStayShort` | src/backend/device/m1_device.cpp:535-551 | a queue with a file that cannot be started stands still before or at it, over any number of ACKs |
| `QueueEnds.QueueEndsExactly` | src/backend/device/m1_device.cpp:732-758 | with every command acknowledged, a queue reports its end if and only if each of its files can be opened and is not empty |
| `LogLines.LogAssembler.constructor` | src/backend/device/m1_device.cpp:1211-1223 | nothing is buffered or shown at first |
| `LogLines.LogAssembler.OnLogMessage` | src/backend/device/m1_device.cpp:1200-1225 | the lines shown are the non-empty, CR-stripped, newline-terminated lines of buffer plus payload; what has no newline stays buffered |
| `LogLines.LinesConcat` | src/backend/device/m1_device.cpp:1211-1223 | reading on behind the carried tail gives the lines of the whole |
| `LogLines.FragmentationIrrelevant` | src/backend/device/m1_device.cpp:1200-1225 | lines and tail do not depend on how the log was cut into payloads |
| `LogLines.TextsAreShown` | src/backend/device/m1_device.cpp:1211-1223 | texts that end with LF or with CR LF on the wire, cut into payloads anyhow, are shown as exactly the non-empty texts, in order, and what has only begun is carried over |
| `LogLines.LoggedLinesAreShown` | src/backend/device/m1_device.cpp:1213-1222 | a log written line by line is shown line by line, and an unfinished line is carried over |
| `FileList.HandleFileListResp` | src/backend/device/m1_device.cpp:1375-1421 | on every payload the loop stays in bounds and ends with the listing the layout denotes, of at most a tenth of the payload's bytes as entries; an empty payload is no listing |
| `FileList.ParseOfEncode` | src/backend/protocol/rpc_protocol.h:188-197 | parsing undoes the documented layout, with sizes read as signed 32-bit integers |
| `FileList.EveryPayloadIsListing` | src/backend/device/m1_device.cpp:1385-1397 | only an empty payload reports no listing; one without any NUL is a path with no entries |
| `FileList.CutListing` | src/backend/device/m1_device.cpp:1396-1417 | a listing cut short inside an entry shows the entries before it, and of that entry nothing up to nine bytes and all but the rest of its name behind them |
| `FileList.SeenAsMeantExactly` | src/backend/device/m1_device.cpp:1400-1402 | the sizes are the ones meant if and only if all are below 2 GiB |
| `FileList.ListingExactly` | src/backend/device/m1_device.cpp:1375-1421 | the parsed listing is the encoded one if and only if every size is below 2 GiB |
| `NetworkWorker.Worker.constructor` | src/backend/transport/network_worker.cpp:97-107 | a new worker takes no pictures and holds no frames |
| `NetworkWorker.Worker.ArmScreen` | src/backend/transport/network_worker.cpp:97-102 | arming forgets the epoch and the last number |
| `NetworkWorker.Worker.DisarmScreen` | src/backend/transport/network_worker.cpp:104-107 | disarming only stops taking pictures |
| `NetworkWorker.Worker.OnUdpReadyRead` | src/backend/transport/network_worker.cpp:162-203 | the loop takes exactly the pictures that the filter function takes, in order |
| `NetworkWorker.Worker.WriteData` | src/backend/transport/network_worker.cpp:77-95 | a frame goes to the socket, or into the buffer while there is room, or is dropped |
| `NetworkWorker.Worker.OnTcpConnected` | src/backend/transport/network_worker.cpp:109-126 | the buffered frames go out in order and the buffer is empty |
| `NetworkWorker.Worker.OnTcpDisconnected` | src/backend/transport/network_worker.cpp:128-135 | the filter is disarmed and forgets; the buffer is kept |
| `NetworkWorker.Worker.DisconnectFromHost` | src/backend/transport/network_worker.cpp:67-75 | the user's disconnect empties the buffer |
| `NetworkWorker.NewerInWindow` | src/backend/transport/network_worker.cpp:191-197 | within [-32768, 32767] the sixteen-bit comparison decides the comparison of the true numbers |
| `NetworkWorker.WindowIsTight` | src/backend/transport/network_worker.cpp:191-197 | one number further on either side is judged wrongly |
| `NetworkWorker.FilterState` | src/backend/transport/network_worker.cpp:183-198 | the filter's state is the first epoch seen since arming and the highest number of that epoch, modulo 65536 |
| `NetworkWorker.FilterIsRunningMaximum` | src/backend/transport/network_worker.cpp:162-203 | a datagram is taken if and only if it is a record: of that epoch, with a true number above every earlier one of it |
| `NetworkWorker.JunkIsIgnored` | src/backend/transport/network_worker.cpp:171-175 | a datagram of another size or with other leading bytes changes nothing |
| `NetworkWorker.DisarmedTakesNothing` | src/backend/transport/network_worker.cpp:170 | a filter that is not armed takes nothing and stays as it is |
| `NetworkWorker.TakenNumbersIncrease` | src/backend/transport/network_worker.cpp:177-198 | taken pictures are of one epoch and strictly increasing |
| `NetworkWorker.PicturesAreRecords` | src/backend/transport/network_worker.cpp:162-203 | a batch of datagrams after arming yields exactly the pictures of the records, in order |
| `NetworkWorker.TxInvariant` | src/backend/transport/network_worker.cpp:77-126 | at most 64 frames wait, and none while connected |
| `NetworkWorker.NothingAddedOrLost` | src/backend/transport/network_worker.cpp:77-126 | frames are never duplicated; the count is kept exactly unless the buffer was full |
| `NetworkWorker.FramesKeptExactly` | src/backend/transport/network_worker.cpp:77-135 | without a user disconnect, socket plus buffer hold every frame once and in order if and only if no write found 64 waiting |
| `NetworkWorker.UserDisconnectForgets` | src/backend/transport/network_worker.cpp:67-75 | a user's disconnect forgets what waited, keeps what the socket had, and what is written afterwards is kept under the same law |
| `MdnsNames.ReadDnsName` | src/backend/transport/mdns_discovery.cpp:153-187 | on every byte array and offset the reader ends, in bounds, with the name and offset that the reading function denotes, the offset between its start and the end of the data |
| `MdnsNames.PointerRead` | src/backend/transport/mdns_discovery.cpp:168-172 | two bytes are taken for a pointer to an offset if and only if they are 0xC0 plus its high part and its low byte |
| `MdnsNames.ReadingEnds` | src/backend/transport/mdns_discovery.cpp:163-179 | a root label, a cut pointer and a cut label end the name, behind the length byte or at the pointer |
| `MdnsNames.ReaderFollows` | src/backend/transport/mdns_discovery.cpp:160-183 | for a well-formed name the reader collects the labels in front of the last jump it is allowed |
| `MdnsNames.NameReadExactly` | src/backend/transport/mdns_discovery.cpp:153-187 | for a well-formed name the offset ends just past the first pointer or the root label, and all labels are read if and only if none lies behind the tenth pointer |
| `MdnsNames.NinePointersFollowed` | src/backend/transport/mdns_discovery.cpp:156-175 | up to nine pointers the name is read completely |
| `MdnsNames.BuildMdnsQuery` | src/backend/transport/mdns_discovery.cpp:108-140 | the packet: header, the labels with one-byte lengths, root label, type and class |
| `MdnsNames.QueryAsksOnce` | src/backend/transport/mdns_discovery.cpp:114-137 | read field by field, the packet is a standard query with one question, for PTR (12) of class IN (1), behind the root label |
| `MdnsNames.QueryReadsBack` | src/backend/transport/mdns_discovery.cpp:122-136 | the question reads back, ending four bytes before the end, when every label has 1 to 191 bytes |
| `MdnsNames.CutPartChangesName` | src/backend/transport/mdns_discovery.cpp:177-182 | a name with a label cut short is a different name |
| `MdnsNames.QueryReadsBackExactly` | src/backend/transport/mdns_discovery.cpp:108-187 | the question reads back, name and end, if and only if every label has 1 to 191 bytes |

## Left out

- `M1Device.Device.SortDirs`: an insertion sort stands for `std::sort`, so the order among directories of equal path length need not be the library's; every property uses only that the result is sorted and a permutation.
- State, data, offset, size and timer of a transfer are one `Machine` value per transfer in `M1Device`, not five separate fields.
- Texts of error messages: an error report carries its operation and reason, and for a NACK its code.
- URLs and the local file system: paths and names arrive as bytes; turning URLs into local paths, path normalisation and UTF-8 conversion are Qt's. Local files are a map from paths to contents, and a folder listing is a parameter.
- `M1Device.Device.FileCommand`: one method for the five requests that only remember their command code and send it.
- `RpcFrame.FrameCodec.Feed`: a handler that resets the parser from within a frame's signal is not modelled; signals are collected in order and handled afterwards.
- `CrcSession.Session.Crc16ValidateRx`: one thread only; the WiFi worker and the GUI thread share the dialect state in the source, and their interleavings are not modelled.
- `NetworkWorker.Worker.OnUdpReadyRead`: a taken picture is the 1024 bytes handed to the screen buffer; decoding them, and whether the image changed, is not modelled.
- `NetworkWorker.Worker.DisconnectFromHost`: the socket counts as not connected at once, without the closing handshake.
- Text encoding in the file list, the log lines and DNS names: strings are their bytes; the replacement of invalid UTF-8 is not modelled.
- `EndToEnd.TransferIsSafe`: the device is an honest one that executes START, DATA and FINISH in order and answers each with one ACK in the host's dialect; device firmware is not part of this model, and START payloads longer than 8192 bytes (over-long remote paths) are excluded because no receiver accepts them.
- `FolderDelivery.FolderIsDelivered`: remote paths fit a command and have no NUL byte inside, every file is readable, non-empty and below 2 GiB, and the listing contains the parent of everything it contains.
- Keepalive and its suspension, reconnecting, session start-up beyond the dialect reset, device information and the other responses: they depend on real time and on device behaviour that the repository does not show.
- Timeout lengths: a timer is armed or not; how long it runs is not modelled.
- The file download, whose end is a heuristic on chunk length (`src/backend/device/m1_device.cpp:1423-1443`).
- Raw log capture to a file, and the status texts of the ESP32 update.
- `parseMdnsResponse` and the bookkeeping of discovered services.
- DFU and SWD flashing, the self-updater, the application switcher, the GitHub client, the QML user interface and the packaging scripts.
- The screen buffer, log model, device list and version comparison: they would add only easy members.
