# Proofs about the diagnostic firmware and its host tools

This Dafny project models the hardware-independent core of a dual-ECU CAN diagnostics stack and proves
properties of whole runs of it: the ISO-TP transport, the CRC-protected parameter log in flash, the UDS
server with its ECU wiring, the generated DBC bit codecs, the receive queue between interrupt and main
loop, and the scheduler that shares exclusive diagnostic sessions among nodes.

`dafny verify dfyconfig.toml` checks everything.

## How the model is built

Code that changes state step by step appears twice. A pure *step function* on a state datatype says what a
call does (`IsotpTx.Poll`, `ParamLog.Loaded`, `UdsEcu.Processed`, ...), and a class or method with the
source's own fields, loops and branches is proved to do exactly that (`Now() == step(old(Now()))`). The
theorems about runs are then stated on the step functions, for every sequence of calls and every answer of
the surroundings.

| Files | Part of the repository |
|---|---|
| `Bytes.dfy` | bytes, 16- and 32-bit numbers, the wrapping millisecond tick and its modular comparisons |
| `IsotpFrames.dfy` | the Python packer and unpacker, the plain specification of the transport |
| `IsotpTx.dfy`, `IsotpSenderRuns.dfy` | the C sender; what it puts on the channel, block size and STmin |
| `IsotpRx.dfy`, `IsotpReceiverRuns.dfy` | the C receiver; transfers over a lossy channel |
| `IsotpTimers.dfy` | when either side times out, over whole runs; what each frame is answered |
| `IsotpLink.dfy` | both endpoints joined by lossless channels |
| `Crc32.dfy` | the reflected CRC-32 of RFC 1952, section 8 |
| `ParamStore.dfy`, `ParamImages.dfy`, `ParamBytes.dfy` | parameter snapshots, their 80-byte images, damage to them, which bytes are accepted |
| `ParamLog.dfy`, `ParamLogRuns.dfy` | the append-only log on flash that programs erased words only |
| `ParamTorn.dfy`, `ParamEmpty.dfy`, `ParamLogMaps.dfy` | what half-written images decode to; the log as a map under any power cuts |
| `UdsAccess.dfy`, `UdsAccessRuns.dfy`, `UdsLockout.dfy` | session, S3 timer and security access; the delay after wrong keys |
| `UdsEcu.dfy`, `UdsEcuRuns.dfy`, `UdsEcuStorage.dfy` | the whole ECU: identifiers, deferred writes, routines, storage |
| `UdsEcuHistories.dfy`, `UdsPromises.dfy`, `UdsSaves.dfy` | what led to a routine's work; when announced answers are sent; when a save succeeds |
| `UdsAnswers.dfy` | what each service answers, code by code and byte by byte |
| `UdsEcuLockout.dfy`, `UdsEcuInstances.dfy` | the lockout of the whole ECU; histories from boot |
| `Words.dfy`, `DbcCodec.dfy`, `DbcLaws.dfy` | bit rows and C operators, both codecs, their agreement |
| `RxQueue.dfy` | the ring queue, and its statements interleaved with the interrupt |
| `Scheduler.dfy`, `SchedulerJobs.dfy`, `SchedulerEnds.dfy` | the schedulers, all interleavings of clients and workers, what becomes of each job, and how they end |

What the surroundings decide is a parameter of the step: the tick, whether the CAN driver accepts a frame and
still transmits one, how many words the flash controller programs before it fails, the verdict of the
self-test, how a job's function ends. One call sees one tick value.

Where the source does otherwise than its documentation or a caller would have it, the model follows the source:

- The ten-second lockout after three wrong keys in a row (`docs/uds_week5.md:40`) fails in four ways. A change of
  session, to any other one, empties the count (`firmware/common/uds_server.c:135-138`): `ThreeInARow` says
  exactly when the third key starts the delay, and `SessionChangeDefeatsLockout` gives a run of wrong keys without
  delay. A delay that ends on tick zero is none, because zero stands for "no delay"
  (`firmware/common/uds_server.c:116`): `WrapDefeatsLockout`. And a delay that no request has ended comes back
  24.8 days later, in the second half turn of the clock: `DelayComesBack`. The delay is kept in RAM, so a restart
  ends it: `RestartDefeatsLockout`. Between restarts `SeedAfterThirdWrong`, and for the whole ECU
  `EcuSeedExactly`, say exactly when a seed is given again.
- A sender whose last block is exactly full waits for a flow control frame that nobody owes it and ends in a
  timeout although delivery succeeded (`firmware/common/isotp.c:487` comes before `:496`).
  `SettledMeansDelivered` and `TimesOutThoughDelivered` state this as it is.
- A read of identifiers is refused for lack of room one byte per identifier too early
  (`firmware/common/uds_server.c:258`). `ReadAnswersExactly` states this for every request, and
  `FittingReadRefused` shows an answer of seven bytes that a buffer of seven bytes does not get.
- The receiver copies a single frame without looking at the size of its buffer
  (`firmware/common/isotp.c:551-581`). A buffer of one to six bytes can overrun; the model then reports
  `Overrun` and stops. `OverrunsExactly` says when, and `SmallBufferOverruns` shows a frame.
- The final answer that a pending note announces (`docs/uds_nrc_test_cases.md:18`) is not always sent. A refused
  routine request forgets the pending answer of the routine it names, before any check of session or lock
  (`firmware/common/uds_server.c:694-698`); a result request to the other routine and a second deferred write
  replace what was pending; a restart drops it; a result request that asked to suppress its positive answer
  stays silent also after the note (`firmware/common/uds_server.c:1280-1291`); and a poll without room for the
  answer uses it up. `NoteMeansDeferred` says when the note goes out, and
  `ResultPromiseKeptExactly` and `WritePromiseKeptExactly` say exactly when bytes of an answer follow;
  `PromisedAnswerIsLost`, `SecondResultReplacesFirst`, `SecondWriteReplacesFirst` and `PromisedAnswerIsSilenced`
  are histories from boot.
- A write of no bytes is accepted and announced, and always ends in a programming failure (`EmptyWriteFails`); and
  when the log is full or jammed by a half write, every save fails until a restart (`StuckUntilRestart`).
- A pending erasure is carried out although session and lock have gone in the meantime
  (`firmware/common/uds_server.c:1253-1266`): `LateErasure`.
- A write that loses power can leave neither the old nor the new parameters but values that nobody wrote, when
  the torn image happens to carry the checksum of erased flash (`firmware/common/param_log.c:53-81`).
  `TornDecodesExactly` says when, `ThirdStoreAppears` proves that such a write exists, and
  `RestartShowsAnother` is a history from boot. A cut clear never does this (`CutClearIsRefused`).
- STmin is kept between the building of frames. A frame that the driver accepts late can be followed on the
  channel sooner than that, by as much as it was late: `AcceptedApart` and `LateAcceptanceIsClose`.
- `Get` with identifier 0 matches an empty entry of the store (`ParamImages.ZeroDidMatchesBlank`); all map
  properties are about the three known identifiers.
- Mutual exclusion of the scheduler needs the default session not to be listed as exclusive when there are
  two nodes or more; `ExclusionExactly` gives this as an equivalence.

## Main results

1. **Transport.** Over lossless channels every interleaving in which no deadline passes keeps both block
   counters in step, can be completed from any time on, and delivers exactly the payload; the sender ends well
   exactly when BS is 0 or does not divide the number of consecutive frames. Over a channel that loses frames
   in both directions, one transfer delivers the payload once or nothing, and overruns the buffer exactly when
   that is too small for the single frame that arrives. Whatever happens, the frames accepted by the channel
   are a prefix of the packed payload. Over any run, both sides time out exactly when N_As, N_Bs, N_Cr or N_Ar has
   passed since the event that the standard counts from, a WAIT included.
2. **Parameter log.** From erased flash, any run of writes, clears, restarts, compactions and power cuts
   accepts and answers as a plain map does at every point; a cut write is taken for a finished one exactly
   when its torn slot decodes, and then shows the written values up to the cut and 0xFF behind it. When a torn
   slot decodes is stated exactly; a cut clear never leaves one that does. Any damage within four adjacent bytes
   of an image is noticed. Which images are accepted, and when start-up succeeds, is stated exactly.
3. **ECU.** After any calls and wherever programming fails, the identifier table in RAM shows the log's values
   or the defaults; when a restart shows the same is stated exactly. Access is open only through a seed
   answered rightly by the very next key attempt. When wrong keys start a delay, when it is over, when an answer
   is announced and whether its bytes are sent, and when a save succeeds are stated exactly, for all runs. Every
   change of an identifier is accounted for, back to a request that the documented rules allow. A routine works
   at most once per start, and only after an admitted start and a later admitted result request. The answers of all
   services are fixed to their bytes; several identifiers are read as one after the other.
4. **Codecs.** Word-shift packing equals bit-by-bit encoding in any order, unpacking equals decoding, and
   unpacking undoes packing exactly for raw values in range. Where the bits of a signal lie is told by data bits
   alone: a big-endian one goes down within a byte and on to bit 7 of the next.
5. **Queue and scheduler.** The queue is a bounded, untorn FIFO however pushes interrupt pops; exclusive
   sessions exclude each other, futures are set once, as the last call of their job says, counters count them, jobs are taken in the order of their
   submission, and from every reachable state
   some way to go on sets every future that was promised.

## Model

| member | source | states |
|---|---|---|
| Bytes.ElapsedIsTrueTime | firmware/common/isotp.c:503-506 | the wrapped difference of two ticks never exceeds the true time between them and equals it within one turn of the clock |
| Bytes.ReachedIsTrueTime | firmware/common/uds_server.c:5-8 | the modular deadline test is exact for deadlines and lateness below 2^31 ms |
| Bytes.ReachedExactly | firmware/common/uds_server.c:5-8 | without bounds, the test says yes exactly in the half turns of the clock that begin at the deadline and every whole turn after it |
| IsotpFrames.PackMessage | diagnoser/transport/isotp.py:75-91 | packing rejects empty and over-long payloads and otherwise yields the single frame, or the first frame and the consecutive frames numbered modulo 16 |
| IsotpFrames.UnpackFrames | diagnoser/transport/isotp.py:94-121 | reassembly of frames of any length, with each of its errors; a frame that is too short to be read is an error, and slices stop at its end |
| IsotpFrames.UnpackInvertsPack | diagnoser/transport/isotp.py:75-121 | unpacking the packed frames gives the payload back for every length from 1 to 4095 |
| IsotpFrames.UnpackAnswers | diagnoser/transport/isotp.py:94-121 | of the frames of a longer message, the first that is empty, of another kind or out of number decides the error; if there is none, the bytes of all frames are cut to the declared length, or it is not reached |
| IsotpTx.Sender.constructor | firmware/common/isotp.c:220-275 | the whole state of an idle sender; zero timeouts and padding stand for the defaults |
| IsotpTx.Sender.ServiceEnqueue | firmware/common/isotp.c:41-69 | one attempt to hand the waiting frame to the driver, or its timeout |
| IsotpTx.Sender.ScheduleFrame | firmware/common/isotp.c:71-83 | a frame becomes the waiting one and is offered at once |
| IsotpTx.Sender.BuildFrame | firmware/common/isotp.c:85-155 | the copy loops leave header, payload bytes and padding in the frame |
| IsotpTx.Sender.SendSf | firmware/common/isotp.c:85-102 | a single frame carries the whole payload |
| IsotpTx.Sender.SendFf | firmware/common/isotp.c:104-132 | a first frame carries length and six bytes, and flow control is awaited |
| IsotpTx.Sender.SendNextCf | firmware/common/isotp.c:134-162 | the next chunk goes out with the next sequence number; its time is that of building |
| IsotpTx.Sender.StartTransfer | firmware/common/isotp.c:323-375 | busy and length checks, then the first frame of the transfer |
| IsotpTx.Sender.HandleFrame | firmware/common/isotp.c:382-430 | CTS grants a block, WAIT refreshes the deadline, anything else ends the transfer |
| IsotpTx.Sender.AdvanceTransfer | firmware/common/isotp.c:474-517 | flow-control wait, full block, end of payload and STmin in the source's order, then the next frame |
| IsotpTx.Sender.PollTransfer | firmware/common/isotp.c:432-518 | one poll: the waiting frame, the one on the wire, then the next step |
| IsotpSenderRuns.SentIsPrefixOfPacked | firmware/common/isotp.c:47-162 | under any polls, incoming bytes, refusals and timeouts the accepted frames are a prefix of the packed payload, and all of it when the transfer ends well |
| IsotpSenderRuns.BlockSizeHonoured | firmware/common/isotp.c:393-429 | between two accepted CTS frames with BS > 0 at most BS consecutive frames are built |
| IsotpSenderRuns.SeparationHonoured | firmware/common/isotp.c:502-512 | successive consecutive frames are built at least STmin apart in true time, across clock wraps |
| IsotpSenderRuns.AcceptedApart | firmware/common/isotp.c:41-69 | on the channel they are at least STmin apart, less the time for which the driver kept the earlier one waiting; so fully when it was accepted in the call that built it |
| IsotpSenderRuns.LateAcceptanceIsClose | firmware/common/isotp.c:502-512 | the bound is met: with STmin 10, a frame refused at 0 and accepted at 9 is followed by one accepted at 10 |
| IsotpTimers.TimesOutExactly | firmware/common/isotp.c:432-518 | over any run of a transfer, a poll ends it with a timeout exactly if a refused frame was built N_As ago, or one on the wire was accepted N_As ago, or no frame is with the driver and the wait for flow control began or was last prolonged by a WAIT N_Bs ago after the first frame, N_Cr ago after a block |
| IsotpTimers.DueInTrueTime | firmware/common/isotp.c:474-485 | in true time, within half a turn of the clock: exactly from the end of the wait on |
| IsotpTimers.WaitOnlyProlongs | firmware/common/isotp.c:405-413 | an expected WAIT changes the deadline and nothing else, and never ends the transfer |
| IsotpTimers.WaitInstance | firmware/common/isotp.c:405-413 | N_Bs 1000, start at 0, WAIT at 900: the transfer goes on at 1000 and times out at 1900 |
| IsotpTimers.FrameAnswers | firmware/common/isotp.c:382-430 | by the first byte of an incoming frame: unexpected, no flow control, overflow, unknown status, or accepted; a CTS sets BS and STmin |
| IsotpTimers.StartAnswers | firmware/common/isotp.c:323-375 | a start is refused exactly as empty, busy or longer than 4095 bytes, and then changes nothing |
| IsotpTimers.PollDoes | firmware/common/isotp.c:487-512 | a poll in time does nothing while a frame is with the driver or flow control awaited; then a full block begins the next wait, a payload that is out ends the transfer, and otherwise a frame is built unless the last is less than STmin old |
| IsotpRx.Fallback.Choose | firmware/common/isotp.c:292-306 | a receiver without buffer of its own gets the static one if it is the first to ask, else none; the static one is never shared |
| IsotpRx.Receiver.constructor | firmware/common/isotp.c:277-321 | the whole state of an idle receiver on the given buffer, of whatever size |
| IsotpRx.Receiver.ServiceFlowControl | firmware/common/isotp.c:164-193 | one attempt to hand over the waiting flow control frame, or its timeout |
| IsotpRx.Receiver.SendFlowControl | firmware/common/isotp.c:195-218 | a flow control frame with the configured BS and STmin is built and offered |
| IsotpRx.Receiver.Reset | firmware/common/isotp.c:821-834 | all progress is forgotten, the buffer stays |
| IsotpRx.Receiver.HandleSingle | firmware/common/isotp.c:551-581 | a single frame becomes the message, or the reason why not, an overrun of the buffer included |
| IsotpRx.Receiver.HandleFirst | firmware/common/isotp.c:583-642 | a first frame starts reception, or answers overflow, or aborts a running one |
| IsotpRx.Receiver.HandleConsecutive | firmware/common/isotp.c:644-692 | a consecutive frame in sequence is stored, completes the message or ends a block; any other aborts |
| IsotpRx.Receiver.HandleFrame | firmware/common/isotp.c:537-695 | dispatch on the frame type |
| IsotpRx.Receiver.PollReception | firmware/common/isotp.c:725-784 | flow control hand-over, its transmission, then the wait for the next frame |
| IsotpRx.Receiver.Read | firmware/common/isotp.c:791-814 | the complete message is handed out once, if it fits |
| IsotpTimers.RxTimesOutExactly | firmware/common/isotp.c:725-784 | over any run, a look times out exactly if a refused flow control frame was built N_Ar ago, or one on the wire was accepted N_Ar ago, or the wait for the next consecutive frame began N_Cr ago |
| IsotpTimers.ArrivalAnswers | firmware/common/isotp.c:537-695 | by the bytes of an incoming frame: exactly when it is busy, overflow or invalid |
| IsotpTimers.AbortsExactly | firmware/common/isotp.c:583-692 | a second first frame and a consecutive frame out of turn end a reception; other frames that do not belong change nothing |
| IsotpTimers.FlowControlBytes | firmware/common/isotp.c:195-218 | the eight bytes of the flow control that a first frame or the end of a block is answered with |
| IsotpRx.OverrunsExactly | firmware/common/isotp.c:551-581 | a frame is written past the end of the buffer exactly when it is a single frame of 1 to 7 bytes, the receiver is idle without unread message, and the buffer exists and is smaller |
| IsotpRx.SmallBufferOverruns | firmware/common/isotp.c:572-576 | a buffer of four bytes and a single frame of five |
| IsotpReceiverRuns.AllOrNothing | firmware/common/isotp.c:583-692 | a fresh receiver with any buffer that sees any subsequence of the packed frames, with any polls and timeouts, delivers the payload at most once or nothing, and overruns exactly when the buffer is too small for the single frame and that arrives |
| IsotpReceiverRuns.LossyTransfer | firmware/common/isotp.c:134-692 | the same for the frames of a real sender run with lost or invented flow control |
| IsotpLink.StartsInStep | firmware/common/isotp.c:323-375 | a fresh sender and receiver start with their counters in step |
| IsotpLink.RunsStayInStep | firmware/common/isotp.c:382-695 | block counters, sequence numbers and contents of both sides stay in step over every run without timeout |
| IsotpLink.SettledMeansDelivered | firmware/common/isotp.c:474-500 | when nothing is under way the receiver holds exactly the payload; the sender still waits exactly when BS > 0 divides the number of consecutive frames |
| IsotpLink.TimesOutThoughDelivered | firmware/common/isotp.c:474-500 | that wait ends in a timeout exactly from its deadline on |
| IsotpLink.RankNeverGrows | firmware/common/isotp.c:382-695 | no event without timeout adds work, and each arrival completes some |
| IsotpLink.ProgressIsPossible | firmware/common/isotp.c:432-518 | an unsettled link has an event within STmin of any time that completes work |
| IsotpLink.CanAlwaysSettle | firmware/common/isotp.c:382-695 | from every reachable link and time on some run settles it: nothing is stuck |
| IsotpLink.TransferDelivers | firmware/common/isotp.c:323-695 | from a fresh start with a buffer for the payload every timely run can be completed, and completion means delivery |
| Crc32.WordRoundTrip | firmware/common/param_store.c:22-41 | writing and reading a little-endian word gives it back |
| Crc32.WordKeepsBytes | firmware/common/param_store.c:22-41 | reading and writing gives the same four bytes |
| Crc32.ComputeCrc | firmware/common/param_store.c:43-58 | the byte loop computes the register of all bytes, complemented |
| Crc32.FeedByte | firmware/common/param_store.c:48-56 | the bit loop feeds one byte |
| Crc32.RegisterInjective | firmware/common/param_store.c:49-56 | a run of bytes maps different registers to different registers |
| Crc32.WordFeeds | firmware/common/param_store.c:49-56 | four bytes act on the register as one exclusive-or with their word |
| Crc32.WindowShows | firmware/common/param_store.c:43-58 | byte strings that differ only within four adjacent bytes have different registers |
| Crc32.ChecksumMeansResidue | firmware/common/param_store.c:43-58 | data carries its checksum exactly when the register over both is one fixed value |
| Crc32.FourBytesReach | firmware/common/param_store.c:43-58 | in front of any bytes, some four bytes take any register to any other: the checksum notices four adjacent bytes and no more |
| Crc32.CheckValue | firmware/common/param_store.c:43-58 | the checksum of the digits 1 to 9 is CBF43926 |
| ParamStore.FindEntry | firmware/common/param_store.c:74-101 | the first entry with an identifier |
| ParamStore.UpdateEntry | firmware/common/param_store.c:234-274 | the entry is overwritten, or the first empty one taken, or the update refused |
| ParamStore.GetValue | firmware/common/param_store.c:211-232 | the value if it is there and fits |
| ParamStore.EncodeImage | firmware/common/param_store.c:103-139 | the image written by offsets is header, records, zeros and checksum of the non-empty entries |
| ParamStore.DecodeImage | firmware/common/param_store.c:141-183 | the parsing loop with all its refusals |
| ParamImages.DecodeInvertsEncode | firmware/common/param_store.c:103-183 | reading back an image gives the non-empty entries in order, exactly when no identifier repeats |
| ParamBytes.DecodesExactly | firmware/common/param_store.c:141-183 | an image is accepted exactly if it starts with 42 44 32 50 01 00, carries its checksum, and has at most three records, each of a known identifier that no earlier one has and of at most seventeen bytes; it stands for these |
| ParamBytes.ImageBytes | firmware/common/param_store.c:103-139 | all eighty bytes of the empty image, its checksum included |
| ParamImages.EntriesReadBack | firmware/common/param_store.c:162-181 | reading stops exactly at a repeated identifier |
| ParamImages.TidyRoundTrip | firmware/common/param_store.c:276-294 | a store as the log keeps it survives being written and read |
| ParamImages.BurstsAreNoticed | firmware/common/param_store.c:141-154 | any change within four adjacent bytes of a decodable image, checksum included, makes it undecodable |
| ParamImages.OneByteIsNoticed | firmware/common/param_store.c:141-154 | so does any change of one byte |
| ParamImages.UpdateIsAssignment | firmware/common/param_store.c:211-274 | a known identifier always has room, and reads after an update are those of a map |
| ParamImages.ZeroDidMatchesBlank | firmware/common/param_store.c:88-101 | identifier 0 finds an empty entry while one is left |
| ParamLog.Sector.Write | firmware/ecu-f407/Core/Src/app_param_storage.c:70-118 | anything not aligned to words is refused; other data is programmed in order until a word is not erased or programming fails |
| ParamLog.Sector.ProgramWords | firmware/ecu-f407/Core/Src/app_param_storage.c:94-113 | the programming loop does what `Program` says |
| ParamLog.Sector.ReadSlot | firmware/ecu-f407/Core/Src/app_param_storage.c:30-45 | reads within the sector only |
| ParamLog.IsErased | firmware/common/param_log.c:11-23 | true exactly for 80 bytes of 0xFF |
| ParamLog.Log.Load | firmware/common/param_log.c:34-109 | the scan takes the last decodable slot before the first erased one and compacts at the first undecodable slot or at the end |
| ParamLog.Log.CompactInto | firmware/common/param_log.c:78-108 | erase, rewrite, read back, or forget everything |
| ParamLog.Log.Get | firmware/common/param_log.c:111-120 | the store's answer |
| ParamLog.Log.Set | firmware/common/param_log.c:122-161 | update, encode, append and read back, or no change of the log |
| ParamLog.Log.Clear | firmware/common/param_log.c:163-197 | an empty snapshot is appended |
| ParamLogRuns.ProgramOnFree | firmware/ecu-f407/Core/Src/app_param_storage.c:94-113 | on erased words exactly the powered prefix of the data is written |
| ParamLogRuns.ScanPasses | firmware/common/param_log.c:53-81 | the scan passes every decodable slot |
| ParamLogRuns.CompactionKeeps | firmware/common/param_log.c:82-108 | compaction keeps the latest store in slot 0 and frees every other slot |
| ParamLogRuns.RestartKeeps | firmware/common/param_log.c:34-109 | a restart keeps the store, touches flash exactly when no slot is free |
| ParamLogRuns.LoadsExactly | firmware/common/param_log.c:34-109 | on any flash: what start-up finds, and that it succeeds exactly if the scan ends at an erased slot, or at an undecodable one or the last and the sector can be erased and rewritten |
| ParamLogRuns.AppendOnSound | firmware/common/param_log.c:147-160 | an append writes the powered prefix and succeeds exactly when all of it was powered |
| ParamLogRuns.CutRecovers | firmware/common/param_log.c:53-160 | after a power cut anywhere in an append, start-up finds the old store, or whatever the torn slot decodes to; a slot is free if there are two |
| ParamLogRuns.JammedRestarts | firmware/common/param_log.c:53-108 | a log jammed by a half write is freed by a restart, which keeps its store unless the half-written slot decodes |
| ParamLogMaps.UncutLogIsAMap | firmware/common/param_log.c:34-197 | as long as no write is cut it does so with no condition at all; clears may be cut anywhere |
| ParamTorn.EntriesMisread | firmware/common/param_store.c:162-181 | parsing a torn image finds all entries, with the bytes that are there, exactly if all their headers were written |
| ParamTorn.TornDecodesExactly | firmware/common/param_store.c:141-183 | a torn slot decodes exactly when all headers were written and the checksum of the torn bytes is all ones; it then shows the entries with the bytes that are there |
| ParamEmpty.EmptyNeverCollides | firmware/common/param_log.c:163-197 | however many words of the empty image were written, the checksum of the torn bytes is not that of erased flash |
| ParamEmpty.CutClearIsRefused | firmware/common/param_log.c:163-197 | so what a cut clear leaves never decodes |
| ParamTorn.CollidingData | firmware/common/param_log.c:122-161 | data of sixteen bytes exist whose image, cut after seventeen words, decodes to a third value |
| ParamTorn.ThirdStoreAppears | firmware/common/param_log.c:53-160 | for a log with two one-byte values there is a write that, cut after seventeen words, makes the restart show a value that nobody wrote |
| ParamTorn.TwoWritesReachIt | firmware/common/param_log.c:122-161 | two writes into erased flash reach that log |
| ParamLogMaps.TornStore | firmware/common/param_store.c:141-183 | a torn image that decodes shows the entries that were being written, each value the written bytes up to some point and 0xFF behind |
| ParamLogMaps.HalfWriteJams | firmware/common/param_log.c:147-160 | half a write leaves a slot that is not free, whatever it decodes to, and the slots behind it free |
| ParamLogMaps.AnyRunIsAMap | firmware/common/param_log.c:34-197 | from erased flash every run of writes, clears, restarts and power cuts answers at every point as a map does; a cut write counts as finished, with blurred values, exactly when its torn slot decodes, and nothing else is ever mistaken |
| UdsAccess.Access.Tick | firmware/common/uds_server.c:1058-1074 | an expired S3 timer returns to the default session, locks and counts |
| UdsAccess.Access.SetSession | firmware/common/uds_server.c:131-151 | a changed session locks; the timer follows the session |
| UdsAccess.Access.KeepAlive | firmware/common/uds_server.c:153-159 | a running timer is restarted |
| UdsAccess.Access.ControlSession | firmware/common/uds_server.c:161-219 | the session service with all replies |
| UdsAccess.Access.AnswerTester | firmware/common/uds_server.c:864-911 | the tester-present service |
| UdsAnswers.SessionAnswers | firmware/common/uds_server.c:161-219 | the session service's codes, its answer 50 with 00 32 01 F4, and that exactly another session locks |
| UdsAnswers.TesterAnswers | firmware/common/uds_server.c:864-911 | the tester service's codes and its answer 7E 00 |
| UdsAccess.Access.CheckDelay | firmware/common/uds_server.c:114-129 | the delay is active, or over and cleared; zero is no delay |
| UdsAccess.Access.NextSeed | firmware/common/uds_server.c:923-949 | one generator step and its seed |
| UdsAccess.Access.IssueSeed | firmware/common/uds_server.c:346-384 | a fresh seed, or zero when unlocked |
| UdsAccess.Access.CheckKey | firmware/common/uds_server.c:386-452 | the seed is used up; the right key unlocks, the third wrong one starts the delay |
| UdsAccess.Access.AccessSecurity | firmware/common/uds_server.c:291-453 | the security service with all its refusals in order |
| UdsAnswers.SecurityAnswers | firmware/common/uds_server.c:291-453 | the security service's codes in order, 36 for the third wrong key and 35 before, and its positive answers |
| UdsAccessRuns.KeysAreBijective | firmware/common/uds_server.c:913-921 | for every salt, keys and seeds correspond one to one |
| UdsAccessRuns.RotatedIsArithmetic | firmware/common/uds_server.c:913-921 | the rotation in the key is multiplication by 2^13 with the top bits added below |
| UdsAccessRuns.FoldedHalves | firmware/common/uds_server.c:913-921 | the fold in the key keeps the high half and exclusive-ors it onto the low half |
| UdsAccessRuns.GeneratorSteps | firmware/common/uds_server.c:923-949 | one step of the seed generator, as a number: the three shifts by 13, 17 and 5 |
| UdsAccessRuns.SeedsAreUsable | firmware/common/uds_server.c:923-949 | a seed is never zero nor all ones, and the state itself otherwise |
| UdsEcuInstances.DocumentedOpening | firmware/common/uds_server.c:291-453 | from boot, byte by byte: 10 03, 27 01 with seed 87 98 5A A5, and of all keys exactly E1 74 F5 DA opens; any other is answered 7F 27 35 |
| UdsAccessRuns.RunsAreConsistent | firmware/common/uds_server.c:106-159 | always: default session exactly without S3, unlocked only outside it and without pending seed, at most two counted attempts |
| UdsAccessRuns.UnlockedMeansOpened | firmware/common/uds_server.c:291-453 | unlocked means a seed was issued and the very next key attempt answered it rightly, with no change of session, expiry or lock since |
| UdsAccessRuns.EachSeedIsTriedOnce | firmware/common/uds_server.c:395-410 | between two key attempts a new seed was issued |
| UdsAccessRuns.HonestTesterGetsIn | firmware/common/uds_server.c:346-452 | in whole requests with their ticks, a tester that answers the seed bytes it received with their key gets in exactly if the session has not expired when the key arrives, in particular within five seconds |
| UdsLockout.AttemptsAreTheRow | firmware/common/uds_server.c:106-138 | the attempt counter is, modulo three, the number of wrong keys since the last right key, lock, expiry or change of session |
| UdsLockout.DelayStartsExactly | firmware/common/uds_server.c:412-424 | a wrong key sets the delay exactly when it is the third of its row, or the sixth and so on; nothing else sets it |
| UdsLockout.ThreeInARow | firmware/common/uds_server.c:412-424 | three wrong keys with no attempt between them start the delay exactly when nothing has ended the row in between: no lock, no expiry, no change of session |
| UdsLockout.NeverDelayed | firmware/common/uds_server.c:131-138 | without a third key of a row there is no delay, however many wrong keys come |
| UdsLockout.SessionChangeDefeatsLockout | firmware/common/uds_server.c:135-138 | a run from the initial state: two wrong keys, another session, a third wrong key, no delay, and the next seed |
| UdsLockout.DelayStands | firmware/common/uds_server.c:114-129 | until a security request comes at a time when the delay is released, no event of any kind issues a seed, unlocks or changes the delay |
| UdsLockout.LockedOut | firmware/common/uds_server.c:412-424 | for ten seconds after the third wrong key of a row no event of any kind issues a seed or unlocks, unless the end falls on tick zero |
| UdsLockout.LockoutIsExact | firmware/common/uds_server.c:114-129 | a seed request at any later time is served exactly when the delay is released: its end is tick zero, or ten seconds have passed and the clock is in the half turn from its end |
| UdsLockout.SeedAfterThirdWrong | firmware/common/uds_server.c:114-129 | in every run between restarts, the first security request after the third wrong key of a row that may find the delay released, if it asks for a seed in a live session, gets one exactly when it is released |
| UdsLockout.WrapDefeatsLockout | firmware/common/uds_server.c:116-119 | a run from the initial state in which the third wrong key of a row is followed at the same tick by a fresh seed |
| UdsLockout.DelayComesBack | firmware/common/uds_server.c:114-129 | a run in which a tester who returns 24.8 days after three wrong keys is refused for the delay |
| UdsEcuLockout.EcuDelayStands | firmware/common/uds_server.c:114-129 | within the ECU, the delay of the third wrong key of a row since the last restart stands through all calls but a restart, until a security request that may find it released |
| UdsEcuLockout.EcuSeedExactly | firmware/common/uds_server.c:114-129 | a seed request to the ECU then gets its seed exactly when the delay is released |
| UdsEcuLockout.RestartDefeatsLockout | firmware/common/uds_ecu.c:118-185 | a history from boot: three wrong keys set the delay, a restart forgets it, and the next seed is given at the same tick |
| UdsAccessRuns.ExpiresExactly | firmware/common/uds_server.c:1065-1073 | a tick ends the session exactly in the half turns of the clock that begin five seconds after it was kept alive, and then locks and counts |
| UdsAccessRuns.SessionIsKept | firmware/common/uds_server.c:1058-1176 | outside the default session less than five seconds of true time have passed since the last accepted keep-alive |
| UdsEcu.Ecu.constructor | firmware/common/uds_ecu.c:118-185 | the initial state, with the log's values over the defaults |
| UdsEcu.Ecu.AttachStorage | firmware/common/uds_did_db.c:125-169 | each writable identifier takes the loaded value if it fits |
| UdsEcu.Ecu.ResetDids | firmware/common/uds_ecu.c:32-40 | the table as initialisation builds it |
| UdsAnswers.FirstReads | firmware/common/uds_did_db.c:16-123 | what both variants answer to a read of each identifier before anything is written |
| UdsEcu.Ecu.ReadData | firmware/common/uds_server.c:221-289 | the first unreadable identifier decides, then the room, then all values in order |
| UdsAnswers.ReadsJoin | firmware/common/uds_server.c:262-288 | with room for it, reading identifiers `a` and then `b` shows what reading `a` shows followed by what reading `b` shows |
| UdsAnswers.RefusalsJoin | firmware/common/uds_server.c:238-256 | the first identifier that cannot be read decides the code |
| UdsAnswers.ReadAnswers | firmware/common/uds_server.c:221-289 | one identifier: 31 if unknown, 7E outside its sessions, no room, or 62 with its two bytes and its value |
| UdsAnswers.TwoNames | firmware/common/uds_server.c:262-288 | 22 F1 93 01 00 shows the hardware name and then the custom value |
| UdsEcu.Ecu.WriteData | firmware/common/uds_server.c:455-569 | refusals in order, then a deferred or an immediate write |
| UdsAnswers.WriteAnswers | firmware/common/uds_server.c:455-549 | with the log attached, the codes of a refused write in order, and else the note 7F 2E 78 |
| UdsAnswers.ImmediateWrite | firmware/common/uds_server.c:550-569 | without the log the custom value is set at once and answered 6E 01 00 |
| UdsEcu.Ecu.CommitPending | firmware/common/uds_server.c:1201-1251 | saved first, shown only when saved |
| UdsEcu.Ecu.CallHook | firmware/common/uds_ecu.c:90-106 | the self-test's verdict, or the log cleared and then the table reset |
| UdsAnswers.WorkReports | firmware/common/uds_ecu.c:63-115 | the second request for a result does the work; its result is the verdict of the self-test, or 0 or 1 exactly as the log could be cleared or not, and stays the routine's result |
| UdsEcu.Ecu.HandleRoutine | firmware/common/uds_ecu.c:42-116 | the handler's start, stop and result behaviour |
| UdsEcu.Ecu.PerformRoutine | firmware/common/uds_server.c:744-861 | start, stop and result requests that are not refused |
| UdsEcu.Ecu.ControlRoutine | firmware/common/uds_server.c:660-862 | the routine service with its refusals in order |
| UdsAnswers.RoutineAnswers | firmware/common/uds_server.c:660-862 | the codes of a refused routine request in order, and the answers to a start and a stop |
| UdsEcuInstances.SelfTestLife | firmware/common/uds_server.c:660-862 | from boot, byte by byte: a self-test is started, announced, answered by the poll, repeated, not stopped when complete, stopped when running, and without result when stopped |
| UdsEcu.Ecu.Process | firmware/common/uds_server.c:1076-1179 | tick, dispatch, and keep-alive after positive or pending answers |
| UdsAnswers.Dispatched | firmware/common/uds_server.c:1076-1179 | the first byte picks the service; an empty request is answered 7F 00 13, an unknown service with code 11 |
| UdsAnswers.Prolongs | firmware/common/uds_server.c:1076-1179 | a positive answer or a note, and an accepted session or tester request even when silent, restarts the five seconds; no other call moves the end of a session |
| UdsEcu.Ecu.PollPending | firmware/common/uds_server.c:1181-1293 | the deferred write first, else the pending routine |
| UdsEcuRuns.AccessIsARun | firmware/common/uds_server.c:1076-1179 | the ECU's session and security state is that of the run of its events since the last restart |
| UdsEcuRuns.UnlockedEcuWasOpened | firmware/common/uds_server.c:291-453 | the unlock history for the whole ECU |
| UdsEcuRuns.NegativeChangesNothing | firmware/common/uds_server.c:1076-1179 | a final negative response leaves everything as the tick alone would, with two exceptions stated exactly: a key message that finds an elapsed delay or a pending seed changes the security service, and a routine request that names the routine whose answer is pending forgets that answer |
| UdsEcuRuns.NeededExceeds | firmware/common/uds_server.c:238-260 | the room that a read asks for exceeds the bytes it writes by one for each identifier |
| UdsEcuRuns.ReadAnswersExactly | firmware/common/uds_server.c:258-288 | a readable request is answered exactly when the buffer holds the answer and one byte more for each identifier, else it lacks room |
| UdsEcuRuns.FittingReadRefused | firmware/common/uds_server.c:258-265 | the ECU name, an answer of seven bytes, is refused in a buffer of seven and given in one of eight |
| UdsEcuRuns.PendingWasAccepted | firmware/common/uds_server.c:526-549 | a pending write is the latest accepted one, with its bytes |
| UdsEcuRuns.DidChangesAreAccounted | firmware/common/uds_server.c:455-1251 | over any run a value changes only by erasure, by the commit of the latest accepted write, or by an accepted write that is not deferred |
| UdsEcuRuns.RunsKeepRoutinesOk | firmware/common/uds_ecu.c:42-116 | a routine has worked exactly when it is complete, and only a running one is waited for |
| UdsEcuRuns.WorksOncePerStart | firmware/common/uds_ecu.c:63-108 | between two accepted starts a routine works at most once |
| UdsEcuRuns.ResultStays | firmware/common/uds_server.c:815-827 | a complete routine keeps its result until its next start |
| UdsEcuRuns.ResultRepeats | firmware/common/uds_server.c:815-827 | every admitted result request repeats it and changes nothing |
| UdsEcuHistories.WorkWasPermitted | firmware/common/uds_server.c:660-862 | from boot on, whenever a routine works it was started by an accepted request and asked for its result by a later admitted one, each while session and lock allowed it, with no restart or other start since; work within a request is permitted at that time as well |
| UdsEcuHistories.ErasureWasPermitted | firmware/common/uds_ecu.c:63-108 | every erasure of the table was commissioned in this way |
| UdsEcuInstances.LateErasure | firmware/common/uds_server.c:1253-1266 | a history from boot: the tester gets in, asks for the erasure and leaves the session, which locks; the next poll erases all the same |
| UdsEcuInstances.RefusedForgets | firmware/common/uds_server.c:694-723 | a result request refused for its session still loses the pending answer: polls stay silent from then on |
| UdsEcuInstances.PromisedAnswerIsLost | firmware/common/uds_server.c:694-723 | a history from boot in which a promised answer is lost in this way |
| UdsPromises.PendingIsTheWriters | firmware/common/uds_server.c:526-549 | the pending write is always that of the latest call that deferred one since the last poll or restart |
| UdsPromises.WritePromiseKeptExactly | firmware/common/uds_server.c:1201-1251 | after a deferred write, the next poll sends its final answer exactly if in between there was no restart and no other deferred write, and the poll has room for three bytes; the write is carried out without that room too |
| UdsPromises.PendingIsTheAskers | firmware/common/uds_server.c:694-861 | the pending result is always that of the latest call that deferred one and was not forgotten since |
| UdsPromises.ResultPromiseKeptExactly | firmware/common/uds_server.c:1253-1292 | from boot on, after a deferred result, the next poll without pending write sends the five bytes of its answer exactly if in between there was no restart, no request naming the routine and no other deferred result, the request had not asked for silence, and there is room |
| UdsPromises.NoteMeansDeferred | firmware/common/uds_server.c:526-549 | the note that an answer follows goes out exactly when a write or a result is deferred and there is room for the note |
| UdsPromises.LostForGood | firmware/common/uds_server.c:694-861 | a promise that was lost is never kept later |
| UdsEcuInstances.SecondResultReplacesFirst | firmware/common/uds_server.c:823-858 | a history from boot in which two results are promised and one is given |
| UdsEcuInstances.SecondWriteReplacesFirst | firmware/common/uds_server.c:526-549 | a history from boot in which two writes are promised and the first is neither saved nor answered |
| UdsEcuInstances.PromisedAnswerIsSilenced | firmware/common/uds_server.c:1280-1291 | a history from boot: a result request with suppressed positive answer gets the note, the self-test is carried out, and nothing follows |
| UdsSaves.SaveSucceedsExactly | firmware/common/uds_server.c:1201-1251 | a pending write is stored, shown and confirmed exactly if the next slot of the log is free, there are data, and programming is whole; else nothing changes and the answer is the programming failure |
| UdsSaves.WriteConfirmedExactly | firmware/common/uds_server.c:1201-1251 | over runs: the next poll confirms a deferred write exactly under these conditions, if the write was not dropped or replaced and there is room for the answer |
| UdsSaves.StuckUntilRestart | firmware/common/param_log.c:122-197 | a log without free slot keeps store and flash through all calls but a restart |
| UdsSaves.RestartFreesSlot | firmware/common/param_log.c:82-108 | a restart frees a slot whenever the log has two or more |
| UdsEcuInstances.EmptyWriteFails | firmware/common/uds_server.c:518-549 | a history from boot: a write of no bytes is accepted, announced, and answered with the programming failure |
| UdsEcuStorage.WritesFollowTheRules | firmware/common/uds_server.c:467-535 | a write request is accepted exactly when one of the three documented rules on identifier, size, session and lock allows it, whatever is stored |
| UdsEcuStorage.AppendHealthy | firmware/common/param_log.c:147-160 | wherever programming fails, an append takes effect as a whole or not at all, and the log stays one that a restart can read |
| UdsEcuStorage.TableFollowsStore | firmware/common/uds_did_db.c:125-169 | the table of the updated store is the old table with that one value |
| UdsEcuStorage.WrittenIsReadBack | firmware/common/uds_server.c:221-289 | once a deferred write is confirmed, reading the identifier in any session shows exactly its bytes, or lacks room |
| UdsEcuStorage.StepCoherent | firmware/common/uds_server.c:1076-1293 | every call keeps table and log in agreement, wherever programming fails |
| UdsEcuStorage.RamAgreesWithFlash | firmware/common/uds_ecu.c:32-40 | from erased flash, after any calls, failed saves and restarts, each writable identifier shows the log's value or its default; a restart shows the same table exactly if that table shows the store that the restart finds, in particular whenever the next slot does not decode |
| UdsEcuStorage.RamAgreesOnReliableFlash | firmware/common/uds_did_db.c:125-169 | a restart always shows the same table when each programming works completely or not at all |
| UdsEcuStorage.RebootCoherent | firmware/common/uds_ecu.c:118-185 | a restart shows the store that it finds in flash: that of the next slot if it decodes, else the one in use |
| UdsEcuStorage.FailedSaveAgreesExactly | firmware/common/uds_server.c:1201-1251 | after a save that fails after some words RAM keeps the old table, and a restart shows the same exactly if the store in the torn slot would |
| UdsEcuInstances.RestartShowsAnother | firmware/common/uds_ecu.c:118-185 | a history from boot on erased flash: after a cut save RAM shows the default, and a restart a value that nobody wrote |
| UdsEcuStorage.CommitsFollowTheRules | firmware/common/uds_server.c:455-1251 | over any run with the log attached a value changes only by erasure or by the poll that commits the latest accepted write, which one of the documented rules allowed when it was requested |
| Words.OperatorsAreArithmetic | diagnoser/dbc/codegen.py:127-170 | shifts and masks of bit rows are multiplication, division and remainder of the words they stand for |
| Words.LowBits | diagnoser/dbc/bits.py:48-61 | the low bits of any integer, negative ones included, stand for its remainder |
| DbcCodec.EncodeSignal | diagnoser/dbc/bits.py:32-65 | the loop sets exactly the signal's bits and stops at the end of the data |
| DbcCodec.DecodeSignal | diagnoser/dbc/bits.py:6-29 | both byte orders read the signal's bits; a big-endian signal beyond the data is an error |
| DbcLaws.CellsInOrder | diagnoser/dbc/bits.py:6-65 | a little-endian signal starts with its lowest bit and goes up; a big-endian one starts with its top bit and goes down within a byte, from bit 0 to bit 7 of the next |
| DbcLaws.EncodedWrites | diagnoser/dbc/bits.py:32-65 | encoding puts the value's bits into these cells, as far as the data reaches, and touches no other bit |
| DbcLaws.DecodedExactly | diagnoser/dbc/bits.py:20-29 | a big-endian signal cannot be read exactly when one of its cells lies behind the data |
| DbcCodec.LittleDecode | diagnoser/dbc/bits.py:14-18 | the shift-and-mask expression reads the signal's bits |
| DbcCodec.Pack | diagnoser/dbc/codegen.py:103-142 | the generated pack code; or the error of generating it, for a signal that does not fit or a signed one of no bits; or the error that the code shifts too far, for a message of more than eight bytes or a signal of no bits behind the word |
| DbcCodec.Unpack | diagnoser/dbc/codegen.py:144-182 | the generated unpack code with sign extension, and the same errors, for signals of any length |
| DbcLaws.PackIsEncode | diagnoser/dbc/codegen.py:103-142 | for disjoint signals packing is encoding one signal at a time, in any order |
| DbcLaws.EngineDataPacked | firmware/common/project_dbc.c:281-298 | the engine message with speed 134A and temperature 7D is packed as 13 4A 7D and five zeros |
| DbcLaws.UnpackIsDecode | diagnoser/dbc/codegen.py:144-182 | unpacking reads every signal as the decoder does, sign included |
| DbcLaws.NothingIsZero | diagnoser/dbc/bits.py:12-13 | a signal of no bits reads as zero, unpacked or decoded |
| DbcLaws.UnpackUndoesPack | diagnoser/dbc/codegen.py:103-182 | unpacking packed data, of any length that has room for the signal, gives a raw value back exactly when it is in range |
| DbcLaws.ShownIffInRange | diagnoser/dbc/bits.py:77-79 | the width-reduced value equals the raw one exactly in range |
| DbcLaws.ShortBigEndianMisread | diagnoser/dbc/codegen.py:146-152 | every big-endian signal that fits a shorter message is misread there |
| RxQueue.PushAppends | firmware/common/can_rx_queue.c:16-52 | a push is refused exactly when too long or sixteen frames wait, else it goes last |
| RxQueue.Queue.Push | firmware/common/can_rx_queue.c:16-52 | contents, drop counter and result of a push |
| RxQueue.Queue.Pop | firmware/common/can_rx_queue.c:54-67 | the oldest frame, or none |
| RxQueueRuns.InterruptKeeps | firmware/common/can_rx_queue.c:33-50 | a push between any two statements of a pop never touches the frame being copied |
| RxQueueRuns.BoundedFifo | firmware/common/can_rx_queue.c:16-67 | popped frames are an untorn prefix of the accepted ones, at most sixteen wait, drops are counted modulo 2^32 |
| RxQueueRuns.AcceptedUnlessFull | firmware/common/can_rx_queue.c:25-51 | acceptance depends only on length and on the number of unpopped frames |
| RxQueueRuns.EmptyWhenRead | firmware/common/can_rx_queue.c:58-61 | a pop gives up only if all accepted frames were popped when it read the head |
| RxQueueRuns.UninterruptedPop | firmware/common/can_rx_queue.c:54-67 | left alone, the statements do what the pop is specified to do |
| Scheduler.RunAttempts | diagnoser/tools/scheduler.py:244-267 | all attempts but the last timed out; the status is ok, timeout or error exactly as the last one returned, timed out or raised, and a timeout only when the retries are used up |
| Scheduler.QueuedScheduler.Build | diagnoser/tools/scheduler.py:125-163 | a scheduler with nothing queued, or the first setting that is refused |
| Scheduler.QueuedScheduler.Submit | diagnoser/tools/scheduler.py:165-190 | errors in order, those of retries and retry delay included, else the job goes last |
| Scheduler.QueuedScheduler.Close | diagnoser/tools/scheduler.py:202-207 | every worker is told to stop after its queue |
| Scheduler.QueuedScheduler.TakeJob | diagnoser/tools/scheduler.py:217-229 | the next job is taken and counted |
| Scheduler.QueuedScheduler.TryAcquire | diagnoser/tools/scheduler.py:285-298 | one look at the sessions: taken, given up, or waiting |
| Scheduler.QueuedScheduler.RecordJob | diagnoser/tools/scheduler.py:231-283 | the outcome is counted and the future set |
| Scheduler.QueuedScheduler.ReleaseSession | diagnoser/tools/scheduler.py:268-303 | a held session is given back |
| Scheduler.SessionGuard.Enter | diagnoser/tools/scheduler.py:61-75 | unknown node, conflict, or entered |
| Scheduler.SessionGuard.Leave | diagnoser/tools/scheduler.py:77-79 | back to the default session |
| SchedulerRuns.ExclusionExactly | diagnoser/tools/scheduler.py:285-303 | at most one node is in an exclusive session in every interleaving, exactly when the default session is not exclusive or there are no two nodes |
| SchedulerRuns.CallsWhileHolding | diagnoser/tools/scheduler.py:229-270 | an exclusive job's function runs only while its node holds the session and no other node any |
| SchedulerRuns.BlockersMove | diagnoser/tools/scheduler.py:285-298 | every node that blocks a waiting worker is inside its own job, and finishing its call and giving the session back needs nobody else |
| SchedulerEnds.StoppedMeansDone | diagnoser/tools/scheduler.py:202-229 | a worker that has stopped has an empty queue, and all futures of its node are set |
| SchedulerEnds.EveryFutureCanBeSet | diagnoser/tools/scheduler.py:217-303 | from every reachable state some continuation without new jobs sets every submitted future |
| SchedulerRuns.RequestsAreConserved | diagnoser/tools/scheduler.py:224-283 | per node requests = ok + timeouts + errors + skipped + running; futures are set for exactly the finished jobs; zero attempts means skipped |
| SchedulerRuns.FuturesAreSetOnce | diagnoser/tools/scheduler.py:272-283 | a set future never changes |
| SchedulerRuns.SettingIsProper | diagnoser/tools/scheduler.py:231-283 | the future that a step sets was not set, belongs to the current job, has at most retries + 1 attempts, and its status is ok, timeout or error exactly as the last call returned, timed out or raised, or skipped without a call |
| SchedulerJobs.JobsAreTakenInOrder | diagnoser/tools/scheduler.py:165-229 | a worker is busy with the very jobs submitted to its node, one after the other, each with its session, retries and delay |
| SchedulerJobs.CallsAreRemembered | diagnoser/tools/scheduler.py:244-267 | the calls that decide a job's outcome are exactly those made for it |
| SchedulerJobs.CountersCountOutcomes | diagnoser/tools/scheduler.py:231-283 | each counter of a node is the number of its futures that were set to that status |
| SchedulerRuns.FinishedTriesAreTheLoops | diagnoser/tools/scheduler.py:249-267 | the calls of a finished job are those of the retry loop |
| SchedulerRuns.GuardKeepsOneHolder | diagnoser/tools/scheduler.py:61-79 | entering and leaving keep at most one holder; a conflict is reported only if entering would break that |

## Left out

- Hardware: the HAL, registers, clocks, watchdogs, both `main.c` loops and the CAN driver. A driver is its answers, flash an array of bytes whose erased words can be programmed once.
- NULL arguments and unbound callbacks, whose only effect in the source is an early return.
- `Isotp_RouteFrame`, a dispatch on one nibble, and `IsotpTx_Reset`.
- Ticks that advance within one call: each call of the model sees one tick value.
- Several transfers into one half-finished receiver, sub-millisecond and reserved STmin codes, extended addressing and CAN FD.
- ParamLogMaps.LogIsAMap, ParamLogMaps.StepRefines: cuts of writes that leave a slot which decodes are left to `ParamLogMaps.AnyRunIsAMap`, which has no such condition.
- Power loss inside start-up compaction, where the source erases before it rewrites, an erase that fails half-way, and reads that lie during write verification.
- The `ParamStore_Set` and `ParamStore_Load` variants that keep a single image, which the log replaces.
- Storage buffers of identifiers are values: that `data` and `storage` of an identifier share memory, and that the server's table is a second copy of the database's, is not modelled.
- `UdsServer_Init` on malformed tables: the ECU wiring passes fixed ones. P2 timings are the wired constants.
- The session and security fields of `UdsServer_t` are an object of their own (`UdsAccess.Access`) inside the ECU, which the source keeps in one structure.
- DbcLaws.UnpackIsDecode: big-endian signals are read from eight-byte messages only, because the generated code misreads shorter ones (`ShortBigEndianMisread`).
- Scaling and offset of signals, which are floating point; raw integer values are modelled. The text that the generator emits is modelled by what it does.
- Bytes and words of the codecs are rows of bits; `Words.OperatorsAreArithmetic` ties their operators to numbers.
- Real threads, `close()` racing with `submit()`, exits from jobs other than by exceptions, the pause between retries (its length is checked on submission) and wall-clock limits: each section under a lock is one atomic step.
- The command line, reports, trace tools, stress runners, virtual ECU and counter-only helpers: they would add only easy members.
