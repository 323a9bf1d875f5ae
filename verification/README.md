# UtilitaryRS, verified

A Dafny model of the UtilitaryRS protocol stack and proofs about it: the frame checksum, the incremental
parser, the protocol handler with its senders and replies, the composite of several nodes, and the device
hub with discovery, queues, timeouts and stop-and-wait file transfer. `dafny verify dfyconfig.toml` checks
everything.

Objects of the source are classes here, with fields their methods change in place, and each method is
proved equal to a function on values; what the protocol promises is then proved of those functions, over
all inputs and whole runs.

| files | content |
|---|---|
| `Bytes`, `Messages`, `Codec` | machine integers, packed layouts, the frame grammar, decoding |
| `Crc8Steps`, `Crc8` | the checksum: table form, bit-serial form, and the feedback register both equal |
| `ParserSpec`, `RsParser` | the framing automaton as functions, and the parser object that refines it |
| `ParserSoundness`, `ParserStreams`, `ParserRejects`, `ParserRecovery` | what is delivered, from which streams, what becomes of rejected bytes, and how long a broken frame can hold the parser |
| `WireLayout` | every message and the frame byte by byte |
| `NodeSpec`, `RsHandler`, `RoundTrip`, `ClientCalls` | what a node does with a message, the handler object, and senders to clients end to end, kind by kind |
| `MultiNode`, `Quiescence` | a composite behind one parser; exchanges on a bus die out |
| `DeviceSpec`, `DeviceRuns` | one device of the hub: its scheduler, answers and user calls; coherence |
| `DeviceTransfer`, `DeviceAccounts` | a transfer from the hub's side; lifecycle, losses, results, queues and pacing over whole runs |
| `DeviceTurns`, `DeviceReports`, `DeviceTelemetry`, `FileHistory` | what a device's turns come to and what is told of it: refusals, delays, timeouts, reports, telemetry, and files as they were asked for |
| `FileSafety` | hub, lossy channels and receiver together: files arrive whole or are not reported Ok |
| `FilePaths`, `FileDelivery`, `FileLimits` | runs built step by step; which files can be delivered, exactly |
| `FileWindow`, `FileCount` | the 256-message window, exactly; the chunk count of a second file |
| `HubSpec`, `HubRuns`, `DeviceHub` | the whole hub: many devices, one counter, a name table; the hub object |
| `HubReceives`, `HubOrders`, `HubRecovery` | what the hub hears and tells; from the user's calls to the frames; how lost devices come back |
| `HubFiles`, `HubFrames`, `HubClock` | file safety for a whole hub; the frames behind it; the clock that coherence needs |
| `Sequences` | removing an element, joining sequences |

## Findings

- A length-prefixed frame whose length byte is zero never reaches the checksum (`RsParser.hpp:116-130`).
  With a buffer of more than 261 bytes it silences the handler for good; up to 261 bytes the parser always
  recovers within one buffer's length of noise. An empty name, an empty blob answer and the chunk of an
  empty file are never heard for the same reason.
- How a stream is cut matters once a byte is rejected: `update` reports only the bytes before it as parsed, and a
  call that parses none makes the handler drop the fragment (`RsHandler.hpp:57-69`). A frame after a header of
  unknown type is delivered or lost depending on the cut.
- Chunk lengths are cast to a byte (`DeviceHub.hpp:451, 576, 600`). If the file and the chunk size are both
  256 or more, the transfer comes to an empty chunk and gets no further: 256 bytes in chunks of 256 at once,
  300 bytes in chunks of 300 after 44 bytes. If one of them is at most 255 no chunk is empty, unless the
  file or the chunk size is.
- No sender of a chunk checks that the frame fits its message buffer (`RsHandler.hpp:173-194`), and a parser
  reports only what is shorter than its own (`RsParser.hpp:154`): with buffers of 256 bytes on both sides, as in
  `test/HubTest.cpp:222-223`, a chunk may have 248 bytes and no more. `DeliverableExactly` has the condition for
  any sizes.
- `sendFile` does not reset `chunkSent`, and an acknowledged finalize message does not reset the context:
  the finalize message of a second one-byte file tells of 2 chunks (`DeviceHub.hpp:253-260, 356-360`).
- A cancelled transfer always reports Error: the context is reset before its `packetAck` is looked at
  (`DeviceHub.hpp:628-630`).
- The file size is cast to 32 bits on the wire while the checksum and the chunks cover the whole file: a
  file of 4 GiB or more is sent completely and then never accepted (`DeviceHub.hpp:439-448`).
- Of several due telemetry units only the last is asked for, but all are marked as asked for: of two units of the
  same period, scheduled one after the other, the first is never asked for (`DeviceHub.hpp:538-548`).
- Only one device found is remembered. If several are found between two calls of `process`, the question for the
  name of the lowest number goes to the one found last, and those for the others to everyone
  (`DeviceHub.hpp:512-520`).
- The transfer machine relies on the clock: if `Time::milliseconds()` reads later, inside `process`, than
  the time `process` was called with, a chunk stays pending after its transfer was cancelled and its
  acknowledgement counts for the next one.
- The check that a length byte exceeds 0xFF (`RsParser.hpp:119`) can never fire and is omitted.

## Assumptions

- Device names are unique, and no device that is to be commanded has the number 0xFF (`README.md:48-49` of
  the repository). The hub takes any name; after one that is empty or another device's, its name table no
  longer leads every device home, which the other operations of the hub object require.
- Channels deliver in order and do not duplicate; they may lose anything. No message or answer outlives
  256 messages of the hub; `FileWindow` shows that this is exactly what is needed.
- Only transfers send file messages. `fileWriteRequest`, `fileWriteChunk` and `fileWriteFinalize` are public in
  the hub's base class; its owner is taken not to call them.
- `messageNumber` is not initialised by the source (`RsHandler.hpp:445`): its first value is arbitrary
  here. Uninitialised fields of packed messages are arbitrary too.
- The file checksum is an arbitrary function of the bytes.

## Model

| member | source | states |
|---|---|---|
| `FileSafety.MovesAreSafe` | include/UtilitaryRS/DeviceHub.hpp:343-371 | The system invariant: a tick, a user call, a delivery, an answer, a loss or any other message of the hub leaves hub, both channels and the receiver in a state where what the receiver holds is what the hub's phase, pending message and packetAck say it holds. |
| `FileSafety.RunsAreSafe` | include/UtilitaryRS/DeviceHub.hpp:552-634 | That invariant at every point of every run that starts with a device just found: any receiver contents, any message counter, and any messages and answers in flight, as after broadcast or repeated probing. |
| `FileSafety.FinalizeMeetsTheFile` | include/UtilitaryRS/DeviceHub.hpp:617-624 | In every such run, whenever the hub emits a finalize message the receiver holds exactly the whole file and was told its size, across losses, Busy answers, repeated requests, cancelled and restarted transfers. |
| `FileSafety.OkMeansAccepted` | include/UtilitaryRS/DeviceHub.hpp:356-360 | In every such run, a file result of Ok is reported only if the receiver, answering the finalize message of this very transfer, accepted exactly this file; and then the file is below 4 GiB. |
| `FileSafety.AnswersArePunctual` | include/UtilitaryRS/DeviceHub.hpp:272-413 | The first answer in flight completes the pending transaction if and only if it is of a kind the device expects (any acknowledgement; an info answer while asked for its name; a blob or health answer to its request) and the two messages are a multiple of 256 apart; with fewer than 256 messages between them it answers that very message. |
| `FileWindow.StaleAnswersAreUnsafe` | include/UtilitaryRS/DeviceHub.hpp:349-352 | From every device just found, if an answer may be 256 messages behind: a run, with a receiver that only ever accepts, in which one acknowledgement held up for 256 messages opens the next transfer, and a finalize message goes out while the receiver does not hold the file. |
| `FileWindow.WindowIsExact` | include/UtilitaryRS/DeviceHub.hpp:349-352 | Every finalize message of every run finds the receiver with the whole file, if and only if nothing in flight and nothing pending is ever 256 messages behind the hub's counter. |
| `FileSafety.TickIsSafe` | include/UtilitaryRS/DeviceHub.hpp:561-624 | A tick of the scheduler keeps the system invariant in every phase of a transfer, with or without a timeout, however old the messages in flight are. |
| `FileSafety.ReceiverIsSafe` | test/HubTest.cpp:76-113 | Any delivery to a receiver that clears on an accepted request, appends on Ok, keeps its buffer on Busy and accepts a finalized file on size and checksum keeps the system invariant, whatever else it answers. |
| `FileSafety.HubGetIsSafe` | include/UtilitaryRS/DeviceHub.hpp:296-373 | Handing the hub the first answer in flight keeps the system invariant. |
| `FileSafety.CancelReportsError` | include/UtilitaryRS/DeviceHub.hpp:626-632 | Acknowledgements apart, a file result is reported exactly on the next turn of a cancelled transfer, and it is Error. |
| `FileLimits.DeliverableExactly` | include/UtilitaryRS/DeviceHub.hpp:241-263 | A file can be delivered, by some legal run in which every frame fits the buffer it is built in and only what a parser of the other side's size reports is heard, if and only if it has 1 byte to 4 GiB - 1, the chunk size is not 0, one of the two is at most 255, the hub's buffer has 23 bytes and the device's 24, and the smaller of chunk size and file leaves 8 bytes of the hub's buffer and 7 of the device's. |
| `FileLimits.FilesGetThrough` | include/UtilitaryRS/DeviceHub.hpp:241-263 | For every such file, chunk size and pair of buffer sizes, and any device name that fits, from any device just found: a legal run, from discovery on, that ends with Ok reported for exactly this file. |
| `FileLimits.ChunksCarrySomething` | include/UtilitaryRS/DeviceHub.hpp:575-606 | No run in which all frames fit puts an empty chunk of a file on the wire if and only if the file and the chunk size are not empty and one of them is at most 255, or the buffers do not hold a name, or not the longest chunk before the empty one. |
| `FileLimits.CuttableSendsNoneEmpty` | include/UtilitaryRS/DeviceHub.hpp:575-606 | If the file and the chunk size are not empty and one of them is at most 255, no run at all puts an empty chunk on the wire, whatever its frames fit. |
| `FileLimits.EqualSizesFalter` | include/UtilitaryRS/DeviceHub.hpp:599-605 | Legal runs that come to an empty chunk, with any buffers of 52 bytes or more: 300 bytes in chunks of 300 once the receiver has 44 of them, 256 bytes in chunks of 256 at once. |
| `FileLimits.RunIsADeviceRun` | include/UtilitaryRS/DeviceHub.hpp:501-646 | A run of hub, channels and receiver is, to the hub's record of the device, one of the runs of which the transfer theorems speak. |
| `FilePaths.HeardIsDelivered` | include/UtilitaryRS/RsParser.hpp:154-157 | What a run may deliver is exactly what an idle handler of the receiving side's buffer size is given when fed the message's frame, and what it may write is a frame no longer than the message buffer. |
| `FileDelivery.ManyExchanges` | include/UtilitaryRS/DeviceHub.hpp:588-606 | From the acknowledgement of any chunk, however many are left, if they all fit the buffers, the exchange goes on until every byte is confirmed and the receiver holds the file, or the next chunk is empty. |
| `HubFiles.OperationsMirror` | include/UtilitaryRS/DeviceHub.hpp:140-168 | Every operation of a whole hub (a pass over all devices, an answer, a user call, any other message) is to the channel of one device, found or not yet, a sequence of safe moves, with the hub's counter and record carried along. |
| `HubFrames.FramesAreCarried` | include/UtilitaryRS/RsHandler.hpp:78-249 | Every operation of the hub writes exactly the frames of its messages, numbered on from its counter, and the channel of a device gets exactly the bodies of those addressed to it or to everyone, in order and under those numbers. |
| `HubFiles.HubRunsAreGood` | include/UtilitaryRS/DeviceHub.hpp:142-167 | At every point of a run of a hub with any number of devices sharing one message counter, from its construction or any time before it finds the device, or just then with anything in flight, the channel of each device is safe and mirrors the hub's record. |
| `HubFiles.HubFinalizeMeetsTheFile` | include/UtilitaryRS/DeviceHub.hpp:468-478 | In such a run, whenever a call of process emits a finalize message to a device, that device's receiver holds exactly the file. |
| `HubFiles.HubOkMeansAccepted` | include/UtilitaryRS/DeviceHub.hpp:356-360 | In such a run, the observer is told Ok for a file, under the name a device goes by, only when that device's receiver accepted exactly that file. |
| `HubFiles.OkComesFromItsDevice` | include/UtilitaryRS/DeviceHub.hpp:356-360 | An Ok told under a device's name is that device's own acknowledgement, never another's and never a turn's. |
| `DeviceTransfer.RunsAreFaithful` | include/UtilitaryRS/DeviceHub.hpp:561-615 | In any environment: the chunks whose Ok was consumed make up the file up to the offset, and an outstanding chunk is the next piece of it. |
| `DeviceTransfer.ChunkOnWire` | include/UtilitaryRS/DeviceHub.hpp:563-605 | In any environment, every chunk sent or sent again is the piece after the confirmed bytes, of the configured length or what is left, cast to a byte; and it is not empty if the file and the chunk size are not and one of them is at most 255. |
| `DeviceTransfer.FinalizeOnWire` | include/UtilitaryRS/DeviceHub.hpp:617-624 | Finalize is sent only when every byte is confirmed, with the checksum of exactly those bytes. |
| `DeviceTransfer.FinalizeCount` | include/UtilitaryRS/DeviceHub.hpp:253-260 | The finalize message tells the right chunk count if and only if the counter was a multiple of 65536 when the file was accepted (for files of fewer than 65536 chunks that can be cut). |
| `DeviceTransfer.CountCarriesOver` | include/UtilitaryRS/DeviceHub.hpp:356-360 | In every timely run: after an acknowledged transfer the next one starts from the last count, more by the number of chunks the last file makes. |
| `FileCount.SecondFileMiscounts` | include/UtilitaryRS/DeviceHub.hpp:253-260 | From any device just found, a legal run of two one-byte files, all acknowledged and the first reported Ok, whose second finalize message tells of 2 chunks where the file makes 1. |
| `FileHistory.FileRequestsAreAsAsked` | include/UtilitaryRS/DeviceHub.hpp:241-263 | In every run, every file request goes out under the file number of the last sendFile that was not refused, read from the calls of the run, and tells the size of its contents in 32 bits. |
| `FileHistory.FileChunksAreAsAsked` | include/UtilitaryRS/DeviceHub.hpp:563-605 | In every timely run, every chunk goes out under that call's file number and is the piece of that call's contents after the confirmed bytes, of its chunk size or what is left, cast to a byte. |
| `FileHistory.FileFinalizesAreAsAsked` | include/UtilitaryRS/DeviceHub.hpp:617-624 | In every timely run, every finalize message goes out under that call's file number with the checksum of that call's contents. |
| `FileHistory.RefusedIsNotAskedAgain` | include/UtilitaryRS/DeviceHub.hpp:349-355 | After a file request is refused, none goes out until another file has been accepted. |
| `DeviceTurns.RefusedFileIsReported` | include/UtilitaryRS/DeviceHub.hpp:349-355 | A file request acknowledged with any code but 0: whatever happens in between, the device's next turn sends nothing, reports exactly an Error and leaves it running. |
| `DeviceTurns.RefusedChunkIsReported` | include/UtilitaryRS/DeviceHub.hpp:607-610 | A chunk acknowledged with a code other than Ok, Wait and Busy: the next turn sends and reports nothing and gives up; the turn after it reports exactly an Error and leaves the device running. |
| `DeviceTurns.WaitEndsInFailure` | include/UtilitaryRS/DeviceHub.hpp:585-587 | A chunk acknowledged with Wait: nothing goes out for 200 ms, the next turn gives up, and the one after it reports exactly an Error. |
| `DeviceTurns.BusyRepeatsTheChunk` | include/UtilitaryRS/DeviceHub.hpp:580-584 | In every timely run, a chunk acknowledged with Busy is sent again on the next turn, byte for byte the one sent last. |
| `DeviceTurns.OkGoesOn` | include/UtilitaryRS/DeviceHub.hpp:588-606 | In every timely run, a chunk acknowledged with Ok is followed on the next turn by another one if any of the file is left; if not, by nothing for 500 ms and then by the finalize message. |
| `DeviceTurns.TimeoutIsReported` | include/UtilitaryRS/DeviceHub.hpp:148-166 | A message unanswered for 200 ms in a transfer, unless it loses the device: on the next turn nothing is sent and exactly an Error is reported. |
| `DeviceTurns.DiscoveryTurns` | include/UtilitaryRS/DeviceHub.hpp:508-520 | The turn of a probed device puts a probe on the wire to the address its name leads to; that of a device asked for its name puts the question on the wire, to the device found last, if any; either is then what an answer is awaited to. |
| `DeviceTurns.TurnInterval` | include/UtilitaryRS/DeviceHub.hpp:503-644 | The time to the next turn: 1000 ms while a device is being found, 50 after a file request, 500 after a finalize message and before the first, 200 on Wait, 100 otherwise; nothing but a turn moves it. |
| `DeviceTelemetry.IdleTurn` | include/UtilitaryRS/DeviceHub.hpp:533-548 | A running device with empty queues: its health is asked for if it has not been for 1000 ms; otherwise the request and the size of the due telemetry unit after which none is due go out, and exactly the due units take the time. |
| `DeviceTelemetry.RequestsAreAskedFor` | include/UtilitaryRS/DeviceHub.hpp:219-232 | In every run, a blob request on the wire is the first the user has queued, or has request and size of a unit the user has scheduled. |
| `DeviceTelemetry.ScheduleIsAsAsked` | include/UtilitaryRS/DeviceHub.hpp:219-232 | In every run, the schedule is exactly what the user has scheduled, in that order. |
| `DeviceTelemetry.HealthIsPaced` | include/UtilitaryRS/DeviceHub.hpp:533-537 | In every run, the health of a device is asked for at most once a second. |
| `DeviceTelemetry.UnitsArePaced` | include/UtilitaryRS/DeviceHub.hpp:538-544 | In every run, a telemetry unit is asked for at most once in its period. |
| `DeviceTelemetry.EqualPeriodsStarve` | include/UtilitaryRS/DeviceHub.hpp:538-548 | Two units scheduled one after the other with the same period: in every run, whatever else happens, the first is never asked for. |
| `DeviceReports.TickReports` | include/UtilitaryRS/DeviceHub.hpp:148-166 | What a tick reports, exactly: a loss, a cancelled transfer's Error, and the type of the message unanswered for 200 ms, whether it was just sent or pending. |
| `DeviceReports.AnswersAreReported` | include/UtilitaryRS/DeviceHub.hpp:272-413 | Every other report is told if and only if its reason occurs, with the code, version, health and flags, or request and data received. |
| `DeviceReports.AnswersAreToTheLastMessage` | include/UtilitaryRS/DeviceHub.hpp:349-371 | In every timely run, whatever is reported on an answer is about the message sent last: it has the answer's number and is of the kind the report is for. |
| `DeviceReports.Remembers` | include/UtilitaryRS/DeviceHub.hpp:282-306 | Name and version are those of the last introduction, and the time is that of the last acknowledgement, known number or not. |
| `DeviceRuns.RunsAreCoherent` | include/UtilitaryRS/DeviceHub.hpp:552-634 | The coherence of device state, transfer state, pending message, packetAck and timers at every point of every run with a timely clock. |
| `DeviceRuns.TickKeepsCoherent` | include/UtilitaryRS/DeviceHub.hpp:142-166 | One scheduler turn with its timeout check keeps coherence, the cancelled transfer's leftover chunk included: it times out in the same call. |
| `DeviceRuns.AnswerKeepsCoherent` | include/UtilitaryRS/DeviceHub.hpp:272-413 | Any acknowledgement, answer or user call keeps coherence, whatever its number and code. |
| `HubClock.CoherenceNeedsTimelyClock` | include/UtilitaryRS/DeviceHub.hpp:656-663 | All devices are coherent in all legal runs of a hub whose clock reads at most a given time later than process was told, if and only if that time is not positive; and likewise if only runs on clocks that never go back count. |
| `HubClock.RunsNeedTimelyClock` | include/UtilitaryRS/DeviceHub.hpp:656-663 | The same for a single device in any environment. |
| `HubClock.LateRunLeavesChunkPending` | include/UtilitaryRS/DeviceHub.hpp:628-632 | For a clock late by any amount: a legal run, from the first probe on and on clocks that never go back, after which a chunk is pending with no transfer under way. |
| `HubClock.StaleAckLeaks` | include/UtilitaryRS/DeviceHub.hpp:563-569 | What a late clock costs, in a legal run on clocks that never go back: the acknowledgement of an old transfer's chunk makes a new one-byte file count as confirmed two calls of process later, with nothing received in between. |
| `DeviceAccounts.StatesFollowLifecycle` | include/UtilitaryRS/DeviceHub.hpp:501-646 | A device state changes only along the lifecycle, for its reason, or to Lost by the twentieth timeout. |
| `DeviceAccounts.LossesAreReported` | include/UtilitaryRS/DeviceHub.hpp:148-158 | Over any run: timeouts are twenty times the losses plus the counter, the counter is below twenty, and every loss is reported once, when the device is next scheduled. |
| `DeviceAccounts.FilesAreAccounted` | include/UtilitaryRS/DeviceHub.hpp:626-632 | Over any run: accepted files are those reported, those abandoned with a lost device, and the one under way. |
| `DeviceAccounts.QueuesAreConserved` | include/UtilitaryRS/DeviceHub.hpp:521-531 | Over any run, through losses and re-registrations: the accepted commands are, in order, those whose turn has come and those queued; likewise the requests. |
| `DeviceAccounts.QueuesReachTheWire` | include/UtilitaryRS/DeviceHub.hpp:415-437 | The accepted items are, in order, those sent and those queued if and only if every turn that takes one finds an address for its device. |
| `DeviceAccounts.TickReports` | include/UtilitaryRS/DeviceHub.hpp:626-641 | A tick reports a loss once, exactly on the next turn of a lost device, and a file result once, exactly on the next turn of a cancelled transfer. |
| `DeviceAccounts.QueueStep` | include/UtilitaryRS/DeviceHub.hpp:182-211 | One event takes from a queue only at its front and adds only at its back; what a turn takes is what goes out if the device has an address, and is dropped if it has none. |
| `DeviceAccounts.QueueTick` | include/UtilitaryRS/DeviceHub.hpp:521-535 | A queued request goes out only when no command waits, a health request only when both queues are empty. |
| `DeviceAccounts.FramesArePaced` | include/UtilitaryRS/DeviceHub.hpp:644 | Any k frames of one device are at least 50 (k - 1) ms apart. |
| `HubRuns.DevicesAreIndependent` | include/UtilitaryRS/DeviceHub.hpp:140-168 | Every hub operation does to each device exactly what that device sees of it, and nothing to the others. |
| `HubRuns.DevicesLiveAlone` | include/UtilitaryRS/DeviceHub.hpp:140-168 | In any run of the hub each device's record is that of a single-device run of its own history. |
| `HubRuns.HubsAreCoherent` | include/UtilitaryRS/DeviceHub.hpp:142-167 | Every device of every run of the hub is coherent. |
| `HubRuns.OperationsAreWellNamed` | include/UtilitaryRS/DeviceHub.hpp:282-293 | Names in the table lead to known devices and the name a device goes by leads back to it; an operation keeps this if and only if it gives no device another's name or an empty one. Names given up stay in the table. |
| `HubRuns.CurrentNamesAreUnique` | include/UtilitaryRS/DeviceHub.hpp:282-293 | Then no two devices go by the same name. |
| `HubRuns.FramesGoHome` | include/UtilitaryRS/DeviceHub.hpp:415-490 | All a device in operation is sent on its turn goes to its own address. |
| `HubRuns.HubQueuesAreConserved` | include/UtilitaryRS/DeviceHub.hpp:175-211 | In every legal run of the hub, the commands and requests each device accepted are those sent to it and those queued. |
| `HubOrders.CommandsReachTheirDevice` | include/UtilitaryRS/DeviceHub.hpp:175-190 | In every legal run of the hub, the commands given for a device by calls that were not refused are, in full and in order, those in the frames written for it and those still queued. |
| `HubOrders.FilesReachTheirDevice` | include/UtilitaryRS/DeviceHub.hpp:241-263 | In every legal run of the hub, every file message in a frame for a device is about the last file given to it by a call that was not refused: its number, its size, a piece of its contents, or their checksum. |
| `HubOrders.TelemetryIsAskedFor` | include/UtilitaryRS/DeviceHub.hpp:219-232 | In every legal run of the hub, a blob request in a frame for a device with no queued requests is for what a user has scheduled for that device. |
| `HubOrders.PassWork` | include/UtilitaryRS/DeviceHub.hpp:140-168 | The work for a device among all frames of a pass is exactly what the device's own turn sends. |
| `HubRecovery.LostDevicesComeBack` | include/UtilitaryRS/DeviceHub.hpp:508-520 | From any well-named hub with a lost device, and any name no other device goes by: a run of passes and of that device's answers to frames the hub has really written for it, after which the device is running under that name. |
| `HubRecovery.FoundDeviceIsAsked` | include/UtilitaryRS/DeviceHub.hpp:512-520 | A device just found, while no other is being asked for its name, is written the question for its name in the next pass, to its own number. |
| `HubRecovery.QuestionGoesTo` | include/UtilitaryRS/DeviceHub.hpp:512-520 | In any hub, the question of the lowest number due to be asked for its name goes to the device found last, if any, and every other one to the address the device's name leads to; each under the number the device's record then awaits. |
| `HubRecovery.FoundTogether` | include/UtilitaryRS/DeviceHub.hpp:512-520 | Any number of devices found between two calls of process: the next one writes a question for each, but to the device's own number only if it is both the lowest and the last found; the lowest one's goes to the last found, the others' to everyone. |
| `HubReceives.KnownDevicesAreHeard` | include/UtilitaryRS/RsHandler.hpp:512-606 | A message of a known device is to its record the event with exactly the message's number and contents, the observer is told what that tells under the device's name, and the acknowledgement that goes back has the code 0, or for a blob the observer's verdict or 1. |
| `HubReceives.UnknownDevicesAreFound` | include/UtilitaryRS/DeviceHub.hpp:296-305 | An unknown device is registered, as found last, by an acknowledgement and by nothing else. |
| `HubReceives.TurnIsSeen` | include/UtilitaryRS/DeviceHub.hpp:140-168 | A device's turn in process is one tick of its record, at the address its name leads to, told under its name; the number of the device found last is used up exactly by a device asked for its name. |
| `HubReceives.ProbesAreWritten` | include/UtilitaryRS/DeviceHub.hpp:125-130 | The frames of probeAll one by one: a probe for each number from 1 up, or as many for everyone, under consecutive numbers. |
| `HubRuns.ReceivedIsAnAnswer` | include/UtilitaryRS/RsHandler.hpp:451-462 | Whatever the hub receives is to its devices one answer or nothing, writes at most one frame, and never advances the message counter. |
| `HubRuns.TurnsTouchEachOnce` | include/UtilitaryRS/DeviceHub.hpp:142-144 | A pass over the devices leaves those whose turn has not come as they were, and never touches names. |
| `DeviceHub.DeviceHub.Process` | include/UtilitaryRS/DeviceHub.hpp:140-168 | The loop of process over the mutable records does what the hub specification says: every device's turn, in the order of numbers, counter, frames and reports included; for hubs in which every name leads home and the next chunks fit their frames. |
| `DeviceHub.DeviceHub.ProcessDevice` | include/UtilitaryRS/DeviceHub.hpp:501-646 | processDevice in place, with its senders' second lookup by name, is the scheduler specification: record, frame, reports and temporaryUid. |
| `DeviceHub.DeviceHub.ProcessRunning` | include/UtilitaryRS/DeviceHub.hpp:521-551 | A running device's turn in place: the front of the command queue, else of the request queue, else a health request, else the last due telemetry unit. |
| `DeviceHub.DeviceHub.MarkDueUnits` | include/UtilitaryRS/DeviceHub.hpp:538-544 | The telemetry loop marks every due unit and yields the last one. |
| `DeviceHub.DeviceHub.ProcessSending` | include/UtilitaryRS/DeviceHub.hpp:561-615 | A sending device's turn in place is the specification's, branch by branch of the last acknowledgement. |
| `DeviceHub.DeviceHub.ProcessTransfer` | include/UtilitaryRS/DeviceHub.hpp:552-634 | A transferring device's turn in place: request, chunk, finalize or cancel. |
| `DeviceHub.DeviceHub.ProcessDiscovery` | include/UtilitaryRS/DeviceHub.hpp:508-520 | A lost, probed or newly found device's turn in place, temporaryUid consumed. |
| `DeviceHub.DeviceHub.CheckTimeout` | include/UtilitaryRS/DeviceHub.hpp:148-166 | The timeout check in place: counter, loss, cancelled transfer, report, pending cleared. |
| `DeviceHub.DeviceHub.HandleAck` | include/UtilitaryRS/DeviceHub.hpp:296-373 | handleAck in place: an unknown device is registered and becomes temporaryUid; the pending message's acknowledgement acts by device state. |
| `DeviceHub.DeviceHub.HandleDeviceInfoAnswer` | include/UtilitaryRS/DeviceHub.hpp:272-294 | handleDeviceInfoAnswer in place, for any name: name, version and name table only for the awaited answer of a device asked for it; the table stays well-formed if and only if the name was free. |
| `DeviceHub.DeviceHub.HandleBlobAnswer` | include/UtilitaryRS/DeviceHub.hpp:375-396 | handleBlobAnswer in place, and its result: the observer's verdict for the awaited answer, Error otherwise. |
| `DeviceHub.DeviceHub.HandleDeviceHealth` | include/UtilitaryRS/DeviceHub.hpp:398-413 | handleDeviceHealth in place: only for the awaited answer. |
| `DeviceHub.DeviceHub.SendFile` | include/UtilitaryRS/DeviceHub.hpp:241-263 | sendFile in place, for any file and chunk size: accepted exactly for a known running device; only that record changes. |
| `DeviceHub.DeviceHub.SendCmdToDevice` | include/UtilitaryRS/DeviceHub.hpp:175-190 | sendCmdToDevice in place: queued exactly for a known running device. |
| `DeviceHub.DeviceHub.SendBlobRequestToDevice` | include/UtilitaryRS/DeviceHub.hpp:196-211 | sendBlobRequestToDevice in place: queued exactly for a known running device. |
| `DeviceHub.DeviceHub.CreateSchedRequest` | include/UtilitaryRS/DeviceHub.hpp:219-232 | createSchedRequest in place: accepted for any known device. |
| `DeviceHub.DeviceHub.SendChunkImpl` | include/UtilitaryRS/DeviceHub.hpp:451-466 | sendChunkImpl: the frame, the pending record and the counter, or nothing for an unknown name or another file number; the chunk has to fit only if it is sent. |
| `DeviceHub.DeviceHub.Receive` | include/UtilitaryRS/RsHandler.hpp:512-606 | Any received message at the hub, with the hub's own handlers: which record changes, what is reported, and the acknowledgement that goes back, for a blob with the observer's verdict. |
| `DeviceHub.DeviceHub.ProbeAll` | include/UtilitaryRS/DeviceHub.hpp:125-130 | The non-blocking probe: one probe for every number from 1 up to the maximum, or as many broadcasts. |
| `DeviceHub.DeviceHub.LeadsHome` | include/UtilitaryRS/DeviceHub.hpp:415-424 | Looking a known device up by its own name finds the same record, or no address. |
| `RsParser.RsParser.Update` | include/UtilitaryRS/RsParser.hpp:39-160 | The in-place loop of update computes the automaton of the specification: final state, buffer and number of bytes parsed. |
| `RsParser.RsParser.StepInPlace` | include/UtilitaryRS/RsParser.hpp:50-157 | One byte: consumed with the specified successor, or rejected with the parser reset. |
| `RsParser.Create` | include/UtilitaryRS/RsParser.hpp:209-218 | create writes preamble, message and checksum, also when the message lies in the target buffer one byte in. |
| `ParserSoundness.DoneIsAFrame` | include/UtilitaryRS/RsParser.hpp:45-159 | After any history of update and reset calls the fill position is inside the buffer, and in state Done the content has a known type, its prescribed length, and the last bytes parsed are exactly its frame. |
| `ParserSoundness.FedMessagesAreWellFormed` | include/UtilitaryRS/RsHandler.hpp:53-71 | A handler only ever processes well-formed messages shorter than its buffer. |
| `ParserStreams.FrameIsDelivered` | include/UtilitaryRS/RsParser.hpp:209-218 | A frame fed to an idle handler is delivered if and only if its content is well formed and shorter than the buffer; then it alone is, and the parser is idle. |
| `ParserStreams.StreamIsDecoded` | include/UtilitaryRS/RsHandler.hpp:53-71 | Any list of frames, with preamble-free noise around them, cut into fragments anywhere: exactly that list is processed, in order, and the parser is idle. |
| `ParserStreams.OneByteIsDetected` | include/UtilitaryRS/RsParser.hpp:136-144 | One changed byte of a frame, other than preamble, type or length byte: nothing is delivered and the parser is idle. |
| `ParserRejects.RejectedByteIsReadAgain` | include/UtilitaryRS/RsParser.hpp:39-160 | A rejected byte in the middle of a fragment, and all that follows it, is read as by an idle parser, after the messages before it were delivered; first in a fragment it costs the whole fragment. |
| `ParserRejects.UnknownTypeIsGivenUp` | include/UtilitaryRS/RsParser.hpp:64-79 | A header of type 13 or more is given up at its last byte, which is then looked at again, or costs the fragment it comes first in. |
| `ParserRejects.CutsMatter` | include/UtilitaryRS/RsParser.hpp:74-78 | A frame after such a header is delivered if both come in one fragment, and lost if the cut is before the header's last byte. |
| `ParserRejects.TooLongIsGivenUp` | include/UtilitaryRS/RsParser.hpp:154-157 | A frame whose content fills the buffer is given up at the byte that would fill it; that byte, the rest of the frame and what follows are read as by an idle parser. |
| `ParserRecovery.RecoversExactly` | include/UtilitaryRS/RsParser.hpp:102-134 | From any reachable state, noise of one buffer's length always leaves the parser idle if and only if the buffer has at most 261 bytes. |
| `ParserRecovery.NextFrameIsDelivered` | include/UtilitaryRS/RsHandler.hpp:57-69 | After such noise, the next frame that fits is delivered, exactly once. |
| `ParserRecovery.ZeroChunkSilences` | include/UtilitaryRS/RsParser.hpp:116-130 | With a larger buffer, one chunk frame of length zero silences the handler for good. |
| `RsHandler.RsHandler.Update` | include/UtilitaryRS/RsHandler.hpp:53-71 | The feeding loop over parser and handler objects processes exactly the messages the specification finds in the fragment. |
| `RsHandler.RsHandler.Process` | include/UtilitaryRS/RsHandler.hpp:512-606 | process in place: the matching client handler with the decoded fields, and the due reply or acknowledgement. |
| `RsHandler.RsHandler.Dispatch` | include/UtilitaryRS/RsHandler.hpp:525-600 | The switch of process: which handler is called, which reply is written, and whether an acknowledgement is still due. |
| `RsHandler.RsHandler.SendCommand` | include/UtilitaryRS/RsHandler.hpp:78-91 | The next number and the frame of exactly these fields. |
| `RsHandler.RsHandler.SendBlobRequest` | include/UtilitaryRS/RsHandler.hpp:98-111 | The next number and the frame of exactly these fields. |
| `RsHandler.RsHandler.SendDeviceInfoRequest` | include/UtilitaryRS/RsHandler.hpp:116-127 | The next number and the frame of exactly these fields. |
| `RsHandler.RsHandler.SendRebootCmd` | include/UtilitaryRS/RsHandler.hpp:133-145 | The next number and the frame of exactly these fields. |
| `RsHandler.RsHandler.FileWriteRequest` | include/UtilitaryRS/RsHandler.hpp:152-165 | The next number and the frame of exactly these fields. |
| `RsHandler.RsHandler.FileWriteChunk` | include/UtilitaryRS/RsHandler.hpp:173-194 | The next number and the frame of exactly these fields, built in place. |
| `RsHandler.RsHandler.FileWriteFinalize` | include/UtilitaryRS/RsHandler.hpp:202-216 | The next number and the frame of exactly these fields. |
| `RsHandler.RsHandler.SendProbe` | include/UtilitaryRS/RsHandler.hpp:221-233 | The next number and the frame of exactly these fields. |
| `RsHandler.RsHandler.SendHealthRequest` | include/UtilitaryRS/RsHandler.hpp:238-249 | The next number and the frame of exactly these fields. |
| `RsHandler.RsHandler.SendAnswer` | include/UtilitaryRS/RsHandler.hpp:403-432 | The answer's frame if and only if its size is the requested one and the frame fits; nothing otherwise. |
| `RsHandler.RsHandler.SendAck` | include/UtilitaryRS/RsHandler.hpp:451-462 | The acknowledgement's frame under the number it answers, the counter left alone. |
| `RsHandler.RsHandler.SendHealth` | include/UtilitaryRS/RsHandler.hpp:467-480 | The health answer's frame under the number it answers. |
| `RsHandler.RsHandler.ProcessDeviceInfoRequest` | include/UtilitaryRS/RsHandler.hpp:485-505 | The info answer's frame with as much of the name as its length byte can say, under the number it answers. |
| `RoundTrip.FrameReachesClient` | include/UtilitaryRS/RsHandler.hpp:512-606 | A frame written by any sender, fed to an idle peer it is addressed to, is delivered if and only if it fits and, if length-prefixed, is not empty; then the peer is given the sender's own field values, and its parser is idle. |
| `ClientCalls.ClientIsAsked` | include/UtilitaryRS/RsHandler.hpp:525-600 | For commands, reboots, blobs and file messages: the frame fed to an idle peer makes exactly one call of the handler for that kind, with exactly the message's fields, and its result goes back as the acknowledgement under the same number. |
| `ClientCalls.ClientIsTold` | include/UtilitaryRS/RsHandler.hpp:525-600 | For acknowledgements, introductions, health messages and probes: the handler called, if any, with exactly the message's fields, and the fixed reply with the peer's own version, name, health and flags. |
| `ClientCalls.ClientIsAskedForBlob` | include/UtilitaryRS/RsHandler.hpp:543-549 | For a blob request: the handler's arguments, and the answer's frame if it has the size asked for and fits, an error if not, or the code returned, none for 0. |
| `ClientCalls.OthersAreIgnored` | include/UtilitaryRS/RsHandler.hpp:519 | A message for somebody else has no effect. |
| `RoundTrip.AnswerFitsPeer` | include/UtilitaryRS/RsHandler.hpp:405-411 | An answer sendAnswer lets through fits its buffer and any peer's of the same size; the peer is given it unless it is empty. |
| `Codec.DecodeEncode` | include/UtilitaryRS/RsTypes.hpp:74-160 | Decoding an encoded message gives back every field, little-endian ones included, whatever the uninitialised bytes hold. |
| `Codec.EncodedIsWellFormed` | include/UtilitaryRS/RsHelpers.hpp:22-77 | An encoded message satisfies the frame grammar if and only if it is not a length-prefixed one with nothing to carry. |
| `WireLayout.MessageLayout` | include/UtilitaryRS/RsTypes.hpp:74-160 | Every message byte by byte, in plain numbers: receiver, transmitter, type, number, length, and every field at its place, numbers least significant byte first. |
| `WireLayout.FrameLayout` | include/UtilitaryRS/RsParser.hpp:209-218 | A frame is the letter R, the message, and the message's checksum starting from zero. |
| `MultiNode.MultiNode.Update` | include/UtilitaryRS/MultiNode.hpp:34-52 | Each node of a composite ends as if the fragment had been fed to its own handler with the composite's parser. |
| `MultiNode.MultiNode.RouteMessage` | include/UtilitaryRS/MultiNode.hpp:56-66 | Each node ends as if it had been given the message directly. |
| `MultiNode.MultiNode.UnaddressedIsIgnored` | include/UtilitaryRS/MultiNode.hpp:63 | The routing filter is redundant: process makes the same test. |
| `Quiescence.ReplyRanksLower` | include/UtilitaryRS/RsHandler.hpp:525-604 | Every reply of process ranks strictly below the message it answers. |
| `Quiescence.StepIsLighter` | include/UtilitaryRS/RsHandler.hpp:519-604 | On a bus of any nodes, a delivery to all of them, or a loss, makes the messages in flight lighter. |
| `Quiescence.ExchangesEnd` | include/UtilitaryRS/RsHandler.hpp:602-604 | Any exchange ends: no run has more steps than the weight it starts with. |
| `Crc8.Calculate` | include/UtilitaryRS/Crc8.hpp:62-72 | The table loop computes the feedback register's checksum. |
| `Crc8.Update` | include/UtilitaryRS/Crc8.hpp:81-100 | The bit-serial loop, from any checksum, computes the same register; so the two forms agree on every input. |
| `Crc8.TableIsShifts` | include/UtilitaryRS/Crc8.hpp:21-53 | Every table entry is its index after eight shifts of the register of x^8 + x^5 + x^4 + 1. |
| `Crc8.SerialIsShifts` | include/UtilitaryRS/Crc8.hpp:88-96 | Eight serial steps are eight shifts of the register. |
| `Crc8.RegisterConcat` | include/UtilitaryRS/Crc8.hpp:81-100 | Updating in two pieces is updating with the whole. |
| `Crc8.RegisterLinear` | include/UtilitaryRS/Crc8.hpp:62-72 | The checksum is xor-linear on messages of equal length. |
| `Crc8.RegisterInjective` | include/UtilitaryRS/Crc8.hpp:62-72 | Different running checksums never meet again on the same bytes. |
| `Crc8.OneByteChangesCrc` | include/UtilitaryRS/Crc8.hpp:62-72 | Changing any one byte of a message of any length changes its checksum. |
| `Crc8.ResidueIsZero` | include/UtilitaryRS/Crc8.hpp:62-72 | A message followed by a byte has checksum zero if and only if that byte is its checksum. |

## Left out

- `Crc64`: the file checksum is a parameter, any function; nothing is claimed about the table or its bit-serial form.
- Liveness of transfers under an arbitrary environment: a request is sent again every 50 ms and refreshes its own timeout, and a Wait answer leads to Cancel; only that a file can get through is shown.
- Real clocks, threads, the serial interface and the pauses of the blocking `probeAll`: times and clock readings are parameters, frames are logged.
- The observer's and the clients' own code: their answers are arbitrary functions of all they were told; calls back into the hub from inside a callback are not modelled.
- Virtual calls: the hub owns a handler object instead of being one, and `Receive` does what the handler's `process` does with the hub's overrides; the feeding loop is proved once, for the handler.
- The hub's acknowledgements of answers are not on the channel of `FileSafety`: they take no number, and a receiver neither replies to them nor acts on them.
- The pointer to the file data: the file is a value here, so a caller that changes or frees it during a transfer is not modelled.
- `getReceiverFromMsg`, `getTranceiverFromMsg`, `retToString`, and health and flags that change after construction.
- What a length-prefixed frame with length zero does to the bytes after it is proved of the parser; the channels of `FileSafety` may deliver or lose such a frame, and a run whose deliveries are heard never delivers it.
- DeviceHub.DeviceHub.SendChunkImpl: requires a chunk that is sent to fit its frame; the source leaves that to its caller.
- RsHandler.RsHandler.FileWriteChunk: requires the frame to fit the message buffer, which the source does not check.
- RsHandler.RsHandler.constructor: requires a buffer for every fixed-size frame and the node's own name, which the source does not check.
- DeviceHub.DeviceHub.Process: requires that a chunk due in this call fits its frame, which the source does not check, and that the name table leads every device home; with two devices of one name the source sends to the last one registered, and records the transaction there.
- DeviceHub.DeviceHub.ProcessDevice: requires the same of the one device.
- DeviceHub.DeviceHub.ProcessTransfer: requires a chunk due to be sent to fit its frame.
- DeviceHub.DeviceHub.ProcessSending: requires a chunk due to be sent to fit its frame.
- HubRuns.HubQueuesAreConserved: is about runs with unique names and a device that is not number 0xFF; QueuesReachTheWire gives the exact condition for one device.
