/**
  One device as the hub sees it (DeviceHub.hpp): what a tick, an answer or a user call does to its
  record, which message goes out, and what the observer is told.
*/
module DeviceSpec {
  import opened Bytes
  import opened Messages

  type Name = seq<byte>

  datatype DeviceState = Probing | InfoRequest | Running | FileTransfer | Suspended | Lost

  datatype Pending = Pending(number: byte, msgType: byte, timestamp: int)

  datatype TransferState = Request | Sending | Finalize | Cancel

  datatype TransferRecord = TransferRecord(
    file: byte, data: seq<byte>, sentOffset: nat, chunkSent: nat, chunkSize: nat,
    packetAck: Option<byte>, firstPacket: bool, state: TransferState)

  const FRESH := TransferRecord(0, [], 0, 0, 0, None, true, Request)

  type Transfer = t: TransferRecord | t.sentOffset <= |t.data| witness FRESH

  datatype Telemetry = Telemetry(req: byte, reqSize: byte, updateTime: int, lastUpdateTime: int)

  datatype Device = Device(
    name: Name, version: DeviceVersion, state: DeviceState, pending: Option<Pending>,
    nextCall: int, lastAck: int, lastHealthReq: int,
    commandQueue: seq<(byte, byte)>, requestQueue: seq<(byte, byte)>,
    telemSched: seq<Telemetry>, timeoutCounter: nat, transfer: Transfer)

  const NO_VERSION := DeviceVersion(0, 0, 0, 0, 0, 0)
  const NEW_DEVICE := Device([], NO_VERSION, InfoRequest, None, 0, 0, 0, [], [], [], 0, FRESH)

  const TIMEOUTS_FOR_LOST := 20
  const HEALTH_PERIOD := 1000
  const ACK_TIMEOUT := 200

  // What the observer is told about a device.
  datatype Report =
    | AckNotReceived(msgType: byte)
    | AckReceived(msgType: byte, code: byte)
    | CommandResult(code: byte)
    | RequestError(code: byte)
    | BlobReceived(request: byte, data: Blob)
    | Registered(version: DeviceVersion)
    | DeviceLost
    | FileWriteResult(code: byte)
    | HealthReceived(health: byte, flags: uint16)

  // ----- the scheduler: `processDevice` -----

  // The device after its turn; the message to initiate, if any, and to whom; the reports; and the
  // time to the next turn.
  datatype Act = Act(dev: Device, to: byte, body: Option<Body>, reports: seq<Report>, updateTime: int)

  // The `*Impl` senders look the device up by name and send nothing to an unknown one.
  function Send(dev: Device, addr: byte, body: Body, updateTime: int): Act {
    Act(dev, addr, if addr == RESERVED_UID then None else Some(body), [], updateTime)
  }

  // The length of the next chunk when so much is left to send: it is cast to a byte.
  function Piece(rest: nat, chunkSize: nat): (n: nat)
    ensures n <= rest
  {
    (if chunkSize < rest then chunkSize else rest) % 0x100
  }

  function NextChunk(t: Transfer): Blob {
    t.data[t.sentOffset..t.sentOffset + Piece(|t.data| - t.sentOffset, t.chunkSize)]
  }

  lemma SameChunk(t: Transfer, u: Transfer)
    requires t.data == u.data && t.sentOffset == u.sentOffset && t.chunkSize == u.chunkSize
    ensures NextChunk(t) == NextChunk(u)
  {
  }

  lemma ChunkIsLeft(t: Transfer)
    ensures t.sentOffset + |NextChunk(t)| <= |t.data|
  {
  }

  function Due(unit: Telemetry, time: int): bool {
    time - unit.lastUpdateTime >= unit.updateTime
  }

  function MarkDue(sched: seq<Telemetry>, time: int): (r: seq<Telemetry>)
    ensures |r| == |sched|
  {
    seq(|sched|, i requires 0 <= i < |sched| =>
      if Due(sched[i], time) then sched[i].(lastUpdateTime := time) else sched[i])
  }

  // Every due unit is marked; only the last of them is asked for.
  function LastDue(sched: seq<Telemetry>, time: int): Option<Telemetry> {
    if sched == [] then None
    else if Due(sched[|sched| - 1], time) then Some(sched[|sched| - 1])
    else LastDue(sched[..|sched| - 1], time)
  }

  function ActRunning(dev: Device, addr: byte, time: int): Act {
    if dev.commandQueue != [] then
      var (command, value) := dev.commandQueue[0];
      Send(dev.(commandQueue := dev.commandQueue[1..]), addr, Command(command, value), 100)
    else if dev.requestQueue != [] then
      var (request, size) := dev.requestQueue[0];
      Send(dev.(requestQueue := dev.requestQueue[1..]), addr, BlobRequest(request, size), 100)
    else if time - dev.lastHealthReq >= HEALTH_PERIOD then
      Send(dev.(lastHealthReq := time), addr, HealthReq, 100)
    else
      match LastDue(dev.telemSched, time)
      case None => Act(dev, addr, None, [], 100)
      case Some(unit) =>
        Send(dev.(telemSched := MarkDue(dev.telemSched, time)), addr, BlobRequest(unit.req, unit.reqSize), 100)
  }

  function ActSending(dev: Device, addr: byte): Act {
    var t := dev.transfer;
    if t.firstPacket then
      Send(dev.(transfer := t.(firstPacket := false)), addr, FileWriteChunk(t.file, NextChunk(t)), 100)
    else
      match t.packetAck
      case None => Act(dev.(transfer := t.(state := Cancel)), addr, None, [], 100)
      case Some(code) =>
        var cleared := t.(packetAck := None);
        if code == BUSY then
          Send(dev.(transfer := cleared), addr, FileWriteChunk(t.file, NextChunk(t)), 100)
        else if code == WAIT then
          Act(dev.(transfer := cleared), addr, None, [], 200)
        else if code == OK then
          var moved := cleared.(sentOffset := t.sentOffset + |NextChunk(t)|, chunkSent := t.chunkSent + 1);
          if moved.sentOffset == |t.data| then
            Act(dev.(transfer := moved.(state := Finalize)), addr, None, [], 500)
          else
            Send(dev.(transfer := moved), addr, FileWriteChunk(t.file, NextChunk(moved)), 100)
        else
          Act(dev.(transfer := cleared.(state := Cancel)), addr, None, [], 100)
  }

  function ActTransfer(crcFile: seq<byte> -> uint64, dev: Device, addr: byte): Act {
    var t := dev.transfer;
    match t.state
    case Request => Send(dev, addr, FileWriteRequest(t.file, |t.data| % 0x1_0000_0000), 50)
    case Sending => ActSending(dev, addr)
    case Finalize => Send(dev, addr, FileWriteFinalize(t.file, t.chunkSent % 0x1_0000, crcFile(t.data)), 500)
    case Cancel =>
      // The context is reset before its packetAck is looked at, so the result is always Error.
      Act(dev.(transfer := FRESH, state := Running), addr, None, [FileWriteResult(ERROR)], 100)
  }

  function ActOn(crcFile: seq<byte> -> uint64, dev: Device, addr: byte, temporaryUid: Option<byte>, time: int): Act {
    match dev.state
    case Probing => Act(dev, addr, Some(Probe), [], 1000)
    case InfoRequest => Act(dev, if temporaryUid.Some? then temporaryUid.value else addr, Some(DeviceInfoReq), [], 1000)
    case Running => ActRunning(dev, addr, time)
    case FileTransfer => ActTransfer(crcFile, dev, addr)
    case Suspended => Act(dev, addr, None, [], 100)
    case Lost => Act(dev.(state := Probing), addr, None, [DeviceLost], 100)
  }

  // ----- one device's share of `process` -----

  // The device, the message counter, what was sent under it, and the reports.
  datatype Ticked = Ticked(dev: Device, number: byte, to: byte, sent: Option<Body>, reports: seq<Report>)

  function Scheduled(
    crcFile: seq<byte> -> uint64, dev: Device, addr: byte, temporaryUid: Option<byte>, number: byte, time: int,
      now: int): Ticked
  {
    if time < dev.nextCall then Ticked(dev, number, addr, None, [])
    else
      var act := ActOn(crcFile, dev, addr, temporaryUid, time);
      var next := (number + 1) % 0x100;
      match act.body
      case None => Ticked(act.dev.(nextCall := time + act.updateTime), number, act.to, None, act.reports)
      case Some(body) =>
        var pending := Some(Pending(next, TypeOf(body), now));
        Ticked(act.dev.(nextCall := time + act.updateTime, pending := pending), next, act.to, Some(body), act.reports)
  }

  predicate TimedOut(dev: Device, time: int) {
    dev.pending.Some? && time - dev.pending.value.timestamp >= ACK_TIMEOUT
  }

  function AfterTimeout(dev: Device): Device
    requires dev.pending.Some?
  {
    var count := dev.timeoutCounter + 1;
    var counted :=
      if count >= TIMEOUTS_FOR_LOST then dev.(timeoutCounter := 0, state := Lost) else dev.(timeoutCounter := count);
    var cancelled :=
      if counted.state == FileTransfer then counted.(transfer := counted.transfer.(state := Cancel)) else counted;
    cancelled.(pending := None)
  }

  // `time` is the argument of `process`; `now` is what the clock reads while it runs.
  function Tick(
    crcFile: seq<byte> -> uint64, dev: Device, addr: byte, temporaryUid: Option<byte>, number: byte, time: int,
      now: int): Ticked
  {
    var s := Scheduled(crcFile, dev, addr, temporaryUid, number, time, now);
    if TimedOut(s.dev, time) then
      s.(dev := AfterTimeout(s.dev), reports := s.reports + [AckNotReceived(s.dev.pending.value.msgType)])
    else s
  }

  // ----- answers -----

  predicate Answers(dev: Device, number: byte) {
    dev.pending.Some? && dev.pending.value.number == number
  }

  // What an acknowledgement of the pending message means in the device's present state.
  function AckMeans(dev: Device, code: byte): (r: (Device, seq<Report>))
    requires dev.pending.Some?
  {
    var t, msgType := dev.transfer, dev.pending.value.msgType;
    match dev.state
    case Probing => (dev.(state := InfoRequest), [])
    case Running =>
      (dev, if msgType == COMMAND then [CommandResult(code)]
            else if msgType == BLOB_REQUEST then [RequestError(code)] else [])
    case FileTransfer =>
      if msgType == FILE_WRITE_CHUNK then (dev.(transfer := t.(packetAck := Some(code))), [])
      else if msgType == FILE_WRITE_REQUEST then
        (dev.(transfer := t.(state := if code == OK then Sending else Cancel)), [])
      else if msgType == FILE_WRITE_FINALIZE then (dev.(state := Running), [FileWriteResult(code)])
      else (dev, [])
    case _ => (dev, [])
  }

  function HandleAck(dev: Device, number: byte, code: byte, now: int): (Device, seq<Report>) {
    var seen := dev.(lastAck := now);
    if !Answers(dev, number) then (seen, [])
    else
      var (next, reports) := AckMeans(seen, code);
      (next.(pending := None), [AckReceived(dev.pending.value.msgType, code)] + reports)
  }

  predicate InfoAccepted(dev: Device, number: byte) {
    Answers(dev, number) && dev.state == InfoRequest
  }

  function HandleInfo(dev: Device, number: byte, version: DeviceVersion, name: Name): (Device, seq<Report>) {
    if !InfoAccepted(dev, number) then (dev, [])
    else (dev.(pending := None, name := name, version := version, state := Running), [Registered(version)])
  }

  predicate BlobAccepted(dev: Device, number: byte) {
    Answers(dev, number) && dev.pending.value.msgType == BLOB_REQUEST
  }

  function HandleBlob(dev: Device, number: byte, request: byte, data: Blob): (Device, seq<Report>) {
    if !BlobAccepted(dev, number) then (dev, []) else (dev.(pending := None), [BlobReceived(request, data)])
  }

  function HandleHealth(dev: Device, number: byte, health: byte, flags: uint16): (Device, seq<Report>) {
    if Answers(dev, number) && dev.pending.value.msgType == HEALTH_REQ
    then (dev.(pending := None), [HealthReceived(health, flags)])
    else (dev, [])
  }

  // ----- user calls; each is refused unless the device is running -----

  function PushCommand(dev: Device, command: byte, value: byte): Device {
    if dev.state == Running then dev.(commandQueue := dev.commandQueue + [(command, value)]) else dev
  }

  function PushRequest(dev: Device, request: byte, size: byte): Device {
    if dev.state == Running then dev.(requestQueue := dev.requestQueue + [(request, size)]) else dev
  }

  function StartFile(dev: Device, file: byte, data: seq<byte>, chunkSize: nat): Device {
    if dev.state != Running then dev
    else
      var t := dev.transfer.(sentOffset := 0);
      dev.(state := FileTransfer,
           transfer := t.(state := Request, chunkSize := chunkSize, data := data, file := file, firstPacket := true))
  }

  function Schedule(dev: Device, req: byte, reqSize: byte, period: int): Device {
    dev.(telemSched := dev.telemSched + [Telemetry(req, reqSize, period, 0)])
  }
}
