/** Runs of one device's record under any interleaving of ticks, answers and user calls. */
module DeviceRuns {
  import opened Bytes
  import opened Messages
  import opened DeviceSpec

  datatype Event =
    | TickAt(addr: byte, temporaryUid: Option<byte>, number: byte, time: int, now: int)
    | AckIn(number: byte, code: byte, now: int)
    | InfoIn(number: byte, version: DeviceVersion, name: Name)
    | BlobIn(number: byte, request: byte, answer: Blob)
    | HealthIn(number: byte, health: byte, flags: uint16)
    | UserCommand(command: byte, value: byte)
    | UserRequest(request: byte, size: byte)
    | UserFile(file: byte, contents: seq<byte>, chunkSize: nat)
    | UserSchedule(req: byte, reqSize: byte, period: int)

  datatype Outcome = Outcome(dev: Device, sent: Option<Body>, reports: seq<Report>)

  type CrcFile = seq<byte> -> uint64

  function Apply(crcFile: CrcFile, dev: Device, e: Event): Outcome {
    match e
    case TickAt(addr, temporaryUid, number, time, now) =>
      var t := Tick(crcFile, dev, addr, temporaryUid, number, time, now);
      Outcome(t.dev, t.sent, t.reports)
    case AckIn(number, code, now) =>
      var (d, reports) := HandleAck(dev, number, code, now); Outcome(d, None, reports)
    case InfoIn(number, version, name) =>
      var (d, reports) := HandleInfo(dev, number, version, name); Outcome(d, None, reports)
    case BlobIn(number, request, data) =>
      var (d, reports) := HandleBlob(dev, number, request, data); Outcome(d, None, reports)
    case HealthIn(number, health, flags) =>
      var (d, reports) := HandleHealth(dev, number, health, flags); Outcome(d, None, reports)
    case UserCommand(command, value) => Outcome(PushCommand(dev, command, value), None, [])
    case UserRequest(request, size) => Outcome(PushRequest(dev, request, size), None, [])
    case UserFile(file, data, chunkSize) => Outcome(StartFile(dev, file, data, chunkSize), None, [])
    case UserSchedule(req, reqSize, period) => Outcome(Schedule(dev, req, reqSize, period), None, [])
  }

  // The record after a run.
  function Final(crcFile: CrcFile, dev: Device, run: seq<Event>): Device {
    if run == [] then dev else Apply(crcFile, Final(crcFile, dev, run[..|run| - 1]), run[|run| - 1]).dev
  }

  // ----- coherence of device state, transfer state, pending message, packetAck and timers -----

  ghost predicate Awaiting(dev: Device, msgType: byte) {
    dev.pending.Some? && dev.pending.value.msgType == msgType
  }

  ghost predicate InTransfer(dev: Device, state: TransferState) {
    dev.state == FileTransfer && dev.transfer.state == state
  }

  ghost predicate Coherent(dev: Device) {
    var t := dev.transfer;
    && (Awaiting(dev, FILE_WRITE_REQUEST) ==> InTransfer(dev, Request))
    && (Awaiting(dev, FILE_WRITE_FINALIZE) ==> InTransfer(dev, Finalize))
    && (Awaiting(dev, FILE_WRITE_CHUNK) ==>
          && (InTransfer(dev, Sending) || InTransfer(dev, Cancel)) && !t.firstPacket
          && dev.nextCall - dev.pending.value.timestamp >= (if t.state == Sending then 100 else 200))
    && (t.packetAck.Some? ==>
          (InTransfer(dev, Sending) || InTransfer(dev, Cancel)) && dev.pending == None && !t.firstPacket)
    && (InTransfer(dev, Request) ==> t.firstPacket && t.sentOffset == 0)
    && (InTransfer(dev, Sending) && t.firstPacket ==> dev.pending == None && t.sentOffset == 0)
    && (InTransfer(dev, Sending) && dev.pending.Some? ==> Awaiting(dev, FILE_WRITE_CHUNK))
    && (InTransfer(dev, Finalize) ==>
          t.sentOffset == |t.data| && (dev.pending.Some? ==> Awaiting(dev, FILE_WRITE_FINALIZE)))
    && (dev.state == Lost ==> dev.pending == None)
    && dev.state != Suspended
    && dev.timeoutCounter < TIMEOUTS_FOR_LOST
  }

  // While `process` runs, the clock does not read later than the time it was called with.
  ghost predicate Timely(e: Event) {
    e.TickAt? ==> e.now <= e.time
  }

  // A cancelled transfer leaves its last chunk pending for the timeout check of the same `process`
  // call: the chunk was sent 200 ms or more before.
  ghost predicate CoherentOrDue(dev: Device, time: int) {
    Coherent(dev) || (TimedOut(dev, time) && dev.transfer.packetAck == None && Coherent(dev.(pending := None)))
  }

  ghost function ScheduledBy(crcFile: CrcFile, dev: Device, e: Event): Device
    requires e.TickAt?
  {
    Scheduled(crcFile, dev, e.addr, e.temporaryUid, e.number, e.time, e.now).dev
  }

  lemma ScheduledSending(crcFile: CrcFile, dev: Device, e: Event)
    requires Coherent(dev) && e.TickAt? && Timely(e) && InTransfer(dev, Sending)
    ensures CoherentOrDue(ScheduledBy(crcFile, dev, e), e.time)
  {
    hide ActRunning;
    if dev.nextCall <= e.time && !dev.transfer.firstPacket && dev.transfer.packetAck == Some(OK) {
      var t := dev.transfer;
      ChunkIsLeft(t);
      hide NextChunk;
    } else {
      hide NextChunk;
    }
  }

  lemma ScheduledTransfer(crcFile: CrcFile, dev: Device, e: Event)
    requires Coherent(dev) && e.TickAt? && Timely(e) && dev.state == FileTransfer && dev.transfer.state != Sending
    ensures CoherentOrDue(ScheduledBy(crcFile, dev, e), e.time)
  {
    hide ActRunning, ActSending;
  }

  lemma ScheduledElsewhere(crcFile: CrcFile, dev: Device, e: Event)
    requires Coherent(dev) && e.TickAt? && Timely(e) && dev.state != FileTransfer
    ensures CoherentOrDue(ScheduledBy(crcFile, dev, e), e.time)
  {
    hide ActTransfer, LastDue, MarkDue;
  }

  lemma TimeoutKeepsCoherent(dev: Device)
    requires dev.pending.Some? && dev.transfer.packetAck == None && Coherent(dev.(pending := None))
    ensures Coherent(AfterTimeout(dev))
  {
  }

  lemma TickKeepsCoherent(crcFile: CrcFile, dev: Device, e: Event)
    requires Coherent(dev) && e.TickAt? && Timely(e)
    ensures Coherent(Apply(crcFile, dev, e).dev)
  {
    hide Scheduled, AfterTimeout;
    var d := ScheduledBy(crcFile, dev, e);
    if dev.state != FileTransfer {
      ScheduledElsewhere(crcFile, dev, e);
    } else if dev.transfer.state == Sending {
      ScheduledSending(crcFile, dev, e);
    } else {
      ScheduledTransfer(crcFile, dev, e);
    }
    if TimedOut(d, e.time) {
      TimeoutKeepsCoherent(d);
    }
  }

  lemma AnswerKeepsCoherent(crcFile: CrcFile, dev: Device, e: Event)
    requires Coherent(dev) && !e.TickAt?
    ensures Coherent(Apply(crcFile, dev, e).dev)
  {
  }

  /** Every run of timely events from a new device is coherent at every point. */
  lemma {:induction false} RunsAreCoherent(crcFile: CrcFile, dev: Device, run: seq<Event>)
    requires Coherent(dev) && forall e :: e in run ==> Timely(e)
    ensures Coherent(Final(crcFile, dev, run))
  {
    if run != [] {
      var earlier, e := run[..|run| - 1], run[|run| - 1];
      assert e in run;
      RunsAreCoherent(crcFile, dev, earlier);
      if e.TickAt? {
        TickKeepsCoherent(crcFile, Final(crcFile, dev, earlier), e);
      } else {
        AnswerKeepsCoherent(crcFile, Final(crcFile, dev, earlier), e);
      }
    }
  }
}
