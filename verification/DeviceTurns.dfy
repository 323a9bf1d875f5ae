/**
  What a device's turns come to, over as many events as it takes: how a refused, delayed or unanswered message
  ends, what a device out of operation is sent, and when the next turn is.
*/
module DeviceTurns {
  import opened Bytes
  import opened Messages
  import opened DeviceSpec
  import opened DeviceRuns
  import DeviceReports
  import T = DeviceTransfer

  ghost predicate IsDue(dev: Device, e: Event) {
    e.TickAt? && dev.nextCall <= e.time
  }

  // No turn of the device is among these events: every tick comes too early.
  ghost predicate NoTurnIn(dev: Device, run: seq<Event>) {
    forall e :: e in run && e.TickAt? ==> e.time < dev.nextCall
  }

  // The outcome of an event after others.
  ghost function Then(crcFile: CrcFile, dev: Device, between: seq<Event>, e: Event): Outcome {
    Apply(crcFile, Final(crcFile, dev, between), e)
  }

  // Nothing awaits an answer, and the transfer is in this state with this acknowledgement of its chunk.
  ghost predicate Rests(dev: Device, state: TransferState, packetAck: Option<byte>) {
    InTransfer(dev, state) && dev.pending == None && dev.transfer.packetAck == packetAck
  }

  lemma RestsOn(crcFile: CrcFile, dev: Device, e: Event)
    requires dev.state == FileTransfer && dev.pending == None && (e.TickAt? ==> e.time < dev.nextCall)
    ensures var next := Apply(crcFile, dev, e).dev;
            && next.state == FileTransfer && next.pending == None && next.transfer == dev.transfer
            && next.nextCall == dev.nextCall
  {
    hide ActOn;
  }

  // Between turns nothing happens to a transfer that awaits no answer.
  lemma {:induction false} RestsUntil(crcFile: CrcFile, dev: Device, between: seq<Event>)
    requires dev.state == FileTransfer && dev.pending == None && NoTurnIn(dev, between)
    ensures var d := Final(crcFile, dev, between);
            && d.state == FileTransfer && d.pending == None && d.transfer == dev.transfer
            && d.nextCall == dev.nextCall
  {
    if between != [] {
      var earlier, e := between[..|between| - 1], between[|between| - 1];
      assert e in between;
      RestsUntil(crcFile, dev, earlier);
      hide Apply;
      RestsOn(crcFile, Final(crcFile, dev, earlier), e);
    }
  }

  // ----- transfers that fail -----

  // The turn sends nothing, and tells that the file was not written, and nothing else.
  ghost predicate ReportsFailure(o: Outcome) {
    o.sent == None && o.reports == [FileWriteResult(1)] && o.dev.state == Running
  }

  lemma FailedTurn(crcFile: CrcFile, dev: Device, turn: Event)
    requires InTransfer(dev, Cancel) && dev.pending == None && IsDue(dev, turn)
    ensures ReportsFailure(Apply(crcFile, dev, turn))
  {
    hide ActRunning, ActSending;
  }

  lemma FailsNext(crcFile: CrcFile, dev: Device, between: seq<Event>, turn: Event)
    requires InTransfer(dev, Cancel) && dev.pending == None && NoTurnIn(dev, between) && IsDue(dev, turn)
    ensures ReportsFailure(Then(crcFile, dev, between, turn))
  {
    RestsUntil(crcFile, dev, between);
    hide Apply, Final;
    FailedTurn(crcFile, Final(crcFile, dev, between), turn);
  }

  /**
    A file request that is refused, with whatever code other than 0, ends the transfer: on the device's next
    turn nothing is sent, exactly an Error is reported, and the device is running again.
  */
  lemma RefusedFileIsReported(crcFile: CrcFile, dev: Device, ack: Event, between: seq<Event>, turn: Event)
    requires Coherent(dev) && Awaiting(dev, FILE_WRITE_REQUEST)
    requires ack.AckIn? && ack.number == dev.pending.value.number && ack.code != 0
    requires NoTurnIn(dev, between) && IsDue(dev, turn)
    ensures ReportsFailure(Then(crcFile, Apply(crcFile, dev, ack).dev, between, turn))
  {
    var d := Apply(crcFile, dev, ack).dev;
    assert InTransfer(d, Cancel) && d.pending == None && d.nextCall == dev.nextCall;
    hide Apply;
    FailsNext(crcFile, d, between, turn);
  }

  // An acknowledgement of the chunk that is pending waits for the device's turn.
  lemma ChunkAckWaits(crcFile: CrcFile, dev: Device, ack: Event, between: seq<Event>)
    requires Coherent(dev) && InTransfer(dev, Sending) && Awaiting(dev, FILE_WRITE_CHUNK)
    requires ack.AckIn? && ack.number == dev.pending.value.number && NoTurnIn(dev, between)
    ensures var d := Final(crcFile, Apply(crcFile, dev, ack).dev, between);
            && Rests(d, Sending, Some(ack.code)) && d.nextCall == dev.nextCall && !d.transfer.firstPacket
            && d.transfer == dev.transfer.(packetAck := Some(ack.code))
  {
    var d := Apply(crcFile, dev, ack).dev;
    assert Rests(d, Sending, Some(ack.code)) && d.transfer == dev.transfer.(packetAck := Some(ack.code));
    hide Apply;
    RestsUntil(crcFile, d, between);
  }

  // A turn that sends and reports nothing, and leaves the transfer in this state.
  ghost predicate Silent(o: Outcome, state: TransferState) {
    o.sent == None && o.reports == [] && Rests(o.dev, state, None)
  }

  lemma AckedTurn(crcFile: CrcFile, dev: Device, turn: Event)
    requires InTransfer(dev, Sending) && dev.pending == None && !dev.transfer.firstPacket
    requires dev.transfer.packetAck.Some? && IsDue(dev, turn)
    ensures var o, code := Apply(crcFile, dev, turn), dev.transfer.packetAck.value;
            && (code !in {0, 2, 3} ==> Silent(o, Cancel))
            && (code == 2 ==> Silent(o, Sending) && o.dev.nextCall == turn.time + 200 && !o.dev.transfer.firstPacket)
  {
    hide ActRunning, NextChunk;
  }

  /**
    A chunk acknowledged with any code but Ok, Busy and Wait: the device's next turn sends nothing, and the turn
    after that reports exactly an Error and leaves the device running.
  */
  lemma RefusedChunkIsReported(
    crcFile: CrcFile, dev: Device, ack: Event, before: seq<Event>, turn: Event, after: seq<Event>, last: Event)
    requires Coherent(dev) && InTransfer(dev, Sending) && Awaiting(dev, FILE_WRITE_CHUNK)
    requires ack.AckIn? && ack.number == dev.pending.value.number && ack.code !in {0, 2, 3}
    requires NoTurnIn(dev, before) && IsDue(dev, turn)
    ensures var o := Then(crcFile, Apply(crcFile, dev, ack).dev, before, turn);
            && o.sent == None && o.reports == [] && InTransfer(o.dev, Cancel)
            && (NoTurnIn(o.dev, after) && IsDue(o.dev, last) ==> ReportsFailure(Then(crcFile, o.dev, after, last)))
  {
    ChunkAckWaits(crcFile, dev, ack, before);
    var d := Final(crcFile, Apply(crcFile, dev, ack).dev, before);
    AckedTurn(crcFile, d, turn);
    hide Apply, Final, ReportsFailure;
    var o := Apply(crcFile, d, turn);
    if NoTurnIn(o.dev, after) && IsDue(o.dev, last) {
      FailsNext(crcFile, o.dev, after, last);
    }
  }

  // Without an acknowledgement a sending transfer gives up.
  lemma UnacknowledgedTurn(crcFile: CrcFile, dev: Device, turn: Event)
    requires Rests(dev, Sending, None) && !dev.transfer.firstPacket && IsDue(dev, turn)
    ensures Silent(Apply(crcFile, dev, turn), Cancel)
  {
    hide ActRunning, NextChunk;
  }

  lemma GivesUpNext(
    crcFile: CrcFile, dev: Device, before: seq<Event>, turn: Event, after: seq<Event>, last: Event)
    requires Rests(dev, Sending, None) && !dev.transfer.firstPacket && NoTurnIn(dev, before) && IsDue(dev, turn)
    ensures var p := Then(crcFile, dev, before, turn);
            && p.sent == None && p.reports == []
            && (NoTurnIn(p.dev, after) && IsDue(p.dev, last) ==> ReportsFailure(Then(crcFile, p.dev, after, last)))
  {
    RestsUntil(crcFile, dev, before);
    hide Apply, Final, ReportsFailure;
    var d := Final(crcFile, dev, before);
    UnacknowledgedTurn(crcFile, d, turn);
    var p := Apply(crcFile, d, turn);
    if NoTurnIn(p.dev, after) && IsDue(p.dev, last) {
      FailsNext(crcFile, p.dev, after, last);
    }
  }

  /**
    A chunk the device asks to wait with is never sent again: nothing goes out for 200 ms, the next turn gives up,
    and the one after it reports exactly an Error.
  */
  lemma WaitEndsInFailure(
    crcFile: CrcFile, dev: Device, ack: Event, first: seq<Event>, turn: Event, second: seq<Event>, next: Event,
    third: seq<Event>, last: Event)
    requires Coherent(dev) && InTransfer(dev, Sending) && Awaiting(dev, FILE_WRITE_CHUNK)
    requires ack.AckIn? && ack.number == dev.pending.value.number && ack.code == 2
    requires NoTurnIn(dev, first) && IsDue(dev, turn)
    ensures var o := Then(crcFile, Apply(crcFile, dev, ack).dev, first, turn);
            && o.sent == None && o.reports == [] && o.dev.nextCall == turn.time + 200
            && (NoTurnIn(o.dev, second) && IsDue(o.dev, next) ==>
                  var p := Then(crcFile, o.dev, second, next);
                  && p.sent == None && p.reports == []
                  && (NoTurnIn(p.dev, third) && IsDue(p.dev, last) ==>
                        ReportsFailure(Then(crcFile, p.dev, third, last))))
  {
    ChunkAckWaits(crcFile, dev, ack, first);
    var d := Final(crcFile, Apply(crcFile, dev, ack).dev, first);
    AckedTurn(crcFile, d, turn);
    hide Apply, Final, ReportsFailure;
    var o := Apply(crcFile, d, turn);
    if NoTurnIn(o.dev, second) && IsDue(o.dev, next) {
      GivesUpNext(crcFile, o.dev, second, next, third, last);
    }
  }

  lemma TimeoutCancels(crcFile: CrcFile, dev: Device, e: Event, msgType: byte)
    requires e.TickAt? && AckNotReceived(msgType) in Apply(crcFile, dev, e).reports
    ensures var next := Apply(crcFile, dev, e).dev;
            next.pending == None && (next.state == FileTransfer ==> next.transfer.state == Cancel)
  {
    DeviceReports.ActReportsOnly(crcFile, dev, e);
    hide ActOn;
  }

  /**
    A message of a transfer that stays unanswered for 200 ms ends the transfer, unless it is the device's
    twentieth: on the next turn nothing is sent and exactly an Error is reported.
  */
  lemma TimeoutIsReported(
    crcFile: CrcFile, dev: Device, e: Event, msgType: byte, between: seq<Event>, turn: Event)
    requires e.TickAt? && AckNotReceived(msgType) in Apply(crcFile, dev, e).reports
    requires var d := Apply(crcFile, dev, e).dev;
             d.state == FileTransfer && NoTurnIn(d, between) && IsDue(d, turn)
    ensures ReportsFailure(Then(crcFile, Apply(crcFile, dev, e).dev, between, turn))
  {
    TimeoutCancels(crcFile, dev, e, msgType);
    hide Apply;
    FailsNext(crcFile, Apply(crcFile, dev, e).dev, between, turn);
  }

  // ----- transfers that go on -----

  lemma BusyTurn(crcFile: CrcFile, dev: Device, turn: Event)
    requires Rests(dev, Sending, Some(3)) && !dev.transfer.firstPacket && IsDue(dev, turn) && turn.addr != 0xFF
    ensures Apply(crcFile, dev, turn).sent == Some(FileWriteChunk(dev.transfer.file, NextChunk(dev.transfer)))
  {
    hide ActRunning, NextChunk;
  }

  /** In every timely run, a chunk the device was too busy for is sent again on its next turn, just as it was. */
  lemma BusyRepeatsTheChunk(crcFile: CrcFile, run: seq<Event>, ack: Event, between: seq<Event>, turn: Event)
    requires forall e :: e in run ==> Timely(e)
    requires var dev := T.Watched(crcFile, run).dev;
             && InTransfer(dev, Sending) && Awaiting(dev, FILE_WRITE_CHUNK)
             && ack.AckIn? && ack.number == dev.pending.value.number && ack.code == 3
             && NoTurnIn(dev, between) && IsDue(dev, turn) && turn.addr != 0xFF
    ensures var w := T.Watched(crcFile, run);
            var o := Then(crcFile, Apply(crcFile, w.dev, ack).dev, between, turn);
            w.last.Some? && o.sent == Some(FileWriteChunk(w.dev.transfer.file, w.last.value))
  {
    T.RunsAreFaithful(crcFile, run);
    var dev := T.Watched(crcFile, run).dev;
    ChunkAckWaits(crcFile, dev, ack, between);
    var d := Final(crcFile, Apply(crcFile, dev, ack).dev, between);
    SameChunk(dev.transfer, d.transfer);
    hide Apply, Final, NextChunk, T.Watched, Coherent;
    BusyTurn(crcFile, d, turn);
  }

  lemma OkTurn(crcFile: CrcFile, dev: Device, turn: Event)
    requires Rests(dev, Sending, Some(0)) && !dev.transfer.firstPacket && IsDue(dev, turn)
    ensures var o, t := Apply(crcFile, dev, turn), dev.transfer;
            if t.sentOffset + |NextChunk(t)| == |t.data| then Silent(o, Finalize) && o.dev.nextCall == turn.time + 500
            else turn.addr != 0xFF ==> T.IsChunk(o.sent)
  {
    ChunkIsLeft(dev.transfer);
    hide ActRunning, NextChunk;
  }

  lemma FinalTurn(crcFile: CrcFile, dev: Device, turn: Event)
    requires InTransfer(dev, Finalize) && IsDue(dev, turn) && turn.addr != 0xFF
    ensures T.IsFinalize(Apply(crcFile, dev, turn).sent)
  {
    hide ActRunning, ActSending;
  }

  /**
    In every timely run, a chunk the device has taken is followed, on its next turn, by another one if any of the
    file is left; if not, by nothing for 500 ms, and then by the finalize message.
  */
  lemma OkGoesOn(
    crcFile: CrcFile, run: seq<Event>, ack: Event, before: seq<Event>, turn: Event, after: seq<Event>, last: Event)
    requires forall e :: e in run ==> Timely(e)
    requires var dev := T.Watched(crcFile, run).dev;
             && InTransfer(dev, Sending) && Awaiting(dev, FILE_WRITE_CHUNK)
             && ack.AckIn? && ack.number == dev.pending.value.number && ack.code == 0
             && NoTurnIn(dev, before) && IsDue(dev, turn) && turn.addr != 0xFF && last.TickAt? && last.addr != 0xFF
    ensures var w := T.Watched(crcFile, run);
            var t, o := w.dev.transfer, Then(crcFile, Apply(crcFile, w.dev, ack).dev, before, turn);
            w.last.Some? &&
            if t.sentOffset + |w.last.value| < |t.data| then T.IsChunk(o.sent)
            else
              && o.sent == None && o.reports == [] && o.dev.nextCall == turn.time + 500
              && (NoTurnIn(o.dev, after) && IsDue(o.dev, last) ==> T.IsFinalize(Then(crcFile, o.dev, after, last).sent))
  {
    T.RunsAreFaithful(crcFile, run);
    var dev := T.Watched(crcFile, run).dev;
    ChunkAckWaits(crcFile, dev, ack, before);
    var d := Final(crcFile, Apply(crcFile, dev, ack).dev, before);
    SameChunk(dev.transfer, d.transfer);
    ChunkIsLeft(dev.transfer);
    hide Apply, Final, NextChunk, T.Watched, Coherent;
    OkTurn(crcFile, d, turn);
    var o := Apply(crcFile, d, turn);
    if Silent(o, Finalize) && NoTurnIn(o.dev, after) && IsDue(o.dev, last) {
      RestsUntil(crcFile, o.dev, after);
      FinalTurn(crcFile, Final(crcFile, o.dev, after), last);
    }
  }

  // ----- devices out of operation -----

  /**
    A device that is probed: its turn puts a probe on the wire, to the address its name leads to, and awaits the
    answer; the turn of one asked for its name puts that question on the wire, to the device found last, if any.
  */
  lemma DiscoveryTurns(
    crcFile: CrcFile, dev: Device, addr: byte, temporaryUid: Option<byte>, number: byte, time: int, now: int)
    requires dev.nextCall <= time && time - now < 200
    requires dev.state == Probing || dev.state == InfoRequest
    ensures var t, probing := Tick(crcFile, dev, addr, temporaryUid, number, time, now), dev.state == Probing;
            && t.sent == Some(if probing then Probe else DeviceInfoReq)
            && t.to == (if !probing && temporaryUid.Some? then temporaryUid.value else addr)
            && t.number == (number + 1) % 0x100 && t.reports == []
            && t.dev == dev.(nextCall := time + 1000,
                             pending := Some(Pending(t.number, if probing then 0 else 5, now)))
  {
    hide ActRunning, ActTransfer;
  }

  /** A lost device's turn sends nothing, and the device is probed from its next turn on. */
  lemma LostTurn(
    crcFile: CrcFile, dev: Device, addr: byte, temporaryUid: Option<byte>, number: byte, time: int, now: int)
    requires dev.nextCall <= time && dev.state == Lost && dev.pending == None
    ensures var t := Tick(crcFile, dev, addr, temporaryUid, number, time, now);
            && t.sent == None && t.number == number && t.reports == [DeviceLost]
            && t.dev == dev.(state := Probing, nextCall := time + 100)
  {
    hide ActRunning, ActTransfer;
  }

  /** An answered probe leads to the question for the name, and its answer into operation. */
  lemma DiscoveryAnswers(dev: Device, number: byte, code: byte, now: int, version: DeviceVersion, name: Name)
    requires dev.pending.Some? && dev.pending.value.number == number
    ensures dev.state == Probing ==>
              HandleAck(dev, number, code, now).0 == dev.(state := InfoRequest, pending := None, lastAck := now)
    ensures dev.state == InfoRequest ==>
              HandleInfo(dev, number, version, name).0
              == dev.(state := Running, pending := None, name := name, version := version)
  {
  }

  // ----- when the next turn is -----

  lemma ActInterval(crcFile: CrcFile, dev: Device, e: Event)
    requires e.TickAt?
    ensures var act, t := ActOn(crcFile, dev, e.addr, e.temporaryUid, e.time), dev.transfer;
            && act.dev.nextCall == dev.nextCall
            && act.updateTime
               == match dev.state
                  case Probing => 1000
                  case InfoRequest => 1000
                  case FileTransfer =>
                    if t.state == Request then 50
                    else if t.state == Finalize then 500
                    else if t.state == Sending && !t.firstPacket && t.packetAck == Some(2) then 200
                    else if t.state == Sending && !t.firstPacket && t.packetAck == Some(0)
                            && t.sentOffset + |NextChunk(t)| == |t.data| then 500
                    else 100
                  case _ => 100
  {
    hide NextChunk, LastDue, MarkDue;
  }

  /**
    The next turn is a fixed time after this one: 1000 ms while a device is being found, 50 ms after a file
    request, 500 ms after a finalize message and before the first, 200 ms to wait, and 100 ms otherwise; nothing
    but a turn moves it.
  */
  lemma TurnInterval(crcFile: CrcFile, dev: Device, e: Event)
    ensures var next, t := Apply(crcFile, dev, e).dev, dev.transfer;
            next.nextCall
            == if !IsDue(dev, e) then dev.nextCall
               else e.time + match dev.state
                             case Probing => 1000
                             case InfoRequest => 1000
                             case FileTransfer =>
                               if t.state == Request then 50
                               else if t.state == Finalize then 500
                               else if t.state == Sending && !t.firstPacket && t.packetAck == Some(2) then 200
                               else if t.state == Sending && !t.firstPacket && t.packetAck == Some(0)
                                       && t.sentOffset + |NextChunk(t)| == |t.data| then 500
                               else 100
                             case _ => 100
  {
    if e.TickAt? {
      ActInterval(crcFile, dev, e);
      hide ActOn, NextChunk;
    } else {
      hide NextChunk;
    }
  }
}
