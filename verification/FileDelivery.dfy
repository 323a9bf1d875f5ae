/**
  A receiver that takes everything, and channels that lose nothing: a transfer goes on until it is complete
  or its next chunk is empty. Files that can be cut into pieces get through.
*/
module FileDelivery {
  import opened Bytes
  import opened Messages
  import opened DeviceSpec
  import opened DeviceRuns
  import opened DeviceTransfer
  import opened FileSafety
  import opened FilePaths

  // ----- a turn as soon as it is due, on a clock that stands still meanwhile -----

  ghost function TickAtNextCall(dev: Device, addr: byte, number: byte): Event {
    TickAt(addr, None, number, dev.nextCall, dev.nextCall)
  }

  ghost function TickNow(s: System, addr: byte): Move {
    HubActs(TickAtNextCall(s.hub, addr, s.counter % 0x100))
  }

  // What the hub does and sends on its next turn.
  ghost function NextTurn(crcFile: CrcFile, s: System, addr: byte): Outcome {
    Apply(crcFile, s.hub, TickAtNextCall(s.hub, addr, s.counter % 0x100))
  }

  lemma TickDoes(crcFile: CrcFile, s: System, addr: byte)
    ensures Enabled(crcFile, s, TickNow(s, addr))
    ensures var o := NextTurn(crcFile, s, addr);
            Do(crcFile, s, TickNow(s, addr)) == Turned(s, o.dev, o.sent)
  {
    hide Apply;
  }

  ghost predicate Empty(s: System) {
    s.toDevice == [] && s.toHub == []
  }

  ghost predicate JustSent(s: System, body: Body) {
    && s.toDevice == [Packet(s.counter, body)] && s.toHub == [] && s.pendingNth == s.counter
    && s.hub.pending.Some? && s.hub.pending.value.number == s.counter % 0x100
  }

  // With empty channels and nothing of another message pending, the turn can be taken if what it sends can be written.
  lemma TickCan(crcFile: CrcFile, c: Setting, s: System, addr: byte)
    requires Empty(s) && s.hub.pending == None && Written(NextTurn(crcFile, s, addr).sent, c.sizes.hub)
    ensures Can(crcFile, c, s, TickNow(s, addr))
  {
    hide Enabled;
    TickDoes(crcFile, s, addr);
  }

  lemma TickSends(crcFile: CrcFile, s: System, addr: byte, body: Body)
    requires Empty(s)
    requires var o := NextTurn(crcFile, s, addr);
             && o.sent == Some(body)
             && o.dev.pending.Some? && o.dev.pending.value.number == (s.counter % 0x100 + 1) % 0x100
    ensures Enabled(crcFile, s, TickNow(s, addr))
    ensures var next := Do(crcFile, s, TickNow(s, addr));
            && JustSent(next, body) && next.counter == s.counter + 1
            && next.hub == NextTurn(crcFile, s, addr).dev && next.receiver == s.receiver
  {
    hide Apply, Do, Enabled;
    TickDoes(crcFile, s, addr);
  }

  // ----- the message just sent is accepted, and the hub is given the answer -----

  ghost function Accepted(s: System, receiver: Receiver): System {
    s.(toDevice := [], hub := HandleAck(s.hub, s.counter % 0x100, OK, 0).0, receiver := receiver)
  }

  lemma Exchange(crcFile: CrcFile, c: Setting, s: System, body: Body, receiver: Receiver)
    requires JustSent(s, body) && Receives(crcFile, s.receiver, body, receiver, Some(Ack(OK)))
    requires !body.FileWriteFinalize? && Heard(body, c.sizes.device) && Registers(c.sizes)
    ensures Leads(crcFile, c, s, Accepted(s, receiver))
  {
    hide HandleAck, Leads;
    var m := DeviceGets(receiver, Some(Ack(OK)));
    var s1 := Do(crcFile, s, m);
    assert s1.toHub == [Packet(s.counter, Ack(OK))] && s1.toDevice == [];
    assert Do(crcFile, s1, HubGets(0)) == Accepted(s, receiver);
    OneMove(crcFile, c, s, m);
    MoveOn(crcFile, c, s, s1, HubGets(0));
  }

  // ----- transfers -----

  // A transfer of this file with nothing in flight.
  ghost predicate Still(s: System, data: seq<byte>, chunkSize: nat) {
    && Empty(s) && s.hub.pending == None && s.hub.state == FileTransfer
    && s.hub.transfer.data == data && s.hub.transfer.chunkSize == chunkSize
  }

  // Every byte is confirmed, and the receiver has them.
  ghost predicate Complete(s: System, data: seq<byte>, chunkSize: nat) {
    && Still(s, data, chunkSize) && s.hub.transfer.state == Finalize
    && s.receiver == Receiver(data, |data| % 0x1_0000_0000)
  }

  // The receiver holds the file up to a point at which the next piece comes out empty.
  ghost predicate HoldsUpTo(s: System, data: seq<byte>, chunkSize: nat) {
    var held := |s.receiver.buffer|;
    && s.receiver.buffer <= data && (held < |data| || data == [])
    && Piece(|data| - held, chunkSize) == 0
  }

  // The next message is a chunk with nothing in it.
  ghost predicate Falters(crcFile: CrcFile, s: System, addr: byte, data: seq<byte>, chunkSize: nat) {
    && Still(s, data, chunkSize) && HoldsUpTo(s, data, chunkSize)
    && NextTurn(crcFile, s, addr).sent == Some(FileWriteChunk(s.hub.transfer.file, []))
  }

  lemma EmptyPiece(s: System, t: Transfer, data: seq<byte>, chunkSize: nat)
    requires t.data == data && t.chunkSize == chunkSize && NextChunk(t) == [] && (t.sentOffset < |data| || data == [])
    requires s.receiver.buffer == data[..t.sentOffset]
    ensures HoldsUpTo(s, data, chunkSize)
  {
  }

  // How far an untroubled transfer gets.
  ghost predicate Ends(crcFile: CrcFile, s: System, addr: byte, data: seq<byte>, chunkSize: nat) {
    Complete(s, data, chunkSize) || Falters(crcFile, s, addr, data, chunkSize)
  }

  // The chunk at the offset has been accepted, and the hub knows.
  ghost predicate Acked(s: System, data: seq<byte>, chunkSize: nat) {
    var t := s.hub.transfer;
    && Still(s, data, chunkSize) && t.state == Sending && !t.firstPacket && t.packetAck == Some(OK)
    && NextChunk(t) != [] && s.receiver == Receiver(data[..t.sentOffset] + NextChunk(t), |data| % 0x1_0000_0000)
  }

  ghost function MovedOn(t: Transfer): Transfer
    requires t.sentOffset + |NextChunk(t)| <= |t.data|
  {
    t.(packetAck := None, sentOffset := t.sentOffset + |NextChunk(t)|, chunkSent := t.chunkSent + 1)
  }

  lemma MovingTick(crcFile: CrcFile, dev: Device, addr: byte, number: byte)
    requires InTransfer(dev, Sending) && dev.pending == None && addr != RESERVED_UID
    requires !dev.transfer.firstPacket && dev.transfer.packetAck == Some(OK)
    requires dev.transfer.sentOffset + |NextChunk(dev.transfer)| <= |dev.transfer.data|
    ensures var o, moved := Apply(crcFile, dev, TickAtNextCall(dev, addr, number)), MovedOn(dev.transfer);
            if moved.sentOffset == |moved.data| then
              o.sent == None && o.dev == dev.(nextCall := dev.nextCall + 500, transfer := moved.(state := Finalize))
            else
              && o.sent == Some(FileWriteChunk(moved.file, NextChunk(moved)))
              && o.dev == dev.(nextCall := dev.nextCall + 100, transfer := moved,
                               pending := Some(Pending((number + 1) % 0x100, FILE_WRITE_CHUNK, dev.nextCall)))
  {
    hide NextChunk, ActRunning;
  }

  // What the receiver holds is all that will have been confirmed.
  lemma AckedHolds(s: System, data: seq<byte>, chunkSize: nat)
    requires Acked(s, data, chunkSize)
    ensures var t := s.hub.transfer;
            && t.sentOffset + |NextChunk(t)| <= |data|
            && s.receiver == Receiver(data[..MovedOn(t).sentOffset], |data| % 0x1_0000_0000)
  {
    Extends(s.hub.transfer);
  }

  lemma LastPieceTick(crcFile: CrcFile, s: System, addr: byte, data: seq<byte>, chunkSize: nat)
    requires Acked(s, data, chunkSize) && addr != RESERVED_UID
    requires s.hub.transfer.sentOffset + |NextChunk(s.hub.transfer)| == |data|
    ensures Enabled(crcFile, s, TickNow(s, addr)) && Complete(Do(crcFile, s, TickNow(s, addr)), data, chunkSize)
  {
    hide NextChunk, Apply, Do, Enabled;
    TickDoes(crcFile, s, addr);
    AckedHolds(s, data, chunkSize);
    MovingTick(crcFile, s.hub, addr, s.counter % 0x100);
    assert data[..|data|] == data;
  }

  // The chunk after the offset has just been sent.
  ghost predicate ChunkOut(s: System, moved: Transfer) {
    && JustSent(s, FileWriteChunk(moved.file, NextChunk(moved))) && s.hub.transfer == moved
    && s.hub.state == FileTransfer && s.hub.pending.value.msgType == FILE_WRITE_CHUNK
    && moved.state == Sending && !moved.firstPacket
  }

  lemma NextPieceTick(crcFile: CrcFile, s: System, addr: byte, data: seq<byte>, chunkSize: nat)
    requires Acked(s, data, chunkSize) && addr != RESERVED_UID
    requires s.hub.transfer.sentOffset + |NextChunk(s.hub.transfer)| < |data|
    ensures Enabled(crcFile, s, TickNow(s, addr))
    ensures var next, moved := Do(crcFile, s, TickNow(s, addr)), MovedOn(s.hub.transfer);
            && NextTurn(crcFile, s, addr).sent == Some(FileWriteChunk(moved.file, NextChunk(moved)))
            && next.receiver == s.receiver && ChunkOut(next, moved)
  {
    hide NextChunk, Apply, Do, Enabled, JustSent;
    MovingTick(crcFile, s.hub, addr, s.counter % 0x100);
    var moved := MovedOn(s.hub.transfer);
    TickSends(crcFile, s, addr, FileWriteChunk(moved.file, NextChunk(moved)));
  }

  lemma ChunkAccepted(
    crcFile: CrcFile, c: Setting, s: System, moved: Transfer, data: seq<byte>, chunkSize: nat)
    returns (next: System)
    requires ChunkOut(s, moved) && NextChunk(moved) != [] && moved.data == data && moved.chunkSize == chunkSize
    requires ChunkFits(c.sizes, |NextChunk(moved)|) && Registers(c.sizes)
    requires s.receiver == Receiver(data[..moved.sentOffset], |data| % 0x1_0000_0000)
    ensures Leads(crcFile, c, s, next) && Acked(next, data, chunkSize)
    ensures next.hub.transfer == moved.(packetAck := Some(OK))
  {
    SameChunk(moved, moved.(packetAck := Some(OK)));
    hide NextChunk, Leads;
    var receiver := s.receiver.(buffer := s.receiver.buffer + NextChunk(moved));
    next := Accepted(s, receiver);
    Exchange(crcFile, c, s, FileWriteChunk(moved.file, NextChunk(moved)), receiver);
  }

  // Every chunk of what is left fits.
  ghost predicate RestFits(sizes: Sizes, t: Transfer) {
    Registers(sizes) && ChunkFits(sizes, LongestPiece(Rest(t), t.chunkSize))
  }

  lemma RestFitsOn(sizes: Sizes, t: Transfer)
    requires RestFits(sizes, t) && t.sentOffset + |NextChunk(t)| <= |t.data|
    ensures ChunkFits(sizes, |NextChunk(t)|) && RestFits(sizes, MovedOn(t))
  {
    LongestCovers(t);
    hide NextChunk, LongestPiece;
  }

  lemma MovingTickCan(crcFile: CrcFile, c: Setting, s: System, addr: byte, data: seq<byte>, chunkSize: nat)
    requires Acked(s, data, chunkSize) && addr != RESERVED_UID && RestFits(c.sizes, s.hub.transfer)
    ensures Can(crcFile, c, s, TickNow(s, addr))
  {
    AckedHolds(s, data, chunkSize);
    RestFitsOn(c.sizes, s.hub.transfer);
    RestFitsOn(c.sizes, MovedOn(s.hub.transfer));
    MovingTick(crcFile, s.hub, addr, s.counter % 0x100);
    hide NextChunk, Apply, Can, RestFits;
    TickCan(crcFile, c, s, addr);
  }

  // A chunk on its way is taken, and so is the rest.
  lemma {:induction false} ChunkTaken(
    crcFile: CrcFile, c: Setting, s: System, moved: Transfer, addr: byte, data: seq<byte>, chunkSize: nat)
    returns (end: System)
    requires ChunkOut(s, moved) && NextChunk(moved) != [] && moved.data == data && moved.chunkSize == chunkSize
    requires s.receiver == Receiver(data[..moved.sentOffset], |data| % 0x1_0000_0000)
    requires addr != RESERVED_UID && RestFits(c.sizes, moved) && ChunkFits(c.sizes, |NextChunk(moved)|)
    ensures Leads(crcFile, c, s, end) && Ends(crcFile, end, addr, data, chunkSize)
    decreases |data| - moved.sentOffset, 1
  {
    hide Leads, NextChunk, Acked, Ends, ChunkOut, ChunkFits, LongestPiece;
    var acked := ChunkAccepted(crcFile, c, s, moved, data, chunkSize);
    end := ManyExchanges(crcFile, c, acked, addr, data, chunkSize);
    LeadsOn(crcFile, c, s, acked, end);
  }

  /** From the acknowledgement of any chunk, the rest is exchanged until all is confirmed or a chunk is empty. */
  lemma {:induction false} ManyExchanges(
    crcFile: CrcFile, c: Setting, s: System, addr: byte, data: seq<byte>, chunkSize: nat) returns (end: System)
    requires Acked(s, data, chunkSize) && addr != RESERVED_UID && RestFits(c.sizes, s.hub.transfer)
    ensures Leads(crcFile, c, s, end) && Ends(crcFile, end, addr, data, chunkSize)
    decreases |data| - s.hub.transfer.sentOffset, 0
  {
    AckedHolds(s, data, chunkSize);
    MovingTickCan(crcFile, c, s, addr, data, chunkSize);
    hide Do, Leads, Enabled, NextTurn, NextChunk, Can, Complete, ChunkOut, RestFits, ChunkFits, HoldsUpTo, Apply;
    var t := s.hub.transfer;
    var moved := MovedOn(t);
    RestFitsOn(c.sizes, t);
    if moved.sentOffset == |data| {
      LastPieceTick(crcFile, s, addr, data, chunkSize);
      end := Do(crcFile, s, TickNow(s, addr));
      OneMove(crcFile, c, s, TickNow(s, addr));
    } else {
      NextPieceTick(crcFile, s, addr, data, chunkSize);
      if NextChunk(moved) == [] {
        end := s;
        EmptyPiece(s, moved, data, chunkSize);
        StaysPut(crcFile, c, s);
      } else {
        ChunkIsLeft(moved);
        RestFitsOn(c.sizes, moved);
        var next := Do(crcFile, s, TickNow(s, addr));
        OneMove(crcFile, c, s, TickNow(s, addr));
        end := ChunkTaken(crcFile, c, next, moved, addr, data, chunkSize);
        LeadsOn(crcFile, c, s, next, end);
      }
    }
  }

  // ----- the beginning of a transfer -----

  // The request has been accepted, and the first chunk is due.
  ghost predicate Opened(s: System, data: seq<byte>, chunkSize: nat) {
    var t := s.hub.transfer;
    && Still(s, data, chunkSize) && t.state == Sending && t.firstPacket && t.sentOffset == 0
    && s.receiver == Receiver([], |data| % 0x1_0000_0000)
  }

  lemma OpenedTick(crcFile: CrcFile, s: System, addr: byte, data: seq<byte>, chunkSize: nat)
    requires Opened(s, data, chunkSize) && addr != RESERVED_UID
    ensures Enabled(crcFile, s, TickNow(s, addr))
    ensures var next, t := Do(crcFile, s, TickNow(s, addr)), s.hub.transfer;
            && NextTurn(crcFile, s, addr).sent == Some(FileWriteChunk(t.file, NextChunk(t)))
            && next.receiver == s.receiver && ChunkOut(next, t.(firstPacket := false))
  {
    var t := s.hub.transfer;
    SameChunk(t, t.(firstPacket := false));
    hide NextChunk, Apply, Do, Enabled, JustSent;
    FirstChunkGoesOut(crcFile, s.hub, TickAtNextCall(s.hub, addr, s.counter % 0x100));
    TickSends(crcFile, s, addr, FileWriteChunk(t.file, NextChunk(t)));
  }

  lemma OpenedTickCan(crcFile: CrcFile, c: Setting, s: System, addr: byte, data: seq<byte>, chunkSize: nat)
    requires Opened(s, data, chunkSize) && addr != RESERVED_UID && RestFits(c.sizes, s.hub.transfer)
    ensures Can(crcFile, c, s, TickNow(s, addr)) && ChunkFits(c.sizes, |NextChunk(s.hub.transfer)|)
  {
    OpenedTick(crcFile, s, addr, data, chunkSize);
    ChunkIsLeft(s.hub.transfer);
    RestFitsOn(c.sizes, s.hub.transfer);
    hide NextChunk, Apply, Can, RestFits, Do, Enabled;
    TickCan(crcFile, c, s, addr);
  }

  lemma FirstChunk(
    crcFile: CrcFile, c: Setting, s: System, addr: byte, data: seq<byte>, chunkSize: nat) returns (end: System)
    requires Opened(s, data, chunkSize) && addr != RESERVED_UID && RestFits(c.sizes, s.hub.transfer)
    ensures Leads(crcFile, c, s, end) && Ends(crcFile, end, addr, data, chunkSize)
  {
    var moved := s.hub.transfer.(firstPacket := false);
    SameChunk(s.hub.transfer, moved);
    OpenedTickCan(crcFile, c, s, addr, data, chunkSize);
    OpenedTick(crcFile, s, addr, data, chunkSize);
    assert s.receiver.buffer == [] == data[..0];
    hide Do, Leads, Enabled, NextTurn, NextChunk, Can, Complete, ChunkOut, ChunkFits, LongestPiece, Apply, HoldsUpTo;
    if NextChunk(moved) == [] {
      end := s;
      EmptyPiece(s, moved, data, chunkSize);
      StaysPut(crcFile, c, s);
    } else {
      var next := Do(crcFile, s, TickNow(s, addr));
      OneMove(crcFile, c, s, TickNow(s, addr));
      end := ChunkTaken(crcFile, c, next, moved, addr, data, chunkSize);
      LeadsOn(crcFile, c, s, next, end);
    }
  }

  ghost predicate Asking(s: System, data: seq<byte>, chunkSize: nat) {
    var t := s.hub.transfer;
    Still(s, data, chunkSize) && t.state == Request && t.firstPacket && t.sentOffset == 0
  }

  lemma RequestExchange(
    crcFile: CrcFile, c: Setting, s: System, addr: byte, data: seq<byte>, chunkSize: nat) returns (begun: System)
    requires Asking(s, data, chunkSize) && addr != RESERVED_UID && Registers(c.sizes)
    ensures Leads(crcFile, c, s, begun) && Opened(begun, data, chunkSize)
    ensures begun.hub.transfer == s.hub.transfer.(state := Sending) && begun.hub.timeoutCounter == s.hub.timeoutCounter
  {
    var request := FileWriteRequest(s.hub.transfer.file, |data| % 0x1_0000_0000);
    var receiver := Receiver([], |data| % 0x1_0000_0000);
    RequestGoesOut(crcFile, s.hub, TickAtNextCall(s.hub, addr, s.counter % 0x100));
    hide Apply, Do, Enabled, Leads, Can;
    TickCan(crcFile, c, s, addr);
    TickSends(crcFile, s, addr, request);
    var next := Do(crcFile, s, TickNow(s, addr));
    begun := Accepted(next, receiver);
    assert Opened(begun, data, chunkSize);
    hide Opened, JustSent, Accepted;
    OneMove(crcFile, c, s, TickNow(s, addr));
    Exchange(crcFile, c, next, request, receiver);
    LeadsOn(crcFile, c, s, next, begun);
  }

  // A running device with nothing under way.
  ghost predicate Ready(s: System) {
    Empty(s) && s.hub.pending == None && s.hub.state == Running && s.hub.transfer.packetAck == None
  }

  lemma FileGiven(
    crcFile: CrcFile, c: Setting, s: System, file: byte, data: seq<byte>, chunkSize: nat) returns (asking: System)
    requires Ready(s)
    ensures Leads(crcFile, c, s, asking) && Asking(asking, data, chunkSize)
    ensures asking.hub == StartFile(s.hub, file, data, chunkSize) && asking.receiver == s.receiver
  {
    var m := HubActs(UserFile(file, data, chunkSize));
    asking := Do(crcFile, s, m);
    OneMove(crcFile, c, s, m);
    hide Leads;
  }

  lemma TransferRuns(
    crcFile: CrcFile, c: Setting, s: System, addr: byte, file: byte, data: seq<byte>, chunkSize: nat)
    returns (end: System)
    requires Ready(s) && addr != RESERVED_UID
    requires Registers(c.sizes) && ChunkFits(c.sizes, LongestPiece(|data|, chunkSize))
    ensures Leads(crcFile, c, s, end) && Ends(crcFile, end, addr, data, chunkSize)
  {
    hide Leads, Ready, Ends, LongestPiece, ChunkFits;
    var asking := FileGiven(crcFile, c, s, file, data, chunkSize);
    var begun := RequestExchange(crcFile, c, asking, addr, data, chunkSize);
    LeadsOn(crcFile, c, s, asking, begun);
    end := FirstChunk(crcFile, c, begun, addr, data, chunkSize);
    LeadsOn(crcFile, c, s, begun, end);
  }

  // ----- discovery -----

  lemma DiscoveryTick(crcFile: CrcFile, addr: byte, number: byte)
    ensures var o := Apply(crcFile, NEW_DEVICE, TickAtNextCall(NEW_DEVICE, addr, number));
            && o.sent == Some(DeviceInfoReq)
            && o.dev == NEW_DEVICE.(nextCall := 1000,
                                    pending := Some(Pending((number + 1) % 0x100, DEVICE_INFO_REQ, 0)))
  {
    hide ActRunning, ActTransfer;
  }

  ghost predicate Unnamed(s: System) {
    && s.hub.state == InfoRequest && s.hub.transfer == FRESH && s.hub.timeoutCounter == 0
    && s.hub.pending.Some? && s.hub.pending.value.number == s.counter % 0x100 && s.pendingNth == s.counter
  }

  // The device has answered with its name.
  ghost predicate NameOnItsWay(s: System, answer: Body) {
    && Unnamed(s) && s.toDevice == [] && s.toHub == [Packet(s.counter, answer)]
    && answer.DeviceInfoAnw? && answer.name != []
  }

  lemma NameTaken(crcFile: CrcFile, c: Setting, s: System, answer: Body)
    requires NameOnItsWay(s, answer) && NameFits(c.sizes, answer.name)
    ensures Can(crcFile, c, s, HubGets(0))
    ensures var next := Do(crcFile, s, HubGets(0));
            Ready(next) && next.hub.transfer == FRESH && next.hub.timeoutCounter == 0
  {
  }

  lemma NameGiven(crcFile: CrcFile, c: Setting, s: System, answer: Body)
    requires Unnamed(s) && JustSent(s, DeviceInfoReq) && answer.DeviceInfoAnw? && NameFits(c.sizes, answer.name)
    ensures var m := DeviceGets(s.receiver, Some(answer));
            Can(crcFile, c, s, m) && NameOnItsWay(Do(crcFile, s, m), answer)
  {
  }

  lemma NameAsked(crcFile: CrcFile, c: Setting, s: System, addr: byte)
    requires Empty(s) && s.hub == NEW_DEVICE && Registers(c.sizes)
    ensures var m := TickNow(s, addr);
            && Can(crcFile, c, s, m)
            && Unnamed(Do(crcFile, s, m)) && JustSent(Do(crcFile, s, m), DeviceInfoReq)
  {
    DiscoveryTick(crcFile, addr, s.counter % 0x100);
    hide Apply, Do, Enabled, Can;
    TickCan(crcFile, c, s, addr);
    TickSends(crcFile, s, addr, DeviceInfoReq);
  }

  // Whatever is in flight may be lost.
  lemma {:induction false} Quieted(crcFile: CrcFile, c: Setting, s: System) returns (quiet: System)
    requires Within(s, c.window)
    ensures Leads(crcFile, c, s, quiet) && quiet == s.(toDevice := [], toHub := [])
    decreases |s.toDevice| + |s.toHub|
  {
    hide Leads;
    if Empty(s) {
      quiet := s;
      StaysPut(crcFile, c, s);
    } else {
      var m := if s.toDevice != [] then LosesMessage(0) else LosesAnswer(0);
      var less := Do(crcFile, s, m);
      OneMove(crcFile, c, s, m);
      quiet := Quieted(crcFile, c, less);
      LeadsOn(crcFile, c, s, less, quiet);
    }
  }

  lemma QuietDiscovery(crcFile: CrcFile, c: Setting, s: System, addr: byte, name: Blob) returns (ready: System)
    requires Empty(s) && s.hub == NEW_DEVICE && NameFits(c.sizes, name)
    ensures Leads(crcFile, c, s, ready) && Ready(ready)
    ensures ready.hub.transfer == FRESH && ready.hub.timeoutCounter == 0
  {
    hide Do, Leads, Ready, Can, Enabled, Unnamed, NameOnItsWay, JustSent;
    var answer := DeviceInfoAnw(NO_VERSION, name);
    NameAsked(crcFile, c, s, addr);
    assert Enabled(crcFile, s, TickNow(s, addr)) by {
      TickDoes(crcFile, s, addr);
    }
    var s1 := Do(crcFile, s, TickNow(s, addr));
    OneMove(crcFile, c, s, TickNow(s, addr));
    var m := DeviceGets(s1.receiver, Some(answer));
    NameGiven(crcFile, c, s1, answer);
    var s2 := Do(crcFile, s1, m);
    MoveOn(crcFile, c, s, s1, m);
    NameTaken(crcFile, c, s2, answer);
    ready := Do(crcFile, s2, HubGets(0));
    MoveOn(crcFile, c, s, s2, HubGets(0));
  }

  // A device just found comes into operation.
  lemma Discovery(crcFile: CrcFile, c: Setting, s: System, addr: byte, name: Blob) returns (ready: System)
    requires Starts(s) && Within(s, c.window) && NameFits(c.sizes, name)
    ensures Leads(crcFile, c, s, ready) && Ready(ready)
    ensures ready.hub.transfer == FRESH && ready.hub.timeoutCounter == 0
  {
    hide Leads, Ready;
    var quiet := Quieted(crcFile, c, s);
    ready := QuietDiscovery(crcFile, c, quiet, addr, name);
    LeadsOn(crcFile, c, s, quiet, ready);
  }

  // ----- the end of a transfer -----

  lemma FinalizeTick(crcFile: CrcFile, dev: Device, addr: byte, number: byte)
    requires InTransfer(dev, Finalize) && dev.pending == None && addr != RESERVED_UID
    ensures var o, t := Apply(crcFile, dev, TickAtNextCall(dev, addr, number)), dev.transfer;
            && o.sent == Some(FileWriteFinalize(t.file, t.chunkSent % 0x1_0000, crcFile(t.data)))
            && o.dev == dev.(nextCall := dev.nextCall + 500,
                             pending := Some(Pending((number + 1) % 0x100, FILE_WRITE_FINALIZE, dev.nextCall)))
  {
    hide ActRunning, ActSending;
  }

  // The receiver has accepted the file, and the hub is about to hear of it.
  ghost predicate Answering(s: System, data: seq<byte>, chunkSize: nat) {
    && s.toDevice == [] && s.toHub == [Packet(s.counter, Ack(OK))] && s.pendingNth == s.counter
    && Awaiting(s.hub, FILE_WRITE_FINALIZE) && s.hub.pending.value.number == s.counter % 0x100
    && s.hub.state == FileTransfer && s.hub.transfer.data == data && s.hub.transfer.chunkSize == chunkSize
    && AcceptedWhole(s)
  }

  lemma LastAnswer(crcFile: CrcFile, c: Setting, s: System, data: seq<byte>, chunkSize: nat)
    requires Answering(s, data, chunkSize) && Registers(c.sizes)
    ensures Can(crcFile, c, s, HubGets(0)) && FileWriteResult(OK) in Reports(crcFile, s, HubGets(0))
  {
  }

  lemma FinalizeAccepted(crcFile: CrcFile, c: Setting, s: System, body: Body, data: seq<byte>, chunkSize: nat)
    requires JustSent(s, body) && body.FileWriteFinalize? && body.crc == crcFile(data)
    requires s.hub.state == FileTransfer && s.hub.transfer.data == data && s.hub.transfer.chunkSize == chunkSize
    requires Awaiting(s.hub, FILE_WRITE_FINALIZE) && s.receiver == Receiver(data, |data|) && Registers(c.sizes)
    ensures var m := DeviceGets(s.receiver, Some(Ack(OK)));
            && Can(crcFile, c, s, m)
            && Answering(Do(crcFile, s, m), data, chunkSize) && Do(crcFile, s, m).hub == s.hub
  {
    hide Apply;
  }

  lemma CanIsEnabled(crcFile: CrcFile, c: Setting, s: System, m: Move)
    requires Can(crcFile, c, s, m)
    ensures Enabled(crcFile, s, m)
  {
  }

  /** A complete transfer of a file below 4 GiB gets as far as the receiver's Ok. */
  lemma LastExchange(
    crcFile: CrcFile, c: Setting, s: System, addr: byte, data: seq<byte>, chunkSize: nat) returns (end: System)
    requires Complete(s, data, chunkSize) && |data| < 0x1_0000_0000 && addr != RESERVED_UID && Registers(c.sizes)
    ensures Leads(crcFile, c, s, end) && Answering(end, data, chunkSize) && end.hub.transfer == s.hub.transfer
  {
    var finalize := FileWriteFinalize(s.hub.transfer.file, s.hub.transfer.chunkSent % 0x1_0000, crcFile(data));
    FinalizeTick(crcFile, s.hub, addr, s.counter % 0x100);
    hide Apply, Leads, Do, Enabled, Can, Answering;
    TickCan(crcFile, c, s, addr);
    TickSends(crcFile, s, addr, finalize);
    var next := Do(crcFile, s, TickNow(s, addr));
    OneMove(crcFile, c, s, TickNow(s, addr));
    FinalizeAccepted(crcFile, c, next, finalize, data, chunkSize);
    var m := DeviceGets(next.receiver, Some(Ack(OK)));
    assert Enabled(crcFile, next, m) by {
      CanIsEnabled(crcFile, c, next, m);
    }
    end := Do(crcFile, next, m);
    MoveOn(crcFile, c, s, next, m);
  }

  // From any device just found, any file and any chunk size: how far its transfer gets.
  lemma TransferFromStart(
    crcFile: CrcFile, c: Setting, s: System, addr: byte, name: Blob, file: byte, data: seq<byte>, chunkSize: nat)
    returns (end: System)
    requires Starts(s) && Within(s, c.window) && addr != RESERVED_UID && NameFits(c.sizes, name)
    requires ChunkFits(c.sizes, LongestPiece(|data|, chunkSize))
    ensures Leads(crcFile, c, s, end) && Ends(crcFile, end, addr, data, chunkSize)
  {
    hide Leads, Ready, Ends, LongestPiece, ChunkFits;
    var ready := Discovery(crcFile, c, s, addr, name);
    end := TransferRuns(crcFile, c, ready, addr, file, data, chunkSize);
    LeadsOn(crcFile, c, s, ready, end);
  }
}
