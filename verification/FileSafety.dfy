/**
  Hub, channels and receiver together. Both channels are first-in first-out, never duplicate, and may
  lose any message at any time. Messages are numbered without bound here; on the wire a number is a
  byte, and a run must never have a message, an answer or a pending transaction outlive 256 messages.
*/
module FileSafety {
  import opened Bytes
  import opened Messages
  import opened DeviceSpec
  import opened DeviceRuns
  import opened DeviceTransfer
  import opened Sequences

  datatype Packet = Packet(nth: nat, body: Body)

  ghost predicate IsFile(b: Body) {
    b.FileWriteRequest? || b.FileWriteChunk? || b.FileWriteFinalize?
  }

  // A receiver of files: what it has put together, and the size it was told to expect.
  datatype Receiver = Receiver(buffer: seq<byte>, expected: nat)

  // `pendingNth` numbers the message the hub awaits an answer to; `accepted` is what the receiver had
  // put together when it answered a finalize message with Ok.
  datatype System = System(
    hub: Device, counter: nat, pendingNth: nat, toDevice: seq<Packet>, toHub: seq<Packet>,
    receiver: Receiver, accepted: map<nat, seq<byte>>)

  datatype Move =
    | HubActs(e: Event)                                  // a tick or a user call
    | OthersAct(extra: Option<Body>)                     // the hub sends something else; broadcasts also come here
    | DeviceGets(next: Receiver, reply: Option<Body>)    // the first message reaches the receiver
    | HubGets(now: int)                                  // the first answer reaches the hub
    | LosesMessage(i: nat)
    | LosesAnswer(i: nat)

  // The receiver: clears on an accepted request, appends on Ok, keeps its buffer on Busy, and accepts a
  // finalized file exactly when size and checksum agree. Any other answer may do anything to the buffer.
  ghost predicate Receives(crcFile: CrcFile, r: Receiver, body: Body, next: Receiver, reply: Option<Body>) {
    match body
    case FileWriteRequest(_, size) =>
      reply.Some? && reply.value.Ack? && (reply == Some(Ack(OK)) ==> next == Receiver([], size))
    case FileWriteChunk(_, chunk) =>
      && reply.Some? && reply.value.Ack?
      && (reply == Some(Ack(OK)) ==> next == r.(buffer := r.buffer + chunk))
      && (reply == Some(Ack(BUSY)) ==> next == r)
    case FileWriteFinalize(_, _, crc) =>
      && reply.Some? && reply.value.Ack? && next == r
      && (reply == Some(Ack(OK)) <==> |r.buffer| == r.expected && crcFile(r.buffer) == crc)
    case _ => next == r
  }

  ghost predicate Enabled(crcFile: CrcFile, s: System, m: Move) {
    match m
    case HubActs(e) =>
      && !e.AckIn? && !e.InfoIn? && !e.BlobIn? && !e.HealthIn?
      && Timely(e) && (e.TickAt? ==> e.number == s.counter % 0x100)
    case OthersAct(extra) => extra.Some? ==> !IsFile(extra.value)
    case DeviceGets(next, reply) => s.toDevice != [] && Receives(crcFile, s.receiver, s.toDevice[0].body, next, reply)
    case HubGets(_) => s.toHub != []
    case LosesMessage(i) => i < |s.toDevice|
    case LosesAnswer(i) => i < |s.toHub|
  }

  // The handler an answer's type calls for; other messages leave the record alone.
  ghost function AnswerEvent(p: Packet, now: int): Option<Event> {
    var number := p.nth % 0x100;
    match p.body
    case Ack(code) => Some(AckIn(number, code, now))
    case DeviceInfoAnw(version, name) => Some(InfoIn(number, version, name))
    case BlobAnswer(request, data) => Some(BlobIn(number, request, data))
    case HealthAnw(health, flags) => Some(HealthIn(number, health, flags))
    case _ => None
  }

  // What happens at the hub in a move, if anything does.
  ghost function HubEvent(crcFile: CrcFile, s: System, m: Move): Option<Event>
    requires Enabled(crcFile, s, m)
  {
    match m
    case HubActs(e) => Some(e)
    case HubGets(now) => AnswerEvent(s.toHub[0], now)
    case _ => None
  }

  ghost function Numbered(s: System, body: Option<Body>): seq<Packet> {
    match body
    case None => s.toDevice
    case Some(b) => s.toDevice + [Packet(s.counter + 1, b)]
  }

  ghost function Do(crcFile: CrcFile, s: System, m: Move): System
    requires Enabled(crcFile, s, m)
  {
    match m
    case HubActs(e) =>
      var o := Apply(crcFile, s.hub, e);
      if o.sent == None then s.(hub := o.dev)
      else s.(hub := o.dev, counter := s.counter + 1, pendingNth := s.counter + 1, toDevice := Numbered(s, o.sent))
    case OthersAct(extra) => s.(counter := s.counter + 1, toDevice := Numbered(s, extra))
    case DeviceGets(next, reply) =>
      var p := s.toDevice[0];
      var answered := if reply == None then s.toHub else s.toHub + [Packet(p.nth, reply.value)];
      var accepted :=
        if p.body.FileWriteFinalize? && reply == Some(Ack(OK))
        then s.accepted[p.nth := s.receiver.buffer] else s.accepted;
      s.(toDevice := s.toDevice[1..], toHub := answered, receiver := next, accepted := accepted)
    case HubGets(now) =>
      var dev := match AnswerEvent(s.toHub[0], now) case None => s.hub case Some(e) => Apply(crcFile, s.hub, e).dev;
      s.(hub := dev, toHub := s.toHub[1..])
    case LosesMessage(i) => s.(toDevice := Without(s.toDevice, i))
    case LosesAnswer(i) => s.(toHub := Without(s.toHub, i))
  }

  // The hub has sent no more than `window` messages since anything in flight, and since what is pending.
  ghost predicate Within(s: System, window: nat) {
    && (forall p :: p in s.toDevice || p in s.toHub ==> s.counter - p.nth <= window)
    && (s.hub.pending.Some? ==> s.counter - s.pendingNth <= window)
  }

  ghost predicate Recent(s: System) {
    Within(s, 0xFF)
  }

  // ----- the invariant -----

  // Answers in flight are to older messages than those still on their way, each in order.
  ghost predicate Ascending(ps: seq<Packet>) {
    forall i, j :: 0 <= i < j < |ps| ==> ps[i].nth < ps[j].nth
  }

  ghost predicate InOrder(toHub: seq<Packet>, toDevice: seq<Packet>, counter: nat) {
    && Ascending(toDevice) && Ascending(toHub)
    && (forall p, q :: p in toHub && q in toDevice ==> p.nth < q.nth)
    && (forall p :: p in toDevice || p in toHub ==> p.nth <= counter)
  }

  ghost predicate PendingNumbered(s: System) {
    s.hub.pending.Some? ==> s.pendingNth <= s.counter && s.hub.pending.value.number == s.pendingNth % 0x100
  }

  ghost predicate Ordered(s: System) {
    InOrder(s.toHub, s.toDevice, s.counter) && PendingNumbered(s)
  }

  // No file message is on its way.
  ghost predicate Clear(s: System) {
    forall p :: p in s.toDevice ==> !IsFile(p.body)
  }

  ghost function Size(t: Transfer): nat {
    |t.data| % 0x1_0000_0000
  }

  ghost predicate Holds(s: System, buffer: seq<byte>) {
    s.receiver == Receiver(buffer, Size(s.hub.transfer))
  }

  // What an answer to the pending chunk tells about the receiver.
  ghost predicate ChunkAnswered(s: System, code: byte) {
    var t := s.hub.transfer;
    && Clear(s)
    && (code == OK ==> Holds(s, t.data[..t.sentOffset] + NextChunk(t)))
    && (code == BUSY ==> Holds(s, t.data[..t.sentOffset]))
  }

  ghost predicate RequestPhase(s: System) {
    var t := s.hub.transfer;
    Awaiting(s.hub, FILE_WRITE_REQUEST) ==>
      && (forall p :: p in s.toDevice ==>
            && (IsFile(p.body) ==> p.nth <= s.pendingNth)
            && (p.nth == s.pendingNth ==> p.body == FileWriteRequest(t.file, Size(t))))
      && (Packet(s.pendingNth, Ack(OK)) in s.toHub ==> Clear(s) && Holds(s, []))
  }

  ghost predicate SendingPhase(s: System) {
    var t := s.hub.transfer;
    && (t.firstPacket ==> Clear(s) && Holds(s, []))
    && (t.packetAck.Some? ==> ChunkAnswered(s, t.packetAck.value))
    && (Awaiting(s.hub, FILE_WRITE_CHUNK) ==>
          && (forall p :: p in s.toDevice && (IsFile(p.body) || p.nth == s.pendingNth) ==>
                p == Packet(s.pendingNth, FileWriteChunk(t.file, NextChunk(t))) && Holds(s, t.data[..t.sentOffset]))
          && (forall code :: Packet(s.pendingNth, Ack(code)) in s.toHub ==> ChunkAnswered(s, code)))
  }

  ghost predicate FinalAnswer(s: System, code: byte) {
    && (code == OK <==> |s.hub.transfer.data| < 0x1_0000_0000)
    && (code == OK ==> s.pendingNth in s.accepted && s.accepted[s.pendingNth] == s.hub.transfer.data)
  }

  ghost predicate FinalizePhase(crcFile: CrcFile, s: System) {
    var t := s.hub.transfer;
    && Holds(s, t.data)
    && (forall p :: p in s.toDevice && IsFile(p.body) ==> p.body.FileWriteFinalize? && p.body.crc == crcFile(t.data))
    && (Awaiting(s.hub, FILE_WRITE_FINALIZE) ==>
          && (forall p :: p in s.toDevice && p.nth == s.pendingNth ==> IsFile(p.body))
          && (forall code :: Packet(s.pendingNth, Ack(code)) in s.toHub ==> FinalAnswer(s, code)))
  }

  ghost predicate Phases(crcFile: CrcFile, s: System) {
    && (InTransfer(s.hub, Request) ==> RequestPhase(s))
    && (InTransfer(s.hub, Sending) ==> SendingPhase(s))
    && (InTransfer(s.hub, Finalize) ==> FinalizePhase(crcFile, s))
  }

  ghost predicate Safe(crcFile: CrcFile, s: System) {
    Coherent(s.hub) && Ordered(s) && Phases(crcFile, s)
  }

  // ----- what changes nothing that matters -----

  // Not the file message an answer is awaited to, nor an answer to it.
  ghost predicate Unrelated(s: System, p: Packet) {
    Awaiting(s.hub, FILE_WRITE_REQUEST) || Awaiting(s.hub, FILE_WRITE_CHUNK) || Awaiting(s.hub, FILE_WRITE_FINALIZE) ==>
      p.nth != s.pendingNth
  }

  ghost predicate NoMore(s: System, next: System) {
    && next.hub.state == s.hub.state && next.hub.transfer == s.hub.transfer
    && (next.hub.pending == s.hub.pending || next.hub.pending == None)
    && next.pendingNth == s.pendingNth && next.receiver == s.receiver && next.accepted == s.accepted
    && (forall p :: p in next.toDevice ==> p in s.toDevice || (!IsFile(p.body) && Unrelated(s, p)))
    && (forall p :: p in next.toHub ==> p in s.toHub || Unrelated(s, p))
  }

  lemma NoMoreKeepsPhases(crcFile: CrcFile, s: System, next: System)
    requires Phases(crcFile, s) && NoMore(s, next)
    ensures Phases(crcFile, next)
  {
    hide NextChunk;
  }

  // ----- order -----

  lemma ActKeepsPending(crcFile: CrcFile, dev: Device, e: Event)
    requires e.TickAt?
    ensures ActOn(crcFile, dev, e.addr, e.temporaryUid, e.time).dev.pending == dev.pending
  {
    hide LastDue, MarkDue, NextChunk;
  }

  lemma TickPending(crcFile: CrcFile, dev: Device, e: Event)
    requires e.TickAt?
    ensures var o := Apply(crcFile, dev, e);
            o.dev.pending.Some? ==>
              if o.sent.Some? then o.dev.pending.value.number == (e.number + 1) % 0x100
              else o.dev.pending == dev.pending
  {
    ActKeepsPending(crcFile, dev, e);
    hide ActOn;
  }

  lemma SendingKeepsOrder(toHub: seq<Packet>, toDevice: seq<Packet>, counter: nat, body: Body)
    requires InOrder(toHub, toDevice, counter)
    ensures InOrder(toHub, toDevice + [Packet(counter + 1, body)], counter + 1)
  {
  }

  lemma LossKeepsOrder(toHub: seq<Packet>, toDevice: seq<Packet>, counter: nat)
    requires InOrder(toHub, toDevice, counter)
    ensures forall i :: 0 <= i < |toDevice| ==> InOrder(toHub, Without(toDevice, i), counter)
    ensures forall i :: 0 <= i < |toHub| ==> InOrder(Without(toHub, i), toDevice, counter)
  {
  }

  lemma AnsweringKeepsOrder(toHub: seq<Packet>, toDevice: seq<Packet>, counter: nat, reply: Body)
    requires InOrder(toHub, toDevice, counter) && toDevice != []
    ensures InOrder(toHub + [Packet(toDevice[0].nth, reply)], toDevice[1..], counter)
  {
    assert toDevice[0] in toDevice;
  }

  lemma AnswerKeepsPending(crcFile: CrcFile, dev: Device, e: Event)
    requires !e.TickAt?
    ensures var o := Apply(crcFile, dev, e); o.sent == None && (o.dev.pending == dev.pending || o.dev.pending == None)
  {
  }

  // The system after the hub's turn.
  ghost function Turned(s: System, dev: Device, sent: Option<Body>): System {
    if sent == None then s.(hub := dev)
    else s.(hub := dev, counter := s.counter + 1, pendingNth := s.counter + 1, toDevice := Numbered(s, sent))
  }

  lemma TurnKeepsOrder(s: System, dev: Device, sent: Option<Body>)
    requires Ordered(s)
    requires dev.pending.Some? ==>
               if sent.Some? then dev.pending.value.number == (s.counter + 1) % 0x100 else dev.pending == s.hub.pending
    ensures Ordered(Turned(s, dev, sent))
  {
    hide InOrder;
    if sent.Some? {
      SendingKeepsOrder(s.toHub, s.toDevice, s.counter, sent.value);
    }
  }

  lemma HubKeepsOrder(crcFile: CrcFile, s: System, e: Event)
    requires Ordered(s) && Enabled(crcFile, s, HubActs(e))
    ensures Ordered(Do(crcFile, s, HubActs(e)))
  {
    hide Apply, Ordered, Timely;
    var o := Apply(crcFile, s.hub, e);
    if e.TickAt? {
      TickPending(crcFile, s.hub, e);
    } else {
      AnswerKeepsPending(crcFile, s.hub, e);
    }
    TurnKeepsOrder(s, o.dev, o.sent);
  }

  lemma MoveKeepsOrder(crcFile: CrcFile, s: System, m: Move)
    requires Ordered(s) && Enabled(crcFile, s, m) && !m.HubActs?
    ensures Ordered(Do(crcFile, s, m))
  {
    hide Apply, Receives, Ascending;
    match m
    case OthersAct(extra) =>
      if extra.Some? {
        SendingKeepsOrder(s.toHub, s.toDevice, s.counter, extra.value);
      }
    case DeviceGets(_, reply) =>
      if reply.Some? {
        AnsweringKeepsOrder(s.toHub, s.toDevice, s.counter, reply.value);
      } else {
        LossKeepsOrder(s.toHub, s.toDevice, s.counter);
        assert Without(s.toDevice, 0) == s.toDevice[1..];
      }
    case HubGets(now) =>
      var e := AnswerEvent(s.toHub[0], now);
      if e.Some? {
        AnswerKeepsPending(crcFile, s.hub, e.value);
      }
      LossKeepsOrder(s.toHub, s.toDevice, s.counter);
      assert Without(s.toHub, 0) == s.toHub[1..];
    case LosesMessage(i) =>
      LossKeepsOrder(s.toHub, s.toDevice, s.counter);
    case LosesAnswer(i) =>
      LossKeepsOrder(s.toHub, s.toDevice, s.counter);
  }

  // ----- the hub's turn -----

  // What a tick does to a transfer that is sending, unless it gives up.
  ghost predicate SendingTurn(t: Transfer, u: Transfer, sent: Option<Body>, pending: Option<Pending>) {
    && u.data == t.data && u.chunkSize == t.chunkSize && u.packetAck == None && !u.firstPacket
    && (sent.Some? ==> sent.value == FileWriteChunk(u.file, NextChunk(u)) && u.state == Sending)
    && (sent == None && u.state == Sending ==> pending == None)
    && (t.firstPacket ==> u.sentOffset == t.sentOffset && u.state == Sending)
    && (!t.firstPacket ==> t.packetAck.Some?)
    && (!t.firstPacket && t.packetAck == Some(OK) ==>
          && t.sentOffset + |NextChunk(t)| <= |t.data| && u.sentOffset == t.sentOffset + |NextChunk(t)|
          && u.state == (if u.sentOffset == |t.data| then Finalize else Sending))
    && (!t.firstPacket && t.packetAck != Some(OK) ==> u.sentOffset == t.sentOffset && u.state == Sending)
    && (!t.firstPacket && sent.Some? ==> t.packetAck in {Some(OK), Some(BUSY)})
  }

  // What a tick may have done if the device is transferring, and not cancelling, after it.
  ghost predicate TurnTaken(crcFile: CrcFile, dev: Device, next: Device, sent: Option<Body>) {
    var t, u := dev.transfer, next.transfer;
    && dev.state == FileTransfer && t.state != Cancel
    && (sent.Some? ==> next.pending.Some? && next.pending.value.msgType == TypeOf(sent.value))
    && (sent == None ==> next.pending == dev.pending)
    && match t.state
       case Request => u == t && sent in {None, Some(FileWriteRequest(t.file, Size(t)))}
       case Finalize => u == t && (sent.Some? ==> sent.value.FileWriteFinalize? && sent.value.crc == crcFile(t.data))
       case _ => (next == dev && sent == None) || SendingTurn(t, u, sent, dev.pending)
  }

  lemma SendingActs(dev: Device, addr: byte)
    requires Coherent(dev) && InTransfer(dev, Sending)
    ensures var act := ActSending(dev, addr);
            act.dev.state == FileTransfer &&
            (act.dev.transfer.state != Cancel ==> SendingTurn(dev.transfer, act.dev.transfer, act.body, dev.pending))
  {
    SendingAct(dev, addr);
    hide NextChunk;
  }

  lemma TickTurns(crcFile: CrcFile, dev: Device, e: Event)
    requires Coherent(dev) && e.TickAt?
    ensures var o := Apply(crcFile, dev, e);
            o.dev.state == FileTransfer && o.dev.transfer.state != Cancel ==> TurnTaken(crcFile, dev, o.dev, o.sent)
  {
    hide Apply, NextChunk, ActRunning, ActSending;
    if e.time < dev.nextCall {
      TickTooEarly(crcFile, dev, e);
    } else {
      TickByAct(crcFile, dev, e);
      ActKeepsPending(crcFile, dev, e);
      RunningStays(dev, e.addr, e.time);
      if InTransfer(dev, Sending) {
        SendingActs(dev, e.addr);
      }
    }
  }

  lemma NothingIsNewer(s: System)
    requires Ordered(s)
    ensures forall p :: p in s.toDevice || p in s.toHub ==> p.nth < s.counter + 1
  {
  }

  lemma RequestTurn(crcFile: CrcFile, s: System, dev: Device, sent: Option<Body>)
    requires Safe(crcFile, s) && TurnTaken(crcFile, s.hub, dev, sent) && InTransfer(s.hub, Request)
    ensures Phases(crcFile, Turned(s, dev, sent))
  {
    NothingIsNewer(s);
    hide Ordered, Coherent, NextChunk;
  }

  lemma FinalizeTurn(crcFile: CrcFile, s: System, dev: Device, sent: Option<Body>)
    requires Safe(crcFile, s) && TurnTaken(crcFile, s.hub, dev, sent) && InTransfer(s.hub, Finalize)
    ensures Phases(crcFile, Turned(s, dev, sent))
  {
    NothingIsNewer(s);
    hide Ordered, Coherent, NextChunk;
  }

  lemma Extends(t: Transfer)
    requires t.sentOffset + |NextChunk(t)| <= |t.data|
    ensures t.data[..t.sentOffset] + NextChunk(t) == t.data[..t.sentOffset + |NextChunk(t)|]
  {
  }

  // Before the turn, what the receiver holds is what has been confirmed.
  lemma ConfirmedBeforeTurn(crcFile: CrcFile, s: System, u: Transfer, sent: Option<Body>)
    requires Safe(crcFile, s) && InTransfer(s.hub, Sending) && SendingTurn(s.hub.transfer, u, sent, s.hub.pending)
    requires sent.Some? || u.state == Finalize
    ensures Clear(s) && Holds(s, u.data[..u.sentOffset])
  {
    var t := s.hub.transfer;
    assert t.data[..0] == [];
    hide Ordered, NextChunk, FinalizePhase, RequestPhase;
    if !t.firstPacket && t.packetAck == Some(OK) {
      Extends(t);
    }
  }

  lemma SendingTurnIsSafe(crcFile: CrcFile, s: System, dev: Device, sent: Option<Body>)
    requires Safe(crcFile, s) && InTransfer(s.hub, Sending) && Coherent(dev)
    requires TurnTaken(crcFile, s.hub, dev, sent) && SendingTurn(s.hub.transfer, dev.transfer, sent, s.hub.pending)
    ensures Phases(crcFile, Turned(s, dev, sent))
  {
    NothingIsNewer(s);
    var u := dev.transfer;
    if sent.Some? || u.state == Finalize {
      ConfirmedBeforeTurn(crcFile, s, u, sent);
    }
    assert u.data[..|u.data|] == u.data;
    hide Ordered, NextChunk, Holds, ChunkAnswered;
  }

  lemma TurnIsSafe(crcFile: CrcFile, s: System, dev: Device, sent: Option<Body>)
    requires Safe(crcFile, s) && Coherent(dev)
    requires InTransfer(dev, dev.transfer.state) && dev.transfer.state != Cancel ==>
               TurnTaken(crcFile, s.hub, dev, sent)
    ensures Phases(crcFile, Turned(s, dev, sent))
  {
    if dev.state == FileTransfer && dev.transfer.state != Cancel {
      if s.hub.transfer.state == Request {
        RequestTurn(crcFile, s, dev, sent);
      } else if s.hub.transfer.state == Finalize {
        FinalizeTurn(crcFile, s, dev, sent);
      } else if SendingTurn(s.hub.transfer, dev.transfer, sent, s.hub.pending) {
        hide Coherent, Ordered, SendingTurn;
        SendingTurnIsSafe(crcFile, s, dev, sent);
      } else {
        NoMoreKeepsPhases(crcFile, s, Turned(s, dev, sent));
      }
    }
    hide Coherent, Ordered, Phases, RequestPhase, SendingPhase, FinalizePhase, SendingTurn;
  }

  lemma TickIsSafe(crcFile: CrcFile, s: System, e: Event)
    requires Safe(crcFile, s) && Enabled(crcFile, s, HubActs(e)) && e.TickAt?
    ensures Safe(crcFile, Do(crcFile, s, HubActs(e)))
  {
    var o := Apply(crcFile, s.hub, e);
    TickKeepsCoherent(crcFile, s.hub, e);
    TickTurns(crcFile, s.hub, e);
    HubKeepsOrder(crcFile, s, e);
    hide Apply, TurnTaken, Coherent, Ordered, Phases;
    TurnIsSafe(crcFile, s, o.dev, o.sent);
  }

  lemma UserIsSafe(crcFile: CrcFile, s: System, e: Event)
    requires Safe(crcFile, s) && Enabled(crcFile, s, HubActs(e)) && !e.TickAt?
    ensures Safe(crcFile, Do(crcFile, s, HubActs(e)))
  {
    var next := Do(crcFile, s, HubActs(e));
    AnswerKeepsCoherent(crcFile, s.hub, e);
    AnswerKeepsPending(crcFile, s.hub, e);
    HubKeepsOrder(crcFile, s, e);
    if !StartsFile(s.hub, e) {
      assert NoMore(s, next);
      NoMoreKeepsPhases(crcFile, s, next);
    }
    hide Ordered;
  }

  // ----- the receiver's turn -----

  // The first message on its way is between the answers in flight and the rest.
  lemma FirstOfOrder(s: System)
    requires Ordered(s) && s.toDevice != []
    ensures forall p :: p in s.toHub ==> p.nth < s.toDevice[0].nth
    ensures forall p :: p in s.toDevice[1..] ==> p in s.toDevice && s.toDevice[0].nth < p.nth
    ensures s.toDevice[0] in s.toDevice
  {
  }

  // The system after the receiver has answered the first message.
  ghost predicate Answered(s: System, next: System, reply: Option<Body>) {
    && s.toDevice != [] && next.toDevice == s.toDevice[1..]
    && next.toHub == (if reply == None then s.toHub else s.toHub + [Packet(s.toDevice[0].nth, reply.value)])
    && next.hub == s.hub && next.pendingNth == s.pendingNth
    && next.accepted == if s.toDevice[0].body.FileWriteFinalize? && reply == Some(Ack(OK))
                        then s.accepted[s.toDevice[0].nth := s.receiver.buffer] else s.accepted
  }

  // A message that is not about files, whatever the reply, and even a broadcast's: nothing changes.
  lemma OtherAnswered(crcFile: CrcFile, s: System, next: System, reply: Option<Body>)
    requires Safe(crcFile, s) && Answered(s, next, reply) && !IsFile(s.toDevice[0].body)
    requires InTransfer(s.hub, Request) || InTransfer(s.hub, Sending) || InTransfer(s.hub, Finalize)
    requires Receives(crcFile, s.receiver, s.toDevice[0].body, next.receiver, reply)
    ensures Phases(crcFile, next)
  {
    FirstOfOrder(s);
    assert Unrelated(s, s.toDevice[0]) by {
      hide Ordered, NextChunk, Holds;
    }
    hide Ordered, Coherent, Phases, Unrelated;
    NoMoreKeepsPhases(crcFile, s, next);
  }

  lemma RequestAnswered(crcFile: CrcFile, s: System, next: System, reply: Option<Body>)
    requires Safe(crcFile, s) && Answered(s, next, reply) && InTransfer(s.hub, Request) && IsFile(s.toDevice[0].body)
    requires Receives(crcFile, s.receiver, s.toDevice[0].body, next.receiver, reply)
    ensures RequestPhase(next)
  {
    FirstOfOrder(s);
    hide Ordered, Coherent, NextChunk, SendingPhase, FinalizePhase;
  }

  lemma SendingAnswered(crcFile: CrcFile, s: System, next: System, reply: Option<Body>)
    requires Safe(crcFile, s) && Answered(s, next, reply) && InTransfer(s.hub, Sending) && IsFile(s.toDevice[0].body)
    requires Receives(crcFile, s.receiver, s.toDevice[0].body, next.receiver, reply)
    ensures SendingPhase(next)
  {
    FirstOfOrder(s);
    hide Ordered, NextChunk, RequestPhase, FinalizePhase;
  }

  lemma FinalizeAnswered(crcFile: CrcFile, s: System, next: System, reply: Option<Body>)
    requires Safe(crcFile, s) && Answered(s, next, reply) && InTransfer(s.hub, Finalize) && IsFile(s.toDevice[0].body)
    requires Receives(crcFile, s.receiver, s.toDevice[0].body, next.receiver, reply)
    ensures FinalizePhase(crcFile, next)
  {
    FirstOfOrder(s);
    hide Ordered, Coherent, NextChunk, RequestPhase, SendingPhase;
  }

  lemma ReceiverIsSafe(crcFile: CrcFile, s: System, m: Move)
    requires Safe(crcFile, s) && Enabled(crcFile, s, m) && m.DeviceGets?
    ensures Safe(crcFile, Do(crcFile, s, m))
  {
    var next := Do(crcFile, s, m);
    MoveKeepsOrder(crcFile, s, m);
    hide Ordered, Coherent, Receives, RequestPhase, SendingPhase, FinalizePhase, Apply;
    if InTransfer(s.hub, Request) || InTransfer(s.hub, Sending) || InTransfer(s.hub, Finalize) {
      if !IsFile(s.toDevice[0].body) {
        OtherAnswered(crcFile, s, next, m.reply);
      } else if InTransfer(s.hub, Request) {
        RequestAnswered(crcFile, s, next, m.reply);
      } else if InTransfer(s.hub, Sending) {
        SendingAnswered(crcFile, s, next, m.reply);
      } else {
        FinalizeAnswered(crcFile, s, next, m.reply);
      }
    }
  }

  // ----- losses and other messages -----

  lemma LossIsSafe(crcFile: CrcFile, s: System, m: Move)
    requires Safe(crcFile, s) && Enabled(crcFile, s, m) && (m.LosesMessage? || m.LosesAnswer? || m.OthersAct?)
    ensures Safe(crcFile, Do(crcFile, s, m))
  {
    var next := Do(crcFile, s, m);
    MoveKeepsOrder(crcFile, s, m);
    hide InOrder, Coherent, Phases, Apply;
    NoMoreKeepsPhases(crcFile, s, next);
  }

  // ----- answers -----

  lemma SameByte(a: nat, b: nat)
    ensures a % 0x100 == b % 0x100 <==> (a - b) % 0x100 == 0
  {
  }

  // Numbers are bytes: an answer has the pending number when the two messages are a multiple of 256
  // apart, so it answers that very message if both are recent.
  lemma NumbersMeet(s: System)
    requires Ordered(s) && s.toHub != []
    ensures var apart := s.pendingNth - s.toHub[0].nth;
            && (Answers(s.hub, s.toHub[0].nth % 0x100) <==> s.hub.pending.Some? && apart % 0x100 == 0)
            && (Recent(s) && Answers(s.hub, s.toHub[0].nth % 0x100) ==> apart == 0)
  {
    assert s.toHub[0] in s.toHub;
    SameByte(s.pendingNth, s.toHub[0].nth);
  }

  // What each kind of answer needs besides its number: an acknowledgement nothing, an info answer a device
  // that was asked for its name, a blob or health answer the request it belongs to.
  ghost predicate Expects(dev: Device, answer: Body) {
    match answer
    case Ack(_) => true
    case DeviceInfoAnw(_, _) => dev.state == InfoRequest
    case BlobAnswer(_, _) => Awaiting(dev, BLOB_REQUEST)
    case HealthAnw(_, _) => Awaiting(dev, HEALTH_REQ)
    case _ => false
  }

  ghost predicate Completes(crcFile: CrcFile, s: System, now: int)
    requires Enabled(crcFile, s, HubGets(now))
  {
    s.hub.pending.Some? && Do(crcFile, s, HubGets(now)).hub.pending == None
  }

  /**
    The first answer in flight completes the pending transaction exactly when it is of a kind the device
    expects and the two messages are a multiple of 256 apart; and if both are recent, it answers that very
    message.
  */
  lemma AnswersArePunctual(crcFile: CrcFile, s: System, now: int)
    requires Ordered(s) && s.toHub != []
    ensures var p := s.toHub[0];
            && (Completes(crcFile, s, now) <==>
                  s.hub.pending.Some? && Expects(s.hub, p.body) && (s.pendingNth - p.nth) % 0x100 == 0)
            && (Recent(s) && Completes(crcFile, s, now) ==> p.nth == s.pendingNth)
  {
    NumbersMeet(s);
    hide Ordered, Recent;
  }

  // The acknowledgement awaited, as the hub takes it.
  lemma AckTaken(crcFile: CrcFile, s: System, next: System, code: byte, now: int)
    requires Safe(crcFile, s) && s.hub.pending.Some? && Packet(s.pendingNth, Ack(code)) in s.toHub
    requires next == s.(hub := HandleAck(s.hub, s.hub.pending.value.number, code, now).0, toHub := next.toHub)
    requires forall q :: q in next.toHub ==> q in s.toHub
    ensures Phases(crcFile, next)
  {
    SameChunk(s.hub.transfer, s.hub.transfer.(packetAck := Some(code)));
    hide Ordered, NextChunk;
  }

  lemma AckIsSafe(crcFile: CrcFile, s: System, m: Move)
    requires Safe(crcFile, s) && Enabled(crcFile, s, m) && Recent(s) && m.HubGets? && s.toHub[0].body.Ack?
    requires Answers(s.hub, s.toHub[0].nth % 0x100)
    ensures Phases(crcFile, Do(crcFile, s, m))
  {
    var p := s.toHub[0];
    NumbersMeet(s);
    assert p in s.toHub && p == Packet(s.pendingNth, Ack(p.body.code));
    hide Safe, Recent, HandleAck, Phases;
    AckTaken(crcFile, s, Do(crcFile, s, m), p.body.code, m.now);
  }

  lemma OtherAnswerIsSafe(crcFile: CrcFile, s: System, m: Move)
    requires Safe(crcFile, s) && Enabled(crcFile, s, m) && m.HubGets?
    requires !(s.toHub[0].body.Ack? && Answers(s.hub, s.toHub[0].nth % 0x100))
    ensures Phases(crcFile, Do(crcFile, s, m))
  {
    var next := Do(crcFile, s, m);
    hide Ordered, Coherent, RequestPhase, SendingPhase, FinalizePhase;
    if next.hub.state == s.hub.state {
      NoMoreKeepsPhases(crcFile, s, next);
    }
  }

  lemma HubGetIsSafe(crcFile: CrcFile, s: System, m: Move)
    requires Safe(crcFile, s) && Enabled(crcFile, s, m) && Recent(s) && m.HubGets?
    ensures Safe(crcFile, Do(crcFile, s, m))
  {
    MoveKeepsOrder(crcFile, s, m);
    var e := AnswerEvent(s.toHub[0], m.now);
    if e.Some? {
      AnswerKeepsCoherent(crcFile, s.hub, e.value);
    }
    hide Ordered, Coherent, Recent, Apply, Phases;
    if s.toHub[0].body.Ack? && Answers(s.hub, s.toHub[0].nth % 0x100) {
      AckIsSafe(crcFile, s, m);
    } else {
      OtherAnswerIsSafe(crcFile, s, m);
    }
  }

  // ----- whole runs -----

  /** Every legal move keeps the system safe. */
  lemma MovesAreSafe(crcFile: CrcFile, s: System, m: Move)
    requires Safe(crcFile, s) && Enabled(crcFile, s, m) && Recent(s)
    ensures Safe(crcFile, Do(crcFile, s, m))
  {
    hide Safe, Recent, Do;
    match m
    case HubActs(e) =>
      if e.TickAt? {
        TickIsSafe(crcFile, s, e);
      } else {
        UserIsSafe(crcFile, s, e);
      }
    case DeviceGets(_, _) => ReceiverIsSafe(crcFile, s, m);
    case HubGets(_) => HubGetIsSafe(crcFile, s, m);
    case _ => LossIsSafe(crcFile, s, m);
  }

  // A device just found: whatever its receiver held before, whatever the hub's counter stands at, and whatever
  // messages and answers are in flight, as after several probes.
  ghost predicate Starts(s: System) {
    s.hub == NEW_DEVICE && InOrder(s.toHub, s.toDevice, s.counter) && s.accepted == map[]
  }

  ghost predicate Steps(crcFile: CrcFile, s: System, m: Move, next: System) {
    Recent(s) && Enabled(crcFile, s, m) && next == Do(crcFile, s, m)
  }

  // The systems a run passes through, and its moves.
  ghost predicate IsRun(crcFile: CrcFile, trace: seq<System>, moves: seq<Move>) {
    && |trace| == |moves| + 1 && Starts(trace[0])
    && forall i :: 0 <= i < |moves| ==> Steps(crcFile, trace[i], moves[i], trace[i + 1])
  }

  /** A run is safe at every point. */
  lemma {:induction false} RunsAreSafe(crcFile: CrcFile, trace: seq<System>, moves: seq<Move>, k: nat)
    requires IsRun(crcFile, trace, moves) && k < |trace|
    ensures Safe(crcFile, trace[k])
  {
    if k > 0 {
      RunsAreSafe(crcFile, trace, moves, k - 1);
      assert Steps(crcFile, trace[k - 1], moves[k - 1], trace[k]);
      hide Safe, IsRun, Recent, Enabled, Do;
      MovesAreSafe(crcFile, trace[k - 1], moves[k - 1]);
    }
  }

  lemma FinalizesInPhase(crcFile: CrcFile, dev: Device, e: Event)
    requires Coherent(dev)
    ensures IsFinalize(Apply(crcFile, dev, e).sent) ==> InTransfer(dev, Finalize)
  {
    if e.TickAt? {
      hide Apply, NextChunk, ActSending, ActRunning;
      if e.time < dev.nextCall {
        TickTooEarly(crcFile, dev, e);
      } else {
        TickByAct(crcFile, dev, e);
        RunningStays(dev, e.addr, e.time);
        if InTransfer(dev, Sending) {
          SendingAct(dev, e.addr);
        }
      }
    }
  }

  /**
    Whenever a run emits a finalize message, the receiver has put together exactly the file, and was told
    its size: across losses, cancelled and restarted transfers, repeated requests and Busy answers.
  */
  lemma FinalizeMeetsTheFile(crcFile: CrcFile, trace: seq<System>, moves: seq<Move>, k: nat)
    requires IsRun(crcFile, trace, moves) && k < |moves| && moves[k].HubActs?
    ensures var s := trace[k];
            IsFinalize(Apply(crcFile, s.hub, moves[k].e).sent) ==>
              s.receiver == Receiver(s.hub.transfer.data, |s.hub.transfer.data| % 0x1_0000_0000)
  {
    RunsAreSafe(crcFile, trace, moves, k);
    FinalizesInPhase(crcFile, trace[k].hub, moves[k].e);
    hide IsRun, Apply, Coherent, Ordered;
  }

  ghost function Reports(crcFile: CrcFile, s: System, m: Move): seq<Report>
    requires Enabled(crcFile, s, m)
  {
    match HubEvent(crcFile, s, m) case None => [] case Some(e) => Apply(crcFile, s.hub, e).reports
  }

  // The receiver accepted exactly the file of the transfer the pending message finalizes.
  ghost predicate AcceptedWhole(s: System) {
    s.pendingNth in s.accepted && s.accepted[s.pendingNth] == s.hub.transfer.data
  }

  lemma ActReports(crcFile: CrcFile, dev: Device, e: Event, code: byte)
    requires e.TickAt?
    ensures FileWriteResult(code) in ActOn(crcFile, dev, e.addr, e.temporaryUid, e.time).reports <==>
              code == ERROR && InTransfer(dev, Cancel)
  {
    hide NextChunk, LastDue, MarkDue;
  }

  /**
    Acknowledgements apart, the only file result ever reported is the Error of a cancelled transfer, on its
    next turn, and that one is never left out.
  */
  lemma CancelReportsError(crcFile: CrcFile, dev: Device, e: Event, code: byte)
    requires !e.AckIn?
    ensures FileWriteResult(code) in Apply(crcFile, dev, e).reports <==>
              code == ERROR && e.TickAt? && dev.nextCall <= e.time && InTransfer(dev, Cancel)
  {
    if e.TickAt? {
      ActReports(crcFile, dev, e, code);
      hide ActOn;
    }
  }

  lemma OkIsAccepted(crcFile: CrcFile, s: System, m: Move)
    requires Safe(crcFile, s) && Recent(s) && Enabled(crcFile, s, m) && HubEvent(crcFile, s, m).Some?
    requires HubEvent(crcFile, s, m).value.AckIn?
    ensures FileWriteResult(OK) in Apply(crcFile, s.hub, HubEvent(crcFile, s, m).value).reports ==>
              AcceptedWhole(s) && |s.hub.transfer.data| < 0x1_0000_0000
  {
    var p := s.toHub[0];
    NumbersMeet(s);
    assert p in s.toHub;
    if Answers(s.hub, p.nth % 0x100) {
      assert p == Packet(s.pendingNth, Ack(p.body.code));
    }
    hide Ordered, Recent, NextChunk, RequestPhase, SendingPhase;
  }

  /**
    A result of Ok is reported to the observer only when the receiver, answering the finalize message of
    this very transfer, accepted exactly this file; a file of 4 GiB or more is never accepted.
  */
  lemma OkMeansAccepted(crcFile: CrcFile, trace: seq<System>, moves: seq<Move>, k: nat)
    requires IsRun(crcFile, trace, moves) && k < |moves|
    ensures Enabled(crcFile, trace[k], moves[k])
    ensures FileWriteResult(OK) in Reports(crcFile, trace[k], moves[k]) ==>
              AcceptedWhole(trace[k]) && |trace[k].hub.transfer.data| < 0x1_0000_0000
  {
    var s, m := trace[k], moves[k];
    RunsAreSafe(crcFile, trace, moves, k);
    assert Steps(crcFile, s, m, trace[k + 1]);
    hide IsRun, Safe, Apply, Enabled, Recent, AcceptedWhole;
    var e := HubEvent(crcFile, s, m);
    if e.Some? {
      if e.value.AckIn? {
        OkIsAccepted(crcFile, s, m);
      } else {
        CancelReportsError(crcFile, s.hub, e.value, OK);
      }
    }
  }
}
