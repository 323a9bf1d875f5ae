/**
  What the window of 256 messages is for. One acknowledgement is held up: that of the only chunk of a first
  file. The transfer is cancelled, and 256 requests for a second file are lost. Then the old acknowledgement
  opens the second transfer at a receiver that has never heard of it, and the file put together is wrong when
  the hub finalizes it.
*/
module FileWindow {
  import opened Bytes
  import opened Messages
  import opened DeviceSpec
  import opened DeviceRuns
  import opened DeviceTransfer
  import opened FileSafety
  import opened FilePaths
  import opened FileDelivery
  import opened Sequences

  const OLD: seq<byte> := [9]
  const NEW: seq<byte> := [7]

  // An answer may be 256 messages behind, and the buffers hold every frame of this story.
  ghost predicate Lax(c: Setting) {
    0x100 <= c.window && Registers(c.sizes)
  }

  // Message n, the first file's chunk, has been accepted, and its acknowledgement is on its way.
  ghost predicate HeldUp(s: System, n: nat) {
    && s.toDevice == [] && s.toHub == [Packet(n, Ack(OK))] && n <= s.counter && s.receiver == Receiver(OLD, 1)
  }

  // The first transfer, waiting for that acknowledgement.
  ghost predicate Unanswered(s: System, n: nat) {
    && HeldUp(s, n) && s.counter == s.pendingNth == n && s.hub.state == FileTransfer && s.hub.timeoutCounter == 0
    && s.hub.transfer == FRESH.(data := OLD, chunkSize := 1, state := Sending, firstPacket := false)
    && s.hub.pending == Some(Pending(n % 0x100, FILE_WRITE_CHUNK, s.hub.nextCall - 100))
  }

  lemma ChunkHeld(crcFile: CrcFile, c: Setting, s: System) returns (next: System)
    requires JustSent(s, FileWriteChunk(0, OLD)) && s.receiver == Receiver([], 1) && Lax(c)
    ensures Leads(crcFile, c, s, next) && HeldUp(next, s.counter)
    ensures next.hub == s.hub && next.counter == s.counter && next.pendingNth == s.pendingNth
  {
    var m := DeviceGets(Receiver(OLD, 1), Some(Ack(OK)));
    assert [] + OLD == OLD;
    next := Do(crcFile, s, m);
    OneMove(crcFile, c, s, m);
    hide Leads;
  }

  lemma FirstChunkHeld(crcFile: CrcFile, c: Setting, s: System, addr: byte) returns (next: System)
    requires Opened(s, OLD, 1) && addr != RESERVED_UID && s.hub.timeoutCounter == 0 && Lax(c)
    requires s.hub.transfer == FRESH.(data := OLD, chunkSize := 1, state := Sending)
    ensures Leads(crcFile, c, s, next) && Unanswered(next, next.counter)
  {
    assert NextChunk(s.hub.transfer) == OLD;
    hide Leads, Apply, Do, Enabled, NextChunk;
    FirstChunkGoesOut(crcFile, s.hub, TickAtNextCall(s.hub, addr, s.counter % 0x100));
    TickCan(crcFile, c, s, addr);
    TickSends(crcFile, s, addr, FileWriteChunk(0, OLD));
    var sent := Do(crcFile, s, TickNow(s, addr));
    OneMove(crcFile, c, s, TickNow(s, addr));
    next := ChunkHeld(crcFile, c, sent);
    LeadsOn(crcFile, c, s, sent, next);
  }

  lemma FirstFile(crcFile: CrcFile, c: Setting, s: System, addr: byte, name: Blob) returns (next: System)
    requires Starts(s) && Within(s, c.window) && addr != RESERVED_UID && Lax(c) && NameFits(c.sizes, name)
    ensures Leads(crcFile, c, s, next) && Unanswered(next, next.counter)
  {
    hide Leads, Asking, Opened, Can, Do;
    var ready := Discovery(crcFile, c, s, addr, name);
    var asking := FileGiven(crcFile, c, ready, 0, OLD, 1);
    LeadsOn(crcFile, c, s, ready, asking);
    var begun := RequestExchange(crcFile, c, asking, addr, OLD, 1);
    LeadsOn(crcFile, c, s, asking, begun);
    next := FirstChunkHeld(crcFile, c, begun, addr);
    LeadsOn(crcFile, c, s, begun, next);
  }

  // ----- the first transfer is cancelled, the second begins -----

  lemma CancelTicks(crcFile: CrcFile, dev: Device, addr: byte, number: byte)
    requires InTransfer(dev, Sending) && !dev.transfer.firstPacket && dev.transfer.packetAck == None
    requires dev.timeoutCounter == 0 && dev.pending.Some? && dev.pending.value.timestamp == dev.nextCall - 100
    ensures var o := Apply(crcFile, dev, TickAtNextCall(dev, addr, number));
            && o.sent == None
            && o.dev == dev.(nextCall := dev.nextCall + 100, transfer := dev.transfer.(state := Cancel))
    ensures var cancelling := dev.(nextCall := dev.nextCall + 100, transfer := dev.transfer.(state := Cancel));
            var o := Apply(crcFile, cancelling, TickAtNextCall(cancelling, addr, number));
            && o.sent == None && o.dev.state == Running && o.dev.transfer == FRESH && o.dev.pending == None
  {
    hide ActRunning, NextChunk;
  }

  // A move of the hub that sends nothing.
  lemma QuietMove(crcFile: CrcFile, c: Setting, s: System, e: Event)
    requires Enabled(crcFile, s, HubActs(e)) && Apply(crcFile, s.hub, e).sent == None && Within(s, c.window)
    ensures Leads(crcFile, c, s, s.(hub := Apply(crcFile, s.hub, e).dev))
  {
    OneMove(crcFile, c, s, HubActs(e));
    hide Leads, Apply;
  }

  // The second transfer, after k requests that were all lost.
  ghost predicate Repeated(s: System, n: nat, k: nat) {
    && HeldUp(s, n) && s.counter == n + k && s.hub.state == FileTransfer
    && s.hub.transfer == FRESH.(data := NEW, chunkSize := 1) && (k == 0 ==> s.hub.pending == None)
    && (k > 0 ==> s.pendingNth == n + k && Awaiting(s.hub, FILE_WRITE_REQUEST)
                  && s.hub.pending.value.number == (n + k) % 0x100)
  }

  lemma NewFile(crcFile: CrcFile, c: Setting, s: System, n: nat) returns (next: System)
    requires HeldUp(s, n) && s.counter == n && s.hub.state == Running && s.hub.transfer == FRESH
    requires s.hub.pending == None && Lax(c)
    ensures Leads(crcFile, c, s, next) && Repeated(next, n, 0)
  {
    var e := UserFile(0, NEW, 1);
    next := s.(hub := Apply(crcFile, s.hub, e).dev);
    QuietMove(crcFile, c, s, e);
    hide Leads;
  }

  lemma SecondFile(crcFile: CrcFile, c: Setting, s: System, addr: byte) returns (next: System)
    requires Unanswered(s, s.counter) && Lax(c)
    ensures Leads(crcFile, c, s, next) && Repeated(next, s.counter, 0)
  {
    hide Leads, Apply;
    CancelTicks(crcFile, s.hub, addr, s.counter % 0x100);
    var e1 := TickAtNextCall(s.hub, addr, s.counter % 0x100);
    var s1 := s.(hub := Apply(crcFile, s.hub, e1).dev);
    QuietMove(crcFile, c, s, e1);
    var e2 := TickAtNextCall(s1.hub, addr, s.counter % 0x100);
    var s2 := s1.(hub := Apply(crcFile, s1.hub, e2).dev);
    QuietMove(crcFile, c, s1, e2);
    LeadsOn(crcFile, c, s, s1, s2);
    next := NewFile(crcFile, c, s2, s.counter);
    LeadsOn(crcFile, c, s, s2, next);
  }

  // ----- 256 requests are lost -----

  // One more request has just gone out.
  ghost predicate OneOut(s: System, n: nat, k: nat) {
    |s.toDevice| == 1 && Repeated(s.(toDevice := []), n, k)
  }

  lemma OneMoreOut(s: System, dev: Device, n: nat, k: nat, body: Body)
    requires Repeated(s, n, k) && dev.transfer == s.hub.transfer && dev.state == FileTransfer
    requires dev.pending.Some? && dev.pending.value.msgType == FILE_WRITE_REQUEST
    requires dev.pending.value.number == (s.counter % 0x100 + 1) % 0x100
    ensures var next := Turned(s, dev, Some(body));
            OneOut(next, n, k + 1) && next.toDevice[0].nth == next.counter
  {
  }

  lemma Lost(crcFile: CrcFile, c: Setting, s: System, n: nat, k: nat) returns (next: System)
    requires OneOut(s, n, k) && s.toDevice[0].nth == s.counter && k <= 0x100 && Lax(c)
    ensures Leads(crcFile, c, s, next) && Repeated(next, n, k)
  {
    next := Do(crcFile, s, LosesMessage(0));
    assert Without(s.toDevice, 0) == [];
    OneMove(crcFile, c, s, LosesMessage(0));
    hide Leads;
  }

  lemma OneLost(crcFile: CrcFile, c: Setting, s: System, addr: byte, n: nat, k: nat) returns (next: System)
    requires Repeated(s, n, k) && addr != RESERVED_UID && k < 0x100 && Lax(c)
    ensures Leads(crcFile, c, s, next) && Repeated(next, n, k + 1)
  {
    TickDoes(crcFile, s, addr);
    RequestGoesOut(crcFile, s.hub, TickAtNextCall(s.hub, addr, s.counter % 0x100));
    hide Leads, Apply, Do, Enabled, Turned, OneOut;
    var o := NextTurn(crcFile, s, addr);
    OneMoreOut(s, o.dev, n, k, o.sent.value);
    var sent := Do(crcFile, s, TickNow(s, addr));
    OneMove(crcFile, c, s, TickNow(s, addr));
    next := Lost(crcFile, c, sent, n, k + 1);
    LeadsOn(crcFile, c, s, sent, next);
  }

  lemma {:induction false} ManyLost(crcFile: CrcFile, c: Setting, s: System, addr: byte, n: nat, k: nat)
    returns (next: System)
    requires Repeated(s, n, k) && addr != RESERVED_UID && k <= 0x100 && Lax(c)
    ensures Leads(crcFile, c, s, next) && Repeated(next, n, 0x100)
    decreases 0x100 - k
  {
    hide Leads, Repeated;
    if k == 0x100 {
      next := s;
      StaysPut(crcFile, c, s);
    } else {
      var more := OneLost(crcFile, c, s, addr, n, k);
      next := ManyLost(crcFile, c, more, addr, n, k + 1);
      LeadsOn(crcFile, c, s, more, next);
    }
  }

  // ----- the old acknowledgement opens the new transfer -----

  // The second transfer is open, at a receiver that still holds the first file.
  ghost predicate Misled(s: System) {
    && Empty(s) && s.receiver == Receiver(OLD, 1) && s.hub.state == FileTransfer && s.hub.pending == None
    && s.hub.transfer == FRESH.(data := NEW, chunkSize := 1, state := Sending)
  }

  lemma OldAnswerTaken(crcFile: CrcFile, c: Setting, s: System, n: nat) returns (next: System)
    requires Repeated(s, n, 0x100) && Lax(c)
    ensures Leads(crcFile, c, s, next) && Misled(next)
  {
    assert (n + 0x100) % 0x100 == n % 0x100;
    next := Do(crcFile, s, HubGets(0));
    OneMove(crcFile, c, s, HubGets(0));
    hide Leads;
  }

  // The second file is complete to the hub, and the receiver holds both.
  ghost predicate WronglyComplete(s: System) {
    && Empty(s) && s.receiver == Receiver(OLD + NEW, 1) && s.hub.state == FileTransfer && s.hub.pending == None
    && s.hub.transfer.data == NEW && s.hub.transfer.state == Finalize
  }

  lemma SecondConfirmed(crcFile: CrcFile, c: Setting, s: System, addr: byte) returns (next: System)
    requires Empty(s) && s.receiver == Receiver(OLD + NEW, 1) && addr != RESERVED_UID && Lax(c)
    requires s.hub.state == FileTransfer && s.hub.pending == None
    requires s.hub.transfer ==
             FRESH.(data := NEW, chunkSize := 1, state := Sending, firstPacket := false, packetAck := Some(OK))
    ensures Leads(crcFile, c, s, next) && WronglyComplete(next)
  {
    assert NextChunk(s.hub.transfer) == NEW;
    hide Leads, Apply, NextChunk;
    MovingTick(crcFile, s.hub, addr, s.counter % 0x100);
    var e := TickAtNextCall(s.hub, addr, s.counter % 0x100);
    next := s.(hub := Apply(crcFile, s.hub, e).dev);
    QuietMove(crcFile, c, s, e);
  }

  lemma SecondChunk(crcFile: CrcFile, c: Setting, s: System, addr: byte) returns (next: System)
    requires Misled(s) && addr != RESERVED_UID && Lax(c)
    ensures Leads(crcFile, c, s, next) && WronglyComplete(next)
  {
    assert NextChunk(s.hub.transfer) == NEW;
    hide Leads, Apply, Do, Enabled, NextChunk;
    FirstChunkGoesOut(crcFile, s.hub, TickAtNextCall(s.hub, addr, s.counter % 0x100));
    TickCan(crcFile, c, s, addr);
    var chunk := FileWriteChunk(0, NEW);
    TickSends(crcFile, s, addr, chunk);
    var sent := Do(crcFile, s, TickNow(s, addr));
    OneMove(crcFile, c, s, TickNow(s, addr));
    var acked := Accepted(sent, Receiver(OLD + NEW, 1));
    Exchange(crcFile, c, sent, chunk, Receiver(OLD + NEW, 1));
    LeadsOn(crcFile, c, s, sent, acked);
    next := SecondConfirmed(crcFile, c, acked, addr);
    LeadsOn(crcFile, c, s, acked, next);
  }

  /**
    Without the window, from any device just found: a run in which every message is heard or lost and all
    frames fit, the receiver does nothing but accept, and a finalize message goes out while the receiver does
    not hold the file.
  */
  lemma StaleAnswersAreUnsafe(crcFile: CrcFile, window: nat, sizes: Sizes, s: System, addr: byte, name: Blob)
    returns (trace: seq<System>, moves: seq<Move>)
    requires Starts(s) && Within(s, window) && window >= 0x100 && addr != RESERVED_UID && NameFits(sizes, name)
    ensures IsWay(crcFile, Setting(window, sizes), trace, moves) && trace[0] == s && moves != []
    ensures moves[|moves| - 1].HubActs?
    ensures var last := trace[|moves| - 1];
            && IsFinalize(Apply(crcFile, last.hub, moves[|moves| - 1].e).sent)
            && last.hub.transfer.data == [7] && last.receiver == Receiver([9, 7], 1)
  {
    hide Leads, Unanswered, Repeated, Misled, Can, Apply, Starts;
    var c := Setting(window, sizes);
    var a := FirstFile(crcFile, c, s, addr, name);
    var b := SecondFile(crcFile, c, a, addr);
    LeadsOn(crcFile, c, s, a, b);
    var d := ManyLost(crcFile, c, b, addr, a.counter, 0);
    LeadsOn(crcFile, c, s, b, d);
    var e := OldAnswerTaken(crcFile, c, d, a.counter);
    LeadsOn(crcFile, c, s, d, e);
    var last := SecondChunk(crcFile, c, e, addr);
    LeadsOn(crcFile, c, s, e, last);
    FinalizeTick(crcFile, last.hub, addr, last.counter % 0x100);
    TickCan(crcFile, c, last, addr);
    trace, moves := WayTo(crcFile, c, s, last, TickNow(last, addr));
    assert OLD + NEW == [9, 7];
  }

  // ----- exactly -----

  // A finalize message finds the receiver with the whole file.
  ghost predicate MeetsTheFile(crcFile: CrcFile, s: System, m: Move) {
    m.HubActs? && IsFinalize(Apply(crcFile, s.hub, m.e).sent) ==>
      s.receiver == Receiver(s.hub.transfer.data, |s.hub.transfer.data| % 0x1_0000_0000)
  }

  ghost predicate AlwaysMeets(crcFile: CrcFile, c: Setting) {
    forall trace, moves, k: nat :: IsWay(crcFile, c, trace, moves) && Starts(trace[0]) && k < |moves| ==>
      MeetsTheFile(crcFile, trace[k], moves[k])
  }

  lemma WayMeets(crcFile: CrcFile, c: Setting, trace: seq<System>, moves: seq<Move>, k: nat)
    requires IsWay(crcFile, c, trace, moves) && Starts(trace[0]) && k < |moves| && c.window < 0x100
    ensures MeetsTheFile(crcFile, trace[k], moves[k])
  {
    WayIsRun(crcFile, c, trace, moves);
    hide Steps, Audible, Goes, Apply;
    if moves[k].HubActs? {
      FinalizeMeetsTheFile(crcFile, trace, moves, k);
    }
  }

  lemma NothingStarts(s: System, window: nat)
    requires s.hub == NEW_DEVICE && Empty(s) && s.accepted == map[]
    ensures Starts(s) && Within(s, window)
  {
  }

  lemma FinalizeMisses(crcFile: CrcFile, s: System, m: Move)
    requires m.HubActs? && IsFinalize(Apply(crcFile, s.hub, m.e).sent)
    requires s.hub.transfer.data == [7] && s.receiver == Receiver([9, 7], 1)
    ensures !MeetsTheFile(crcFile, s, m)
  {
  }

  /**
    Every finalize message of every run finds the receiver with the whole file, exactly if nothing in flight and
    nothing pending is ever 256 messages of the hub behind.
  */
  lemma WindowIsExact(crcFile: CrcFile, c: Setting)
    requires Registers(c.sizes)
    ensures AlwaysMeets(crcFile, c) <==> c.window < 0x100
  {
    hide Goes, Starts, Within, MeetsTheFile, Apply;
    if c.window < 0x100 {
      forall trace, moves, k: nat | IsWay(crcFile, c, trace, moves) && Starts(trace[0]) && k < |moves|
        ensures MeetsTheFile(crcFile, trace[k], moves[k])
      {
        WayMeets(crcFile, c, trace, moves, k);
      }
    } else {
      var s := System(NEW_DEVICE, 0, 0, [], [], Receiver([], 0), map[]);
      NothingStarts(s, c.window);
      var trace, moves := StaleAnswersAreUnsafe(crcFile, c.window, c.sizes, s, 1, [0x41]);
      FinalizeMisses(crcFile, trace[|moves| - 1], moves[|moves| - 1]);
    }
  }
}
