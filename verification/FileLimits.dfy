/**
  Which files can be sent, exactly: a chunk's length is a byte on the wire, an empty chunk is sent but never
  heard, and a frame must fit the hub's buffer and the device's. The condition is one on the length of the
  file, the chunk size and the two buffer sizes, known before the call.
*/
module FileLimits {
  import opened Bytes
  import opened Messages
  import opened DeviceSpec
  import opened DeviceRuns
  import opened DeviceTransfer
  import opened FileSafety
  import opened FilePaths
  import opened FileDelivery

  // ----- a run of the system is, to the hub's record, a run of the device -----

  ghost function EventIn(crcFile: CrcFile, s: System, m: Move): seq<Event> {
    if !Enabled(crcFile, s, m) then []
    else
      match HubEvent(crcFile, s, m) case None => [] case Some(e) => [e]
  }

  ghost function EventsOf(crcFile: CrcFile, trace: seq<System>, moves: seq<Move>, k: nat): seq<Event>
    requires |trace| == |moves| + 1 && k <= |moves|
  {
    if k == 0 then [] else EventsOf(crcFile, trace, moves, k - 1) + EventIn(crcFile, trace[k - 1], moves[k - 1])
  }

  lemma MoveIsAnEvent(crcFile: CrcFile, s: System, m: Move)
    requires Enabled(crcFile, s, m)
    ensures var e := EventIn(crcFile, s, m);
            && |e| <= 1 && Do(crcFile, s, m).hub == (if e == [] then s.hub else Apply(crcFile, s.hub, e[0]).dev)
            && (e != [] ==> Timely(e[0]))
  {
    hide Apply;
  }

  lemma ObserveMore(crcFile: CrcFile, run: seq<Event>, more: seq<Event>)
    requires |more| <= 1
    ensures Watched(crcFile, run + more).dev
            == if more == [] then Watched(crcFile, run).dev else Apply(crcFile, Watched(crcFile, run).dev, more[0]).dev
  {
    if more == [] {
      assert run + more == run;
    } else {
      assert (run + more)[..|run|] == run;
    }
    hide Apply;
  }

  lemma NothingWatched(crcFile: CrcFile)
    ensures Watched(crcFile, []).dev == NEW_DEVICE
  {
  }

  lemma {:induction false} RunIsADeviceRun(crcFile: CrcFile, trace: seq<System>, moves: seq<Move>, k: nat)
    requires IsRun(crcFile, trace, moves) && k <= |moves|
    ensures Watched(crcFile, EventsOf(crcFile, trace, moves, k)).dev == trace[k].hub
    ensures forall e :: e in EventsOf(crcFile, trace, moves, k) ==> Timely(e)
  {
    hide Watched, Apply, Enabled, Recent, Do, EventIn, Timely;
    if k == 0 {
      NothingWatched(crcFile);
    } else {
      RunIsADeviceRun(crcFile, trace, moves, k - 1);
      assert Steps(crcFile, trace[k - 1], moves[k - 1], trace[k]);
      MoveIsAnEvent(crcFile, trace[k - 1], moves[k - 1]);
      ObserveMore(crcFile, EventsOf(crcFile, trace, moves, k - 1), EventIn(crcFile, trace[k - 1], moves[k - 1]));
    }
  }

  // ----- empty chunks -----

  // The k-th move of a run puts an empty chunk of this file on the wire.
  ghost predicate SendsEmpty(crcFile: CrcFile, s: System, m: Move, data: seq<byte>, chunkSize: nat) {
    && m.HubActs? && s.hub.transfer.data == data && s.hub.transfer.chunkSize == chunkSize
    && var sent := Apply(crcFile, s.hub, m.e).sent;
       sent.Some? && sent.value.FileWriteChunk? && sent.value.chunk == []
  }

  lemma CuttableSendsNoneEmpty(
    crcFile: CrcFile, trace: seq<System>, moves: seq<Move>, k: nat, data: seq<byte>, chunkSize: nat)
    requires IsRun(crcFile, trace, moves) && k < |moves| && Cuttable(data, chunkSize)
    ensures !SendsEmpty(crcFile, trace[k], moves[k], data, chunkSize)
  {
    if moves[k].HubActs? {
      RunIsADeviceRun(crcFile, trace, moves, k);
      assert Steps(crcFile, trace[k], moves[k], trace[k + 1]);
      ChunkOnWire(crcFile, EventsOf(crcFile, trace, moves, k), moves[k].e);
      hide IsRun, Watched, Apply, Observe, CarriesNext, Recent, EventsOf, Do;
    }
  }

  // ----- what an unsuitable file never gets past -----

  // Nothing at all is left to send, or so much that it cannot be the last piece.
  ghost predicate Endless(t: Transfer) {
    t.data == [] || t.chunkSize == 0 || (t.chunkSize > 0xFF && |t.data| - t.sentOffset > 0xFF)
  }

  lemma EndlessGoesOn(t: Transfer)
    requires Endless(t) && NextChunk(t) != []
    ensures t.sentOffset + |NextChunk(t)| < |t.data|
    ensures t.chunkSize > 0xFF && |t.data| - (t.sentOffset + |NextChunk(t)|) > 0xFF
  {
  }

  // ----- frames that fit -----

  // All chunks of the transfer fit if those still to be sent do.
  ghost predicate FitsSoFar(sizes: Sizes, t: Transfer) {
    ChunkFits(sizes, LongestPiece(Rest(t), t.chunkSize)) ==> ChunkFits(sizes, LongestPiece(|t.data|, t.chunkSize))
  }

  lemma FitsOn(sizes: Sizes, t: Transfer, u: Transfer)
    requires FitsSoFar(sizes, t) && u.data == t.data && u.chunkSize == t.chunkSize
    requires u.sentOffset == t.sentOffset ||
             (u.sentOffset == t.sentOffset + |NextChunk(t)| && NextChunk(t) != [] && ChunkFits(sizes, |NextChunk(t)|))
    ensures FitsSoFar(sizes, u)
  {
    LongestCovers(t);
    hide NextChunk, Piece;
  }

  ghost predicate HeardChunks(sizes: Sizes, s: System) {
    var t := s.hub.transfer;
    && (t.packetAck == Some(OK) ==> NextChunk(t) != [] && ChunkFits(sizes, |NextChunk(t)|))
    && (Awaiting(s.hub, FILE_WRITE_CHUNK) ==>
          && |NextChunk(t)| + 8 <= sizes.hub
          && forall code :: Packet(s.pendingNth, Ack(code)) in s.toHub ==>
               NextChunk(t) != [] && |NextChunk(t)| + 7 <= sizes.device)
  }

  // A transfer is finalized only for a suitable file, and an Ok is for a chunk that fits and was heard.
  ghost predicate Honest(sizes: Sizes, s: System) {
    var t := s.hub.transfer;
    && (InTransfer(s.hub, Finalize) ==> Cuttable(t.data, t.chunkSize))
    && (InTransfer(s.hub, Request) || InTransfer(s.hub, Sending) ==> Cuttable(t.data, t.chunkSize) || Endless(t))
    && (s.hub.state == FileTransfer && t.state != Cancel ==> FitsSoFar(sizes, t))
    && (InTransfer(s.hub, Sending) ==> HeardChunks(sizes, s))
  }

  lemma TurnFits(crcFile: CrcFile, sizes: Sizes, s: System, dev: Device, sent: Option<Body>)
    requires Honest(sizes, s) && TurnTaken(crcFile, s.hub, dev, sent)
    ensures FitsSoFar(sizes, dev.transfer)
  {
    hide NextChunk, FitsSoFar, ChunkFits;
    FitsOn(sizes, s.hub.transfer, dev.transfer);
  }

  lemma TurnIsHonest(crcFile: CrcFile, sizes: Sizes, s: System, dev: Device, sent: Option<Body>)
    requires Safe(crcFile, s) && Honest(sizes, s) && Coherent(dev) && Written(sent, sizes.hub)
    requires dev.state == FileTransfer && dev.transfer.state != Cancel ==> TurnTaken(crcFile, s.hub, dev, sent)
    ensures Honest(sizes, Turned(s, dev, sent))
  {
    NothingIsNewer(s);
    var t := s.hub.transfer;
    if InTransfer(s.hub, Sending) && t.packetAck == Some(OK) && Endless(t) && NextChunk(t) != [] {
      EndlessGoesOn(t);
    }
    if dev.state == FileTransfer && dev.transfer.state != Cancel {
      TurnFits(crcFile, sizes, s, dev, sent);
    }
    hide NextChunk, Ordered, RequestPhase, SendingPhase, FinalizePhase, FitsSoFar;
  }

  lemma UserIsHonest(crcFile: CrcFile, sizes: Sizes, s: System, e: Event)
    requires Safe(crcFile, s) && Honest(sizes, s) && Enabled(crcFile, s, HubActs(e)) && !e.TickAt?
    ensures Honest(sizes, Do(crcFile, s, HubActs(e)))
  {
    AnswerKeepsPending(crcFile, s.hub, e);
    hide NextChunk, Ordered, Phases, LongestPiece, ChunkFits;
  }

  lemma DeliveryIsHonest(crcFile: CrcFile, sizes: Sizes, s: System, m: Move)
    requires Safe(crcFile, s) && Honest(sizes, s) && Enabled(crcFile, s, m) && Audible(crcFile, sizes, s, m)
             && m.DeviceGets?
    ensures Honest(sizes, Do(crcFile, s, m))
  {
    FirstOfOrder(s);
    hide NextChunk, Ordered, Receives, RequestPhase, FinalizePhase, Holds, ChunkAnswered, FitsSoFar;
  }

  lemma SameFits(sizes: Sizes, t: Transfer, u: Transfer)
    requires u.data == t.data && u.sentOffset == t.sentOffset && u.chunkSize == t.chunkSize
    ensures FitsSoFar(sizes, t) <==> FitsSoFar(sizes, u)
    ensures Endless(t) <==> Endless(u)
  {
    hide LongestPiece, ChunkFits;
  }

  lemma AckIsHonest(sizes: Sizes, s: System, next: System, code: byte, now: int)
    requires Coherent(s.hub) && Honest(sizes, s) && s.hub.pending.Some? && Packet(s.pendingNth, Ack(code)) in s.toHub
    requires next == s.(hub := HandleAck(s.hub, s.hub.pending.value.number, code, now).0, toHub := next.toHub)
    ensures Honest(sizes, next)
  {
    SameChunk(s.hub.transfer, s.hub.transfer.(packetAck := Some(code)));
    hide NextChunk, FitsSoFar;
    if next.hub.state == FileTransfer {
      SameFits(sizes, s.hub.transfer, next.hub.transfer);
    }
  }

  // What leaves the transfer alone.
  lemma LessIsHonest(sizes: Sizes, s: System, next: System)
    requires Honest(sizes, s) && next.hub.state == s.hub.state && next.hub.transfer == s.hub.transfer
    requires next.hub.pending == s.hub.pending || next.hub.pending == None
    requires next.pendingNth == s.pendingNth && forall p :: p in next.toHub ==> p in s.toHub
    ensures Honest(sizes, next)
  {
    hide NextChunk, FitsSoFar;
  }

  lemma JustNamedIsHonest(sizes: Sizes, s: System)
    requires s.hub.state != FileTransfer
    ensures Honest(sizes, s)
  {
  }

  lemma AnswerIsHonest(crcFile: CrcFile, sizes: Sizes, s: System, m: Move)
    requires Safe(crcFile, s) && Honest(sizes, s) && Enabled(crcFile, s, m) && Recent(s) && m.HubGets?
    ensures Honest(sizes, Do(crcFile, s, m))
  {
    var p, next := s.toHub[0], Do(crcFile, s, m);
    NumbersMeet(s);
    hide Ordered, Recent, Phases, Coherent, Honest, HeardChunks, AckMeans;
    assert p in s.toHub && forall q :: q in s.toHub[1..] ==> q in s.toHub;
    if p.body.Ack? && Answers(s.hub, p.nth % 0x100) {
      assert p == Packet(p.nth, Ack(p.body.code));
      AckIsHonest(sizes, s, next, p.body.code, m.now);
    } else if next.hub.state == s.hub.state {
      LessIsHonest(sizes, s, next);
    } else {
      JustNamedIsHonest(sizes, next);
    }
  }

  lemma OthersAreHonest(crcFile: CrcFile, sizes: Sizes, s: System, m: Move)
    requires Safe(crcFile, s) && Honest(sizes, s) && Enabled(crcFile, s, m)
             && (m.OthersAct? || m.LosesMessage? || m.LosesAnswer?)
    ensures Honest(sizes, Do(crcFile, s, m))
  {
    hide NextChunk, Safe, FitsSoFar;
  }

  lemma TickIsHonest(crcFile: CrcFile, sizes: Sizes, s: System, e: Event)
    requires Safe(crcFile, s) && Honest(sizes, s) && Enabled(crcFile, s, HubActs(e)) && e.TickAt?
    requires Audible(crcFile, sizes, s, HubActs(e))
    ensures Honest(sizes, Do(crcFile, s, HubActs(e)))
  {
    var o := Apply(crcFile, s.hub, e);
    TickKeepsCoherent(crcFile, s.hub, e);
    TickTurns(crcFile, s.hub, e);
    hide Apply, TurnTaken, Coherent, Ordered, Phases, Honest;
    TurnIsHonest(crcFile, sizes, s, o.dev, o.sent);
  }

  lemma MovesAreHonest(crcFile: CrcFile, sizes: Sizes, s: System, m: Move)
    requires Safe(crcFile, s) && Honest(sizes, s) && Enabled(crcFile, s, m) && Recent(s)
    requires Audible(crcFile, sizes, s, m)
    ensures Honest(sizes, Do(crcFile, s, m))
  {
    hide Honest, Safe, Recent, Audible;
    match m
    case HubActs(e) =>
      if e.TickAt? {
        TickIsHonest(crcFile, sizes, s, e);
      } else {
        UserIsHonest(crcFile, sizes, s, e);
      }
    case DeviceGets(_, _) => DeliveryIsHonest(crcFile, sizes, s, m);
    case HubGets(_) => AnswerIsHonest(crcFile, sizes, s, m);
    case _ => OthersAreHonest(crcFile, sizes, s, m);
  }

  // ----- registration -----

  ghost predicate InOperation(dev: Device) {
    dev.state == Running || dev.state == FileTransfer
  }

  // The counter stood at n when the device was found: the answers it has given since were written by it, and
  // in operation its name has been heard.
  ghost predicate Named(sizes: Sizes, n: nat, s: System) {
    && n <= s.counter && (s.hub.pending.Some? ==> n < s.pendingNth)
    && (forall p :: p in s.toHub && n < p.nth ==> Written(Some(p.body), sizes.device))
    && (InOperation(s.hub) ==> Registers(sizes))
  }

  lemma ActKeepsOperation(crcFile: CrcFile, dev: Device, e: Event)
    requires e.TickAt? && InOperation(ActOn(crcFile, dev, e.addr, e.temporaryUid, e.time).dev)
    ensures InOperation(dev)
  {
    hide ActRunning, ActTransfer;
  }

  // Only a name brings a device into operation.
  lemma EventKeepsOperation(crcFile: CrcFile, dev: Device, e: Event)
    requires !e.InfoIn? && InOperation(Apply(crcFile, dev, e).dev)
    ensures InOperation(dev)
  {
    if e.TickAt? {
      ActKeepsOperation(crcFile, dev, e);
      hide ActOn;
    }
  }

  lemma HubKeepsNamed(crcFile: CrcFile, sizes: Sizes, n: nat, s: System, e: Event)
    requires Named(sizes, n, s) && Enabled(crcFile, s, HubActs(e))
    ensures Named(sizes, n, Do(crcFile, s, HubActs(e)))
  {
    if InOperation(Apply(crcFile, s.hub, e).dev) {
      EventKeepsOperation(crcFile, s.hub, e);
    }
    if e.TickAt? {
      TickPending(crcFile, s.hub, e);
    } else {
      AnswerKeepsPending(crcFile, s.hub, e);
    }
    hide Apply, Written, Timely;
  }

  lemma AnswerKeepsNamed(crcFile: CrcFile, sizes: Sizes, n: nat, s: System, m: Move)
    requires Ordered(s) && Named(sizes, n, s) && Enabled(crcFile, s, m) && Recent(s)
    requires Audible(crcFile, sizes, s, m) && m.HubGets?
    ensures Named(sizes, n, Do(crcFile, s, m))
  {
    NumbersMeet(s);
    var p, e := s.toHub[0], AnswerEvent(s.toHub[0], m.now);
    assert p in s.toHub;
    if e.Some? {
      AnswerKeepsPending(crcFile, s.hub, e.value);
      if p.body.DeviceInfoAnw? && Answers(s.hub, p.nth % 0x100) {
        assert Heard(p.body, sizes.hub) && Written(Some(p.body), sizes.device);
      } else if InOperation(Apply(crcFile, s.hub, e.value).dev) && !p.body.DeviceInfoAnw? {
        EventKeepsOperation(crcFile, s.hub, e.value);
      }
    }
    hide Ordered, Recent, HandleAck, HandleBlob, HandleHealth;
  }

  lemma MovesKeepNamed(crcFile: CrcFile, sizes: Sizes, n: nat, s: System, m: Move)
    requires Ordered(s) && Named(sizes, n, s) && Enabled(crcFile, s, m) && Recent(s) && Audible(crcFile, sizes, s, m)
    ensures Named(sizes, n, Do(crcFile, s, m))
  {
    hide Ordered, Recent, Apply, InOperation, Registers, Receives, AnswerEvent;
    match m
    case HubActs(e) => HubKeepsNamed(crcFile, sizes, n, s, e);
    case HubGets(_) => AnswerKeepsNamed(crcFile, sizes, n, s, m);
    case _ =>
  }

  lemma FoundIsNamed(sizes: Sizes, s: System)
    requires Starts(s)
    ensures Honest(sizes, s) && Named(sizes, s.counter, s)
  {
  }

  lemma SafeIsOrdered(crcFile: CrcFile, s: System)
    requires Safe(crcFile, s)
    ensures Ordered(s)
  {
  }

  lemma {:induction false} RunsAreHonest(
    crcFile: CrcFile, sizes: Sizes, trace: seq<System>, moves: seq<Move>, k: nat)
    requires IsAudibleRun(crcFile, sizes, trace, moves) && k < |trace|
    ensures Safe(crcFile, trace[k]) && Honest(sizes, trace[k]) && Named(sizes, trace[0].counter, trace[k])
  {
    RunsAreSafe(crcFile, trace, moves, k);
    hide Safe, Recent, Enabled, Audible, Do, Ordered;
    if k == 0 {
      FoundIsNamed(sizes, trace[0]);
    } else {
      RunsAreHonest(crcFile, sizes, trace, moves, k - 1);
      assert Steps(crcFile, trace[k - 1], moves[k - 1], trace[k]);
      hide Honest, Named, IsAudibleRun;
      SafeIsOrdered(crcFile, trace[k - 1]);
      MovesAreHonest(crcFile, sizes, trace[k - 1], moves[k - 1]);
      MovesKeepNamed(crcFile, sizes, trace[0].counter, trace[k - 1], moves[k - 1]);
    }
  }

  // ----- exactly -----

  lemma EndsGoOn(crcFile: CrcFile, c: Setting, s: System, addr: byte, data: seq<byte>, chunkSize: nat)
    requires Ends(crcFile, s, addr, data, chunkSize) && Registers(c.sizes) && addr != RESERVED_UID
    ensures Can(crcFile, c, s, TickNow(s, addr))
  {
    if Complete(s, data, chunkSize) {
      FinalizeTick(crcFile, s.hub, addr, s.counter % 0x100);
    }
    hide Apply, Can;
    TickCan(crcFile, c, s, addr);
  }

  lemma EndsByLength(crcFile: CrcFile, sizes: Sizes, s: System, addr: byte, data: seq<byte>, chunkSize: nat)
    requires Ends(crcFile, s, addr, data, chunkSize) && Honest(sizes, s)
    ensures Cuttable(data, chunkSize) ||
            (SendsEmpty(crcFile, s, TickNow(s, addr), data, chunkSize) && HoldsUpTo(s, data, chunkSize))
  {
    hide Apply, Cuttable, HeardChunks, HoldsUpTo, FitsSoFar;
  }

  // A run that ends with an empty chunk going out, though the receiver took all before it.
  lemma EmptyChunkRun(
    crcFile: CrcFile, sizes: Sizes, s: System, addr: byte, name: Blob, data: seq<byte>, chunkSize: nat)
    returns (trace: seq<System>, moves: seq<Move>)
    requires Starts(s) && Recent(s) && addr != RESERVED_UID && NameFits(sizes, name)
    requires !Cuttable(data, chunkSize) && ChunkFits(sizes, LongestPiece(|data|, chunkSize))
    ensures IsAudibleRun(crcFile, sizes, trace, moves) && trace[0] == s && moves != []
    ensures SendsEmpty(crcFile, trace[|moves| - 1], moves[|moves| - 1], data, chunkSize)
    ensures HoldsUpTo(trace[|moves| - 1], data, chunkSize)
  {
    hide Leads, Complete, Falters, Can, Honest, HoldsUpTo, Named, Safe, Starts, Within, LongestPiece, ChunkFits;
    var c := Setting(0xFF, sizes);
    var end := TransferFromStart(crcFile, c, s, addr, name, 0, data, chunkSize);
    EndsGoOn(crcFile, c, end, addr, data, chunkSize);
    trace, moves := WayTo(crcFile, c, s, end, TickNow(end, addr));
    WayIsRun(crcFile, c, trace, moves);
    RunsAreHonest(crcFile, sizes, trace, moves, |moves| - 1);
    EndsByLength(crcFile, sizes, end, addr, data, chunkSize);
  }

  // ----- what an empty chunk takes -----

  lemma CancelSendsNothing(dev: Device, addr: byte)
    requires InTransfer(dev, Sending)
    ensures ActSending(dev, addr).dev.transfer.state == Cancel ==> ActSending(dev, addr).body == None
  {
    hide NextChunk;
  }

  lemma SentByTurn(crcFile: CrcFile, dev: Device, e: Event)
    requires Coherent(dev) && IsChunk(Apply(crcFile, dev, e).sent)
    ensures e.TickAt? && InTransfer(dev, Sending)
    ensures SendingTurn(dev.transfer, ActSending(dev, e.addr).dev.transfer, Apply(crcFile, dev, e).sent, dev.pending)
  {
    hide Apply, NextChunk, ActRunning, ActSending, SendingTurn;
    if !e.TickAt? {
      OnlyTicksSend(crcFile, dev, e);
    } else if e.time < dev.nextCall {
      TickTooEarly(crcFile, dev, e);
    } else {
      if !InTransfer(dev, Sending) {
        OnlySendingSendsChunks(crcFile, dev, e);
      }
      TickByAct(crcFile, dev, e);
      SendingActs(dev, e.addr);
      CancelSendsNothing(dev, e.addr);
    }
  }

  lemma FitsAsWhole(sizes: Sizes, t: Transfer)
    requires FitsSoFar(sizes, t) && Registers(sizes) && LongestPiece(Rest(t), t.chunkSize) == 0
    ensures ChunkFits(sizes, LongestPiece(|t.data|, t.chunkSize))
  {
    hide LongestPiece;
  }

  lemma NothingLonger(t: Transfer)
    requires NextChunk(t) == []
    ensures LongestPiece(Rest(t), t.chunkSize) == 0
  {
    LongestCovers(t);
  }

  // An empty chunk goes out only after all before it have got through.
  lemma EmptyTakesRoom(
    crcFile: CrcFile, sizes: Sizes, n: nat, s: System, m: Move, data: seq<byte>, chunkSize: nat)
    requires Coherent(s.hub) && Honest(sizes, s) && Named(sizes, n, s) && SendsEmpty(crcFile, s, m, data, chunkSize)
    ensures Registers(sizes) && ChunkFits(sizes, LongestPiece(|data|, chunkSize))
  {
    SentByTurn(crcFile, s.hub, m.e);
    var t, u := s.hub.transfer, ActSending(s.hub, m.e.addr).dev.transfer;
    hide Apply, NextChunk, ActSending, LongestPiece, FitsSoFar, Coherent;
    FitsOn(sizes, t, u);
    NothingLonger(u);
    FitsAsWhole(sizes, u);
  }

  // In every run from s in which all frames fit, no chunk of this file is empty.
  ghost predicate NeverEmpty(crcFile: CrcFile, sizes: Sizes, s: System, data: seq<byte>, chunkSize: nat) {
    forall trace, moves, k: nat :: IsAudibleRun(crcFile, sizes, trace, moves) && trace[0] == s && k < |moves| ==>
      !SendsEmpty(crcFile, trace[k], moves[k], data, chunkSize)
  }

  lemma EmptyNeeds(
    crcFile: CrcFile, sizes: Sizes, trace: seq<System>, moves: seq<Move>, k: nat, data: seq<byte>, chunkSize: nat)
    requires IsAudibleRun(crcFile, sizes, trace, moves) && k < |moves|
    requires SendsEmpty(crcFile, trace[k], moves[k], data, chunkSize)
    ensures !Cuttable(data, chunkSize) && Registers(sizes) && ChunkFits(sizes, LongestPiece(|data|, chunkSize))
  {
    RunsAreHonest(crcFile, sizes, trace, moves, k);
    hide Honest, Named, SendsEmpty, Ordered, Phases, Coherent, LongestPiece, ChunkFits, Cuttable;
    EmptyTakesRoom(crcFile, sizes, trace[0].counter, trace[k], moves[k], data, chunkSize);
    if Cuttable(data, chunkSize) {
      CuttableSendsNoneEmpty(crcFile, trace, moves, k, data, chunkSize);
    }
  }

  lemma RunLength(crcFile: CrcFile, sizes: Sizes, trace: seq<System>, moves: seq<Move>)
    requires IsAudibleRun(crcFile, sizes, trace, moves)
    ensures |trace| == |moves| + 1
  {
  }

  /**
    No run puts an empty chunk of a file on the wire, if and only if the file and the chunk size are not
    empty and one of them is at most 255; or it never comes to that because the buffers do not hold a name,
    or one of the chunks before it.
  */
  lemma ChunksCarrySomething(crcFile: CrcFile, sizes: Sizes, s: System, data: seq<byte>, chunkSize: nat)
    requires Starts(s) && Recent(s)
    ensures NeverEmpty(crcFile, sizes, s, data, chunkSize) <==>
              || (|data| > 0 && chunkSize > 0 && (chunkSize <= 0xFF || |data| <= 0xFF))
              || !Registers(sizes) || !ChunkFits(sizes, LongestPiece(|data|, chunkSize))
  {
    hide Steps, Audible, SendsEmpty, Starts, Recent, LongestPiece, ChunkFits;
    if Registers(sizes) && ChunkFits(sizes, LongestPiece(|data|, chunkSize)) && !Cuttable(data, chunkSize) {
      var trace, moves := EmptyChunkRun(crcFile, sizes, s, 1, [0x41], data, chunkSize);
      RunLength(crcFile, sizes, trace, moves);
    }
    forall trace, moves, k: nat | IsAudibleRun(crcFile, sizes, trace, moves) && trace[0] == s && k < |moves|
      ensures SendsEmpty(crcFile, trace[k], moves[k], data, chunkSize) ==>
                !Cuttable(data, chunkSize) && Registers(sizes) && ChunkFits(sizes, LongestPiece(|data|, chunkSize))
    {
      if SendsEmpty(crcFile, trace[k], moves[k], data, chunkSize) {
        EmptyNeeds(crcFile, sizes, trace, moves, k, data, chunkSize);
      }
    }
  }

  /**
    A file of 300 bytes with a chunk size of 300: the receiver gets 44 bytes, and the next chunk is empty.
    With 256 and 256 the first chunk is. Buffers of 52 bytes are enough, and those of 256 in the tests.
  */
  lemma EqualSizesFalter(crcFile: CrcFile, sizes: Sizes, s: System, size: nat)
    returns (trace: seq<System>, moves: seq<Move>)
    requires Starts(s) && Recent(s) && size in {256, 300} && sizes.hub >= 52 && sizes.device >= 52
    ensures IsAudibleRun(crcFile, sizes, trace, moves) && trace[0] == s && moves != []
    ensures SendsEmpty(crcFile, trace[|moves| - 1], moves[|moves| - 1], seq(size, _ => 7), size)
    ensures trace[|moves| - 1].receiver.buffer == seq(size - 256, _ => 7)
  {
    hide IsAudibleRun, SendsEmpty, Starts, Recent;
    var data := seq(size, _ => 7);
    assert Piece(size, size) == size - 256 && Piece(256, size) == 0;
    assert LongestPiece(256, size) == 0;
    assert LongestPiece(size, size) == size - 256;
    trace, moves := EmptyChunkRun(crcFile, sizes, s, 1, [0x41], data, size);
    RunLength(crcFile, sizes, trace, moves);
    var buffer := trace[|moves| - 1].receiver.buffer;
    assert |buffer| == size - 256;
    assert buffer == data[..size - 256];
  }

  // ----- delivery -----

  // The last move of the run reports Ok for this file.
  ghost predicate ReportsOk(crcFile: CrcFile, trace: seq<System>, moves: seq<Move>, data: seq<byte>, chunkSize: nat) {
    var last := |moves| - 1;
    && moves != [] && |trace| == |moves| + 1 && Enabled(crcFile, trace[last], moves[last])
    && trace[last].hub.transfer.data == data && trace[last].hub.transfer.chunkSize == chunkSize
    && FileWriteResult(OK) in Reports(crcFile, trace[last], moves[last])
  }

  lemma AudibleIsRun(crcFile: CrcFile, sizes: Sizes, trace: seq<System>, moves: seq<Move>)
    requires IsAudibleRun(crcFile, sizes, trace, moves)
    ensures IsRun(crcFile, trace, moves)
  {
  }

  lemma CuttableCompletes(
    crcFile: CrcFile, c: Setting, s: System, end: System, addr: byte, data: seq<byte>, chunkSize: nat)
    requires Starts(s) && c.window <= 0xFF && Leads(crcFile, c, s, end) && Ends(crcFile, end, addr, data, chunkSize)
    requires Cuttable(data, chunkSize) && Registers(c.sizes) && addr != RESERVED_UID
    ensures Complete(end, data, chunkSize)
  {
    hide Leads, Can, Starts, IsRun, Complete;
    if Falters(crcFile, end, addr, data, chunkSize) {
      EndsGoOn(crcFile, c, end, addr, data, chunkSize);
      var trace, moves := WayTo(crcFile, c, s, end, TickNow(end, addr));
      WayIsRun(crcFile, c, trace, moves);
      AudibleIsRun(crcFile, c.sizes, trace, moves);
      CuttableSendsNoneEmpty(crcFile, trace, moves, |moves| - 1, data, chunkSize);
      hide Apply;
    }
  }

  // The longest chunk a file is cut into.
  ghost function Largest(data: seq<byte>, chunkSize: nat): nat {
    if chunkSize < |data| then chunkSize else |data|
  }

  /**
    Any file below 4 GiB that can be cut into pieces whose frames fit both buffers, from any device just found,
    whatever its receiver holds, whatever is in flight and wherever the hub's counter stands: there is a run,
    legal throughout and with every frame fitting, that ends with Ok reported for exactly this file.
  */
  lemma FilesGetThrough(
    crcFile: CrcFile, sizes: Sizes, s: System, name: Blob, addr: byte, file: byte, data: seq<byte>, chunkSize: nat)
    returns (trace: seq<System>, moves: seq<Move>)
    requires Starts(s) && Recent(s) && addr != RESERVED_UID && NameFits(sizes, name)
    requires Cuttable(data, chunkSize) && |data| < 0x1_0000_0000 && ChunkFits(sizes, Largest(data, chunkSize))
    ensures IsAudibleRun(crcFile, sizes, trace, moves) && moves != [] && trace[0] == s
    ensures ReportsOk(crcFile, trace, moves, data, chunkSize) && AcceptedWhole(trace[|moves| - 1])
  {
    LongestOfCuttable(|data|, chunkSize);
    hide Leads, Falters, Complete, Can, Starts, SendsEmpty, Reports, LongestPiece, Within;
    var c := Setting(0xFF, sizes);
    var near := TransferFromStart(crcFile, c, s, addr, name, file, data, chunkSize);
    CuttableCompletes(crcFile, c, s, near, addr, data, chunkSize);
    var end := LastExchange(crcFile, c, near, addr, data, chunkSize);
    LeadsOn(crcFile, c, s, near, end);
    LastAnswer(crcFile, c, end, data, chunkSize);
    trace, moves := WayTo(crcFile, c, s, end, HubGets(0));
    WayIsRun(crcFile, c, trace, moves);
  }

  lemma OkIsFinal(crcFile: CrcFile, dev: Device, e: Event)
    requires Coherent(dev) && FileWriteResult(OK) in Apply(crcFile, dev, e).reports
    ensures InTransfer(dev, Finalize)
  {
    if !e.AckIn? {
      CancelReportsError(crcFile, dev, e, OK);
    } else {
      hide Tick;
    }
  }

  lemma OkNeeds(
    crcFile: CrcFile, sizes: Sizes, trace: seq<System>, moves: seq<Move>, data: seq<byte>, chunkSize: nat)
    requires IsAudibleRun(crcFile, sizes, trace, moves) && ReportsOk(crcFile, trace, moves, data, chunkSize)
    ensures Cuttable(data, chunkSize) && |data| < 0x1_0000_0000
    ensures Registers(sizes) && ChunkFits(sizes, Largest(data, chunkSize))
  {
    var last := |moves| - 1;
    OkMeansAccepted(crcFile, trace, moves, last);
    RunsAreHonest(crcFile, sizes, trace, moves, last);
    assert Steps(crcFile, trace[last], moves[last], trace[last + 1]);
    hide IsRun, Recent, Apply, AcceptedWhole, HeardChunks, Ordered, Phases, LongestPiece, FitsSoFar;
    OkIsFinal(crcFile, trace[last].hub, HubEvent(crcFile, trace[last], moves[last]).value);
    var t := trace[last].hub.transfer;
    LongestOfCuttable(Rest(t), chunkSize);
    LongestOfCuttable(|data|, chunkSize);
    FitsAsWhole(sizes, t);
  }

  /**
    A file can be delivered, by some run in which all frames fit, exactly if it is below 4 GiB, it and the chunk
    size are not empty, one of them is at most 255, the buffers hold the frames of a name and of the fixed
    messages, and they hold the frame of a chunk as long as the chunk size or the whole file.
  */
  lemma DeliverableExactly(crcFile: CrcFile, sizes: Sizes, s: System, data: seq<byte>, chunkSize: nat)
    requires Starts(s) && Recent(s)
    ensures (exists trace, moves ::
               && IsAudibleRun(crcFile, sizes, trace, moves) && trace[0] == s
               && ReportsOk(crcFile, trace, moves, data, chunkSize))
            <==>
            && 0 < |data| < 0x1_0000_0000 && chunkSize > 0 && (chunkSize <= 0xFF || |data| <= 0xFF)
            && 23 <= sizes.hub && 24 <= sizes.device
            && (chunkSize + 8 <= sizes.hub || |data| + 8 <= sizes.hub)
            && (chunkSize + 7 <= sizes.device || |data| + 7 <= sizes.device)
  {
    hide Steps, Audible, ReportsOk, Starts, Recent;
    if Cuttable(data, chunkSize) && |data| < 0x1_0000_0000 && Registers(sizes)
       && ChunkFits(sizes, Largest(data, chunkSize))
    {
      var trace, moves := FilesGetThrough(crcFile, sizes, s, [0x41], 1, 0, data, chunkSize);
    }
    forall trace, moves |
      IsAudibleRun(crcFile, sizes, trace, moves) && trace[0] == s && ReportsOk(crcFile, trace, moves, data, chunkSize)
      ensures Cuttable(data, chunkSize) && |data| < 0x1_0000_0000
      ensures Registers(sizes) && ChunkFits(sizes, Largest(data, chunkSize))
    {
      OkNeeds(crcFile, sizes, trace, moves, data, chunkSize);
    }
  }
}
