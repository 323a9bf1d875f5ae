/**
  From the user's calls of a hub to the frames it writes: commands in full and in order, files under the number and
  with the contents asked for, telemetry as scheduled.
*/
module HubOrders {
  import opened Bytes
  import opened Messages
  import opened DeviceSpec
  import opened DeviceRuns
  import opened HubSpec
  import opened HubRuns
  import opened Sequences
  import DeviceAccounts
  import DeviceTelemetry
  import FileHistory
  import HubFrames
  import N = NodeSpec
  import T = DeviceTransfer

  // ----- the work among the messages of a pass -----

  // All but what devices are found with.
  ghost predicate IsWork(body: Body) {
    !body.Probe? && !body.DeviceInfoReq?
  }

  ghost function Work(sent: Option<Body>): seq<Body> {
    if sent.Some? && IsWork(sent.value) then [sent.value] else []
  }

  // What device u is to do, of these messages, in their order.
  ghost function WorkFor(u: byte, ms: seq<Message>): seq<Body> {
    if ms == [] then []
    else WorkFor(u, ms[..|ms| - 1]) + if ms[|ms| - 1].receiver == u then Work(Some(ms[|ms| - 1].body)) else []
  }

  lemma WorkOfOne(u: byte, m: Message)
    ensures WorkFor(u, [m]) == if m.receiver == u then Work(Some(m.body)) else []
  {
    assert [m][..0] == [];
  }

  lemma WorkOfMore(u: byte, ms: seq<Message>, more: seq<Message>)
    requires |more| <= 1
    ensures WorkFor(u, ms + more) == WorkFor(u, ms) + WorkFor(u, more)
  {
    if more == [] {
      assert ms + more == ms;
    } else {
      assert (ms + more)[..|ms|] == ms && more[..0] == [];
    }
  }

  // A device out of operation is sent no work, and one in operation only at its own address.
  lemma WorkGoesHome(crcFile: CrcFile, h: Hub, v: byte, e: Event)
    requires WellNamed(h) && v in h.devices && e.TickAt? && e.addr == Address(h.names, h.devices[v].name)
    ensures var t := Tick(crcFile, h.devices[v], e.addr, e.temporaryUid, e.number, e.time, e.now);
            t.sent.Some? && IsWork(t.sent.value) ==> t.to == v
  {
    var dev := h.devices[v];
    assert KnownBy(h.names, v, dev);
    if dev.state == Running || dev.state == FileTransfer {
      GoesTo(crcFile, dev, e.addr, e.temporaryUid, e.number, e.time, e.now);
    } else {
      hide ActRunning, ActTransfer, Table;
    }
  }

  lemma TurnWork(crcFile: CrcFile, node: N.Node, h: Hub, v: byte, time: int, now: int, u: byte)
    requires WellNamed(h) && v in h.devices
    ensures WorkFor(u, HubFrames.SentInTurn(crcFile, node, h, v, time, now))
            == if v == u then Work(Apply(crcFile, h.devices[v], TurnOf(h, h.devices[v].name, time, now)).sent) else []
  {
    var e := TurnOf(h, h.devices[v].name, time, now);
    WorkGoesHome(crcFile, h, v, e);
    hide Tick, WellNamed;
    var t := Tick(crcFile, h.devices[v], e.addr, e.temporaryUid, e.number, time, now);
    if t.sent.Some? {
      WorkOfOne(u, Message(t.to, node.uid, (h.traffic.number + 1) % 0x100, t.sent.value));
    }
  }

  lemma SentInTurnIsOne(crcFile: CrcFile, node: N.Node, h: Hub, v: byte, time: int, now: int)
    requires v in h.devices
    ensures |HubFrames.SentInTurn(crcFile, node, h, v, time, now)| <= 1
  {
    hide Tick;
  }

  lemma NoWork(u: byte)
    ensures WorkFor(u, []) == []
  {
  }

  lemma {:induction false} TurnsWork(
    crcFile: CrcFile, node: N.Node, h: Hub, below: nat, time: int, clock: byte -> int, u: byte)
    requires WellNamed(h) && below <= 0x100
    ensures var work := WorkFor(u, HubFrames.SentInTurns(crcFile, node, h, below, time, clock));
            if u < below && u in h.devices then
              var e := TurnOf(Turns(crcFile, node, h, u, time, clock), h.devices[u].name, time, clock(u));
              work == Work(Apply(crcFile, h.devices[u], e).sent)
            else work == []
  {
    hide Turn, WellNamed, HubFrames.SentInTurn, Apply, WorkFor;
    if below == 0 {
      NoWork(u);
    } else {
      var v := below - 1;
      TurnsWork(crcFile, node, h, v, time, clock, u);
      TurnsAreWellNamed(crcFile, node, h, v, time, clock);
      TurnsTouchEachOnce(crcFile, node, h, v, time, clock);
      var before := Turns(crcFile, node, h, v, time, clock);
      if v in before.devices {
        SentInTurnIsOne(crcFile, node, before, v, time, clock(v));
        WorkOfMore(u, HubFrames.SentInTurns(crcFile, node, h, v, time, clock),
          HubFrames.SentInTurn(crcFile, node, before, v, time, clock(v)));
        TurnWork(crcFile, node, before, v, time, clock(v), u);
      }
    }
  }

  /** The work for a device among the frames of a pass is what the device's own turn sends. */
  lemma PassWork(crcFile: CrcFile, node: N.Node, h: Hub, op: Op, u: byte)
    requires WellNamed(h) && op.ProcessAt? && u in h.devices
    ensures WorkFor(u, HubFrames.Sent(crcFile, node, h, op))
            == Work(Apply(crcFile, h.devices[u], Seen(crcFile, node, h, op, u)[0]).sent)
  {
    TurnsWork(crcFile, node, h, 0x100, op.time, op.clock, u);
    hide Turns, WellNamed, Apply, HubFrames.SentInTurns, WorkFor;
  }

  // ----- calls -----

  // The call is for device u: its name leads there.
  ghost predicate IsFor(h: Hub, name: Name, u: byte) {
    name in h.names && h.names[name] == u && u != 0xFF
  }

  /** What a user's call is to a device: what was asked, if the call's name leads to the device; else nothing. */
  lemma CallIsSeen(crcFile: CrcFile, node: N.Node, h: Hub, op: Op, u: byte)
    requires u in h.devices && IsCall(op)
    ensures !IsFor(h, op.name, u) ==> Seen(crcFile, node, h, op, u) == []
    ensures IsFor(h, op.name, u) ==>
              match op
              case CommandTo(_, command, value) => Seen(crcFile, node, h, op, u) == [UserCommand(command, value)]
              case RequestTo(_, request, size) => Seen(crcFile, node, h, op, u) == [UserRequest(request, size)]
              case FileTo(_, file, contents, chunkSize) =>
                Seen(crcFile, node, h, op, u) == [UserFile(file, contents, chunkSize)]
              case ScheduleFor(_, req, reqSize, period) =>
                Seen(crcFile, node, h, op, u) == [UserSchedule(req, reqSize, period)]
              case _ => true
  {
    hide Turns;
  }

  // ----- commands -----

  type Pair = (byte, byte)

  // The commands in this work.
  ghost function CommandsIn(work: seq<Body>): seq<Pair> {
    if work == [] then []
    else
      CommandsIn(work[..|work| - 1]) +
      match work[|work| - 1] case Command(command, value) => [(command, value)] case _ => []
  }

  // A command for device u that is not refused.
  ghost function Given(h: Hub, op: Op, u: byte): seq<Pair> {
    if op.CommandTo? && u in h.devices && IsFor(h, op.name, u) && h.devices[u].state == Running
    then [(op.command, op.value)] else []
  }

  // The commands in the frames for device u that a call of `process` writes.
  ghost function Written(crcFile: CrcFile, node: N.Node, h: Hub, op: Op, u: byte): seq<Pair> {
    if op.ProcessAt? then CommandsIn(WorkFor(u, HubFrames.Sent(crcFile, node, h, op))) else []
  }

  ghost function CommandsGiven(crcFile: CrcFile, node: N.Node, first: byte, ops: seq<Op>, u: byte): seq<Pair> {
    if ops == [] then []
    else
      var earlier := ops[..|ops| - 1];
      CommandsGiven(crcFile, node, first, earlier, u)
      + Given(HubAfter(crcFile, node, first, earlier), ops[|ops| - 1], u)
  }

  ghost function CommandsWritten(crcFile: CrcFile, node: N.Node, first: byte, ops: seq<Op>, u: byte): seq<Pair> {
    if ops == [] then []
    else
      var earlier := ops[..|ops| - 1];
      CommandsWritten(crcFile, node, first, earlier, u)
      + Written(crcFile, node, HubAfter(crcFile, node, first, earlier), ops[|ops| - 1], u)
  }

  ghost function CommandQueue(h: Hub, u: byte): seq<Pair> {
    if u in h.devices then h.devices[u].commandQueue else []
  }

  lemma CommandOfOne(sent: Option<Body>)
    ensures CommandsIn(Work(sent)) == match sent case Some(Command(command, value)) => [(command, value)] case _ => []
  {
    if sent.Some? && IsWork(sent.value) {
      assert [sent.value][..0] == [];
    }
  }

  // One event of a device moves its queue of commands as the calls and the frames say.
  lemma CommandEvent(crcFile: CrcFile, dev: Device, e: Event)
    requires e.TickAt? && dev.state == Running ==> e.addr != 0xFF
    ensures var o := Apply(crcFile, dev, e);
            dev.commandQueue
            + (if e.UserCommand? && dev.state == Running then [(e.command, e.value)] else [])
            == CommandsIn(Work(o.sent)) + o.dev.commandQueue
  {
    DeviceAccounts.QueueStep(crcFile, dev, DeviceAccounts.Commands, e);
    CommandOfOne(Apply(crcFile, dev, e).sent);
    hide Apply, CommandsIn, Work;
  }

  lemma CommandPass(crcFile: CrcFile, node: N.Node, h: Hub, op: Op, u: byte)
    requires WellNamed(h) && u in h.devices && u != 0xFF && op.ProcessAt?
    ensures var e := Seen(crcFile, node, h, op, u)[0];
            CommandQueue(h, u) == Written(crcFile, node, h, op, u) + Apply(crcFile, h.devices[u], e).dev.commandQueue
  {
    var e := Seen(crcFile, node, h, op, u)[0];
    PassWork(crcFile, node, h, op, u);
    TurnIsAddressable(crcFile, node, h, op, u);
    CommandEvent(crcFile, h.devices[u], e);
    hide Turns, Apply, WellNamed, HubFrames.Sent, WorkFor, CommandsIn;
  }

  // What is no pass of `process` is a user's call, an answer, or nothing to a device.
  lemma SeenOutsidePass(crcFile: CrcFile, node: N.Node, h: Hub, op: Op, u: byte)
    requires u in h.devices && !op.ProcessAt?
    ensures var seen := Seen(crcFile, node, h, op, u);
            && |seen| <= 1 && (seen != [] ==> !seen[0].TickAt?)
            && (seen != [] && seen[0].UserCommand? ==> op.CommandTo? && IsFor(h, op.name, u))
            && (seen != [] && seen[0].UserFile? ==> op.FileTo? && IsFor(h, op.name, u))
            && (seen != [] && seen[0].UserSchedule? ==> op.ScheduleFor? && IsFor(h, op.name, u))
  {
    hide Turns;
  }

  lemma OnlyTicksSend(crcFile: CrcFile, dev: Device, e: Event)
    requires !e.TickAt?
    ensures CommandsIn(Work(Apply(crcFile, dev, e).sent)) == []
  {
  }

  lemma CommandOutsidePass(crcFile: CrcFile, node: N.Node, h: Hub, op: Op, u: byte)
    requires u in h.devices && !op.ProcessAt?
    ensures var after := After(crcFile, h.devices[u], Seen(crcFile, node, h, op, u));
            CommandQueue(h, u) + Given(h, op, u) == after.commandQueue
  {
    SeenOutsidePass(crcFile, node, h, op, u);
    if IsCall(op) {
      CallIsSeen(crcFile, node, h, op, u);
    }
    hide Seen, Apply;
    var seen := Seen(crcFile, node, h, op, u);
    if seen != [] {
      CommandEvent(crcFile, h.devices[u], seen[0]);
      OnlyTicksSend(crcFile, h.devices[u], seen[0]);
    }
  }

  // A device that is not known is given nothing and sent nothing; one just found has nothing queued.
  lemma UnknownCommands(crcFile: CrcFile, node: N.Node, h: Hub, op: Op, u: byte)
    requires WellNamed(h) && u !in h.devices
    ensures Given(h, op, u) == [] == Written(crcFile, node, h, op, u)
    ensures CommandQueue(Operate(crcFile, node, h, op), u) == []
  {
    if u in Operate(crcFile, node, h, op).devices {
      DevicesStartNew(crcFile, node, h, op, u);
    }
    if op.ProcessAt? {
      TurnsWork(crcFile, node, h, 0x100, op.time, op.clock, u);
    }
    hide Operate, WellNamed, Turns, HubFrames.SentInTurns, WorkFor;
  }

  lemma CommandOp(crcFile: CrcFile, node: N.Node, h: Hub, op: Op, u: byte)
    requires WellNamed(h) && u != 0xFF
    ensures CommandQueue(h, u) + Given(h, op, u)
            == Written(crcFile, node, h, op, u) + CommandQueue(Operate(crcFile, node, h, op), u)
  {
    hide Operate, WellNamed, Apply, HubFrames.Sent, WorkFor, CommandsIn;
    if u !in h.devices {
      UnknownCommands(crcFile, node, h, op, u);
    } else {
      DevicesAreIndependent(crcFile, node, h, op, u);
      if op.ProcessAt? {
        CommandPass(crcFile, node, h, op, u);
      } else {
        SeenOutsidePass(crcFile, node, h, op, u);
        if IsCall(op) {
          CallIsSeen(crcFile, node, h, op, u);
        }
        CommandOutsidePass(crcFile, node, h, op, u);
      }
    }
  }

  lemma PairRegroup(a: seq<Pair>, b: seq<Pair>, c: seq<Pair>, d: seq<Pair>, e: seq<Pair>, f: seq<Pair>)
    requires a == b + c && c + d == e + f
    ensures a + d == (b + e) + f
  {
    assert a + d == b + (c + d);
    assert (b + e) + f == b + (e + f);
  }

  lemma NothingQueued(first: byte, u: byte)
    ensures CommandQueue(EmptyHub(first), u) == []
  {
  }

  /**
    In every legal run of a hub, the commands users gave for a device, by calls that were not refused, are in full
    and in order those in the frames written for it and those still queued.
  */
  lemma {:induction false} CommandsReachTheirDevice(
    crcFile: CrcFile, node: N.Node, first: byte, ops: seq<Op>, u: byte)
    requires LegalRun(crcFile, node, first, ops) && u != 0xFF
    ensures CommandsGiven(crcFile, node, first, ops, u)
            == CommandsWritten(crcFile, node, first, ops, u) + CommandQueue(HubAfter(crcFile, node, first, ops), u)
  {
    hide Operate, Given, Written, WellNamed, CommandQueue;
    if ops == [] {
      NothingQueued(first, u);
    } else {
      var earlier, op := ops[..|ops| - 1], ops[|ops| - 1];
      var h := HubAfter(crcFile, node, first, earlier);
      CommandsReachTheirDevice(crcFile, node, first, earlier, u);
      RunsAreWellNamed(crcFile, node, first, earlier);
      CommandOp(crcFile, node, h, op, u);
      PairRegroup(CommandsGiven(crcFile, node, first, earlier, u), CommandsWritten(crcFile, node, first, earlier, u),
        CommandQueue(h, u), Given(h, op, u), Written(crcFile, node, h, op, u),
        CommandQueue(Operate(crcFile, node, h, op), u));
    }
  }

  // ----- files -----

  // The last file given to device u by a call that was not refused.
  ghost function LastFileTo(crcFile: CrcFile, node: N.Node, first: byte, ops: seq<Op>, u: byte): Option<Op> {
    if ops == [] then None
    else
      var earlier, op := ops[..|ops| - 1], ops[|ops| - 1];
      var h := HubAfter(crcFile, node, first, earlier);
      if op.FileTo? && u in h.devices && IsFor(h, op.name, u) && h.devices[u].state == Running then Some(op)
      else LastFileTo(crcFile, node, first, earlier, u)
  }

  // The same file: of a hub's call and of a device's event.
  ghost predicate SameFile(op: Option<Op>, e: Option<Event>) {
    e.Some? ==>
      && e.value.UserFile? && op.Some? && op.value.FileTo? && op.value.file == e.value.file
      && op.value.contents == e.value.contents && op.value.chunkSize == e.value.chunkSize
  }

  lemma LastFileOn(crcFile: CrcFile, run: seq<Event>, seen: seq<Event>)
    requires |seen| <= 1
    ensures FileHistory.LastFile(crcFile, run + seen)
            == if seen != [] && FileHistory.Accepts(Final(crcFile, NEW_DEVICE, run), seen[0]) then Some(seen[0])
               else FileHistory.LastFile(crcFile, run)
  {
    if seen == [] {
      assert run + seen == run;
    } else {
      assert (run + seen)[..|run|] == run;
    }
    hide Final;
  }

  lemma FileSeen(crcFile: CrcFile, node: N.Node, h: Hub, op: Op, u: byte)
    requires u in h.devices
    ensures var seen := Seen(crcFile, node, h, op, u);
            && |seen| <= 1
            && if seen != [] && FileHistory.Accepts(h.devices[u], seen[0]) then
                 && op.FileTo? && IsFor(h, op.name, u) && h.devices[u].state == Running
                 && seen[0] == UserFile(op.file, op.contents, op.chunkSize)
               else !(op.FileTo? && IsFor(h, op.name, u) && h.devices[u].state == Running)
  {
    SeenOnce(crcFile, node, h, op, u);
    if !op.ProcessAt? {
      SeenOutsidePass(crcFile, node, h, op, u);
      if IsCall(op) {
        CallIsSeen(crcFile, node, h, op, u);
      }
    }
    hide Turns;
  }

  lemma {:induction false} LastFilesAgree(crcFile: CrcFile, node: N.Node, first: byte, ops: seq<Op>, u: byte)
    ensures SameFile(LastFileTo(crcFile, node, first, ops, u),
                     FileHistory.LastFile(crcFile, History(crcFile, node, first, ops, u)))
  {
    hide Operate, Seen, Final;
    if ops != [] {
      var earlier, op := ops[..|ops| - 1], ops[|ops| - 1];
      var h := HubAfter(crcFile, node, first, earlier);
      LastFilesAgree(crcFile, node, first, earlier, u);
      if u in h.devices {
        DevicesLiveAlone(crcFile, node, first, earlier, u);
        FileSeen(crcFile, node, h, op, u);
        LastFileOn(crcFile, History(crcFile, node, first, earlier, u), Seen(crcFile, node, h, op, u));
      }
    }
  }

  ghost predicate IsAt(chunk: Blob, contents: seq<byte>, from: nat) {
    from + |chunk| <= |contents| && chunk == contents[from..from + |chunk|]
  }

  // The file a message is about, and what it says of its size and checksum.
  ghost predicate IsOfCall(crcFile: CrcFile, body: Body, call: Option<Op>) {
    call.Some? && call.value.FileTo? &&
    match body
    case FileWriteRequest(file, size) =>
      file == call.value.file && size == |call.value.contents| % 0x1_0000_0000
    case FileWriteChunk(file, chunk) =>
      file == call.value.file && exists from :: IsAt(chunk, call.value.contents, from)
    case FileWriteFinalize(file, _, crc) => file == call.value.file && crc == crcFile(call.value.contents)
    case _ => false
  }

  lemma PieceFrom(chunk: Blob, confirmed: seq<byte>, contents: seq<byte>, chunkSize: nat)
    requires FileHistory.IsPieceAfter(chunk, confirmed, contents, chunkSize)
    ensures IsAt(chunk, contents, |confirmed|)
  {
  }

  lemma EventIsOfCall(crcFile: CrcFile, run: seq<Event>, e: Event, call: Option<Op>, body: Body)
    requires (forall x :: x in run ==> Timely(x)) && Timely(e)
    requires SameFile(call, FileHistory.LastFile(crcFile, run))
    requires Apply(crcFile, Final(crcFile, NEW_DEVICE, run), e).sent == Some(body)
    requires body.FileWriteRequest? || body.FileWriteChunk? || body.FileWriteFinalize?
    ensures IsOfCall(crcFile, body, call)
  {
    hide Apply, Final, FileHistory.LastFile, FileHistory.IsPieceAfter;
    match body
    case FileWriteRequest(file, size) => FileHistory.FileRequestsAreAsAsked(crcFile, run, e, file, size);
    case FileWriteChunk(file, chunk) =>
      FileHistory.FileChunksAreAsAsked(crcFile, run, e, file, chunk);
      PieceFrom(chunk, Concat(T.Observe(crcFile, T.Watched(crcFile, run), e).chunks), call.value.contents,
        call.value.chunkSize);
    case FileWriteFinalize(file, chunks, crc) =>
      FileHistory.FileFinalizesAreAsAsked(crcFile, run, e, file, chunks, crc);
  }

  lemma OneWork(sent: Option<Body>, k: nat)
    requires k < |Work(sent)|
    ensures sent == Some(Work(sent)[k])
  {
  }

  /**
    In every legal run of a hub with a timely clock, every file message in a frame for a device is about the last
    file given to it by a call that was not refused: under its number, with its size, a piece of its contents, or
    their checksum.
  */
  lemma FilesReachTheirDevice(
    crcFile: CrcFile, node: N.Node, first: byte, ops: seq<Op>, op: Op, u: byte, k: nat)
    requires LegalRun(crcFile, node, first, ops) && (forall o :: o in ops ==> OnTime(o)) && OnTime(op) && op.ProcessAt?
    requires k < |WorkFor(u, HubFrames.Sent(crcFile, node, HubAfter(crcFile, node, first, ops), op))|
    ensures var body := WorkFor(u, HubFrames.Sent(crcFile, node, HubAfter(crcFile, node, first, ops), op))[k];
            body.FileWriteRequest? || body.FileWriteChunk? || body.FileWriteFinalize? ==>
              IsOfCall(crcFile, body, LastFileTo(crcFile, node, first, ops, u))
  {
    var h := HubAfter(crcFile, node, first, ops);
    RunsAreWellNamed(crcFile, node, first, ops);
    TurnsWork(crcFile, node, h, 0x100, op.time, op.clock, u);
    hide HubAfter, LegalRun, Apply, Final, History, Turns, WellNamed, IsOfCall, LastFileTo, Work, Timely, OnTime;
    hide HubFrames.SentInTurns, WorkFor;
    if u in h.devices {
      PassWork(crcFile, node, h, op, u);
      DevicesLiveAlone(crcFile, node, first, ops, u);
      HistoryIsTimely(crcFile, node, first, ops, u);
      SeenIsTimely(crcFile, node, h, op, u);
      LastFilesAgree(crcFile, node, first, ops, u);
      var run, e := History(crcFile, node, first, ops, u), Seen(crcFile, node, h, op, u)[0];
      var sent := Apply(crcFile, Final(crcFile, NEW_DEVICE, run), e).sent;
      OneWork(sent, k);
      var body := sent.value;
      if body.FileWriteRequest? || body.FileWriteChunk? || body.FileWriteFinalize? {
        EventIsOfCall(crcFile, run, e, LastFileTo(crcFile, node, first, ops, u), body);
      }
    }
  }

  // ----- telemetry -----

  lemma ScheduleOfOp(crcFile: CrcFile, node: N.Node, h: Hub, op: Op, u: byte)
    requires u in h.devices
    ensures var seen := Seen(crcFile, node, h, op, u);
            && |seen| <= 1
            && (seen != [] && seen[0].UserSchedule? ==>
                  op.ScheduleFor? && IsFor(h, op.name, u) && seen[0] == UserSchedule(op.req, op.reqSize, op.period))
  {
    SeenOnce(crcFile, node, h, op, u);
    if !op.ProcessAt? {
      SeenOutsidePass(crcFile, node, h, op, u);
      if IsCall(op) {
        CallIsSeen(crcFile, node, h, op, u);
      }
    }
    hide Turns;
  }

  lemma {:induction false} ScheduleSeen(
    crcFile: CrcFile, node: N.Node, first: byte, ops: seq<Op>, u: byte, i: nat) returns (k: nat)
    requires i < |History(crcFile, node, first, ops, u)| && History(crcFile, node, first, ops, u)[i].UserSchedule?
    ensures k < |ops| && ops[k].ScheduleFor?
    ensures var h, e := HubAfter(crcFile, node, first, ops[..k]), History(crcFile, node, first, ops, u)[i];
            IsFor(h, ops[k].name, u) && ops[k].req == e.req && ops[k].reqSize == e.reqSize && ops[k].period == e.period
  {
    var earlier, op := ops[..|ops| - 1], ops[|ops| - 1];
    var h := HubAfter(crcFile, node, first, earlier);
    hide Operate, Seen, IsFor, HubAfter;
    if i < |History(crcFile, node, first, earlier, u)| {
      k := ScheduleSeen(crcFile, node, first, earlier, u, i);
      assert earlier[..k] == ops[..k];
    } else {
      k := |ops| - 1;
      ScheduleOfOp(crcFile, node, h, op, u);
    }
  }

  /**
    In every legal run of a hub, a blob request in a frame for a device with no queued requests is for what a user
    has scheduled for that device.
  */
  lemma TelemetryIsAskedFor(
    crcFile: CrcFile, node: N.Node, first: byte, ops: seq<Op>, op: Op, u: byte, request: byte, size: byte)
    returns (k: nat)
    requires LegalRun(crcFile, node, first, ops) && op.ProcessAt? && u in HubAfter(crcFile, node, first, ops).devices
    requires HubAfter(crcFile, node, first, ops).devices[u].requestQueue == []
    requires BlobRequest(request, size) in
             WorkFor(u, HubFrames.Sent(crcFile, node, HubAfter(crcFile, node, first, ops), op))
    ensures k < |ops| && ops[k].ScheduleFor? && IsFor(HubAfter(crcFile, node, first, ops[..k]), ops[k].name, u)
    ensures ops[k].req == request && ops[k].reqSize == size
  {
    var h := HubAfter(crcFile, node, first, ops);
    RunsAreWellNamed(crcFile, node, first, ops);
    PassWork(crcFile, node, h, op, u);
    DevicesLiveAlone(crcFile, node, first, ops, u);
    hide HubAfter, LegalRun, Apply, Final, History, WellNamed, HubFrames.Sent, WorkFor, Seen, IsFor;
    var run, e := History(crcFile, node, first, ops, u), Seen(crcFile, node, h, op, u)[0];
    DeviceTelemetry.RequestsAreAskedFor(crcFile, run, e, request, size);
    var i :| 0 <= i < |run| && run[i].UserSchedule? && run[i].req == request && run[i].reqSize == size;
    k := ScheduleSeen(crcFile, node, first, ops, u, i);
  }
}
