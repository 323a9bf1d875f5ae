/** Runs of a whole hub: each of its devices lives as if it were alone. */
module HubRuns {
  import opened Bytes
  import opened Messages
  import opened DeviceSpec
  import opened DeviceRuns
  import opened HubSpec
  import N = NodeSpec
  import DeviceAccounts

  datatype Op =
    | ProcessAt(time: int, clock: byte -> int)
    | AckFrom(from: byte, number: byte, code: byte, now: int)
    | InfoFrom(from: byte, number: byte, version: DeviceVersion, deviceName: Name)
    | BlobFrom(from: byte, number: byte, request: byte, answer: Blob)
    | HealthFrom(from: byte, number: byte, health: byte, flags: uint16)
    | CommandTo(name: Name, command: byte, value: byte)
    | RequestTo(name: Name, request: byte, size: byte)
    | FileTo(name: Name, file: byte, contents: seq<byte>, chunkSize: nat)
    | ScheduleFor(name: Name, req: byte, reqSize: byte, period: int)
    | SendAlso(to: byte, body: Body)     // a probe of the bus, or any other message of the hub's owner
    | Observe

  ghost function Operate(crcFile: CrcFile, node: N.Node, h: Hub, op: Op): Hub {
    match op
    case ProcessAt(time, clock) => Turns(crcFile, node, h, 0x100, time, clock)
    case AckFrom(from, number, code, now) => OnAck(h, from, number, code, now)
    case InfoFrom(from, number, version, name) => OnInfo(h, from, number, version, name)
    case BlobFrom(from, number, request, answer) => OnBlob(h, from, number, request, answer)
    case HealthFrom(from, number, health, flags) => OnHealth(h, from, number, health, flags)
    case CommandTo(name, command, value) =>
      if Finds(h, name) then With(h, name, PushCommand(Named(h, name), command, value)) else h
    case RequestTo(name, request, size) =>
      if Finds(h, name) then With(h, name, PushRequest(Named(h, name), request, size)) else h
    case FileTo(name, file, contents, chunkSize) =>
      if Finds(h, name) then With(h, name, StartFile(Named(h, name), file, contents, chunkSize)) else h
    case ScheduleFor(name, req, reqSize, period) =>
      if Finds(h, name) then With(h, name, Schedule(Named(h, name), req, reqSize, period)) else h
    case SendAlso(to, body) => h.(traffic := Initiate(node, h.traffic, to, body))
    case Observe => h.(observed := true)
  }

  ghost predicate Allowed(h: Hub, op: Op) {
    op.InfoFrom? ==> NamesStayUnique(h, op.from, op.number, op.deviceName)
  }

  ghost predicate IsAnswer(op: Op) {
    op.AckFrom? || op.InfoFrom? || op.BlobFrom? || op.HealthFrom?
  }

  ghost predicate IsCall(op: Op) {
    op.CommandTo? || op.RequestTo? || op.FileTo? || op.ScheduleFor?
  }

  // The tick of a device whose turn finds the hub as `before`.
  ghost function TurnOf(before: Hub, name: Name, time: int, now: int): Event {
    TickAt(Address(before.names, name), before.temporaryUid, before.traffic.number, time, now)
  }

  // What an operation is to the device with number u.
  ghost function Seen(crcFile: CrcFile, node: N.Node, h: Hub, op: Op, u: byte): seq<Event>
    requires u in h.devices
  {
    match op
    case ProcessAt(time, clock) => [TurnOf(Turns(crcFile, node, h, u, time, clock), h.devices[u].name, time, clock(u))]
    case AckFrom(from, number, code, now) => if from == u then [AckIn(number, code, now)] else []
    case InfoFrom(from, number, version, name) => if from == u then [InfoIn(number, version, name)] else []
    case BlobFrom(from, number, request, answer) => if from == u then [BlobIn(number, request, answer)] else []
    case HealthFrom(from, number, health, flags) => if from == u then [HealthIn(number, health, flags)] else []
    case CommandTo(name, command, value) =>
      if Address(h.names, name) == u != RESERVED_UID then [UserCommand(command, value)] else []
    case RequestTo(name, request, size) =>
      if Address(h.names, name) == u != RESERVED_UID then [UserRequest(request, size)] else []
    case FileTo(name, file, contents, chunkSize) =>
      if Address(h.names, name) == u != RESERVED_UID then [UserFile(file, contents, chunkSize)] else []
    case ScheduleFor(name, req, reqSize, period) =>
      if Address(h.names, name) == u != RESERVED_UID then [UserSchedule(req, reqSize, period)] else []
    case SendAlso(_, _) => []
    case Observe => []
  }

  ghost function After(crcFile: CrcFile, dev: Device, seen: seq<Event>): Device {
    if seen == [] then dev else Apply(crcFile, dev, seen[0]).dev
  }

  lemma OperateTurns(crcFile: CrcFile, node: N.Node, h: Hub, op: Op)
    requires op.ProcessAt?
    ensures Operate(crcFile, node, h, op) == Turns(crcFile, node, h, 0x100, op.time, op.clock)
  {
    hide Turns;
  }

  // ----- one pass over the devices -----

  lemma {:induction false} TurnsTouchEachOnce(
    crcFile: CrcFile, node: N.Node, h: Hub, below: nat, time: int, clock: byte -> int)
    requires below <= 0x100
    ensures var after := Turns(crcFile, node, h, below, time, clock);
            && after.devices.Keys == h.devices.Keys && after.names == h.names && after.observed == h.observed
            && (forall u :: u in h.devices && u >= below ==> after.devices[u] == h.devices[u])
  {
    if below > 0 {
      TurnsTouchEachOnce(crcFile, node, h, below - 1, time, clock);
    }
    hide Tick, Tell, Initiate;
  }

  lemma {:induction false} TurnsAreTicks(
    crcFile: CrcFile, node: N.Node, h: Hub, below: nat, time: int, clock: byte -> int, u: byte)
    requires below <= 0x100 && u in h.devices && u < below
    ensures var after := Turns(crcFile, node, h, below, time, clock);
            && u in after.devices
            && after.devices[u]
               == Apply(crcFile, h.devices[u],
                        TurnOf(Turns(crcFile, node, h, u, time, clock), h.devices[u].name, time, clock(u))).dev
  {
    hide Tick, Tell, Initiate;
    TurnsTouchEachOnce(crcFile, node, h, below - 1, time, clock);
    TurnsTouchEachOnce(crcFile, node, h, u, time, clock);
    if u < below - 1 {
      TurnsAreTicks(crcFile, node, h, below - 1, time, clock, u);
    }
  }

  lemma ProcessingIsATick(crcFile: CrcFile, node: N.Node, h: Hub, op: Op, u: byte)
    requires u in h.devices && op.ProcessAt?
    ensures var next := Operate(crcFile, node, h, op);
            u in next.devices && next.devices[u] == After(crcFile, h.devices[u], Seen(crcFile, node, h, op, u))
  {
    TurnsAreTicks(crcFile, node, h, 0x100, op.time, op.clock, u);
    hide Apply, Turns;
  }

  lemma AnswersReachTheirDevice(crcFile: CrcFile, node: N.Node, h: Hub, op: Op, u: byte)
    requires u in h.devices && IsAnswer(op)
    ensures var next := Operate(crcFile, node, h, op);
            u in next.devices && next.devices[u] == After(crcFile, h.devices[u], Seen(crcFile, node, h, op, u))
  {
    hide Tell, Turns, HandleAck, HandleInfo, HandleBlob, HandleHealth;
  }

  lemma CallsReachTheirDevice(crcFile: CrcFile, node: N.Node, h: Hub, op: Op, u: byte)
    requires u in h.devices && !IsAnswer(op) && !op.ProcessAt?
    ensures var next := Operate(crcFile, node, h, op);
            u in next.devices && next.devices[u] == After(crcFile, h.devices[u], Seen(crcFile, node, h, op, u))
  {
    hide Turns, Initiate, PushCommand, PushRequest, StartFile, Schedule;
  }

  /** Every operation does to each device just what the device sees of it, and nothing else. */
  lemma DevicesAreIndependent(crcFile: CrcFile, node: N.Node, h: Hub, op: Op, u: byte)
    requires u in h.devices
    ensures var next := Operate(crcFile, node, h, op);
            u in next.devices && next.devices[u] == After(crcFile, h.devices[u], Seen(crcFile, node, h, op, u))
  {
    hide Operate, Seen, After;
    if op.ProcessAt? {
      ProcessingIsATick(crcFile, node, h, op, u);
    } else if IsAnswer(op) {
      AnswersReachTheirDevice(crcFile, node, h, op, u);
    } else {
      CallsReachTheirDevice(crcFile, node, h, op, u);
    }
  }

  // Devices come into being new.
  lemma DevicesStartNew(crcFile: CrcFile, node: N.Node, h: Hub, op: Op, u: byte)
    requires u !in h.devices && u in Operate(crcFile, node, h, op).devices
    ensures Operate(crcFile, node, h, op).devices[u] == NEW_DEVICE
  {
    if op.ProcessAt? {
      TurnsTouchEachOnce(crcFile, node, h, 0x100, op.time, op.clock);
    }
    hide Tell, Turns;
  }

  // ----- whole runs -----

  ghost function HubAfter(crcFile: CrcFile, node: N.Node, firstNumber: byte, ops: seq<Op>): Hub {
    if ops == [] then EmptyHub(firstNumber)
    else Operate(crcFile, node, HubAfter(crcFile, node, firstNumber, ops[..|ops| - 1]), ops[|ops| - 1])
  }

  // All a device has seen since it was found.
  ghost function History(crcFile: CrcFile, node: N.Node, firstNumber: byte, ops: seq<Op>, u: byte): seq<Event> {
    if ops == [] then []
    else
      var earlier := ops[..|ops| - 1];
      var before := HubAfter(crcFile, node, firstNumber, earlier);
      if u !in before.devices then []
      else History(crcFile, node, firstNumber, earlier, u) + Seen(crcFile, node, before, ops[|ops| - 1], u)
  }

  lemma FinalOfSeen(crcFile: CrcFile, dev: Device, run: seq<Event>, seen: seq<Event>)
    requires |seen| <= 1
    ensures Final(crcFile, dev, run + seen) == After(crcFile, Final(crcFile, dev, run), seen)
  {
    hide Apply;
    if seen == [] {
      assert run + seen == run;
    } else {
      assert (run + seen)[..|run|] == run;
    }
  }

  lemma SeenOnce(crcFile: CrcFile, node: N.Node, h: Hub, op: Op, u: byte)
    requires u in h.devices
    ensures |Seen(crcFile, node, h, op, u)| <= 1
  {
    hide Turns;
  }

  /** In any run of the hub, each device's record is that of a single-device run of what it has seen. */
  lemma {:induction false} DevicesLiveAlone(crcFile: CrcFile, node: N.Node, firstNumber: byte, ops: seq<Op>, u: byte)
    requires u in HubAfter(crcFile, node, firstNumber, ops).devices
    ensures HubAfter(crcFile, node, firstNumber, ops).devices[u]
            == Final(crcFile, NEW_DEVICE, History(crcFile, node, firstNumber, ops, u))
  {
    if ops != [] {
      var earlier, op := ops[..|ops| - 1], ops[|ops| - 1];
      var before := HubAfter(crcFile, node, firstNumber, earlier);
      hide Operate, Seen, After;
      if u in before.devices {
        DevicesLiveAlone(crcFile, node, firstNumber, earlier, u);
        DevicesAreIndependent(crcFile, node, before, op, u);
        SeenOnce(crcFile, node, before, op, u);
        FinalOfSeen(crcFile, NEW_DEVICE, History(crcFile, node, firstNumber, earlier, u),
          Seen(crcFile, node, before, op, u));
      } else {
        DevicesStartNew(crcFile, node, before, op, u);
      }
    }
  }

  // No clock reading is later than the time `process` was called with.
  ghost predicate OnTime(op: Op) {
    op.ProcessAt? ==> forall u: byte :: op.clock(u) <= op.time
  }

  lemma SeenIsTimely(crcFile: CrcFile, node: N.Node, h: Hub, op: Op, u: byte)
    requires u in h.devices && OnTime(op)
    ensures forall e :: e in Seen(crcFile, node, h, op, u) ==> Timely(e)
  {
    hide Turns;
  }

  lemma {:induction false} HistoryIsTimely(crcFile: CrcFile, node: N.Node, firstNumber: byte, ops: seq<Op>, u: byte)
    requires forall op :: op in ops ==> OnTime(op)
    ensures forall e :: e in History(crcFile, node, firstNumber, ops, u) ==> Timely(e)
  {
    if ops != [] {
      var earlier, op := ops[..|ops| - 1], ops[|ops| - 1];
      var before := HubAfter(crcFile, node, firstNumber, earlier);
      assert op in ops;
      HistoryIsTimely(crcFile, node, firstNumber, earlier, u);
      if u in before.devices {
        SeenIsTimely(crcFile, node, before, op, u);
      }
      hide Seen, OnTime, Timely, Operate;
    }
  }

  /** Every device of every run of the hub is coherent. */
  lemma HubsAreCoherent(crcFile: CrcFile, node: N.Node, firstNumber: byte, ops: seq<Op>, u: byte)
    requires forall op :: op in ops ==> OnTime(op)
    requires u in HubAfter(crcFile, node, firstNumber, ops).devices
    ensures Coherent(HubAfter(crcFile, node, firstNumber, ops).devices[u])
  {
    DevicesLiveAlone(crcFile, node, firstNumber, ops, u);
    HistoryIsTimely(crcFile, node, firstNumber, ops, u);
    RunsAreCoherent(crcFile, NEW_DEVICE, History(crcFile, node, firstNumber, ops, u));
  }

  // ----- names and addresses -----

  lemma TickKeepsName(crcFile: CrcFile, dev: Device, e: Event)
    requires e.TickAt?
    ensures var next := Apply(crcFile, dev, e).dev;
            && next.name == dev.name
            && (next.state == Running || next.state == FileTransfer ==>
                 dev.state == Running || dev.state == FileTransfer)
  {
    hide ActSending, LastDue, MarkDue;
    DeviceAccounts.SendingTouchesOnlyTransfer(dev, e.addr);
  }

  lemma {:induction false} TurnsAreWellNamed(
    crcFile: CrcFile, node: N.Node, h: Hub, below: nat, time: int, clock: byte -> int)
    requires WellNamed(h) && below <= 0x100
    ensures WellNamed(Turns(crcFile, node, h, below, time, clock))
  {
    var after := Turns(crcFile, node, h, below, time, clock);
    TurnsTouchEachOnce(crcFile, node, h, below, time, clock);
    forall u | u in after.devices
      ensures KnownBy(after.names, u, after.devices[u])
    {
      assert KnownBy(h.names, u, h.devices[u]);
      if u < below {
        TurnsAreTicks(crcFile, node, h, below, time, clock, u);
        var before := Turns(crcFile, node, h, u, time, clock);
        TickKeepsName(crcFile, h.devices[u], TurnOf(before, h.devices[u].name, time, clock(u)));
      }
      hide Apply, Turns;
    }
    hide Turns, KnownBy;
  }

  lemma NewRecordKeepsTable(names: map<Name, byte>, devices: map<byte, Device>, u: byte, dev: Device)
    requires Table(names, devices) && KnownBy(names, u, dev)
    ensures Table(names, devices[u := dev])
  {
  }

  lemma NewNameKeepsTable(names: map<Name, byte>, devices: map<byte, Device>, u: byte, dev: Device)
    requires Table(names, devices) && u in devices
    ensures Table(names[dev.name := u], devices[u := dev]) <==>
              dev.name != [] && forall v :: v in devices && v != u ==> devices[v].name != dev.name
  {
    var after := devices[u := dev];
    if dev.name != [] {
      if v :| v in devices && v != u && devices[v].name == dev.name {
        assert v in after && !KnownBy(names[dev.name := u], v, after[v]);
      }
    }
  }

  ghost function AnsweredDevice(dev: Device, op: Op): Device
    requires IsAnswer(op)
  {
    match op
    case AckFrom(_, number, code, now) => HandleAck(dev, number, code, now).0
    case InfoFrom(_, number, version, name) => HandleInfo(dev, number, version, name).0
    case BlobFrom(_, number, request, answer) => HandleBlob(dev, number, request, answer).0
    case HealthFrom(_, number, health, flags) => HandleHealth(dev, number, health, flags).0
  }

  // An answer that gives no name leaves the name, and puts no device in operation that was not.
  lemma StaysKnown(crcFile: CrcFile, h: Hub, op: Op)
    requires WellNamed(h) && IsAnswer(op) && op.from in h.devices
    requires op.InfoFrom? ==> !InfoAccepted(h.devices[op.from], op.number)
    ensures KnownBy(h.names, op.from, h.devices[op.from])
    ensures KnownBy(h.names, op.from, AnsweredDevice(h.devices[op.from], op))
  {
  }

  lemma AnswersAreWellNamed(crcFile: CrcFile, node: N.Node, h: Hub, op: Op)
    requires WellNamed(h) && IsAnswer(op)
    ensures WellNamed(Operate(crcFile, node, h, op)) <==> Allowed(h, op)
  {
    hide Tell, Turns, Table;
    var next := Operate(crcFile, node, h, op);
    if op.from in h.devices {
      var dev, after := h.devices[op.from], next.devices[op.from];
      if op.InfoFrom? && InfoAccepted(dev, op.number) {
        NewNameKeepsTable(h.names, h.devices, op.from, after);
      } else {
        StaysKnown(crcFile, h, op);
        NewRecordKeepsTable(h.names, h.devices, op.from, after);
      }
    } else if op.AckFrom? {
      NewRecordKeepsTable(h.names, h.devices, op.from, NEW_DEVICE);
    }
  }

  lemma CallsAreWellNamed(crcFile: CrcFile, node: N.Node, h: Hub, op: Op)
    requires WellNamed(h) && !IsAnswer(op) && !op.ProcessAt?
    ensures WellNamed(Operate(crcFile, node, h, op))
  {
    hide Tell, Turns, Initiate;
  }

  /**
    Names in the table lead to known devices, and the name a device goes by leads back to it: every operation
    keeps this if and only if it gives no device the name of another, or an empty one. Names once given up
    stay in the table.
  */
  lemma OperationsAreWellNamed(crcFile: CrcFile, node: N.Node, h: Hub, op: Op)
    requires WellNamed(h)
    ensures WellNamed(Operate(crcFile, node, h, op)) <==> Allowed(h, op)
  {
    hide WellNamed;
    if op.ProcessAt? {
      TurnsAreWellNamed(crcFile, node, h, 0x100, op.time, op.clock);
      hide Turns;
    } else if IsAnswer(op) {
      AnswersAreWellNamed(crcFile, node, h, op);
      hide Operate;
    } else {
      CallsAreWellNamed(crcFile, node, h, op);
      hide Operate;
    }
  }

  // No two devices go by the same name.
  lemma CurrentNamesAreUnique(h: Hub, u: byte, v: byte)
    requires WellNamed(h) && u in h.devices && v in h.devices && u != v && h.devices[u].name != []
    ensures h.devices[u].name != h.devices[v].name
  {
    assert KnownBy(h.names, u, h.devices[u]) && KnownBy(h.names, v, h.devices[v]);
  }

  ghost predicate LegalRun(crcFile: CrcFile, node: N.Node, firstNumber: byte, ops: seq<Op>) {
    ops != [] ==>
      && LegalRun(crcFile, node, firstNumber, ops[..|ops| - 1])
      && Allowed(HubAfter(crcFile, node, firstNumber, ops[..|ops| - 1]), ops[|ops| - 1])
  }

  lemma {:induction false} RunsAreWellNamed(crcFile: CrcFile, node: N.Node, firstNumber: byte, ops: seq<Op>)
    requires LegalRun(crcFile, node, firstNumber, ops)
    ensures WellNamed(HubAfter(crcFile, node, firstNumber, ops))
  {
    if ops != [] {
      var earlier := ops[..|ops| - 1];
      RunsAreWellNamed(crcFile, node, firstNumber, earlier);
      hide WellNamed, Operate, Allowed;
      OperationsAreWellNamed(crcFile, node, HubAfter(crcFile, node, firstNumber, earlier), ops[|ops| - 1]);
    }
  }

  // What a device's turn finds is its own address, if it is in operation.
  lemma TurnIsAddressable(crcFile: CrcFile, node: N.Node, h: Hub, op: Op, u: byte)
    requires WellNamed(h) && u in h.devices && u != RESERVED_UID && op.ProcessAt?
    ensures var e := Seen(crcFile, node, h, op, u)[0];
            h.devices[u].state == Running || h.devices[u].state == FileTransfer ==> e.addr == u
  {
    TurnsTouchEachOnce(crcFile, node, h, u, op.time, op.clock);
    assert KnownBy(h.names, u, h.devices[u]);
    hide Turns;
  }

  lemma SendingGoesTo(dev: Device, u: byte)
    ensures ActSending(dev, u).to == u
  {
    hide NextChunk;
  }

  lemma GoesTo(crcFile: CrcFile, dev: Device, u: byte, temporaryUid: Option<byte>, number: byte, time: int, now: int)
    requires dev.state == Running || dev.state == FileTransfer
    ensures Tick(crcFile, dev, u, temporaryUid, number, time, now).to == u
  {
    hide ActSending, LastDue, MarkDue;
    SendingGoesTo(dev, u);
  }

  /** All a device in operation is sent on its turn goes to its own address. */
  lemma FramesGoHome(crcFile: CrcFile, node: N.Node, h: Hub, u: byte, time: int, now: int)
    requires WellNamed(h) && u in h.devices && u != RESERVED_UID
    requires h.devices[u].state == Running || h.devices[u].state == FileTransfer
    ensures var next := Turn(crcFile, node, h, u, time, now);
            next.traffic == h.traffic || exists body :: next.traffic == Initiate(node, h.traffic, u, body)
  {
    var dev := h.devices[u];
    assert KnownBy(h.names, u, dev);
    var t := Tick(crcFile, dev, u, h.temporaryUid, h.traffic.number, time, now);
    GoesTo(crcFile, dev, u, h.temporaryUid, h.traffic.number, time, now);
    hide Tick, Initiate, Tell, WellNamed;
    if t.sent.Some? {
      assert Turn(crcFile, node, h, u, time, now).traffic == Initiate(node, h.traffic, u, t.sent.value);
    }
  }

  lemma SeenIsAddressable(crcFile: CrcFile, node: N.Node, h: Hub, op: Op, u: byte, q: DeviceAccounts.Queue)
    requires WellNamed(h) && u in h.devices && u != RESERVED_UID
    ensures var seen := Seen(crcFile, node, h, op, u);
            seen != [] ==> DeviceAccounts.Addressable(h.devices[u], q, seen[0])
  {
    if op.ProcessAt? {
      TurnIsAddressable(crcFile, node, h, op, u);
    }
    hide Turns, WellNamed;
  }

  lemma {:induction false} HistoryIsAddressable(
    crcFile: CrcFile, node: N.Node, firstNumber: byte, ops: seq<Op>, u: byte, q: DeviceAccounts.Queue)
    requires LegalRun(crcFile, node, firstNumber, ops) && u != RESERVED_UID
    ensures DeviceAccounts.AlwaysAddressable(crcFile, NEW_DEVICE, q, History(crcFile, node, firstNumber, ops, u))
  {
    if ops != [] {
      var earlier, op := ops[..|ops| - 1], ops[|ops| - 1];
      var before := HubAfter(crcFile, node, firstNumber, earlier);
      HistoryIsAddressable(crcFile, node, firstNumber, earlier, u, q);
      if u in before.devices {
        var run, seen := History(crcFile, node, firstNumber, earlier, u), Seen(crcFile, node, before, op, u);
        RunsAreWellNamed(crcFile, node, firstNumber, earlier);
        DevicesLiveAlone(crcFile, node, firstNumber, earlier, u);
        SeenOnce(crcFile, node, before, op, u);
        SeenIsAddressable(crcFile, node, before, op, u, q);
        hide Seen, Operate, Final, WellNamed;
        if seen == [] {
          assert run + seen == run;
        } else {
          assert (run + seen)[..|run|] == run && (run + seen)[|run|] == seen[0];
        }
      }
    }
  }

  /**
    In every legal run of the hub, the commands and requests a device was to get are, in order, those sent and
    those queued.
  */
  lemma HubQueuesAreConserved(
    crcFile: CrcFile, node: N.Node, firstNumber: byte, ops: seq<Op>, u: byte, q: DeviceAccounts.Queue)
    requires LegalRun(crcFile, node, firstNumber, ops) && u != RESERVED_UID
    requires u in HubAfter(crcFile, node, firstNumber, ops).devices
    ensures var seen := History(crcFile, node, firstNumber, ops, u);
            var dev := HubAfter(crcFile, node, firstNumber, ops).devices[u];
            DeviceAccounts.All(crcFile, DeviceAccounts.Accepted, NEW_DEVICE, q, seen)
            == DeviceAccounts.All(crcFile, DeviceAccounts.Sent, NEW_DEVICE, q, seen) + DeviceAccounts.QueueOf(dev, q)
  {
    DevicesLiveAlone(crcFile, node, firstNumber, ops, u);
    HistoryIsAddressable(crcFile, node, firstNumber, ops, u, q);
    DeviceAccounts.QueuesReachTheWire(crcFile, q, History(crcFile, node, firstNumber, ops, u));
  }

  // ----- what the hub receives -----

  // The operation a received message is to the hub's devices, if the hub has a handler of its own for it.
  ghost function AnswerOp(m: Message, now: int): Option<Op> {
    match m.body
    case Ack(code) => Some(AckFrom(m.transmitter, m.number, code, now))
    case BlobAnswer(request, data) => Some(BlobFrom(m.transmitter, m.number, request, data))
    case DeviceInfoAnw(version, name) => Some(InfoFrom(m.transmitter, m.number, version, name))
    case HealthAnw(health, flags) => Some(HealthFrom(m.transmitter, m.number, health, flags))
    case _ => None
  }

  lemma OthersInitiateNothing(crcFile: CrcFile, node: N.Node, h: Hub, op: Op)
    requires IsAnswer(op) || IsCall(op) || op.Observe?
    ensures Operate(crcFile, node, h, op).traffic == h.traffic
  {
    hide Turns, Tell, HandleAck, HandleInfo, HandleBlob, HandleHealth;
  }

  // At most one frame more, and no new number.
  ghost predicate AtMostReplied(before: N.Traffic, after: N.Traffic) {
    && after.number == before.number
    && before.wire <= after.wire && |after.wire| <= |before.wire| + 1
  }

  lemma ReceivedByHandler(
    crcFile: CrcFile, node: N.Node, verdict: seq<(Name, Report)> -> byte, h: Hub, m: Message, now: int)
    requires N.Addressed(node, m.receiver) && AnswerOp(m, now).Some?
    ensures var next, after := Received(node, verdict, h, m, now), Operate(crcFile, node, h, AnswerOp(m, now).value);
            next == after || exists code :: next == Replied(node, after, m.transmitter, m.number, code)
  {
    hide OnAck, OnInfo, OnBlob, OnHealth, Replied, BlobCode, Turns;
    var next, after := Received(node, verdict, h, m, now), Operate(crcFile, node, h, AnswerOp(m, now).value);
    if m.body.BlobAnswer? {
      assert next == Replied(node, after, m.transmitter, m.number,
        BlobCode(verdict, h, m.transmitter, m.number, after));
    } else if !m.body.Ack? {
      assert next == Replied(node, after, m.transmitter, m.number, OK);
    }
  }

  lemma ReplyIsOneFrame(node: N.Node, h: Hub, to: byte, number: byte, code: byte)
    ensures var next := Replied(node, h, to, number, code);
            AtMostReplied(h.traffic, next.traffic) && next.(traffic := h.traffic) == h
  {
  }

  lemma DeliveryIsOneFrame(node: N.Node, t: N.Traffic, m: Message)
    ensures AtMostReplied(t, N.Deliver(node, t, m))
  {
    hide N.Reply;
  }

  lemma NothingIsAtMost(t: N.Traffic)
    ensures AtMostReplied(t, t)
  {
  }

  /**
    Whatever the hub receives is to its devices one answer or nothing; and it never advances the message
    counter, nor writes more than one frame.
  */
  lemma ReceivedIsAnAnswer(
    crcFile: CrcFile, node: N.Node, verdict: seq<(Name, Report)> -> byte, h: Hub, m: Message, now: int)
    ensures var next, op := Received(node, verdict, h, m, now), AnswerOp(m, now);
            && AtMostReplied(h.traffic, next.traffic)
            && next.(traffic := h.traffic)
               == if N.Addressed(node, m.receiver) && op.Some? then Operate(crcFile, node, h, op.value) else h
  {
    hide Operate, AtMostReplied, N.Deliver, Replied, OnAck, OnInfo, OnBlob, OnHealth, BlobCode;
    var t := h.traffic;
    NothingIsAtMost(t);
    if N.Addressed(node, m.receiver) {
      var op := AnswerOp(m, now);
      if op.Some? {
        var next, after := Received(node, verdict, h, m, now), Operate(crcFile, node, h, op.value);
        ReceivedByHandler(crcFile, node, verdict, h, m, now);
        OthersInitiateNothing(crcFile, node, h, op.value);
        if next != after {
          var code :| next == Replied(node, after, m.transmitter, m.number, code);
          ReplyIsOneFrame(node, after, m.transmitter, m.number, code);
        }
      } else {
        DeliveryIsOneFrame(node, t, m);
      }
    }
  }
}
