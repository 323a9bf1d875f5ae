/**
  The timing assumption behind coherence, exactly: the hub reads its clock separately from the time
  `process` is given, and the least lateness of that reading breaks the invariant in a legal run.
*/
module HubClock {
  import opened Bytes
  import opened Messages
  import opened DeviceSpec
  import opened DeviceRuns
  import opened HubSpec
  import opened HubRuns
  import N = NodeSpec
  import T = DeviceTransfer

  // No clock reading inside `process` is more than `lag` later than the time of the call.
  ghost predicate ReadsWithin(op: Op, lag: int) {
    op.ProcessAt? ==> forall u: byte :: op.clock(u) <= op.time + lag
  }

  // A reading the operation takes of the hub's clock.
  ghost predicate Reads(op: Op, reading: int) {
    match op
    case AckFrom(_, _, _, now) => reading == now
    case ProcessAt(_, clock) => exists u: byte :: clock(u) == reading
    case _ => false
  }

  ghost predicate NotAfter(a: Op, b: Op) {
    && (a.ProcessAt? && b.ProcessAt? ==> a.time <= b.time)
    && (forall r, q :: Reads(a, r) && Reads(b, q) ==> r <= q)
  }

  ghost predicate SteadyWithin(op: Op) {
    op.ProcessAt? ==> forall u: byte, v: byte :: u <= v ==> op.clock(u) <= op.clock(v)
  }

  // Neither the caller's clock nor the hub's ever goes back.
  ghost predicate Steady(ops: seq<Op>) {
    && (forall i, j :: 0 <= i < j < |ops| ==> NotAfter(ops[i], ops[j]))
    && (forall i :: 0 <= i < |ops| ==> SteadyWithin(ops[i]))
  }

  // All that happened, happened up to `at` by the caller's clock, `at + lag` by the hub's.
  ghost predicate UpTo(op: Op, at: int, lag: int) {
    (op.ProcessAt? ==> op.time <= at) && forall r :: Reads(op, r) ==> r <= at + lag
  }

  // The same from `at` on.
  ghost predicate From(op: Op, at: int, lag: int) {
    && (op.ProcessAt? ==> at <= op.time) && (forall r :: Reads(op, r) ==> at + lag <= r)
    && SteadyWithin(op)
  }

  // A legal run on clocks that never go back, the hub's late by at most `lag`.
  ghost predicate SteadyRun(crcFile: CrcFile, node: N.Node, first: byte, lag: int, ops: seq<Op>) {
    LegalRun(crcFile, node, first, ops) && Steady(ops) && forall op :: op in ops ==> ReadsWithin(op, lag)
  }

  // The hubs that such runs arrive at by the time `at`.
  ghost predicate Reached(crcFile: CrcFile, node: N.Node, first: byte, lag: int, at: int, h: Hub) {
    exists ops ::
      && SteadyRun(crcFile, node, first, lag, ops) && (forall op :: op in ops ==> UpTo(op, at, lag))
      && HubAfter(crcFile, node, first, ops) == h
  }

  lemma EmptyIsReached(crcFile: CrcFile, node: N.Node, first: byte, lag: int, at: int)
    ensures Reached(crcFile, node, first, lag, at, EmptyHub(first))
  {
    assert SteadyRun(crcFile, node, first, lag, []) && HubAfter(crcFile, node, first, []) == EmptyHub(first);
  }

  lemma SteadyOn(ops: seq<Op>, op: Op, at: int, lag: int)
    requires Steady(ops) && (forall o :: o in ops ==> UpTo(o, at, lag)) && From(op, at, lag)
    ensures Steady(ops + [op])
  {
    forall i, j | 0 <= i < j < |ops + [op]|
      ensures NotAfter((ops + [op])[i], (ops + [op])[j])
    {
      if j == |ops| {
        assert UpTo(ops[i], at, lag);
      }
    }
    hide NotAfter, SteadyWithin, Reads;
  }

  lemma SteadyRunOn(crcFile: CrcFile, node: N.Node, first: byte, lag: int, at: int, ops: seq<Op>, op: Op)
    requires SteadyRun(crcFile, node, first, lag, ops) && (forall o :: o in ops ==> UpTo(o, at, lag))
    requires Allowed(HubAfter(crcFile, node, first, ops), op) && ReadsWithin(op, lag) && From(op, at, lag)
    ensures SteadyRun(crcFile, node, first, lag, ops + [op])
    ensures HubAfter(crcFile, node, first, ops + [op])
            == Operate(crcFile, node, HubAfter(crcFile, node, first, ops), op)
  {
    hide Operate, Allowed, ReadsWithin, From, Steady, UpTo;
    SteadyOn(ops, op, at, lag);
    assert (ops + [op])[..|ops|] == ops;
  }

  lemma OneMoreOp(crcFile: CrcFile, node: N.Node, first: byte, lag: int, at: int, until: int, h: Hub, op: Op)
    requires Reached(crcFile, node, first, lag, at, h) && Allowed(h, op) && ReadsWithin(op, lag)
    requires at <= until && From(op, at, lag) && UpTo(op, until, lag)
    ensures Reached(crcFile, node, first, lag, until, Operate(crcFile, node, h, op))
  {
    hide Operate, Allowed, ReadsWithin, From, SteadyRun, HubAfter, Reads;
    var ops :|
      && SteadyRun(crcFile, node, first, lag, ops) && (forall o :: o in ops ==> UpTo(o, at, lag))
      && HubAfter(crcFile, node, first, ops) == h;
    SteadyRunOn(crcFile, node, first, lag, at, ops, op);
    forall o | o in ops + [op]
      ensures UpTo(o, until, lag)
    {
      assert o in ops ==> UpTo(o, at, lag);
    }
  }

  // ----- a hub with one device -----

  const NAME: Name := [0x41]

  ghost function Num(first: byte, i: nat): byte {
    (first + i) % 0x100
  }

  // Device 1 is all the hub has, and the hub has initiated i messages.
  ghost predicate On(h: Hub, first: byte, i: nat, dev: Device) {
    && h.devices == map[1 := dev] && h.traffic.number == Num(first, i)
    && h.names == (if dev.name == [] then map[] else map[NAME := 1])
    && dev.name in {[], NAME}
  }

  lemma {:induction false} OnlyItsTurn(
    crcFile: CrcFile, node: N.Node, h: Hub, dev: Device, below: nat, time: int, clock: byte -> int)
    requires h.devices == map[1 := dev] && below <= 0x100
    ensures Turns(crcFile, node, h, below, time, clock)
            == if below <= 1 then h else Turn(crcFile, node, h, 1, time, clock(1))
  {
    hide Tick, Tell, Initiate;
    if below > 0 {
      OnlyItsTurn(crcFile, node, h, dev, below - 1, time, clock);
    }
  }

  // One call of `process`, at `time` by the caller's clock and `lag` later by the hub's.
  ghost function At(time: int, lag: int): Op {
    ProcessAt(time, (u: byte) => time + lag)
  }

  ghost function TickOf(h: Hub, dev: Device, time: int, lag: int): Event {
    TurnOf(h, dev.name, time, time + lag)
  }

  lemma TurnOn(crcFile: CrcFile, node: N.Node, h: Hub, first: byte, i: nat, dev: Device, time: int, now: int)
    requires On(h, first, i, dev) && Apply(crcFile, dev, TurnOf(h, dev.name, time, now)).dev.name == dev.name
    ensures var o := Apply(crcFile, dev, TurnOf(h, dev.name, time, now));
            On(Turn(crcFile, node, h, 1, time, now), first, if o.sent == None then i else i + 1, o.dev)
  {
    hide Tick, Tell, N.Written;
  }

  lemma ProcessOn(
    crcFile: CrcFile, node: N.Node, first: byte, lag: int, at: int, h: Hub, i: nat, dev: Device, time: int)
    returns (next: Hub)
    requires Reached(crcFile, node, first, lag, at, h) && On(h, first, i, dev) && at <= time
    requires Apply(crcFile, dev, TickOf(h, dev, time, lag)).dev.name == dev.name
    ensures Reached(crcFile, node, first, lag, time, next) && next == Operate(crcFile, node, h, At(time, lag))
    ensures var o := Apply(crcFile, dev, TickOf(h, dev, time, lag));
            On(next, first, if o.sent == None then i else i + 1, o.dev)
  {
    hide Operate, Turns, Turn, Apply, Reached;
    var op := At(time, lag);
    next := Operate(crcFile, node, h, op);
    OneMoreOp(crcFile, node, first, lag, at, time, h, op);
    OperateTurns(crcFile, node, h, op);
    OnlyItsTurn(crcFile, node, h, dev, 0x100, time, op.clock);
    TurnOn(crcFile, node, h, first, i, dev, time, time + lag);
    hide On;
  }

  lemma AckIsOn(
    crcFile: CrcFile, node: N.Node, first: byte, h: Hub, i: nat, dev: Device, number: byte, now: int)
    requires On(h, first, i, dev) && HandleAck(dev, number, OK, now).0.name == dev.name
    ensures On(Operate(crcFile, node, h, AckFrom(1, number, OK, now)), first, i, HandleAck(dev, number, OK, now).0)
  {
    hide HandleAck, Tell, Turns;
  }

  // An acknowledgement at `time`; the hub takes it down under the reading of its own clock.
  lemma AckOn(
    crcFile: CrcFile, node: N.Node, first: byte, lag: int, at: int, h: Hub, i: nat, dev: Device, number: byte,
    time: int)
    returns (next: Hub)
    requires Reached(crcFile, node, first, lag, at, h) && On(h, first, i, dev) && at <= time
    requires HandleAck(dev, number, OK, time + lag).0.name == dev.name
    ensures Reached(crcFile, node, first, lag, time, next)
    ensures On(next, first, i, HandleAck(dev, number, OK, time + lag).0)
  {
    hide Reached, HandleAck, Operate, On;
    var op := AckFrom(1, number, OK, time + lag);
    next := Operate(crcFile, node, h, op);
    OneMoreOp(crcFile, node, first, lag, at, time, h, op);
    AckIsOn(crcFile, node, first, h, i, dev, number, time + lag);
  }

  lemma FileIsOn(crcFile: CrcFile, node: N.Node, first: byte, h: Hub, i: nat, dev: Device, data: seq<byte>)
    requires On(h, first, i, dev) && dev.name == NAME
    ensures On(Operate(crcFile, node, h, FileTo(NAME, 0, data, 1)), first, i, StartFile(dev, 0, data, 1))
  {
    hide Turns;
  }

  lemma FileOn(
    crcFile: CrcFile, node: N.Node, first: byte, lag: int, at: int, h: Hub, i: nat, dev: Device, data: seq<byte>)
    returns (next: Hub)
    requires Reached(crcFile, node, first, lag, at, h) && On(h, first, i, dev) && dev.name == NAME
    ensures Reached(crcFile, node, first, lag, at, next) && On(next, first, i, StartFile(dev, 0, data, 1))
  {
    hide Reached, Operate, On, StartFile;
    var op := FileTo(NAME, 0, data, 1);
    next := Operate(crcFile, node, h, op);
    OneMoreOp(crcFile, node, first, lag, at, at, h, op);
    FileIsOn(crcFile, node, first, h, i, dev, data);
  }

  // ----- discovery -----

  // A device that has given its name and has nothing to do.
  const IDLE: Device := NEW_DEVICE.(nextCall := 1000, name := NAME, state := Running)

  lemma ProbeSent(crcFile: CrcFile, node: N.Node, first: byte, lag: int) returns (h: Hub)
    ensures Reached(crcFile, node, first, lag, 0, h)
    ensures h.devices == map[] && h.names == map[] && h.traffic.number == Num(first, 1)
  {
    hide Reached, N.Written, Turns;
    EmptyIsReached(crcFile, node, first, lag, 0);
    h := Operate(crcFile, node, EmptyHub(first), SendAlso(1, Probe));
    OneMoreOp(crcFile, node, first, lag, 0, 0, EmptyHub(first), SendAlso(1, Probe));
  }

  lemma Found(crcFile: CrcFile, node: N.Node, first: byte, lag: int) returns (h: Hub)
    ensures Reached(crcFile, node, first, lag, 0, h) && On(h, first, 1, NEW_DEVICE)
  {
    hide Reached, Turns;
    var probed := ProbeSent(crcFile, node, first, lag);
    h := Operate(crcFile, node, probed, AckFrom(1, Num(first, 1), OK, lag));
    OneMoreOp(crcFile, node, first, lag, 0, 0, probed, AckFrom(1, Num(first, 1), OK, lag));
  }

  lemma InfoTick(crcFile: CrcFile, e: Event)
    requires e.TickAt? && e.time == 0 && e.now >= 0
    ensures var o := Apply(crcFile, NEW_DEVICE, e);
            && o.sent.Some?
            && o.dev == NEW_DEVICE.(nextCall := 1000,
                                    pending := Some(Pending((e.number + 1) % 0x100, DEVICE_INFO_REQ, e.now)))
  {
    hide ActRunning, ActTransfer;
  }

  lemma NameOn(crcFile: CrcFile, node: N.Node, first: byte, lag: int, h: Hub, dev: Device) returns (next: Hub)
    requires Reached(crcFile, node, first, lag, 0, h) && On(h, first, 2, dev)
    requires dev == NEW_DEVICE.(nextCall := 1000, pending := Some(Pending(Num(first, 2), DEVICE_INFO_REQ, lag)))
    ensures Reached(crcFile, node, first, lag, 0, next) && On(next, first, 2, IDLE)
  {
    var op := InfoFrom(1, Num(first, 2), NO_VERSION, NAME);
    next := Operate(crcFile, node, h, op);
    OneMoreOp(crcFile, node, first, lag, 0, 0, h, op);
    hide Reached, Turns, Tell;
  }

  lemma Registered(crcFile: CrcFile, node: N.Node, first: byte, lag: int) returns (h: Hub)
    requires lag > 0
    ensures Reached(crcFile, node, first, lag, 0, h) && On(h, first, 2, IDLE)
  {
    hide Reached, Apply, Operate;
    var found := Found(crcFile, node, first, lag);
    InfoTick(crcFile, TickOf(found, NEW_DEVICE, 0, lag));
    var asked := ProcessOn(crcFile, node, first, lag, 0, found, 1, NEW_DEVICE, 0);
    assert Num(first, 2) == (Num(first, 1) + 1) % 0x100;
    var dev := NEW_DEVICE.(nextCall := 1000, pending := Some(Pending(Num(first, 2), DEVICE_INFO_REQ, lag)));
    h := NameOn(crcFile, node, first, lag, asked, dev);
  }

  // ----- a chunk that outlives its transfer -----

  const FILE: Transfer := FRESH.(data := [7], chunkSize := 1)

  // Late by any amount, the hub has sent the chunk of a one-byte file as its message 4, and given up on it.
  ghost function ChunkLeft(first: byte, lag: int): Device {
    IDLE.(nextCall := 1350, lastAck := 1000 + lag,
          pending := Some(Pending(Num(first, 4), FILE_WRITE_CHUNK, 1050 + lag)))
  }

  // The two turns that give up, the second too early to time the chunk out.
  lemma GivingUp(crcFile: CrcFile, dev: Device, e: Event)
    requires InTransfer(dev, Sending) && !dev.transfer.firstPacket && dev.transfer.packetAck == None
             && dev.pending.Some?
    requires e.TickAt? && e.time == dev.nextCall && e.time - dev.pending.value.timestamp < 200
    ensures var o := Apply(crcFile, dev, e);
            o.sent == None && o.dev == dev.(nextCall := e.time + 100, transfer := dev.transfer.(state := Cancel))
  {
    hide ActRunning, NextChunk;
  }

  lemma GivenUp(crcFile: CrcFile, dev: Device, e: Event)
    requires InTransfer(dev, Cancel) && dev.pending.Some?
    requires e.TickAt? && e.time == dev.nextCall && e.time - dev.pending.value.timestamp < 200
    ensures var o := Apply(crcFile, dev, e);
            o.sent == None && o.dev == dev.(nextCall := e.time + 100, transfer := FRESH, state := Running)
  {
    hide ActRunning, ActSending;
  }

  lemma Requested(crcFile: CrcFile, node: N.Node, first: byte, lag: int) returns (h: Hub)
    requires lag > 0
    ensures Reached(crcFile, node, first, lag, 1000, h)
    ensures On(h, first, 3, IDLE.(nextCall := 1050, lastAck := 1000 + lag, state := FileTransfer,
                                  transfer := FILE.(state := Sending)))
  {
    hide Reached, Apply;
    var idle := Registered(crcFile, node, first, lag);
    var given := FileOn(crcFile, node, first, lag, 0, idle, 2, IDLE, [7]);
    var d1 := IDLE.(state := FileTransfer, transfer := FILE);
    assert StartFile(IDLE, 0, [7], 1) == d1;
    T.RequestGoesOut(crcFile, d1, TickOf(given, d1, 1000, lag));
    var asked := ProcessOn(crcFile, node, first, lag, 0, given, 2, d1, 1000);
    assert Num(first, 3) == (Num(first, 2) + 1) % 0x100;
    var d2 := d1.(nextCall := 1050, pending := Some(Pending(Num(first, 3), FILE_WRITE_REQUEST, 1000 + lag)));
    h := AckOn(crcFile, node, first, lag, 1000, asked, 3, d2, Num(first, 3), 1000);
  }

  /** A legal run with a clock late by any amount, after which a chunk is pending with no transfer under way. */
  lemma LateRunLeavesChunkPending(crcFile: CrcFile, node: N.Node, first: byte, lag: int) returns (h: Hub)
    requires lag > 0
    ensures Reached(crcFile, node, first, lag, 1250, h) && On(h, first, 4, ChunkLeft(first, lag))
  {
    hide Reached, Apply;
    var s0 := Requested(crcFile, node, first, lag);
    var d0 := IDLE.(nextCall := 1050, lastAck := 1000 + lag, state := FileTransfer,
                    transfer := FILE.(state := Sending));
    T.FirstChunkGoesOut(crcFile, d0, TickOf(s0, d0, 1050, lag));
    var s1 := ProcessOn(crcFile, node, first, lag, 1000, s0, 3, d0, 1050);
    assert Num(first, 4) == (Num(first, 3) + 1) % 0x100;
    var d1 := d0.(nextCall := 1150, transfer := d0.transfer.(firstPacket := false),
                  pending := Some(Pending(Num(first, 4), FILE_WRITE_CHUNK, 1050 + lag)));
    GivingUp(crcFile, d1, TickOf(s1, d1, 1150, lag));
    var s2 := ProcessOn(crcFile, node, first, lag, 1050, s1, 4, d1, 1150);
    var d2 := d1.(nextCall := 1250, transfer := d1.transfer.(state := Cancel));
    GivenUp(crcFile, d2, TickOf(s2, d2, 1250, lag));
    h := ProcessOn(crcFile, node, first, lag, 1150, s2, 4, d2, 1250);
  }

  // Such a run, and what is wrong with the device.
  lemma LateRun(crcFile: CrcFile, node: N.Node, first: byte, lag: int) returns (ops: seq<Op>)
    requires lag > 0
    ensures SteadyRun(crcFile, node, first, lag, ops)
    ensures var h := HubAfter(crcFile, node, first, ops);
            1 in h.devices && !Coherent(h.devices[1])
  {
    var h := LateRunLeavesChunkPending(crcFile, node, first, lag);
    assert 1 in h.devices && !Coherent(h.devices[1]);
    hide HubAfter, SteadyRun, On, Coherent;
    ops :| SteadyRun(crcFile, node, first, lag, ops) && (forall op :: op in ops ==> UpTo(op, 1250, lag))
           && HubAfter(crcFile, node, first, ops) == h;
  }

  // ----- exactly -----

  // In every legal run of the hub with readings so late at most, or in every such run on clocks that never go
  // back, every device is coherent.
  ghost predicate AlwaysCoherent(crcFile: CrcFile, node: N.Node, first: byte, lag: int) {
    forall ops, u ::
      && LegalRun(crcFile, node, first, ops) && (forall op :: op in ops ==> ReadsWithin(op, lag))
      && u in HubAfter(crcFile, node, first, ops).devices
      ==> Coherent(HubAfter(crcFile, node, first, ops).devices[u])
  }

  ghost predicate SteadilyCoherent(crcFile: CrcFile, node: N.Node, first: byte, lag: int) {
    forall ops, u ::
      SteadyRun(crcFile, node, first, lag, ops) && u in HubAfter(crcFile, node, first, ops).devices ==>
        Coherent(HubAfter(crcFile, node, first, ops).devices[u])
  }

  /**
    A hub is coherent in all its legal runs for exactly the clocks that are never late; and even on clocks that
    never go back, for no others.
  */
  lemma CoherenceNeedsTimelyClock(crcFile: CrcFile, node: N.Node, first: byte, lag: int)
    ensures AlwaysCoherent(crcFile, node, first, lag) <==> lag <= 0
    ensures SteadilyCoherent(crcFile, node, first, lag) <==> lag <= 0
  {
    hide HubAfter, LegalRun, Steady, Coherent;
    if lag <= 0 {
      forall ops, u | LegalRun(crcFile, node, first, ops) && (forall op :: op in ops ==> ReadsWithin(op, lag))
                      && u in HubAfter(crcFile, node, first, ops).devices
        ensures Coherent(HubAfter(crcFile, node, first, ops).devices[u])
      {
        HubsAreCoherent(crcFile, node, first, ops, u);
      }
    } else {
      var ops := LateRun(crcFile, node, first, lag);
    }
  }

  ghost predicate TicksWithin(run: seq<Event>, lag: int) {
    forall e :: e in run && e.TickAt? ==> e.now <= e.time + lag
  }

  lemma SeenWithin(crcFile: CrcFile, node: N.Node, h: Hub, op: Op, u: byte, lag: int)
    requires u in h.devices && ReadsWithin(op, lag)
    ensures TicksWithin(Seen(crcFile, node, h, op, u), lag)
  {
    hide Turns;
  }

  lemma {:induction false} HistoryWithin(crcFile: CrcFile, node: N.Node, first: byte, ops: seq<Op>, u: byte, lag: int)
    requires forall op :: op in ops ==> ReadsWithin(op, lag)
    ensures TicksWithin(History(crcFile, node, first, ops, u), lag)
  {
    if ops != [] {
      var earlier, op := ops[..|ops| - 1], ops[|ops| - 1];
      var before := HubAfter(crcFile, node, first, earlier);
      assert op in ops;
      HistoryWithin(crcFile, node, first, earlier, u, lag);
      if u in before.devices {
        SeenWithin(crcFile, node, before, op, u, lag);
      }
      hide Seen, ReadsWithin, Operate;
    }
  }

  /** For a single device too, in any environment: all runs are coherent for exactly the clocks that are never late. */
  lemma RunsNeedTimelyClock(crcFile: CrcFile, lag: int)
    ensures (forall run :: TicksWithin(run, lag) ==> Coherent(Final(crcFile, NEW_DEVICE, run))) <==> lag <= 0
  {
    if lag <= 0 {
      forall run | TicksWithin(run, lag)
        ensures Coherent(Final(crcFile, NEW_DEVICE, run))
      {
        RunsAreCoherent(crcFile, NEW_DEVICE, run);
      }
    } else {
      var node := N.Node(0, [], NO_VERSION, 0, 0, 300, (_: seq<N.Call>) => 0, (_: seq<N.Call>) => N.Return(0),
        (_: nat) => 0);
      var ops := LateRun(crcFile, node, 0, lag);
      DevicesLiveAlone(crcFile, node, 0, ops, 1);
      HistoryWithin(crcFile, node, 0, ops, 1, lag);
      hide HubAfter, History, LegalRun, Final, Coherent;
    }
  }

  // ----- what it costs -----

  // A new file has been accepted, and the acknowledgement of the old chunk has arrived.
  ghost function StaleAckTaken(lag: int): Device {
    IDLE.(nextCall := 1350, lastAck := 1300 + lag, state := FileTransfer,
          transfer := FRESH.(data := [9], chunkSize := 1, packetAck := Some(OK)))
  }

  lemma StaleAckArrives(crcFile: CrcFile, node: N.Node, first: byte, lag: int) returns (h: Hub)
    requires lag > 0
    ensures Reached(crcFile, node, first, lag, 1300, h) && On(h, first, 4, StaleAckTaken(lag))
  {
    hide Reached, Apply;
    var s0 := LateRunLeavesChunkPending(crcFile, node, first, lag);
    var d0 := ChunkLeft(first, lag);
    var s1 := FileOn(crcFile, node, first, lag, 1250, s0, 4, d0, [9]);
    var d1 := d0.(state := FileTransfer, transfer := FRESH.(data := [9], chunkSize := 1));
    assert StartFile(d0, 0, [9], 1) == d1;
    h := AckOn(crcFile, node, first, lag, 1250, s1, 4, d1, Num(first, 4), 1300);
    assert HandleAck(d1, Num(first, 4), OK, 1300 + lag).0 == StaleAckTaken(lag);
  }

  // Then its request has been accepted, too.
  ghost function StaleAckKept(lag: int): Device {
    var dev := StaleAckTaken(lag);
    dev.(nextCall := 1400, lastAck := 1360 + lag, transfer := dev.transfer.(state := Sending))
  }

  lemma SecondFileKeepsStaleAck(crcFile: CrcFile, node: N.Node, first: byte, lag: int) returns (h: Hub)
    requires lag > 0
    ensures Reached(crcFile, node, first, lag, 1360, h) && On(h, first, 5, StaleAckKept(lag))
  {
    hide Reached, Apply;
    var s0 := StaleAckArrives(crcFile, node, first, lag);
    var d0 := StaleAckTaken(lag);
    T.RequestGoesOut(crcFile, d0, TickOf(s0, d0, 1350, lag));
    var s1 := ProcessOn(crcFile, node, first, lag, 1300, s0, 4, d0, 1350);
    assert Num(first, 5) == (Num(first, 4) + 1) % 0x100;
    var d1 := d0.(nextCall := 1400, pending := Some(Pending(Num(first, 5), FILE_WRITE_REQUEST, 1350 + lag)));
    h := AckOn(crcFile, node, first, lag, 1350, s1, 5, d1, Num(first, 5), 1360);
  }

  lemma StaleAckTick(crcFile: CrcFile, dev: Device, e: Event)
    requires InTransfer(dev, Sending) && !dev.transfer.firstPacket && dev.transfer.packetAck == Some(OK)
    requires dev.transfer.data == [9] && dev.transfer.sentOffset == 0 && dev.transfer.chunkSize == 1
    requires dev.pending.Some? && e.TickAt? && e.time == dev.nextCall && e.time - dev.pending.value.timestamp < 200
    ensures var o := Apply(crcFile, dev, e);
            && o.sent == None && o.dev.name == dev.name
            && InTransfer(o.dev, Finalize) && o.dev.transfer.sentOffset == 1 && o.dev.transfer.data == [9]
  {
    assert NextChunk(dev.transfer) == [9];
    hide ActRunning, NextChunk;
  }

  /**
    What a late clock costs, in a legal run of a hub with one device. A new transfer is open and its first
    chunk not yet sent; two calls of `process` later, with nothing received in between, its one-byte file
    counts as confirmed: by the acknowledgement of a chunk of the transfer before.
  */
  lemma StaleAckLeaks(crcFile: CrcFile, node: N.Node, first: byte, lag: int) returns (h: Hub)
    requires lag > 0
    ensures Reached(crcFile, node, first, lag, 1360, h) && 1 in h.devices
    ensures InTransfer(h.devices[1], Sending) && h.devices[1].transfer.firstPacket
    ensures var after := Operate(crcFile, node, Operate(crcFile, node, h, At(1400, lag)), At(1500, lag));
            && Reached(crcFile, node, first, lag, 1500, after) && 1 in after.devices
            && InTransfer(after.devices[1], Finalize)
            && after.devices[1].transfer.sentOffset == |after.devices[1].transfer.data| == 1
  {
    hide Reached, Apply, Operate;
    h := SecondFileKeepsStaleAck(crcFile, node, first, lag);
    var d0 := StaleAckKept(lag);
    T.FirstChunkGoesOut(crcFile, d0, TickOf(h, d0, 1400, lag));
    var s1 := ProcessOn(crcFile, node, first, lag, 1360, h, 5, d0, 1400);
    assert Num(first, 6) == (Num(first, 5) + 1) % 0x100;
    var d1 := d0.(nextCall := 1500, transfer := d0.transfer.(firstPacket := false),
                  pending := Some(Pending(Num(first, 6), FILE_WRITE_CHUNK, 1400 + lag)));
    StaleAckTick(crcFile, d1, TickOf(s1, d1, 1500, lag));
    var s2 := ProcessOn(crcFile, node, first, lag, 1400, s1, 6, d1, 1500);
  }
}
