/**
  How devices come, and come back: a device just found is asked for its name at its own number, and from any hub a
  lost device can be brought back by no more than passes of `process` and answers to frames it was really sent.
*/
module HubRecovery {
  import opened Bytes
  import opened Messages
  import opened DeviceSpec
  import opened DeviceRuns
  import opened HubSpec
  import opened HubRuns
  import DeviceTurns
  import F = HubFrames
  import N = NodeSpec

  // ----- runs from any hub -----

  ghost function RunFrom(crcFile: CrcFile, node: N.Node, h: Hub, ops: seq<Op>): Hub {
    if ops == [] then h
    else Operate(crcFile, node, RunFrom(crcFile, node, h, ops[..|ops| - 1]), ops[|ops| - 1])
  }

  ghost predicate Asks(m: Message, u: byte, answer: Op)
    requires IsAnswer(answer)
  {
    && (m.receiver == u || m.receiver == 0xFF) && m.number == answer.number
    && (answer.AckFrom? ==> m.body == Probe) && (answer.InfoFrom? ==> m.body == DeviceInfoReq)
    && (answer.AckFrom? || answer.InfoFrom?)
  }

  // A frame for device u, or for everyone, is on the wire with this number, and is of the kind such an answer is to.
  ghost predicate IsAsked(crcFile: CrcFile, node: N.Node, before: Hub, pass: Op, u: byte, answer: Op) {
    && IsAnswer(answer) && answer.from == u
    && exists m :: m in F.Sent(crcFile, node, before, pass) && Asks(m, u, answer)
  }

  // The operation is allowed after these, on a timely clock; it is a pass, or an answer of device u to a frame
  // of the pass before.
  ghost predicate Follows(crcFile: CrcFile, node: N.Node, h: Hub, u: byte, ops: seq<Op>, op: Op) {
    && Allowed(RunFrom(crcFile, node, h, ops), op) && OnTime(op)
    && if op.ProcessAt? then true
       else
         && ops != []
         && IsAsked(crcFile, node, RunFrom(crcFile, node, h, ops[..|ops| - 1]), ops[|ops| - 1], u, op)
  }

  ghost predicate IsRecovery(crcFile: CrcFile, node: N.Node, h: Hub, u: byte, ops: seq<Op>) {
    ops != [] ==>
      && IsRecovery(crcFile, node, h, u, ops[..|ops| - 1])
      && Follows(crcFile, node, h, u, ops[..|ops| - 1], ops[|ops| - 1])
  }

  lemma OneMore(crcFile: CrcFile, node: N.Node, h: Hub, u: byte, ops: seq<Op>, op: Op)
    requires IsRecovery(crcFile, node, h, u, ops) && Follows(crcFile, node, h, u, ops, op)
    ensures IsRecovery(crcFile, node, h, u, ops + [op])
    ensures RunFrom(crcFile, node, h, ops + [op]) == Operate(crcFile, node, RunFrom(crcFile, node, h, ops), op)
  {
    hide Follows, Operate;
    assert (ops + [op])[..|ops|] == ops;
  }

  // ----- one pass -----

  ghost function At(time: int): Op {
    ProcessAt(time, (v: byte) => time)
  }

  ghost function TickOf(crcFile: CrcFile, node: N.Node, h: Hub, u: byte, time: int): Ticked
    requires u in h.devices
  {
    var before := Turns(crcFile, node, h, u, time, (v: byte) => time);
    Tick(crcFile, h.devices[u], Address(before.names, h.devices[u].name), before.temporaryUid, before.traffic.number,
         time, time)
  }

  lemma {:induction false} TurnIsInPass(
    crcFile: CrcFile, node: N.Node, h: Hub, below: nat, time: int, clock: byte -> int, u: byte)
    requires below <= 0x100 && u < below && u in h.devices
    ensures var before := Turns(crcFile, node, h, u, time, clock);
            && u in before.devices
            && forall m :: m in F.SentInTurn(crcFile, node, before, u, time, clock(u)) ==>
                 m in F.SentInTurns(crcFile, node, h, below, time, clock)
  {
    hide Turn, F.SentInTurn;
    TurnsTouchEachOnce(crcFile, node, h, u, time, clock);
    if u < below - 1 {
      TurnIsInPass(crcFile, node, h, below - 1, time, clock, u);
    }
  }

  lemma TickNumbers(crcFile: CrcFile, node: N.Node, h: Hub, u: byte, time: int)
    requires u in h.devices
    ensures var t := TickOf(crcFile, node, h, u, time);
            t.sent.Some? ==>
              t.number == (Turns(crcFile, node, h, u, time, (v: byte) => time).traffic.number + 1) % 0x100
  {
    hide Turns, ActOn;
  }

  lemma PassChanges(crcFile: CrcFile, node: N.Node, h: Hub, u: byte, time: int)
    requires u in h.devices
    ensures var next := Operate(crcFile, node, h, At(time));
            && u in next.devices && next.devices[u] == TickOf(crcFile, node, h, u, time).dev && next.names == h.names
            && Turns(crcFile, node, h, u, time, (v: byte) => time).names == h.names
  {
    var op := At(time);
    TurnsTouchEachOnce(crcFile, node, h, u, time, op.clock);
    TurnsTouchEachOnce(crcFile, node, h, 0x100, time, op.clock);
    TurnsAreTicks(crcFile, node, h, 0x100, time, op.clock, u);
    OperateTurns(crcFile, node, h, op);
    hide Turns, Tick, Operate;
  }

  lemma TurnSends(crcFile: CrcFile, node: N.Node, h: Hub, u: byte, time: int)
    requires u in h.devices && TickOf(crcFile, node, h, u, time).sent.Some?
    ensures var before, t := Turns(crcFile, node, h, u, time, (v: byte) => time), TickOf(crcFile, node, h, u, time);
            && u in before.devices
            && F.SentInTurn(crcFile, node, before, u, time, time)
               == [Message(t.to, node.uid, t.number, t.sent.value)]
  {
    TurnsTouchEachOnce(crcFile, node, h, u, time, (v: byte) => time);
    TickNumbers(crcFile, node, h, u, time);
    hide Turns, Tick;
  }

  // What the device's turn sends is among the messages of the pass.
  lemma PassSends(crcFile: CrcFile, node: N.Node, h: Hub, u: byte, time: int) returns (m: Message)
    requires u in h.devices && TickOf(crcFile, node, h, u, time).sent.Some?
    ensures var t := TickOf(crcFile, node, h, u, time);
            && m in F.Sent(crcFile, node, h, At(time))
            && m.receiver == t.to && m.body == t.sent.value && m.number == t.number
  {
    hide Turns, Tick, TickOf, F.SentInTurns, F.SentInTurn;
    TurnSends(crcFile, node, h, u, time);
    TurnIsInPass(crcFile, node, h, 0x100, time, At(time).clock, u);
    var t := TickOf(crcFile, node, h, u, time);
    m := Message(t.to, node.uid, t.number, t.sent.value);
  }

  // A name nobody else goes by stays so in a pass.
  lemma PassKeepsFree(crcFile: CrcFile, node: N.Node, h: Hub, u: byte, time: int, name: Name)
    requires NameIsFree(h, u, name)
    ensures NameIsFree(Operate(crcFile, node, h, At(time)), u, name)
  {
    var op := At(time);
    var next := Operate(crcFile, node, h, op);
    TurnsTouchEachOnce(crcFile, node, h, 0x100, time, op.clock);
    OperateTurns(crcFile, node, h, op);
    forall v | v in next.devices && v != u
      ensures next.devices[v].name != name
    {
      TurnsAreTicks(crcFile, node, h, 0x100, time, op.clock, v);
      TickKeepsName(crcFile, h.devices[v],
        TurnOf(Turns(crcFile, node, h, v, time, op.clock), h.devices[v].name, time, op.clock(v)));
      hide Turns, Apply, Operate;
    }
    hide Turns, Operate;
  }

  // ----- the device found last -----

  // A turn of a device asked for its name uses up the number of the device found last; no other turn does.
  lemma {:induction false} NobodyFound(
    crcFile: CrcFile, node: N.Node, h: Hub, below: nat, time: int, clock: byte -> int)
    requires below <= 0x100 && h.temporaryUid == None
    ensures Turns(crcFile, node, h, below, time, clock).temporaryUid == None
  {
    if below > 0 {
      NobodyFound(crcFile, node, h, below - 1, time, clock);
    }
    hide Tick, Tell, Initiate;
  }

  lemma {:induction false} FoundLastIsUsed(
    crcFile: CrcFile, node: N.Node, h: Hub, below: nat, time: int, clock: byte -> int, u: byte)
    requires below <= 0x100 && u < below && u in h.devices
    requires h.temporaryUid == None || (h.devices[u].state == InfoRequest && h.devices[u].nextCall <= time)
    ensures Turns(crcFile, node, h, below, time, clock).temporaryUid == None
  {
    if u < below - 1 {
      FoundLastIsUsed(crcFile, node, h, below - 1, time, clock, u);
    } else {
      TurnsTouchEachOnce(crcFile, node, h, u, time, clock);
      if h.temporaryUid == None {
        NobodyFound(crcFile, node, h, u, time, clock);
      }
    }
    hide Tick, Tell, Initiate;
  }

  // ----- who is asked -----

  ghost predicate IsDueQuestion(h: Hub, v: byte, time: int) {
    v in h.devices && h.devices[v].state == InfoRequest && h.devices[v].nextCall <= time
  }

  lemma {:induction false} NobodyAsked(
    crcFile: CrcFile, node: N.Node, h: Hub, below: nat, time: int, clock: byte -> int)
    requires below <= 0x100
    requires forall v: byte :: v < below ==> !IsDueQuestion(h, v, time)
    ensures Turns(crcFile, node, h, below, time, clock).temporaryUid == h.temporaryUid
  {
    if below > 0 {
      NobodyAsked(crcFile, node, h, below - 1, time, clock);
      TurnsTouchEachOnce(crcFile, node, h, below - 1, time, clock);
      assert below - 1 in h.devices ==> !IsDueQuestion(h, below - 1, time);
    }
    hide Tick, Tell, Initiate;
  }

  // Once a device below has been asked for its name, none counts as found last.
  lemma FoundLastAt(crcFile: CrcFile, node: N.Node, h: Hub, below: nat, time: int, clock: byte -> int)
    requires below <= 0x100
    ensures Turns(crcFile, node, h, below, time, clock).temporaryUid
            == if exists v: byte :: v < below && IsDueQuestion(h, v, time) then None else h.temporaryUid
  {
    if v: byte :| v < below && IsDueQuestion(h, v, time) {
      FoundLastIsUsed(crcFile, node, h, below, time, clock, v);
    } else {
      NobodyAsked(crcFile, node, h, below, time, clock);
    }
    hide Turns;
  }

  /**
    The question a device's turn puts, and to whom: that of the lowest number due goes to the device found last, if
    any, and every other one to the address the device's name leads to.
  */
  lemma QuestionGoesTo(crcFile: CrcFile, node: N.Node, h: Hub, u: byte, time: int) returns (m: Message)
    requires IsDueQuestion(h, u, time)
    ensures m in F.Sent(crcFile, node, h, At(time)) && m.body == DeviceInfoReq
    ensures m.receiver == if h.temporaryUid.Some? && forall v: byte :: v < u ==> !IsDueQuestion(h, v, time)
                          then h.temporaryUid.value
                          else if h.devices[u].name in h.names then h.names[h.devices[u].name] else 0xFF
    ensures var next := Operate(crcFile, node, h, At(time));
            && u in next.devices
            && next.devices[u]
               == h.devices[u].(nextCall := time + 1000, pending := Some(Pending(m.number, 5, time)))
  {
    var dev := h.devices[u];
    FoundLastAt(crcFile, node, h, u, time, At(time).clock);
    PassChanges(crcFile, node, h, u, time);
    var before := Turns(crcFile, node, h, u, time, (v: byte) => time);
    DeviceTurns.DiscoveryTurns(crcFile, dev, Address(h.names, dev.name), before.temporaryUid, before.traffic.number,
      time, time);
    hide Operate, Turns, Tick, F.Sent;
    m := PassSends(crcFile, node, h, u, time);
  }

  lemma FoundOne(crcFile: CrcFile, node: N.Node, h: Hub, op: Op)
    requires op.AckFrom? && op.from !in h.devices
    ensures Operate(crcFile, node, h, op)
            == h.(devices := h.devices[op.from := NEW_DEVICE], temporaryUid := Some(op.from))
  {
    hide Turns;
  }

  /**
    A device just found, while no other is being asked for its name: the next pass writes it the question for its
    name, to its own number.
  */
  lemma FoundDeviceIsAsked(
    crcFile: CrcFile, node: N.Node, h: Hub, u: byte, number: byte, code: byte, now: int, time: int)
    returns (m: Message)
    requires u !in h.devices && time >= 0
    requires forall v :: v in h.devices ==> h.devices[v].state != InfoRequest
    ensures m in F.Sent(crcFile, node, Operate(crcFile, node, h, AckFrom(u, number, code, now)), At(time))
    ensures m.receiver == u && m.body == DeviceInfoReq
  {
    var found := Operate(crcFile, node, h, AckFrom(u, number, code, now));
    FoundOne(crcFile, node, h, AckFrom(u, number, code, now));
    hide Operate, F.Sent;
    m := QuestionGoesTo(crcFile, node, found, u, time);
  }

  // Acknowledgements of devices not known yet, each of another one.
  ghost predicate IsFinding(h: Hub, ops: seq<Op>) {
    && (forall i :: 0 <= i < |ops| ==> ops[i].AckFrom? && ops[i].from !in h.devices)
    && (forall i, j :: 0 <= i < j < |ops| ==> ops[i].from != ops[j].from)
  }

  lemma {:induction false} FoundAre(crcFile: CrcFile, node: N.Node, h: Hub, ops: seq<Op>)
    requires IsFinding(h, ops)
    ensures var found := RunFrom(crcFile, node, h, ops);
            && found.names == h.names
            && found.temporaryUid == (if ops == [] then h.temporaryUid else Some(ops[|ops| - 1].from))
            && (forall v :: v in found.devices <==>
                  v in h.devices || exists i :: 0 <= i < |ops| && ops[i].from == v)
            && (forall v :: v in h.devices ==> found.devices[v] == h.devices[v])
            && (forall v :: v in found.devices && v !in h.devices ==> found.devices[v] == NEW_DEVICE)
  {
    hide Operate;
    if ops != [] {
      var earlier := ops[..|ops| - 1];
      FoundAre(crcFile, node, h, earlier);
      FoundOne(crcFile, node, RunFrom(crcFile, node, h, earlier), ops[|ops| - 1]);
    }
  }

  /**
    Any number of devices found between two passes, while no other is being asked for its name. The next pass puts a
    question for each of them, under the number its record awaits; but it goes to that device's own number only if
    the device is both the lowest of them and the one found last. The lowest one's question goes to the one
    found last, and everybody else's to everyone.
  */
  lemma FoundTogether(crcFile: CrcFile, node: N.Node, h: Hub, ops: seq<Op>, k: nat, time: int)
    returns (m: Message)
    requires [] !in h.names && IsFinding(h, ops) && k < |ops| && time >= 0
    requires forall v :: v in h.devices ==> h.devices[v].state != InfoRequest
    ensures var u, found := ops[k].from, RunFrom(crcFile, node, h, ops);
            var next := Operate(crcFile, node, found, At(time));
            var lowest := forall i :: 0 <= i < |ops| ==> u <= ops[i].from;
            && m in F.Sent(crcFile, node, found, At(time)) && m.body == DeviceInfoReq
            && m.receiver == (if lowest then ops[|ops| - 1].from else 0xFF)
            && u in next.devices && next.devices[u].pending == Some(Pending(m.number, 5, time))
            && (u != 0xFF ==> (m.receiver == u <==> lowest && k == |ops| - 1))
  {
    var u, found := ops[k].from, RunFrom(crcFile, node, h, ops);
    FoundAre(crcFile, node, h, ops);
    hide RunFrom, Operate, F.Sent;
    assert IsDueQuestion(found, u, time);
    forall i | 0 <= i < |ops|
      ensures IsDueQuestion(found, ops[i].from, time)
    {
    }
    assert (forall v: byte :: v < u ==> !IsDueQuestion(found, v, time))
           <==> forall i :: 0 <= i < |ops| ==> u <= ops[i].from;
    m := QuestionGoesTo(crcFile, node, found, u, time);
  }

  // ----- a lost device comes back -----

  // Where a recovery has got to: device u has this record, and may still take this name.
  ghost predicate Stands(h: Hub, u: byte, dev: Device, name: Name) {
    WellNamed(h) && u in h.devices && h.devices[u] == dev && NameIsFree(h, u, name)
  }

  // A name leads to its device, or nowhere.
  lemma LeadsHome(h: Hub, u: byte)
    requires WellNamed(h) && u in h.devices
    ensures Address(h.names, h.devices[u].name) in {u, 0xFF}
  {
    assert KnownBy(h.names, u, h.devices[u]);
  }

  lemma StandsAtFirst(h: Hub, u: byte, name: Name)
    requires WellNamed(h) && u in h.devices && NameIsFree(h, u, name)
    ensures Stands(h, u, h.devices[u], name)
  {
  }

  // A pass, in the middle of a recovery.
  lemma PassOn(crcFile: CrcFile, node: N.Node, h: Hub, u: byte, ops: seq<Op>, dev: Device, name: Name, time: int)
    requires IsRecovery(crcFile, node, h, u, ops) && Stands(RunFrom(crcFile, node, h, ops), u, dev, name)
    ensures var before := RunFrom(crcFile, node, h, ops);
            && IsRecovery(crcFile, node, h, u, ops + [At(time)])
            && RunFrom(crcFile, node, h, ops + [At(time)]) == Operate(crcFile, node, before, At(time))
            && Stands(RunFrom(crcFile, node, h, ops + [At(time)]), u, TickOf(crcFile, node, before, u, time).dev, name)
  {
    var before, op := RunFrom(crcFile, node, h, ops), At(time);
    assert Follows(crcFile, node, h, u, ops, op);
    OneMore(crcFile, node, h, u, ops, op);
    PassChanges(crcFile, node, before, u, time);
    PassKeepsFree(crcFile, node, before, u, time, name);
    OperationsAreWellNamed(crcFile, node, before, op);
    hide RunFrom, Operate, TickOf, WellNamed, IsRecovery, Follows, NameIsFree, Turns;
  }

  // An answer to a frame of the pass before.
  lemma AnswerOn(
    crcFile: CrcFile, node: N.Node, h: Hub, u: byte, ops: seq<Op>, pass: Op, m: Message, answer: Op)
    requires IsRecovery(crcFile, node, h, u, ops + [pass])
    requires m in F.Sent(crcFile, node, RunFrom(crcFile, node, h, ops), pass)
    requires IsAnswer(answer) && answer.from == u && Asks(m, u, answer)
    requires Allowed(RunFrom(crcFile, node, h, ops + [pass]), answer)
    ensures IsRecovery(crcFile, node, h, u, ops + [pass, answer])
    ensures RunFrom(crcFile, node, h, ops + [pass, answer])
            == Operate(crcFile, node, RunFrom(crcFile, node, h, ops + [pass]), answer)
  {
    assert (ops + [pass])[..|ops|] == ops;
    assert Follows(crcFile, node, h, u, ops + [pass], answer);
    OneMore(crcFile, node, h, u, ops + [pass], answer);
    assert ops + [pass] + [answer] == ops + [pass, answer];
  }

  // The device is probed, or asked for its name with no other device just found: the message reaches it.
  lemma AskPass(
    crcFile: CrcFile, node: N.Node, h: Hub, u: byte, ops: seq<Op>, dev: Device, name: Name) returns (m: Message)
    requires IsRecovery(crcFile, node, h, u, ops) && Stands(RunFrom(crcFile, node, h, ops), u, dev, name)
    requires dev.state == Probing ||
             (dev.state == InfoRequest && RunFrom(crcFile, node, h, ops).temporaryUid == None)
    ensures var pass, probing := At(dev.nextCall), dev.state == Probing;
            && IsRecovery(crcFile, node, h, u, ops + [pass])
            && m in F.Sent(crcFile, node, RunFrom(crcFile, node, h, ops), pass)
            && (m.receiver == u || m.receiver == 0xFF) && m.body == (if probing then Probe else DeviceInfoReq)
            && Stands(RunFrom(crcFile, node, h, ops + [pass]), u,
                      dev.(nextCall := dev.nextCall + 1000,
                           pending := Some(Pending(m.number, if probing then 0 else 5, dev.nextCall))), name)
  {
    var before, time := RunFrom(crcFile, node, h, ops), dev.nextCall;
    PassOn(crcFile, node, h, u, ops, dev, name, time);
    PassChanges(crcFile, node, before, u, time);
    LeadsHome(before, u);
    if before.temporaryUid == None {
      NobodyFound(crcFile, node, before, u, time, (v: byte) => time);
    }
    var at := Turns(crcFile, node, before, u, time, (v: byte) => time);
    DeviceTurns.DiscoveryTurns(crcFile, dev, Address(at.names, dev.name), at.temporaryUid, at.traffic.number, time,
      time);
    hide RunFrom, Operate, Turns, Tick, F.Sent, WellNamed, IsRecovery, NameIsFree;
    m := PassSends(crcFile, node, before, u, time);
  }

  // The first pass of a lost device, after which it is probed.
  lemma LostPass(crcFile: CrcFile, node: N.Node, h: Hub, u: byte, dev: Device, name: Name)
    requires Stands(h, u, dev, name) && dev.state == Lost && dev.pending == None
    ensures IsRecovery(crcFile, node, h, u, [At(dev.nextCall)])
    ensures Stands(RunFrom(crcFile, node, h, [At(dev.nextCall)]), u,
                   dev.(state := Probing, nextCall := dev.nextCall + 100), name)
  {
    var time := dev.nextCall;
    assert [] + [At(time)] == [At(time)] && RunFrom(crcFile, node, h, []) == h;
    PassOn(crcFile, node, h, u, [], dev, name, time);
    var at := Turns(crcFile, node, h, u, time, (v: byte) => time);
    PassChanges(crcFile, node, h, u, time);
    DeviceTurns.LostTurn(crcFile, dev, Address(at.names, dev.name), at.temporaryUid, at.traffic.number, time, time);
    hide RunFrom, Operate, Turns, Tick, WellNamed, IsRecovery, NameIsFree;
  }

  // The device answers its probe.
  lemma ProbeAnswer(
    crcFile: CrcFile, node: N.Node, h: Hub, u: byte, ops: seq<Op>, pass: Op, m: Message, dev: Device, name: Name,
    now: int)
    requires IsRecovery(crcFile, node, h, u, ops + [pass])
    requires m in F.Sent(crcFile, node, RunFrom(crcFile, node, h, ops), pass)
    requires (m.receiver == u || m.receiver == 0xFF) && m.body == Probe
    requires Stands(RunFrom(crcFile, node, h, ops + [pass]), u, dev, name)
    requires dev.state == Probing && dev.pending.Some? && dev.pending.value.number == m.number
    ensures var more := ops + [pass, AckFrom(u, m.number, 0, now)];
            && IsRecovery(crcFile, node, h, u, more)
            && Stands(RunFrom(crcFile, node, h, more), u,
                      dev.(state := InfoRequest, pending := None, lastAck := now), name)
  {
    var answer := AckFrom(u, m.number, 0, now);
    AnswerOn(crcFile, node, h, u, ops, pass, m, answer);
    var before := RunFrom(crcFile, node, h, ops + [pass]);
    OperationsAreWellNamed(crcFile, node, before, answer);
    DeviceTurns.DiscoveryAnswers(dev, m.number, 0, now, NO_VERSION, []);
    hide RunFrom, IsRecovery, Turns, HandleAck, Tell, Table, F.Sent;
  }

  // The device tells its name.
  lemma NameAnswer(
    crcFile: CrcFile, node: N.Node, h: Hub, u: byte, ops: seq<Op>, pass: Op, m: Message, dev: Device,
    version: DeviceVersion, name: Name)
    requires IsRecovery(crcFile, node, h, u, ops + [pass])
    requires m in F.Sent(crcFile, node, RunFrom(crcFile, node, h, ops), pass)
    requires (m.receiver == u || m.receiver == 0xFF) && m.body == DeviceInfoReq
    requires Stands(RunFrom(crcFile, node, h, ops + [pass]), u, dev, name)
    requires dev.state == InfoRequest && dev.pending.Some? && dev.pending.value.number == m.number
    ensures var more := ops + [pass, InfoFrom(u, m.number, version, name)];
            && IsRecovery(crcFile, node, h, u, more)
            && var last := RunFrom(crcFile, node, h, more);
               && u in last.devices && last.devices[u].state == Running
               && last.devices[u].name == name && last.devices[u].version == version
               && name in last.names && last.names[name] == u
  {
    var answer := InfoFrom(u, m.number, version, name);
    AnswerOn(crcFile, node, h, u, ops, pass, m, answer);
    DeviceTurns.DiscoveryAnswers(dev, m.number, 0, 0, version, name);
    hide RunFrom, IsRecovery, Turns, HandleInfo, Tell, Table, F.Sent;
  }

  // A pass that asks the device for its name, or another in its stead: after it none counts as just found.
  lemma QuestionPass(
    crcFile: CrcFile, node: N.Node, h: Hub, u: byte, ops: seq<Op>, dev: Device, name: Name) returns (next: Device)
    requires IsRecovery(crcFile, node, h, u, ops) && Stands(RunFrom(crcFile, node, h, ops), u, dev, name)
    requires dev.state == InfoRequest
    ensures var more := ops + [At(dev.nextCall)];
            && IsRecovery(crcFile, node, h, u, more) && Stands(RunFrom(crcFile, node, h, more), u, next, name)
            && next.state == InfoRequest && RunFrom(crcFile, node, h, more).temporaryUid == None
  {
    var before, time := RunFrom(crcFile, node, h, ops), dev.nextCall;
    PassOn(crcFile, node, h, u, ops, dev, name, time);
    FoundLastIsUsed(crcFile, node, before, 0x100, time, At(time).clock, u);
    OperateTurns(crcFile, node, before, At(time));
    var at := Turns(crcFile, node, before, u, time, (v: byte) => time);
    DeviceTurns.DiscoveryTurns(crcFile, dev, Address(at.names, dev.name), at.temporaryUid, at.traffic.number, time,
      time);
    next := TickOf(crcFile, node, before, u, time).dev;
    hide RunFrom, Operate, Turns, Tick, WellNamed, IsRecovery, NameIsFree;
  }

  /**
    From any well-named hub with a lost device, and for any name no other device goes by: there is a run, of
    passes on a timely clock and of that device's answers to frames the hub has really written for it, after
    which the device is running under that name.
  */
  lemma LostDevicesComeBack(
    crcFile: CrcFile, node: N.Node, h: Hub, u: byte, version: DeviceVersion, name: Name) returns (ops: seq<Op>)
    requires WellNamed(h) && u in h.devices && h.devices[u].state == Lost && Coherent(h.devices[u])
    requires NameIsFree(h, u, name)
    ensures IsRecovery(crcFile, node, h, u, ops)
    ensures var last := RunFrom(crcFile, node, h, ops);
            && u in last.devices && last.devices[u].state == Running
            && last.devices[u].name == name && last.devices[u].version == version
            && name in last.names && last.names[name] == u
  {
    hide RunFrom, IsRecovery, Stands, F.Sent, WellNamed;
    var d0 := h.devices[u];
    StandsAtFirst(h, u, name);
    LostPass(crcFile, node, h, u, d0, name);
    var d1 := d0.(state := Probing, nextCall := d0.nextCall + 100);
    var first := [At(d0.nextCall)];
    var probe := AskPass(crcFile, node, h, u, first, d1, name);
    var d2 := d1.(nextCall := d1.nextCall + 1000, pending := Some(Pending(probe.number, 0, d1.nextCall)));
    ProbeAnswer(crcFile, node, h, u, first, At(d1.nextCall), probe, d2, name, d1.nextCall);
    var d3 := d2.(state := InfoRequest, pending := None, lastAck := d1.nextCall);
    var answered := first + [At(d1.nextCall), AckFrom(u, probe.number, 0, d1.nextCall)];
    var d4 := QuestionPass(crcFile, node, h, u, answered, d3, name);
    var asked := answered + [At(d3.nextCall)];
    var question := AskPass(crcFile, node, h, u, asked, d4, name);
    var d5 := d4.(nextCall := d4.nextCall + 1000, pending := Some(Pending(question.number, 5, d4.nextCall)));
    NameAnswer(crcFile, node, h, u, asked, At(d4.nextCall), question, d5, version, name);
    ops := asked + [At(d4.nextCall), InfoFrom(u, question.number, version, name)];
  }
}
