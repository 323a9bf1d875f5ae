/**
  File safety for a whole hub: its other devices, its shared message counter and its user calls are, to
  the channel of any one device, no more than the moves that FileSafety allows.
*/
module HubFiles {
  import opened Bytes
  import opened Messages
  import opened DeviceSpec
  import opened DeviceRuns
  import opened HubSpec
  import opened FileSafety
  import opened Sequences
  import DeviceTransfer
  import R = HubRuns
  import N = NodeSpec

  // The system of device u, as the hub has it; a device that has not been found is as good as new.
  ghost predicate Mirrors(h: Hub, s: System, u: byte) {
    && s.hub == (if u in h.devices then h.devices[u] else NEW_DEVICE)
    && h.traffic.number == s.counter % 0x100
  }

  ghost predicate Reaches(to: byte, u: byte) {
    to == u || to == RESERVED_UID
  }

  // Of what goes elsewhere only broadcasts, and requests sent here for another, come by.
  ghost function Overheard(to: byte, u: byte, body: Body): Option<Body> {
    if Reaches(to, u) then Some(body) else None
  }

  // What device v's turn is to the system of device u.
  ghost function TurnMove(crcFile: CrcFile, h: Hub, v: byte, time: int, now: int, u: byte): Option<Move>
    requires v in h.devices
  {
    var e := R.TurnOf(h, h.devices[v].name, time, now);
    if v == u then Some(HubActs(e))
    else
      var t := Tick(crcFile, h.devices[v], e.addr, e.temporaryUid, e.number, time, now);
      match t.sent case None => None case Some(body) => Some(OthersAct(Overheard(t.to, u, body)))
  }

  ghost function Played(crcFile: CrcFile, s: System, m: Option<Move>): System {
    if m.Some? && Enabled(crcFile, s, m.value) then Do(crcFile, s, m.value) else s
  }

  ghost predicate Plays(crcFile: CrcFile, s: System, m: Option<Move>) {
    m.Some? ==> Enabled(crcFile, s, m.value)
  }

  // The system after device v's turn. The request for u's name may go to the device found last; u never gets it.
  ghost function AfterTurn(crcFile: CrcFile, h: Hub, v: byte, time: int, now: int, u: byte, s: System): System
    requires v in h.devices
  {
    var e := R.TurnOf(h, h.devices[v].name, time, now);
    var t := Tick(crcFile, h.devices[v], e.addr, e.temporaryUid, e.number, time, now);
    var next := Played(crcFile, s, TurnMove(crcFile, h, v, time, now, u));
    if v == u && t.sent.Some? && !Reaches(t.to, u) then next.(toDevice := s.toDevice) else next
  }

  lemma FileActs(crcFile: CrcFile, dev: Device, addr: byte, temporaryUid: Option<byte>, time: int)
    ensures var act := ActOn(crcFile, dev, addr, temporaryUid, time);
            act.body.Some? && IsFile(act.body.value) ==> act.to == addr != RESERVED_UID && dev.state == FileTransfer
  {
    hide NextChunk, LastDue, MarkDue;
  }

  lemma FilesGoToTheirAddress(crcFile: CrcFile, dev: Device, e: Event)
    requires e.TickAt?
    ensures var t := Tick(crcFile, dev, e.addr, e.temporaryUid, e.number, e.time, e.now);
            t.sent.Some? && IsFile(t.sent.value) ==> t.to == e.addr != RESERVED_UID && dev.state == FileTransfer
  {
    FileActs(crcFile, dev, e.addr, e.temporaryUid, e.time);
    hide ActOn;
  }

  lemma OthersTurnIsNoFile(crcFile: CrcFile, h: Hub, v: byte, time: int, now: int, u: byte, s: System)
    requires WellNamed(h) && v in h.devices && v != u && u != RESERVED_UID
    ensures Plays(crcFile, s, TurnMove(crcFile, h, v, time, now, u))
  {
    FilesGoToTheirAddress(crcFile, h.devices[v], R.TurnOf(h, h.devices[v].name, time, now));
    assert KnownBy(h.names, v, h.devices[v]);
    hide Tick;
  }

  lemma InitiateCounts(node: N.Node, t: N.Traffic, to: byte, body: Body, counter: nat)
    requires t.number == counter % 0x100
    ensures Initiate(node, t, to, body).number == (counter + 1) % 0x100
  {
  }

  lemma OwnTurnMirrors(crcFile: CrcFile, node: N.Node, h: Hub, time: int, now: int, u: byte, s: System)
    requires Mirrors(h, s, u) && u in h.devices && now <= time
    ensures Plays(crcFile, s, TurnMove(crcFile, h, u, time, now, u))
    ensures Mirrors(Turn(crcFile, node, h, u, time, now), AfterTurn(crcFile, h, u, time, now, u, s), u)
  {
    hide Tick, Tell, Initiate;
    var e := R.TurnOf(h, h.devices[u].name, time, now);
    var t := Tick(crcFile, h.devices[u], e.addr, e.temporaryUid, e.number, time, now);
    if t.sent.Some? {
      InitiateCounts(node, h.traffic, t.to, t.sent.value, s.counter);
    }
  }

  // Counting one message on both sides keeps the mirror, if the record of u is left alone.
  lemma CountedMirrors(h: Hub, s: System, next: Hub, after: System, u: byte, sent: bool)
    requires Mirrors(h, s, u) && after.hub == s.hub
    requires (u in next.devices <==> u in h.devices) && (u in h.devices ==> next.devices[u] == h.devices[u])
    requires sent ==> next.traffic.number == (h.traffic.number + 1) % 0x100 && after.counter == s.counter + 1
    requires !sent ==> next.traffic.number == h.traffic.number && after.counter == s.counter
    ensures Mirrors(next, after, u)
  {
  }

  lemma OthersTurn(crcFile: CrcFile, node: N.Node, h: Hub, v: byte, time: int, now: int, u: byte)
    requires v in h.devices && v != u
    ensures var next, m := Turn(crcFile, node, h, v, time, now), TurnMove(crcFile, h, v, time, now, u);
            && (u in next.devices <==> u in h.devices) && (u in h.devices ==> next.devices[u] == h.devices[u])
            && next.traffic.number == (if m.Some? then (h.traffic.number + 1) % 0x100 else h.traffic.number)
            && (m.Some? ==> m.value.OthersAct?)
  {
    hide Tick, Tell, N.Written, Overheard;
  }

  lemma OthersActCounts(crcFile: CrcFile, s: System, extra: Option<Body>)
    requires Enabled(crcFile, s, OthersAct(extra))
    ensures var next := Do(crcFile, s, OthersAct(extra)); next.counter == s.counter + 1 && next.hub == s.hub
  {
  }

  lemma OthersTurnMirrors(crcFile: CrcFile, node: N.Node, h: Hub, v: byte, time: int, now: int, u: byte, s: System)
    requires Mirrors(h, s, u) && WellNamed(h) && v in h.devices && v != u && u != RESERVED_UID
    ensures Plays(crcFile, s, TurnMove(crcFile, h, v, time, now, u))
    ensures Mirrors(Turn(crcFile, node, h, v, time, now), AfterTurn(crcFile, h, v, time, now, u, s), u)
  {
    OthersTurnIsNoFile(crcFile, h, v, time, now, u, s);
    OthersTurn(crcFile, node, h, v, time, now, u);
    hide Turn, TurnMove, WellNamed, Do, Enabled, Mirrors, Tick;
    var m := TurnMove(crcFile, h, v, time, now, u);
    if m.Some? {
      OthersActCounts(crcFile, s, m.value.extra);
    }
    CountedMirrors(h, s, Turn(crcFile, node, h, v, time, now), Played(crcFile, s, m), u, m.Some?);
  }

  // Ticks and other messages are safe however old the answers in flight are.
  lemma TurnMoveIsSafe(crcFile: CrcFile, s: System, m: Option<Move>)
    requires Safe(crcFile, s) && Plays(crcFile, s, m)
    requires m.Some? ==> m.value.OthersAct? || m.value.HubActs?
    ensures Safe(crcFile, Played(crcFile, s, m))
  {
    hide Safe, Do;
    if m.Some? {
      if m.value.OthersAct? {
        LossIsSafe(crcFile, s, m.value);
      } else if m.value.e.TickAt? {
        TickIsSafe(crcFile, s, m.value.e);
      } else {
        UserIsSafe(crcFile, s, m.value.e);
      }
    }
  }

  lemma TurnMovesAct(crcFile: CrcFile, h: Hub, v: byte, time: int, now: int, u: byte)
    requires v in h.devices
    ensures var m := TurnMove(crcFile, h, v, time, now, u);
            m.Some? ==> m.value.OthersAct? || m.value.HubActs?
  {
    hide Tick;
  }

  // A message that goes elsewhere is, to this device, lost.
  lemma UnsentIsLost(crcFile: CrcFile, s: System)
    requires s.toDevice != [] && Safe(crcFile, s)
    ensures Safe(crcFile, s.(toDevice := s.toDevice[..|s.toDevice| - 1]))
  {
    hide Safe;
    assert Without(s.toDevice, |s.toDevice| - 1) == s.toDevice[..|s.toDevice| - 1];
    LossIsSafe(crcFile, s, LosesMessage(|s.toDevice| - 1));
  }

  lemma TurnIsSafeToo(crcFile: CrcFile, h: Hub, v: byte, time: int, now: int, u: byte, s: System)
    requires v in h.devices && Safe(crcFile, s) && Plays(crcFile, s, TurnMove(crcFile, h, v, time, now, u))
    ensures Safe(crcFile, AfterTurn(crcFile, h, v, time, now, u, s))
  {
    TurnMovesAct(crcFile, h, v, time, now, u);
    TurnMoveIsSafe(crcFile, s, TurnMove(crcFile, h, v, time, now, u));
    hide Safe, Tick;
    var next := Played(crcFile, s, TurnMove(crcFile, h, v, time, now, u));
    if AfterTurn(crcFile, h, v, time, now, u, s) != next {
      assert next.toDevice[..|next.toDevice| - 1] == s.toDevice;
      UnsentIsLost(crcFile, next);
    }
  }

  // The system after the turns of the devices below `below`.
  ghost function AfterTurns(
    crcFile: CrcFile, node: N.Node, h: Hub, below: nat, time: int, clock: byte -> int, u: byte, s: System): System
    requires below <= 0x100
  {
    if below == 0 then s
    else
      var before := Turns(crcFile, node, h, below - 1, time, clock);
      var after := AfterTurns(crcFile, node, h, below - 1, time, clock, u, s);
      if below - 1 in before.devices then AfterTurn(crcFile, before, below - 1, time, clock(below - 1), u, after)
      else after
  }

  lemma {:induction false} TurnsMirror(
    crcFile: CrcFile, node: N.Node, h: Hub, below: nat, time: int, clock: byte -> int, u: byte, s: System)
    requires Mirrors(h, s, u) && WellNamed(h) && Safe(crcFile, s) && u != RESERVED_UID && below <= 0x100
    requires R.OnTime(R.ProcessAt(time, clock))
    ensures Mirrors(Turns(crcFile, node, h, below, time, clock),
                    AfterTurns(crcFile, node, h, below, time, clock, u, s), u)
    ensures Safe(crcFile, AfterTurns(crcFile, node, h, below, time, clock, u, s))
  {
    hide Mirrors, Safe, WellNamed, Turn, TurnMove, AfterTurn, Plays;
    if below > 0 {
      var v := below - 1;
      TurnsMirror(crcFile, node, h, v, time, clock, u, s);
      R.TurnsAreWellNamed(crcFile, node, h, v, time, clock);
      var before, after := Turns(crcFile, node, h, v, time, clock), AfterTurns(crcFile, node, h, v, time, clock, u, s);
      if v in before.devices {
        if v == u {
          OwnTurnMirrors(crcFile, node, before, time, clock(v), u, after);
        } else {
          OthersTurnMirrors(crcFile, node, before, v, time, clock(v), u, after);
        }
        TurnIsSafeToo(crcFile, before, v, time, clock(v), u, after);
      }
    }
  }

  // ----- operations of the hub -----

  // What an answer is, to the device it comes from.
  ghost function AnswerOf(op: R.Op): Event
    requires R.IsAnswer(op)
  {
    match op
    case AckFrom(_, number, code, now) => AckIn(number, code, now)
    case InfoFrom(_, number, version, name) => InfoIn(number, version, name)
    case BlobFrom(_, number, request, answer) => BlobIn(number, request, answer)
    case HealthFrom(_, number, health, flags) => HealthIn(number, health, flags)
  }

  ghost function ReadAt(op: R.Op): int {
    if op.AckFrom? then op.now else 0
  }

  // The clock is timely, what the hub gets from u is the first answer in flight, and only transfers send files:
  // the hub's owner does not call the base class's senders of file messages.
  ghost predicate Fair(s: System, op: R.Op, u: byte) {
    && R.OnTime(op)
    && (R.IsAnswer(op) && op.from == u ==> s.toHub != [] && AnswerEvent(s.toHub[0], ReadAt(op)) == Some(AnswerOf(op)))
    && (op.SendAlso? ==> !IsFile(op.body))
  }

  // An answer from a device not found yet is used up; an acknowledgement makes it found.
  ghost function OpMove(crcFile: CrcFile, node: N.Node, h: Hub, op: R.Op, u: byte): Option<Move> {
    if op.SendAlso? then Some(OthersAct(Overheard(op.to, u, op.body)))
    else if R.IsAnswer(op) then
      if op.from != u then None else if u in h.devices then Some(HubGets(ReadAt(op))) else Some(LosesAnswer(0))
    else if u in h.devices && R.IsCall(op) && R.Seen(crcFile, node, h, op, u) != [] then
      Some(HubActs(R.Seen(crcFile, node, h, op, u)[0]))
    else None
  }

  ghost function AfterOp(crcFile: CrcFile, node: N.Node, h: Hub, op: R.Op, u: byte, s: System): System {
    if op.ProcessAt? then AfterTurns(crcFile, node, h, 0x100, op.time, op.clock, u, s)
    else Played(crcFile, s, OpMove(crcFile, node, h, op, u))
  }

  lemma AnswerIsSeen(crcFile: CrcFile, node: N.Node, h: Hub, op: R.Op, u: byte)
    requires u in h.devices && R.IsAnswer(op)
    ensures R.Seen(crcFile, node, h, op, u) == if op.from == u then [AnswerOf(op)] else []
  {
    hide Turns;
  }

  lemma AnswerMirrors(crcFile: CrcFile, node: N.Node, h: Hub, op: R.Op, u: byte, s: System)
    requires Mirrors(h, s, u) && Fair(s, op, u) && R.IsAnswer(op) && u in h.devices
    ensures Plays(crcFile, s, OpMove(crcFile, node, h, op, u))
    ensures Mirrors(R.Operate(crcFile, node, h, op), AfterOp(crcFile, node, h, op, u, s), u)
  {
    R.DevicesAreIndependent(crcFile, node, h, op, u);
    R.OthersInitiateNothing(crcFile, node, h, op);
    AnswerIsSeen(crcFile, node, h, op, u);
    hide R.Operate, R.Seen, Apply, AnswerEvent, R.OnTime;
  }

  // An operation that is not u's leaves it unknown, or finds it.
  lemma UnknownMirrors(crcFile: CrcFile, node: N.Node, h: Hub, op: R.Op, u: byte, s: System)
    requires Mirrors(h, s, u) && Fair(s, op, u) && u !in h.devices && !op.SendAlso? && !op.ProcessAt?
    ensures Plays(crcFile, s, OpMove(crcFile, node, h, op, u))
    ensures Mirrors(R.Operate(crcFile, node, h, op), AfterOp(crcFile, node, h, op, u, s), u)
  {
    if u in R.Operate(crcFile, node, h, op).devices {
      R.DevicesStartNew(crcFile, node, h, op, u);
    }
    R.OthersInitiateNothing(crcFile, node, h, op);
    hide R.Operate, R.Seen, Apply, AnswerEvent, R.OnTime;
  }

  ghost predicate IsUserEvent(e: Event) {
    e.UserCommand? || e.UserRequest? || e.UserFile? || e.UserSchedule?
  }

  lemma CallIsSeen(crcFile: CrcFile, node: N.Node, h: Hub, op: R.Op, u: byte)
    requires u in h.devices && (R.IsCall(op) || op.Observe?)
    ensures var seen := R.Seen(crcFile, node, h, op, u);
            seen != [] ==> R.IsCall(op) && IsUserEvent(seen[0])
  {
    hide Turns;
  }

  lemma CallMirrors(crcFile: CrcFile, node: N.Node, h: Hub, op: R.Op, u: byte, s: System)
    requires Mirrors(h, s, u) && (R.IsCall(op) || op.Observe?) && u in h.devices
    ensures Plays(crcFile, s, OpMove(crcFile, node, h, op, u))
    ensures Mirrors(R.Operate(crcFile, node, h, op), AfterOp(crcFile, node, h, op, u, s), u)
  {
    R.DevicesAreIndependent(crcFile, node, h, op, u);
    R.OthersInitiateNothing(crcFile, node, h, op);
    R.SeenOnce(crcFile, node, h, op, u);
    CallIsSeen(crcFile, node, h, op, u);
    hide R.Operate, R.Seen, Apply;
    if R.Seen(crcFile, node, h, op, u) != [] {
      AnswerKeepsPending(crcFile, h.devices[u], R.Seen(crcFile, node, h, op, u)[0]);
    }
  }

  lemma AlsoCounts(crcFile: CrcFile, node: N.Node, h: Hub, op: R.Op)
    requires op.SendAlso?
    ensures var next := R.Operate(crcFile, node, h, op);
            next.devices == h.devices && next.traffic.number == (h.traffic.number + 1) % 0x100
  {
    hide Turns, N.Written;
  }

  lemma SendAlsoMirrors(crcFile: CrcFile, node: N.Node, h: Hub, op: R.Op, u: byte, s: System)
    requires Mirrors(h, s, u) && Fair(s, op, u) && op.SendAlso?
    ensures Plays(crcFile, s, OpMove(crcFile, node, h, op, u))
    ensures Mirrors(R.Operate(crcFile, node, h, op), AfterOp(crcFile, node, h, op, u, s), u)
  {
    var extra := Overheard(op.to, u, op.body);
    assert Enabled(crcFile, s, OthersAct(extra));
    AlsoCounts(crcFile, node, h, op);
    OthersActCounts(crcFile, s, extra);
    hide Do, Mirrors, Enabled, R.Operate, R.Seen, Fair;
    CountedMirrors(h, s, R.Operate(crcFile, node, h, op), AfterOp(crcFile, node, h, op, u, s), u, true);
  }

  /** Every operation of the hub is, to the channel of a device, a safe move or several. */
  lemma OperationsMirror(crcFile: CrcFile, node: N.Node, h: Hub, op: R.Op, u: byte, s: System)
    requires Mirrors(h, s, u) && WellNamed(h) && Safe(crcFile, s) && Recent(s) && u != RESERVED_UID && Fair(s, op, u)
    ensures Mirrors(R.Operate(crcFile, node, h, op), AfterOp(crcFile, node, h, op, u, s), u)
    ensures Safe(crcFile, AfterOp(crcFile, node, h, op, u, s))
  {
    hide R.Operate, Safe, Recent, WellNamed, AfterTurns, OpMove, Do, Enabled;
    if op.ProcessAt? {
      TurnsMirror(crcFile, node, h, 0x100, op.time, op.clock, u, s);
      R.OperateTurns(crcFile, node, h, op);
    } else {
      if op.SendAlso? {
        SendAlsoMirrors(crcFile, node, h, op, u, s);
      } else if u !in h.devices {
        UnknownMirrors(crcFile, node, h, op, u, s);
      } else if R.IsAnswer(op) {
        AnswerMirrors(crcFile, node, h, op, u, s);
      } else {
        CallMirrors(crcFile, node, h, op, u, s);
      }
      var m := OpMove(crcFile, node, h, op, u);
      if m.Some? {
        MovesAreSafe(crcFile, s, m.value);
      }
    }
  }

  // ----- runs of the hub and of one device's channel and receiver -----

  datatype World = World(h: Hub, s: System)

  datatype Deed = HubDeed(op: R.Op) | FieldDeed(m: Move)

  // Out in the field the receiver takes messages, and messages and answers are lost.
  ghost predicate InField(m: Move) {
    m.DeviceGets? || m.LosesMessage? || m.LosesAnswer?
  }

  ghost predicate Happens(crcFile: CrcFile, node: N.Node, u: byte, w: World, d: Deed, next: World) {
    && Recent(w.s)
    && match d
       case HubDeed(op) =>
         && R.Allowed(w.h, op) && Fair(w.s, op, u)
         && next == World(R.Operate(crcFile, node, w.h, op), AfterOp(crcFile, node, w.h, op, u, w.s))
       case FieldDeed(m) => InField(m) && Enabled(crcFile, w.s, m) && next == World(w.h, Do(crcFile, w.s, m))
  }

  ghost predicate Good(crcFile: CrcFile, w: World, u: byte) {
    Mirrors(w.h, w.s, u) && WellNamed(w.h) && Safe(crcFile, w.s)
  }

  // From when the hub is built, or any time before it has found device u or just then; whatever is in flight to
  // and from u, and whatever else the hub has and does.
  ghost predicate IsHubRun(crcFile: CrcFile, node: N.Node, u: byte, trace: seq<World>, deeds: seq<Deed>) {
    && |trace| == |deeds| + 1
    && Starts(trace[0].s) && Mirrors(trace[0].h, trace[0].s, u) && WellNamed(trace[0].h)
    && forall i :: 0 <= i < |deeds| ==> Happens(crcFile, node, u, trace[i], deeds[i], trace[i + 1])
  }

  lemma DeedsAreGood(crcFile: CrcFile, node: N.Node, u: byte, w: World, d: Deed, next: World)
    requires u != RESERVED_UID && Good(crcFile, w, u) && Happens(crcFile, node, u, w, d, next)
    ensures Good(crcFile, next, u)
  {
    hide Safe, WellNamed, R.Operate, AfterOp, Recent, Fair, R.Allowed, Enabled;
    match d
    case HubDeed(op) =>
      OperationsMirror(crcFile, node, w.h, op, u, w.s);
      R.OperationsAreWellNamed(crcFile, node, w.h, op);
    case FieldDeed(m) =>
      MovesAreSafe(crcFile, w.s, m);
  }

  lemma RunOfDeeds(crcFile: CrcFile, node: N.Node, u: byte, trace: seq<World>, deeds: seq<Deed>, k: nat)
    requires IsHubRun(crcFile, node, u, trace, deeds) && k < |trace|
    ensures |trace| == |deeds| + 1
    ensures if k == 0 then Good(crcFile, trace[0], u)
            else Happens(crcFile, node, u, trace[k - 1], deeds[k - 1], trace[k])
  {
    hide Happens, WellNamed;
  }

  /** At every point of a hub's run the channel of a device is safe, and mirrors the hub's record of it. */
  lemma {:induction false} HubRunsAreGood(
    crcFile: CrcFile, node: N.Node, u: byte, trace: seq<World>, deeds: seq<Deed>, k: nat)
    requires u != RESERVED_UID && IsHubRun(crcFile, node, u, trace, deeds) && k < |trace|
    ensures Good(crcFile, trace[k], u)
  {
    hide Good, IsHubRun, Happens;
    RunOfDeeds(crcFile, node, u, trace, deeds, k);
    if k > 0 {
      HubRunsAreGood(crcFile, node, u, trace, deeds, k - 1);
      DeedsAreGood(crcFile, node, u, trace[k - 1], deeds[k - 1], trace[k]);
    }
  }

  /**
    Whenever a call of the hub's `process` emits a finalize message to device u, its receiver holds exactly
    the file: among any number of other devices that share the counter, and whatever the user asks for.
  */
  lemma HubFinalizeMeetsTheFile(
    crcFile: CrcFile, node: N.Node, u: byte, trace: seq<World>, deeds: seq<Deed>, k: nat)
    requires u != RESERVED_UID && IsHubRun(crcFile, node, u, trace, deeds) && k < |deeds|
    requires deeds[k].HubDeed? && deeds[k].op.ProcessAt? && u in trace[k].h.devices
    ensures var dev, s := trace[k].h.devices[u], trace[k].s;
            var e := R.Seen(crcFile, node, trace[k].h, deeds[k].op, u)[0];
            DeviceTransfer.IsFinalize(Apply(crcFile, dev, e).sent) ==>
              s.receiver == Receiver(dev.transfer.data, |dev.transfer.data| % 0x1_0000_0000)
  {
    HubRunsAreGood(crcFile, node, u, trace, deeds, k);
    var h, s := trace[k].h, trace[k].s;
    FinalizesInPhase(crcFile, h.devices[u], R.Seen(crcFile, node, h, deeds[k].op, u)[0]);
    hide IsHubRun, Apply, Coherent, Ordered, WellNamed, R.Seen;
  }

  // ----- what the observer is told -----

  // What an operation adds to what the observer has been told.
  ghost predicate Tells(before: Hub, after: Hub, name: Name, news: Report) {
    before.reports <= after.reports && (name, news) in after.reports[|before.reports|..]
  }

  lemma TellAdds(observed: bool, reports: seq<(Name, Report)>, name: Name, news: seq<Report>)
    ensures var after := Tell(observed, reports, name, news);
            && reports <= after
            && forall n, r :: (n, r) in after[|reports|..] ==> n == name && r in news
  {
    var after := Tell(observed, reports, name, news);
    if observed {
      assert after[|reports|..] == seq(|news|, i requires 0 <= i < |news| => (name, news[i]));
    }
  }

  lemma TurnTellsNoOk(crcFile: CrcFile, node: N.Node, h: Hub, u: byte, time: int, now: int)
    requires u in h.devices
    ensures var after := Turn(crcFile, node, h, u, time, now);
            && h.reports <= after.reports
            && forall n, r :: (n, r) in after.reports[|h.reports|..] ==> r != FileWriteResult(OK)
  {
    var e := R.TurnOf(h, h.devices[u].name, time, now);
    CancelReportsError(crcFile, h.devices[u], e, OK);
    var t := Tick(crcFile, h.devices[u], e.addr, e.temporaryUid, e.number, e.time, e.now);
    TellAdds(h.observed, h.reports, t.dev.name, t.reports);
    hide Tick, Tell, Initiate;
  }

  lemma {:induction false} TurnsTellNoOk(
    crcFile: CrcFile, node: N.Node, h: Hub, below: nat, time: int, clock: byte -> int)
    requires below <= 0x100
    ensures var after := Turns(crcFile, node, h, below, time, clock);
            && h.reports <= after.reports
            && forall n, r :: (n, r) in after.reports[|h.reports|..] ==> r != FileWriteResult(OK)
  {
    hide Turn;
    if below > 0 {
      TurnsTellNoOk(crcFile, node, h, below - 1, time, clock);
      var before := Turns(crcFile, node, h, below - 1, time, clock);
      if below - 1 in before.devices {
        TurnTellsNoOk(crcFile, node, before, below - 1, time, clock(below - 1));
        var after := Turn(crcFile, node, before, below - 1, time, clock(below - 1));
        assert after.reports[|h.reports|..] == before.reports[|h.reports|..] + after.reports[|before.reports|..];
      }
    }
  }

  lemma AnswerTells(crcFile: CrcFile, node: N.Node, h: Hub, op: R.Op)
    requires R.IsAnswer(op) && op.from in h.devices
    ensures var after, o := R.Operate(crcFile, node, h, op), Apply(crcFile, h.devices[op.from], AnswerOf(op));
            && h.reports <= after.reports
            && forall n, r :: (n, r) in after.reports[|h.reports|..] ==> n == o.dev.name && r in o.reports
  {
    var o := Apply(crcFile, h.devices[op.from], AnswerOf(op));
    TellAdds(h.observed, h.reports, o.dev.name, o.reports);
    hide Turns, Tell, HandleAck, HandleInfo, HandleBlob, HandleHealth;
  }

  lemma OkIsOfItsDevice(crcFile: CrcFile, h: Hub, op: R.Op, u: byte)
    requires WellNamed(h) && u in h.devices && R.IsAnswer(op) && op.from in h.devices
    ensures var o := Apply(crcFile, h.devices[op.from], AnswerOf(op));
            o.dev.name == h.devices[u].name && FileWriteResult(OK) in o.reports ==> op.AckFrom? && op.from == u
  {
    var dev := h.devices[op.from];
    assert KnownBy(h.names, op.from, dev);
    if op.from != u && dev.name != [] {
      R.CurrentNamesAreUnique(h, op.from, u);
    }
    hide Table;
  }

  // An Ok for a file of the device called by u's name can only be u's own acknowledgement.
  lemma OkComesFromItsDevice(crcFile: CrcFile, node: N.Node, h: Hub, op: R.Op, u: byte)
    requires WellNamed(h) && u in h.devices
    requires Tells(h, R.Operate(crcFile, node, h, op), h.devices[u].name, FileWriteResult(OK))
    ensures op.AckFrom? && op.from == u
    ensures FileWriteResult(OK) in HandleAck(h.devices[u], op.number, op.code, op.now).1
  {
    hide Table, Turns, HandleAck, HandleInfo, HandleBlob, HandleHealth, Tell;
    if op.ProcessAt? {
      TurnsTellNoOk(crcFile, node, h, 0x100, op.time, op.clock);
    } else if R.IsAnswer(op) && op.from in h.devices {
      AnswerTells(crcFile, node, h, op);
      OkIsOfItsDevice(crcFile, h, op, u);
    }
  }

  lemma OkIsTold(crcFile: CrcFile, node: N.Node, u: byte, w: World, d: Deed, next: World)
    requires Good(crcFile, w, u) && Happens(crcFile, node, u, w, d, next) && u in w.h.devices
    ensures Tells(w.h, next.h, w.h.devices[u].name, FileWriteResult(OK)) ==>
              AcceptedWhole(w.s) && |w.h.devices[u].transfer.data| < 0x1_0000_0000
  {
    if d.HubDeed? && Tells(w.h, next.h, w.h.devices[u].name, FileWriteResult(OK)) {
      hide Safe, WellNamed, Recent, R.Operate, AfterOp, R.Allowed, AcceptedWhole, Tells;
      OkComesFromItsDevice(crcFile, node, w.h, d.op, u);
      OkIsAccepted(crcFile, w.s, HubGets(d.op.now));
    }
  }

  /**
    The observer is told Ok for a file of device u, by the name u goes by, only when u's receiver accepted
    exactly the file of the transfer under way.
  */
  lemma HubOkMeansAccepted(
    crcFile: CrcFile, node: N.Node, u: byte, trace: seq<World>, deeds: seq<Deed>, k: nat)
    requires u != RESERVED_UID && IsHubRun(crcFile, node, u, trace, deeds) && k < |deeds|
    requires u in trace[k].h.devices
    ensures var dev := trace[k].h.devices[u];
            Tells(trace[k].h, trace[k + 1].h, dev.name, FileWriteResult(OK)) ==>
              AcceptedWhole(trace[k].s) && |dev.transfer.data| < 0x1_0000_0000
  {
    HubRunsAreGood(crcFile, node, u, trace, deeds, k);
    assert Happens(crcFile, node, u, trace[k], deeds[k], trace[k + 1]);
    hide IsHubRun, Good, Happens, AcceptedWhole, Tells;
    OkIsTold(crcFile, node, u, trace[k], deeds[k], trace[k + 1]);
  }
}
