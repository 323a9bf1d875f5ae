/**
  What the hub writes and what its devices' channels carry: the messages that HubFiles puts on the channel of a
  device are exactly the frames written for that device or for everyone, in order and under their numbers.
*/
module HubFrames {
  import opened Bytes
  import opened Messages
  import opened DeviceSpec
  import opened DeviceRuns
  import opened HubSpec
  import opened FileSafety
  import opened HubFiles
  import R = HubRuns
  import N = NodeSpec

  // The messages device v's turn initiates: one or none.
  ghost function SentInTurn(crcFile: CrcFile, node: N.Node, h: Hub, v: byte, time: int, now: int): seq<Message>
    requires v in h.devices
  {
    var e := R.TurnOf(h, h.devices[v].name, time, now);
    var t := Tick(crcFile, h.devices[v], e.addr, e.temporaryUid, e.number, time, now);
    match t.sent case None => [] case Some(body) => [Message(t.to, node.uid, (h.traffic.number + 1) % 0x100, body)]
  }

  ghost function SentInTurns(
    crcFile: CrcFile, node: N.Node, h: Hub, below: nat, time: int, clock: byte -> int): seq<Message>
    requires below <= 0x100
  {
    if below == 0 then []
    else
      var before := Turns(crcFile, node, h, below - 1, time, clock);
      var earlier := SentInTurns(crcFile, node, h, below - 1, time, clock);
      if below - 1 in before.devices
      then earlier + SentInTurn(crcFile, node, before, below - 1, time, clock(below - 1)) else earlier
  }

  // All messages an operation initiates.
  ghost function Sent(crcFile: CrcFile, node: N.Node, h: Hub, op: R.Op): seq<Message> {
    match op
    case ProcessAt(time, clock) => SentInTurns(crcFile, node, h, 0x100, time, clock)
    case SendAlso(to, body) => [Message(to, node.uid, (h.traffic.number + 1) % 0x100, body)]
    case _ => []
  }

  // The wire after the frames of these messages.
  ghost function Frames(node: N.Node, wire: seq<seq<byte>>, ms: seq<Message>): seq<seq<byte>> {
    if ms == [] then wire else N.Written(node, Frames(node, wire, ms[..|ms| - 1]), ms[|ms| - 1])
  }

  // Of these messages, sent after message n, those for device u or for everyone.
  ghost function Arriving(u: byte, n: nat, ms: seq<Message>): seq<Packet> {
    if ms == [] then []
    else
      var m := ms[|ms| - 1];
      Arriving(u, n, ms[..|ms| - 1]) + if Reaches(m.receiver, u) then [Packet(n + |ms|, m.body)] else []
  }

  ghost predicate NumberedFrom(n: nat, ms: seq<Message>) {
    forall i :: 0 <= i < |ms| ==> ms[i].number == (n + 1 + i) % 0x100
  }

  // The hub has sent these messages, and what device u is to get of them is on its channel.
  ghost predicate Carried(
    node: N.Node, wire: seq<seq<byte>>, wireAfter: seq<seq<byte>>, s: System, after: System, u: byte,
    ms: seq<Message>)
  {
    && wireAfter == Frames(node, wire, ms) && NumberedFrom(s.counter, ms)
    && after.counter == s.counter + |ms| && after.toDevice == s.toDevice + Arriving(u, s.counter, ms)
  }

  lemma CarriedNothing(node: N.Node, wire: seq<seq<byte>>, s: System, after: System, u: byte)
    requires after.counter == s.counter && after.toDevice == s.toDevice
    ensures Carried(node, wire, wire, s, after, u, [])
  {
  }

  lemma NextNumber(number: byte, counter: nat)
    requires number == counter % 0x100
    ensures (number + 1) % 0x100 == (counter + 1) % 0x100
  {
  }

  lemma CarriedOne(
    node: N.Node, wire: seq<seq<byte>>, wireAfter: seq<seq<byte>>, s: System, after: System, u: byte, m: Message)
    requires wireAfter == N.Written(node, wire, m) && m.number == (s.counter + 1) % 0x100
    requires after.counter == s.counter + 1
    requires after.toDevice == s.toDevice + if Reaches(m.receiver, u) then [Packet(s.counter + 1, m.body)] else []
    ensures Carried(node, wire, wireAfter, s, after, u, [m])
  {
    hide N.Written, Reaches;
    assert [m][..0] == [];
    assert Frames(node, wire, []) == wire && Arriving(u, s.counter, []) == [];
  }

  lemma CarriedAtMostOne(
    node: N.Node, wire: seq<seq<byte>>, wireAfter: seq<seq<byte>>, s: System, after: System, u: byte,
    ms: seq<Message>, number: byte)
    requires |ms| <= 1 && number == s.counter % 0x100 && after.counter == s.counter + |ms|
    requires ms != [] ==> ms[0].number == (number + 1) % 0x100
    requires wireAfter == if ms == [] then wire else N.Written(node, wire, ms[0])
    requires after.toDevice == s.toDevice +
               if ms != [] && Reaches(ms[0].receiver, u) then [Packet(s.counter + 1, ms[0].body)] else []
    ensures Carried(node, wire, wireAfter, s, after, u, ms)
  {
    hide Carried, Reaches, N.Written;
    if ms == [] {
      CarriedNothing(node, wire, s, after, u);
    } else {
      NextNumber(number, s.counter);
      CarriedOne(node, wire, wireAfter, s, after, u, ms[0]);
      assert ms == [ms[0]];
    }
  }

  // One message more, or none.
  lemma CarriedOn(
    node: N.Node, a: seq<seq<byte>>, b: seq<seq<byte>>, c: seq<seq<byte>>, s: System, t: System, v: System, u: byte,
    ms: seq<Message>, more: seq<Message>)
    requires Carried(node, a, b, s, t, u, ms) && Carried(node, b, c, t, v, u, more) && |more| <= 1
    ensures Carried(node, a, c, s, v, u, ms + more)
  {
    hide N.Written, Reaches;
    if more == [] {
      assert ms + more == ms;
    } else {
      assert (ms + more)[..|ms|] == ms && more[..0] == [];
      assert Frames(node, b, []) == b && Arriving(u, t.counter, []) == [];
    }
  }

  // ----- turns -----

  lemma TurnIsWritten(crcFile: CrcFile, node: N.Node, h: Hub, v: byte, time: int, now: int)
    requires v in h.devices
    ensures var ms, wire := SentInTurn(crcFile, node, h, v, time, now), h.traffic.wire;
            && |ms| <= 1 && (ms != [] ==> ms[0].number == (h.traffic.number + 1) % 0x100)
            && Turn(crcFile, node, h, v, time, now).traffic.wire
               == if ms == [] then wire else N.Written(node, wire, ms[0])
  {
    hide Tick, Tell, N.Written;
  }

  // What a turn puts on the channel of u.
  lemma TurnIsOnChannel(crcFile: CrcFile, node: N.Node, h: Hub, v: byte, time: int, now: int, u: byte, s: System)
    requires v in h.devices && Mirrors(h, s, u) && Plays(crcFile, s, TurnMove(crcFile, h, v, time, now, u))
    ensures var ms, after := SentInTurn(crcFile, node, h, v, time, now), AfterTurn(crcFile, h, v, time, now, u, s);
            && after.counter == s.counter + |ms|
            && after.toDevice == s.toDevice +
                 if ms != [] && Reaches(ms[0].receiver, u) then [Packet(s.counter + 1, ms[0].body)] else []
  {
    hide Tick, Reaches, IsFile, Timely;
  }

  lemma SameNumber(h: Hub, s: System, u: byte)
    requires Mirrors(h, s, u)
    ensures h.traffic.number == s.counter % 0x100
  {
  }

  lemma TurnIsCarried(crcFile: CrcFile, node: N.Node, h: Hub, v: byte, time: int, now: int, u: byte, s: System)
    requires v in h.devices && Mirrors(h, s, u) && Plays(crcFile, s, TurnMove(crcFile, h, v, time, now, u))
    ensures Carried(node, h.traffic.wire, Turn(crcFile, node, h, v, time, now).traffic.wire, s,
                    AfterTurn(crcFile, h, v, time, now, u, s), u, SentInTurn(crcFile, node, h, v, time, now))
  {
    hide Turn, AfterTurn, SentInTurn, Carried, Plays, TurnMove, Reaches, N.Written, Mirrors;
    TurnIsWritten(crcFile, node, h, v, time, now);
    TurnIsOnChannel(crcFile, node, h, v, time, now, u, s);
    SameNumber(h, s, u);
    CarriedAtMostOne(node, h.traffic.wire, Turn(crcFile, node, h, v, time, now).traffic.wire, s,
      AfterTurn(crcFile, h, v, time, now, u, s), u, SentInTurn(crcFile, node, h, v, time, now), h.traffic.number);
  }

  lemma TurnPlays(crcFile: CrcFile, node: N.Node, h: Hub, v: byte, time: int, now: int, u: byte, s: System)
    requires v in h.devices && Mirrors(h, s, u) && WellNamed(h) && u != RESERVED_UID && now <= time
    ensures Plays(crcFile, s, TurnMove(crcFile, h, v, time, now, u))
  {
    if v == u {
      OwnTurnMirrors(crcFile, node, h, time, now, u, s);
    } else {
      OthersTurnIsNoFile(crcFile, h, v, time, now, u, s);
    }
  }

  lemma {:induction false} TurnsAreCarried(
    crcFile: CrcFile, node: N.Node, h: Hub, below: nat, time: int, clock: byte -> int, u: byte, s: System)
    requires Mirrors(h, s, u) && WellNamed(h) && Safe(crcFile, s) && u != RESERVED_UID && below <= 0x100
    requires R.OnTime(R.ProcessAt(time, clock))
    ensures Carried(node, h.traffic.wire, Turns(crcFile, node, h, below, time, clock).traffic.wire, s,
                    AfterTurns(crcFile, node, h, below, time, clock, u, s), u,
                    SentInTurns(crcFile, node, h, below, time, clock))
  {
    hide Mirrors, Safe, WellNamed, Turn, TurnMove, AfterTurn, SentInTurn, Plays, Carried;
    if below == 0 {
      CarriedNothing(node, h.traffic.wire, s, s, u);
    } else {
      var v := below - 1;
      TurnsAreCarried(crcFile, node, h, v, time, clock, u, s);
      TurnsMirror(crcFile, node, h, v, time, clock, u, s);
      R.TurnsAreWellNamed(crcFile, node, h, v, time, clock);
      var before, t := Turns(crcFile, node, h, v, time, clock), AfterTurns(crcFile, node, h, v, time, clock, u, s);
      if v in before.devices {
        TurnPlays(crcFile, node, before, v, time, clock(v), u, t);
        TurnIsCarried(crcFile, node, before, v, time, clock(v), u, t);
        TurnIsWritten(crcFile, node, before, v, time, clock(v));
        CarriedOn(node, h.traffic.wire, before.traffic.wire,
          Turn(crcFile, node, before, v, time, clock(v)).traffic.wire, s, t,
          AfterTurn(crcFile, before, v, time, clock(v), u, t), u,
          SentInTurns(crcFile, node, h, v, time, clock), SentInTurn(crcFile, node, before, v, time, clock(v)));
      }
    }
  }

  // ----- operations -----

  // An answer or a user call puts nothing on a channel.
  lemma OthersAddNothing(crcFile: CrcFile, node: N.Node, h: Hub, op: R.Op, u: byte, s: System)
    requires !op.ProcessAt? && !op.SendAlso?
    ensures var after := AfterOp(crcFile, node, h, op, u, s);
            after.counter == s.counter && after.toDevice == s.toDevice
  {
    if u in h.devices && (R.IsCall(op) || op.Observe?) {
      CallIsSeen(crcFile, node, h, op, u);
      if R.Seen(crcFile, node, h, op, u) != [] {
        AnswerKeepsPending(crcFile, s.hub, R.Seen(crcFile, node, h, op, u)[0]);
      }
    }
    hide R.Seen, Apply, AnswerEvent, Timely;
  }

  lemma AlsoIsOnChannel(crcFile: CrcFile, node: N.Node, h: Hub, op: R.Op, u: byte, s: System)
    requires Fair(s, op, u) && op.SendAlso?
    ensures var ms, after := Sent(crcFile, node, h, op), AfterOp(crcFile, node, h, op, u, s);
            && |ms| == 1 && ms[0].number == (h.traffic.number + 1) % 0x100 && after.counter == s.counter + 1
            && R.Operate(crcFile, node, h, op).traffic.wire == N.Written(node, h.traffic.wire, ms[0])
            && after.toDevice == s.toDevice +
                 if Reaches(ms[0].receiver, u) then [Packet(s.counter + 1, ms[0].body)] else []
  {
    hide N.Written, Turns, AfterTurns, R.Seen, R.OnTime, SentInTurns, Reaches, IsFile;
  }

  lemma AlsoIsCarried(crcFile: CrcFile, node: N.Node, h: Hub, op: R.Op, u: byte, s: System)
    requires Mirrors(h, s, u) && Fair(s, op, u) && op.SendAlso?
    ensures Carried(node, h.traffic.wire, R.Operate(crcFile, node, h, op).traffic.wire, s,
                    AfterOp(crcFile, node, h, op, u, s), u, Sent(crcFile, node, h, op))
  {
    hide Carried, Mirrors, Fair, Sent, R.Operate, AfterOp, N.Written, Reaches;
    AlsoIsOnChannel(crcFile, node, h, op, u, s);
    SameNumber(h, s, u);
    CarriedAtMostOne(node, h.traffic.wire, R.Operate(crcFile, node, h, op).traffic.wire, s,
      AfterOp(crcFile, node, h, op, u, s), u, Sent(crcFile, node, h, op), h.traffic.number);
  }

  lemma ProcessIsCarried(crcFile: CrcFile, node: N.Node, h: Hub, op: R.Op, u: byte, s: System)
    requires Mirrors(h, s, u) && WellNamed(h) && Safe(crcFile, s) && u != RESERVED_UID && Fair(s, op, u)
             && op.ProcessAt?
    ensures Carried(node, h.traffic.wire, R.Operate(crcFile, node, h, op).traffic.wire, s,
                    AfterOp(crcFile, node, h, op, u, s), u, Sent(crcFile, node, h, op))
  {
    TurnsAreCarried(crcFile, node, h, 0x100, op.time, op.clock, u, s);
    R.OperateTurns(crcFile, node, h, op);
    hide Carried, R.Operate, Mirrors, Safe, WellNamed, Turns;
  }

  /**
    Every operation of the hub writes the frames of its messages, numbered on from the counter; and the channel of
    a device gets exactly the bodies of those addressed to it or to everyone, in their order.
  */
  lemma FramesAreCarried(crcFile: CrcFile, node: N.Node, h: Hub, op: R.Op, u: byte, s: System)
    requires Mirrors(h, s, u) && WellNamed(h) && Safe(crcFile, s) && u != RESERVED_UID && Fair(s, op, u)
    ensures var ms, after := Sent(crcFile, node, h, op), AfterOp(crcFile, node, h, op, u, s);
            && R.Operate(crcFile, node, h, op).traffic.wire == Frames(node, h.traffic.wire, ms)
            && (forall i :: 0 <= i < |ms| ==> ms[i].number == (s.counter + 1 + i) % 0x100)
            && after.counter == s.counter + |ms|
            && after.toDevice == s.toDevice + Arriving(u, s.counter, ms)
  {
    hide R.Operate, AfterOp, AfterTurns, SentInTurns, Mirrors, Safe, WellNamed, Frames, Arriving;
    if op.ProcessAt? {
      ProcessIsCarried(crcFile, node, h, op, u, s);
    } else if op.SendAlso? {
      AlsoIsCarried(crcFile, node, h, op, u, s);
    } else {
      R.OthersInitiateNothing(crcFile, node, h, op);
      OthersAddNothing(crcFile, node, h, op, u, s);
      CarriedNothing(node, h.traffic.wire, s, AfterOp(crcFile, node, h, op, u, s), u);
    }
  }
}
