/**
  What the hub does with a message, in plain words: which event its device's record sees, what the observer is told
  and under which name, and the acknowledgement that goes back; and the frames of `probeAll`, one by one.
*/
module HubReceives {
  import opened Bytes
  import opened Messages
  import opened DeviceSpec
  import opened DeviceRuns
  import opened HubSpec
  import opened ParserSpec
  import N = NodeSpec
  import R = HubRuns

  // The reports after these, each told under this name, to an observer if there is one.
  ghost predicate Told(h: Hub, reports: seq<(Name, Report)>, name: Name, news: seq<Report>) {
    if !h.observed then reports == h.reports
    else
      && |reports| == |h.reports| + |news| && reports[..|h.reports|] == h.reports
      && forall i :: 0 <= i < |news| ==> reports[|h.reports| + i] == (name, news[i])
  }

  // Device u has seen this event, and nothing else of the hub has changed but the reports and the name table.
  ghost predicate SeenBy(crcFile: CrcFile, h: Hub, next: Hub, u: byte, e: Event) {
    && u in h.devices
    && var o := Apply(crcFile, h.devices[u], e);
       && next.devices == h.devices[u := o.dev] && Told(h, next.reports, o.dev.name, o.reports)
       && next.temporaryUid == h.temporaryUid && next.observed == h.observed
  }

  // One more frame: an acknowledgement with this code, under the number of the message, to its sender.
  ghost predicate Acknowledged(node: N.Node, before: N.Traffic, after: N.Traffic, m: Message, code: byte) {
    && after.number == before.number && after.calls == before.calls
    && after.wire == before.wire + [Frame(Encode(Message(m.transmitter, node.uid, m.number, Ack(code)),
                                                 node.garbage(|before.wire|)))]
  }

  lemma ToldByTell(h: Hub, name: Name, news: seq<Report>)
    ensures Told(h, Tell(h.observed, h.reports, name, news), name, news)
  {
  }

  lemma AckIsReceived(
    crcFile: CrcFile, node: N.Node, verdict: seq<(Name, Report)> -> byte, h: Hub, m: Message, now: int)
    requires (m.receiver == node.uid || m.receiver == 0xFF) && m.body.Ack? && m.transmitter in h.devices
    ensures var next := Received(node, verdict, h, m, now);
            && SeenBy(crcFile, h, next, m.transmitter, AckIn(m.number, m.body.code, now))
            && next.names == h.names && next.traffic == h.traffic
  {
    var o := Apply(crcFile, h.devices[m.transmitter], AckIn(m.number, m.body.code, now));
    ToldByTell(h, o.dev.name, o.reports);
    hide Tell, HandleAck, Told;
  }

  lemma InfoIsReceived(
    crcFile: CrcFile, node: N.Node, verdict: seq<(Name, Report)> -> byte, h: Hub, m: Message, now: int)
    requires (m.receiver == node.uid || m.receiver == 0xFF) && m.body.DeviceInfoAnw? && m.transmitter in h.devices
    ensures var next, dev := Received(node, verdict, h, m, now), h.devices[m.transmitter];
            && SeenBy(crcFile, h, next, m.transmitter, InfoIn(m.number, m.body.version, m.body.name))
            && Acknowledged(node, h.traffic, next.traffic, m, 0)
            && next.names
               == if dev.state == InfoRequest && dev.pending.Some? && dev.pending.value.number == m.number
                  then h.names[m.body.name := m.transmitter] else h.names
  {
    var o := Apply(crcFile, h.devices[m.transmitter], InfoIn(m.number, m.body.version, m.body.name));
    ToldByTell(h, o.dev.name, o.reports);
    hide Tell, HandleInfo, Told, Encode, Frame;
  }

  lemma HealthIsReceived(
    crcFile: CrcFile, node: N.Node, verdict: seq<(Name, Report)> -> byte, h: Hub, m: Message, now: int)
    requires (m.receiver == node.uid || m.receiver == 0xFF) && m.body.HealthAnw? && m.transmitter in h.devices
    ensures var next := Received(node, verdict, h, m, now);
            && SeenBy(crcFile, h, next, m.transmitter, HealthIn(m.number, m.body.health, m.body.flags))
            && Acknowledged(node, h.traffic, next.traffic, m, 0) && next.names == h.names
  {
    var o := Apply(crcFile, h.devices[m.transmitter], HealthIn(m.number, m.body.health, m.body.flags));
    ToldByTell(h, o.dev.name, o.reports);
    hide Tell, HandleHealth, Told, Encode, Frame;
  }

  lemma BlobIsReceived(
    crcFile: CrcFile, node: N.Node, verdict: seq<(Name, Report)> -> byte, h: Hub, m: Message, now: int)
    requires (m.receiver == node.uid || m.receiver == 0xFF) && m.body.BlobAnswer? && m.transmitter in h.devices
    ensures var next, dev := Received(node, verdict, h, m, now), h.devices[m.transmitter];
            var awaited := dev.pending.Some? && dev.pending.value.number == m.number && dev.pending.value.msgType == 3;
            && SeenBy(crcFile, h, next, m.transmitter, BlobIn(m.number, m.body.request, m.body.data))
            && Acknowledged(node, h.traffic, next.traffic, m,
                            if awaited && h.observed then verdict(next.reports) else 1)
            && next.names == h.names
  {
    var o := Apply(crcFile, h.devices[m.transmitter], BlobIn(m.number, m.body.request, m.body.data));
    ToldByTell(h, o.dev.name, o.reports);
    hide Tell, HandleBlob, Told, Encode, Frame;
  }

  /**
    A message of a device the hub knows: an acknowledgement, an introduction, a health answer or a blob is to the
    device's record the event with exactly its number and contents, the observer is told what that event tells,
    under the device's name, and all but an acknowledgement are acknowledged: with 0, or for a blob with the
    observer's verdict if it was asked for, and 1 if not.
  */
  lemma KnownDevicesAreHeard(
    crcFile: CrcFile, node: N.Node, verdict: seq<(Name, Report)> -> byte, h: Hub, m: Message, now: int)
    requires (m.receiver == node.uid || m.receiver == 0xFF) && m.transmitter in h.devices
    ensures var next, dev := Received(node, verdict, h, m, now), h.devices[m.transmitter];
            match m.body
            case Ack(code) =>
              SeenBy(crcFile, h, next, m.transmitter, AckIn(m.number, code, now)) && next.traffic == h.traffic
            case DeviceInfoAnw(version, name) =>
              && SeenBy(crcFile, h, next, m.transmitter, InfoIn(m.number, version, name))
              && Acknowledged(node, h.traffic, next.traffic, m, 0)
            case HealthAnw(health, flags) =>
              && SeenBy(crcFile, h, next, m.transmitter, HealthIn(m.number, health, flags))
              && Acknowledged(node, h.traffic, next.traffic, m, 0)
            case BlobAnswer(request, data) =>
              var awaited := dev.pending.Some? && dev.pending.value.number == m.number
                             && dev.pending.value.msgType == 3;
              && SeenBy(crcFile, h, next, m.transmitter, BlobIn(m.number, request, data))
              && Acknowledged(node, h.traffic, next.traffic, m,
                              if awaited && h.observed then verdict(next.reports) else 1)
            case _ => true
  {
    hide Received, SeenBy, Acknowledged;
    match m.body
    case Ack(_) => AckIsReceived(crcFile, node, verdict, h, m, now);
    case DeviceInfoAnw(_, _) => InfoIsReceived(crcFile, node, verdict, h, m, now);
    case HealthAnw(_, _) => HealthIsReceived(crcFile, node, verdict, h, m, now);
    case BlobAnswer(_, _) => BlobIsReceived(crcFile, node, verdict, h, m, now);
    case _ =>
  }

  /**
    An unknown device becomes known by an acknowledgement, whatever it is of, and counts as found last; nothing else
    it sends has any effect on the hub's devices, and a blob from it is answered with an error.
  */
  lemma UnknownDevicesAreFound(
    crcFile: CrcFile, node: N.Node, verdict: seq<(Name, Report)> -> byte, h: Hub, m: Message, now: int)
    requires (m.receiver == node.uid || m.receiver == 0xFF) && m.transmitter !in h.devices
    ensures var next := Received(node, verdict, h, m, now);
            && next.reports == h.reports && next.names == h.names
            && match m.body
               case Ack(_) =>
                 && next.devices == h.devices[m.transmitter := NEW_DEVICE] && next.temporaryUid == Some(m.transmitter)
                 && next.traffic == h.traffic
               case DeviceInfoAnw(_, _) =>
                 next.devices == h.devices && Acknowledged(node, h.traffic, next.traffic, m, 0)
               case HealthAnw(_, _) => next.devices == h.devices && Acknowledged(node, h.traffic, next.traffic, m, 0)
               case BlobAnswer(_, _) => next.devices == h.devices && Acknowledged(node, h.traffic, next.traffic, m, 1)
               case _ => next.devices == h.devices
  {
    hide Encode, Frame, N.Deliver;
  }

  // ----- turns -----

  /**
    A device's turn in `process`: its record sees one tick, at the address its name leads to; the observer is told
    what that tick tells, under the device's name; and the number of the device found last is used up exactly by
    the turn of a device asked for its name.
  */
  lemma TurnIsSeen(crcFile: CrcFile, node: N.Node, h: Hub, u: byte, time: int, now: int)
    requires u in h.devices
    ensures var next, dev := Turn(crcFile, node, h, u, time, now), h.devices[u];
            var addr := if dev.name in h.names then h.names[dev.name] else 0xFF;
            var o := Apply(crcFile, dev, TickAt(addr, h.temporaryUid, h.traffic.number, time, now));
            && next.devices == h.devices[u := o.dev] && Told(h, next.reports, dev.name, o.reports)
            && next.names == h.names && next.observed == h.observed
            && next.temporaryUid == if dev.state == InfoRequest && dev.nextCall <= time then None else h.temporaryUid
  {
    var dev := h.devices[u];
    var e := TickAt(Address(h.names, dev.name), h.temporaryUid, h.traffic.number, time, now);
    R.TickKeepsName(crcFile, dev, e);
    ToldByTell(h, dev.name, Apply(crcFile, dev, e).reports);
    hide Tick, Tell, Told, Initiate;
  }

  // ----- `probeAll` -----

  // The i-th probe after this traffic.
  ghost function ProbeFrame(node: N.Node, t: N.Traffic, broadcast: bool, i: nat): seq<byte>
    requires i + 1 < 0x100
  {
    Frame(Encode(Message(if broadcast then 0xFF else i + 1, node.uid, (t.number + i + 1) % 0x100, Probe),
                 node.garbage(|t.wire| + i)))
  }

  lemma NextProbe(node: N.Node, t: N.Traffic, before: N.Traffic, to: byte, broadcast: bool, i: nat)
    requires i + 1 < 0x100 && |before.wire| == |t.wire| + i && before.number == (t.number + i) % 0x100
    requires to == if broadcast then 0xFF else i + 1
    ensures var after := Initiate(node, before, to, Probe);
            && after.wire == before.wire + [ProbeFrame(node, t, broadcast, i)]
            && after.number == (t.number + i + 1) % 0x100 && after.calls == before.calls
  {
    hide Encode, Frame;
  }

  /**
    The frames of `probeAll`, one by one: for every number from 1 up to and without the end, a probe for it, or for
    everyone, each under the next number.
  */
  lemma {:induction false} ProbesAreWritten(node: N.Node, t: N.Traffic, end: byte, broadcast: bool)
    ensures var after, n := Probed(node, t, end, broadcast), if end <= 1 then 0 else end - 1;
            && after.calls == t.calls && after.number == (t.number + n) % 0x100
            && after.wire == t.wire + seq(n, i requires 0 <= i < n => ProbeFrame(node, t, broadcast, i))
    decreases end
  {
    hide ProbeFrame, Initiate;
    if end > 1 {
      ProbesAreWritten(node, t, end - 1, broadcast);
      var n: nat := end - 2;
      NextProbe(node, t, Probed(node, t, end - 1, broadcast), if broadcast then 0xFF else end - 1, broadcast, n);
      var probes := seq(n, i requires 0 <= i < n => ProbeFrame(node, t, broadcast, i));
      assert seq(n + 1, i requires 0 <= i < n + 1 => ProbeFrame(node, t, broadcast, i))
             == probes + [ProbeFrame(node, t, broadcast, n)];
      assert (t.wire + probes) + [ProbeFrame(node, t, broadcast, n)]
             == t.wire + (probes + [ProbeFrame(node, t, broadcast, n)]);
    }
  }
}
