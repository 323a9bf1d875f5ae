/** The whole hub (DeviceHub.hpp) as functions of its devices, its name table and its traffic. */
module HubSpec {
  import opened Bytes
  import opened Messages
  import opened DeviceSpec
  import opened DeviceRuns
  import N = NodeSpec

  // `temporaryUid` is the device found last; `observed` says whether an observer is registered, and
  // `reports` is what it has been told, about whom.
  datatype Hub = Hub(
    devices: map<byte, Device>, names: map<Name, byte>, temporaryUid: Option<byte>,
    traffic: N.Traffic, observed: bool, reports: seq<(Name, Report)>)

  ghost function EmptyHub(firstNumber: byte): Hub {
    Hub(map[], map[], None, N.Traffic(firstNumber, [], []), false, [])
  }

  // `getUIDFromName`
  function Address(names: map<Name, byte>, name: Name): byte {
    if name in names then names[name] else RESERVED_UID
  }

  ghost function Tell(observed: bool, reports: seq<(Name, Report)>, name: Name, news: seq<Report>)
    : seq<(Name, Report)>
  {
    if observed then reports + seq(|news|, i requires 0 <= i < |news| => (name, news[i])) else reports
  }

  // A message the hub initiates takes the next number.
  ghost function Initiate(node: N.Node, t: N.Traffic, to: byte, body: Body): N.Traffic {
    var number := (t.number + 1) % 0x100;
    N.Traffic(number, t.calls, N.Written(node, t.wire, Message(to, node.uid, number, body)))
  }

  // Probes for the numbers from 1 up to, and not including, `end`; or as many to everyone.
  ghost function Probed(node: N.Node, t: N.Traffic, end: byte, broadcast: bool): N.Traffic
    decreases end
  {
    if end <= 1 then t
    else Initiate(node, Probed(node, t, end - 1, broadcast), if broadcast then RESERVED_UID else end - 1, Probe)
  }

  // One device's turn in `process`.
  ghost function Turn(crcFile: CrcFile, node: N.Node, h: Hub, uid: byte, time: int, now: int): Hub
    requires uid in h.devices
  {
    var dev := h.devices[uid];
    var t := Tick(crcFile, dev, Address(h.names, dev.name), h.temporaryUid, h.traffic.number, time, now);
    h.(devices := h.devices[uid := t.dev],
       temporaryUid := if dev.state == InfoRequest && dev.nextCall <= time then None else h.temporaryUid,
       traffic := if t.sent == None then h.traffic else Initiate(node, h.traffic, t.to, t.sent.value),
       reports := Tell(h.observed, h.reports, t.dev.name, t.reports))
  }

  // The turns of the devices below `below`, in the order of their numbers; `clock` is what each reads.
  ghost function Turns(crcFile: CrcFile, node: N.Node, h: Hub, below: nat, time: int, clock: byte -> int): Hub
    requires below <= 0x100
  {
    if below == 0 then h
    else
      var before, uid := Turns(crcFile, node, h, below - 1, time, clock), below - 1;
      if uid in before.devices then Turn(crcFile, node, before, uid, time, clock(uid)) else before
  }

  ghost function Handled(h: Hub, uid: byte, next: (Device, seq<Report>)): Hub
    requires uid in h.devices
  {
    h.(devices := h.devices[uid := next.0], reports := Tell(h.observed, h.reports, next.0.name, next.1))
  }

  // An acknowledgement from an unknown device registers it.
  ghost function OnAck(h: Hub, from: byte, number: byte, code: byte, now: int): Hub {
    if from !in h.devices then h.(devices := h.devices[from := NEW_DEVICE], temporaryUid := Some(from))
    else Handled(h, from, HandleAck(h.devices[from], number, code, now))
  }

  ghost function OnInfo(h: Hub, from: byte, number: byte, version: DeviceVersion, name: Name): Hub {
    if from !in h.devices then h
    else
      var handled := Handled(h, from, HandleInfo(h.devices[from], number, version, name));
      if InfoAccepted(h.devices[from], number) then handled.(names := h.names[name := from]) else handled
  }

  ghost function OnBlob(h: Hub, from: byte, number: byte, request: byte, data: Blob): Hub {
    if from !in h.devices then h else Handled(h, from, HandleBlob(h.devices[from], number, request, data))
  }

  ghost function OnHealth(h: Hub, from: byte, number: byte, health: byte, flags: uint16): Hub {
    if from !in h.devices then h else Handled(h, from, HandleHealth(h.devices[from], number, health, flags))
  }

  // An acknowledgement the hub sends leaves its counter alone.
  ghost function Replied(node: N.Node, h: Hub, to: byte, number: byte, code: byte): Hub {
    h.(traffic := h.traffic.(wire := N.Written(node, h.traffic.wire, Message(to, node.uid, number, Ack(code)))))
  }

  // What the observer says to a blob it is given; without one, or unasked, the answer is an error.
  ghost function BlobCode(verdict: seq<(Name, Report)> -> byte, h: Hub, from: byte, number: byte, after: Hub): byte {
    if from in h.devices && BlobAccepted(h.devices[from], number) && h.observed then verdict(after.reports) else ERROR
  }

  // A message given to the hub: its own handlers take answers and acknowledgements, the rest is the base handler's.
  ghost function Received(node: N.Node, verdict: seq<(Name, Report)> -> byte, h: Hub, m: Message, now: int): Hub {
    if !N.Addressed(node, m.receiver) then h
    else
      match m.body
      case Ack(code) => OnAck(h, m.transmitter, m.number, code, now)
      case BlobAnswer(request, data) =>
        var after := OnBlob(h, m.transmitter, m.number, request, data);
        Replied(node, after, m.transmitter, m.number, BlobCode(verdict, h, m.transmitter, m.number, after))
      case DeviceInfoAnw(version, name) =>
        Replied(node, OnInfo(h, m.transmitter, m.number, version, name), m.transmitter, m.number, OK)
      case HealthAnw(health, flags) =>
        Replied(node, OnHealth(h, m.transmitter, m.number, health, flags), m.transmitter, m.number, OK)
      case _ => h.(traffic := N.Deliver(node, h.traffic, m))
  }

  // A user call finds its device by name, and reaches no other.
  ghost predicate Finds(h: Hub, name: Name) {
    Address(h.names, name) != RESERVED_UID && Address(h.names, name) in h.devices
  }

  ghost function With(h: Hub, name: Name, dev: Device): Hub
    requires Finds(h, name)
  {
    h.(devices := h.devices[Address(h.names, name) := dev])
  }

  ghost function Named(h: Hub, name: Name): Device
    requires Finds(h, name)
  {
    h.devices[Address(h.names, name)]
  }

  // ----- names -----

  ghost predicate KnownBy(names: map<Name, byte>, uid: byte, dev: Device) {
    && (dev.name != [] ==> dev.name in names && names[dev.name] == uid)
    && (dev.state == Running || dev.state == FileTransfer ==> dev.name != [])
  }

  ghost predicate Table(names: map<Name, byte>, devices: map<byte, Device>) {
    && [] !in names
    && (forall n :: n in names ==> names[n] in devices)
    && (forall u :: u in devices ==> KnownBy(names, u, devices[u]))
  }

  // Names lead to known devices, a device has no name or one that leads back to it, and every device in
  // operation has a name.
  ghost predicate WellNamed(h: Hub) {
    Table(h.names, h.devices)
  }

  // A name no other device goes by; a parser accepts no answer with an empty one.
  ghost predicate NameIsFree(h: Hub, from: byte, name: Name) {
    name != [] && forall u :: u in h.devices && u != from ==> h.devices[u].name != name
  }

  // Device names are unique: a name that is taken down is free.
  ghost predicate NamesStayUnique(h: Hub, from: byte, number: byte, name: Name) {
    from in h.devices && InfoAccepted(h.devices[from], number) ==> NameIsFree(h, from, name)
  }

  ghost predicate KeepsNames(node: N.Node, h: Hub, m: Message) {
    N.Addressed(node, m.receiver) && m.body.DeviceInfoAnw? ==> NamesStayUnique(h, m.transmitter, m.number, m.body.name)
  }
}
