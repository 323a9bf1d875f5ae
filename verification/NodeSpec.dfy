/**
  What a node does with a received message (RsHandler.hpp, `process`): which client handler runs, and what is
  replied.
*/
module NodeSpec {
  import opened Bytes
  import opened Messages
  import opened Codec
  import opened ParserSpec

  // A call of one of the client's virtual handlers, with the arguments it is given.
  datatype Call =
    | HandleAck(from: byte, number: byte, code: byte)
    | HandleBlobAnswer(from: byte, number: byte, request: byte, data: Blob)
    | HandleCommand(command: byte, value: byte)
    | ProcessBlobRequest(from: byte, number: byte, request: byte, answerSize: byte)
    | HandleReboot(magic: uint64)
    | HandleDeviceInfoAnswer(from: byte, number: byte, version: DeviceVersion, name: Blob)
    | HandleFileWriteRequest(from: byte, file: byte, size: uint32)
    | HandleWriteChunk(from: byte, file: byte, chunk: Blob)
    | HandleWriteChunkFinalize(from: byte, file: byte, chunks: uint16, crc: uint64)
    | HandleDeviceHealth(from: byte, number: byte, health: byte, flags: uint16)

  // A client answers a blob request through `sendAnswer`, whose success it returns, or just returns a code.
  datatype BlobVerdict = Answer(data: Blob) | Return(code: byte)

  // What a node is built with. The client may decide on everything it was asked so far, the present
  // call included; `garbage` is what uninitialised fields of the n-th written frame happen to hold.
  datatype Node = Node(
    uid: byte, name: seq<byte>, version: DeviceVersion, health: byte, flags: uint16, size: nat,
    onCall: seq<Call> -> byte, onBlobRequest: seq<Call> -> BlobVerdict, garbage: nat -> byte)

  // The calls made to the client, the frames written, and the message counter.
  datatype Traffic = Traffic(number: byte, calls: seq<Call>, wire: seq<seq<byte>>)

  // `strlen` is stored in a byte, and the byte says how much of the name is sent.
  function SentName(node: Node): Blob {
    node.name[..|node.name| % 0x100]
  }

  function CallOf(m: Message): Option<Call> {
    match m.body
    case Ack(code) => Some(HandleAck(m.transmitter, m.number, code))
    case BlobAnswer(request, data) => Some(HandleBlobAnswer(m.transmitter, m.number, request, data))
    case Command(command, value) => Some(HandleCommand(command, value))
    case BlobRequest(request, answerSize) => Some(ProcessBlobRequest(m.transmitter, m.number, request, answerSize))
    case Reboot(magic) => Some(HandleReboot(magic))
    case DeviceInfoAnw(version, name) => Some(HandleDeviceInfoAnswer(m.transmitter, m.number, version, name))
    case FileWriteRequest(file, size) => Some(HandleFileWriteRequest(m.transmitter, file, size))
    case FileWriteChunk(file, chunk) => Some(HandleWriteChunk(m.transmitter, file, chunk))
    case FileWriteFinalize(file, chunks, crc) => Some(HandleWriteChunkFinalize(m.transmitter, file, chunks, crc))
    case HealthAnw(health, flags) => Some(HandleDeviceHealth(m.transmitter, m.number, health, flags))
    case Probe => None
    case DeviceInfoReq => None
    case HealthReq => None
  }

  // The guard of `sendAnswer`: the requested size, and a frame that fits the message buffer.
  predicate AnswerFits(node: Node, answerSize: byte, data: Blob) {
    |data| == answerSize && |data| + 2 + VolatileBaseSize(BLOB_ANSWER) <= node.size
  }

  // The reply to a message whose call, if any, is the last of `calls`.
  function ReplyBody(node: Node, calls: seq<Call>, m: Message): Option<Body> {
    match m.body
    case Ack(_) => None
    case Probe => Some(Ack(OK))
    case DeviceInfoReq => Some(DeviceInfoAnw(node.version, SentName(node)))
    case DeviceInfoAnw(_, _) => Some(Ack(OK))
    case HealthReq => Some(HealthAnw(node.health, node.flags))
    case HealthAnw(_, _) => Some(Ack(OK))
    case BlobRequest(request, answerSize) =>
      (match node.onBlobRequest(calls)
       case Answer(data) => Some(if AnswerFits(node, answerSize, data) then BlobAnswer(request, data) else Ack(ERROR))
       case Return(code) => if code == OK then None else Some(Ack(code)))
    case _ => Some(Ack(node.onCall(calls)))
  }

  predicate Addressed(node: Node, receiver: byte) {
    receiver == node.uid || receiver == RESERVED_UID
  }

  function CallsAfter(calls: seq<Call>, m: Message): seq<Call> {
    calls + match CallOf(m) case None => [] case Some(c) => [c]
  }

  // The reply goes back to the transmitter under the same message number.
  function Reply(node: Node, calls: seq<Call>, m: Message): Option<Message> {
    if !Addressed(node, m.receiver) then None
    else
      match ReplyBody(node, CallsAfter(calls, m), m)
      case None => None
      case Some(body) => Some(Message(m.transmitter, node.uid, m.number, body))
  }

  function Written(node: Node, wire: seq<seq<byte>>, m: Message): seq<seq<byte>> {
    wire + [Frame(Encode(m, node.garbage(|wire|)))]
  }

  function Deliver(node: Node, t: Traffic, m: Message): Traffic {
    if !Addressed(node, m.receiver) then t
    else
      var wire := match Reply(node, t.calls, m) case None => t.wire case Some(reply) => Written(node, t.wire, reply);
      t.(calls := CallsAfter(t.calls, m), wire := wire)
  }

  // `process`, on what the parser hands over.
  function Process(node: Node, t: Traffic, bytes: seq<byte>): Traffic
    requires WellFormed(bytes)
  {
    Deliver(node, t, Decode(bytes))
  }

  function ProcessAll(node: Node, t: Traffic, messages: seq<seq<byte>>): Traffic
    requires forall m :: m in messages ==> WellFormed(m)
    decreases |messages|
  {
    if messages == [] then t
    else
      assert messages[0] in messages;
      ProcessAll(node, Process(node, t, messages[0]), messages[1..])
  }

  lemma {:induction false} ProcessAllConcat(node: Node, t: Traffic, a: seq<seq<byte>>, b: seq<seq<byte>>)
    requires forall m :: m in a ==> WellFormed(m)
    requires forall m :: m in b ==> WellFormed(m)
    ensures forall m :: m in a + b ==> WellFormed(m)
    ensures ProcessAll(node, t, a + b) == ProcessAll(node, ProcessAll(node, t, a), b)
    decreases |a|
  {
    if a == [] {
      assert a + b == b;
    } else {
      assert a[0] in a && (a + b)[1..] == a[1..] + b;
      ProcessAllConcat(node, Process(node, t, a[0]), a[1..], b);
    }
  }
}
