/**
  What a client is given, in plain words: for every kind of message, the handler that runs at the peer, its
  arguments, and the reply that goes back.
*/
module ClientCalls {
  import opened Bytes
  import opened Messages
  import opened Codec
  import opened NodeSpec
  import opened ParserSpec
  import opened ParserStreams
  import RoundTrip

  // Feeding the message's frame to the idle handler of a peer makes these calls, and writes this reply: to the
  // transmitter, under the number of the message.
  ghost predicate Results(peer: Node, t: Traffic, m: Message, pad: byte, calls: seq<Call>, reply: Option<Body>) {
    var bytes := Encode(m, pad);
    && peer.size > 0 && WellFormed(bytes) && Feed(peer.size, RESET, Frame(bytes)) == (RESET, [bytes])
    && var after := ProcessAll(peer, t, [bytes]);
       && after.number == t.number && after.calls == t.calls + calls
       && after.wire
          == t.wire + if reply == None then []
                      else [Frame(Encode(Message(m.transmitter, peer.uid, m.number, reply.value),
                                         peer.garbage(|t.wire|)))]
  }

  // One call, whose result is acknowledged.
  ghost predicate Acknowledges(peer: Node, t: Traffic, m: Message, pad: byte, call: Call) {
    Results(peer, t, m, pad, [call], Some(Ack(peer.onCall(t.calls + [call]))))
  }

  // A message as long as this is reported by the peer's parser, and is for the peer.
  ghost predicate ComesThrough(peer: Node, m: Message) {
    && (m.receiver == peer.uid || m.receiver == 0xFF)
    && ContentLength(m.body) < peer.size && (IsVolatile(m.body) ==> Tail(m.body) != [])
  }

  lemma FedIsDelivered(peer: Node, t: Traffic, m: Message, pad: byte)
    requires ComesThrough(peer, m)
    ensures var bytes := Encode(m, pad);
            && peer.size > 0 && WellFormed(bytes) && Feed(peer.size, RESET, Frame(bytes)) == (RESET, [bytes])
            && ProcessAll(peer, t, [bytes]) == Deliver(peer, t, m)
  {
    EncodedLength(m, pad);
    var sender := peer.(garbage := _ => pad);
    hide Encode, Deliver, WellFormed, ContentLength, IsVolatile, Tail;
    RoundTrip.FrameReachesClient(sender, 0, peer, t, m);
  }

  lemma DeliveredResults(peer: Node, t: Traffic, m: Message, pad: byte, calls: seq<Call>, reply: Option<Body>)
    requires ComesThrough(peer, m)
    requires CallsAfter(t.calls, m) == t.calls + calls && ReplyBody(peer, t.calls + calls, m) == reply
    ensures Results(peer, t, m, pad, calls, reply)
  {
    FedIsDelivered(peer, t, m, pad);
    hide Encode, Feed, ProcessAll, WellFormed, Frame, ReplyBody, CallsAfter, ContentLength, IsVolatile, Tail;
  }

  /** A message about something the client has a say in: its handler's arguments, and its own code as the answer. */
  lemma ClientIsAsked(peer: Node, t: Traffic, m: Message, pad: byte)
    requires ComesThrough(peer, m)
    ensures match m.body
            case Command(command, value) => Acknowledges(peer, t, m, pad, HandleCommand(command, value))
            case Reboot(magic) => Acknowledges(peer, t, m, pad, HandleReboot(magic))
            case FileWriteRequest(file, size) =>
              Acknowledges(peer, t, m, pad, HandleFileWriteRequest(m.transmitter, file, size))
            case FileWriteChunk(file, chunk) =>
              Acknowledges(peer, t, m, pad, HandleWriteChunk(m.transmitter, file, chunk))
            case FileWriteFinalize(file, chunks, crc) =>
              Acknowledges(peer, t, m, pad, HandleWriteChunkFinalize(m.transmitter, file, chunks, crc))
            case BlobAnswer(request, data) =>
              Acknowledges(peer, t, m, pad, HandleBlobAnswer(m.transmitter, m.number, request, data))
            case _ => true
  {
    hide Results, ComesThrough;
    var calls := match CallOf(m) case None => [] case Some(call) => [call];
    DeliveredResults(peer, t, m, pad, calls, ReplyBody(peer, CallsAfter(t.calls, m), m));
  }

  /** A message the client is only told of, or has nothing to do with: the handler, if any, and the fixed reply. */
  lemma ClientIsTold(peer: Node, t: Traffic, m: Message, pad: byte)
    requires ComesThrough(peer, m)
    ensures match m.body
            case Ack(code) => Results(peer, t, m, pad, [HandleAck(m.transmitter, m.number, code)], None)
            case DeviceInfoAnw(version, name) =>
              Results(peer, t, m, pad, [HandleDeviceInfoAnswer(m.transmitter, m.number, version, name)], Some(Ack(0)))
            case HealthAnw(health, flags) =>
              Results(peer, t, m, pad, [HandleDeviceHealth(m.transmitter, m.number, health, flags)], Some(Ack(0)))
            case Probe => Results(peer, t, m, pad, [], Some(Ack(0)))
            case DeviceInfoReq =>
              Results(peer, t, m, pad, [], Some(DeviceInfoAnw(peer.version, peer.name[..|peer.name| % 0x100])))
            case HealthReq => Results(peer, t, m, pad, [], Some(HealthAnw(peer.health, peer.flags)))
            case _ => true
  {
    hide Results, ComesThrough;
    var calls := match CallOf(m) case None => [] case Some(call) => [call];
    DeliveredResults(peer, t, m, pad, calls, ReplyBody(peer, CallsAfter(t.calls, m), m));
  }

  /**
    A blob request: the client answers with as many bytes as asked for, if they fit a frame; any other data is
    an error, and a bare code is acknowledged unless it is 0, which only an answer should be.
  */
  lemma ClientIsAskedForBlob(peer: Node, t: Traffic, m: Message, pad: byte)
    requires ComesThrough(peer, m) && m.body.BlobRequest?
    ensures var request, size := m.body.request, m.body.answerSize;
            var call := ProcessBlobRequest(m.transmitter, m.number, request, size);
            match peer.onBlobRequest(t.calls + [call])
            case Answer(data) =>
              Results(peer, t, m, pad, [call],
                      Some(if |data| == size && |data| + 9 <= peer.size then BlobAnswer(request, data) else Ack(1)))
            case Return(code) => Results(peer, t, m, pad, [call], if code == 0 then None else Some(Ack(code)))
  {
    hide Results, ComesThrough;
    var calls := match CallOf(m) case None => [] case Some(call) => [call];
    DeliveredResults(peer, t, m, pad, calls, ReplyBody(peer, CallsAfter(t.calls, m), m));
  }

  /** A message for somebody else has no effect at all. */
  lemma OthersAreIgnored(peer: Node, t: Traffic, m: Message, pad: byte)
    requires m.receiver != peer.uid && m.receiver != 0xFF
    requires ContentLength(m.body) < peer.size && (IsVolatile(m.body) ==> Tail(m.body) != [])
    ensures Results(peer, t, m, pad, [], None)
  {
    var bytes := Encode(m, pad);
    hide Encode, WellFormed, DecodeBody, Feed, ContentLength, IsVolatile, Tail, Frame;
    EncodedLength(m, pad);
    EncodedIsWellFormed(m, pad);
    DecodeEncode(m, pad);
    FrameIsDelivered(peer.size, bytes);
    var none: seq<seq<byte>> := [];
    assert [bytes][1..] == none;
    assert ProcessAll(peer, Process(peer, t, bytes), none) == Process(peer, t, bytes);
  }
}
