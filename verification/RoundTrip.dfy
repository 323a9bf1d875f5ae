/** From a sender's arguments to the receiver's client, across framing, parsing and dispatch. */
module RoundTrip {
  import opened Bytes
  import opened Messages
  import opened Codec
  import opened NodeSpec
  import opened ParserSpec
  import ParserStreams

  lemma DeliverCalls(node: Node, t: Traffic, m: Message)
    requires Addressed(node, m.receiver)
    ensures Deliver(node, t, m).calls == CallsAfter(t.calls, m)
  {
  }

  /**
    A frame written by any sender or reply, fed to an idle handler of a node it is addressed to, makes
    that node behave exactly as if it had been given the sender's own field values; and it is delivered
    if and only if it fits the node's parser and, if it is length-prefixed, has something to carry.
  */
  lemma FrameReachesClient(sender: Node, nth: nat, receiver: Node, t: Traffic, m: Message)
    requires receiver.size > 0 && Addressed(receiver, m.receiver)
    ensures var bytes := Encode(m, sender.garbage(nth));
            var (last, delivered) := Feed(receiver.size, RESET, Frame(bytes));
            var deliverable := |bytes| < receiver.size && (IsVolatile(m.body) ==> Tail(m.body) != []);
            && (deliverable <==> bytes in delivered)
            && (deliverable ==>
                  && last == RESET && delivered == [bytes] && WellFormed(bytes)
                  && ProcessAll(receiver, t, delivered) == Deliver(receiver, t, m)
                  && ProcessAll(receiver, t, delivered).calls == CallsAfter(t.calls, m))
  {
    hide Deliver, Encode, CallsAfter, WellFormed;
    var bytes := Encode(m, sender.garbage(nth));
    EncodedIsWellFormed(m, sender.garbage(nth));
    ParserStreams.FrameIsDelivered(receiver.size, bytes);
    if WellFormed(bytes) {
      DecodeEncode(m, sender.garbage(nth));
      var none: seq<seq<byte>> := [];
      assert [bytes][1..] == none;
      assert ProcessAll(receiver, Process(receiver, t, bytes), none) == Process(receiver, t, bytes);
    }
    DeliverCalls(receiver, t, m);
  }

  /**
    What `sendAnswer`'s guard is for: an answer it lets through fits both the sender's message buffer
    and the parser of any peer of the same size; a peer is given the data unless there is none.
  */
  lemma AnswerFitsPeer(sender: Node, nth: nat, peer: Node, answerSize: byte, m: Message)
    requires m.body.BlobAnswer? && AnswerFits(sender, answerSize, m.body.data) && peer.size == sender.size
    ensures var bytes := Encode(m, sender.garbage(nth));
            && |Frame(bytes)| <= sender.size
            && (bytes in Feed(peer.size, RESET, Frame(bytes)).1 <==> m.body.data != [])
  {
    var bytes := Encode(m, sender.garbage(nth));
    EncodedIsWellFormed(m, sender.garbage(nth));
    ParserStreams.FrameIsDelivered(peer.size, bytes);
  }
}
