/** The protocol handler of RsHandler.hpp: senders, the receive loop and message processing. */
module RsHandler {
  import opened Bytes
  import opened Messages
  import opened Codec
  import opened NodeSpec
  import opened ParserSpec
  import ParserSoundness
  import P = RsParser

  class RsHandler {
    const node: Node
    const parser: P.RsParser
    const messageBuffer: array<byte>
    var messageNumber: byte
    var calls: seq<Call>       // client handlers called so far
    var wire: seq<seq<byte>>   // frames given to interface.write so far

    ghost function Repr(): set<object> {
      {this, parser, parser.buffer, messageBuffer}
    }

    ghost predicate Valid()
      reads this, parser, parser.buffer
    {
      && parser.buffer != messageBuffer
      && parser.buffer.Length == messageBuffer.Length == node.size
      && 23 + |SentName(node)| <= node.size
      && parser.Valid()
      && ParserSoundness.Shape(node.size, parser.View())
    }

    // Between calls of `update` no finished message is left in the parser.
    ghost predicate Listening()
      reads this, parser
    {
      parser.parserState != Done
    }

    ghost function View(): Traffic
      reads this
    {
      Traffic(messageNumber, calls, wire)
    }

    // The buffers must hold every fixed-size frame and the node's own name.
    // The counter is not initialised by the source; its first value is a parameter here.
    constructor (node: Node, firstNumber: byte)
      requires 23 + |SentName(node)| <= node.size
      ensures Valid() && Listening() && fresh(Repr())
      ensures this.node == node && View() == Traffic(firstNumber, [], []) && parser.View() == RESET
    {
      this.node := node;
      parser := new P.RsParser(node.size);
      messageBuffer := new byte[node.size](_ => 0);
      messageNumber, calls, wire := firstNumber, [], [];
    }

    // ----- writing a frame -----

    method Write(length: nat)
      requires length <= messageBuffer.Length
      modifies this`wire
      ensures wire == old(wire) + [messageBuffer[..length]]
    {
      wire := wire + [messageBuffer[..length]];
    }

    // A message built in a local struct and framed into the message buffer.
    method WriteStruct(m: Message)
      requires Valid() && !IsVolatile(m.body)
      modifies this`wire, messageBuffer
      ensures Valid() && wire == Written(node, old(wire), m)
    {
      hide Frame, FixedPayload, ParserSoundness.Shape;
      var bytes := FixedPart(m, node.garbage(|wire|));
      assert Encode(m, node.garbage(|wire|)) == bytes;
      var local := new byte[|bytes|](i requires 0 <= i < |bytes| => bytes[i]);
      assert local[0..|bytes|] == bytes;
      var length := P.Create(messageBuffer, local, 0, |bytes|);
      Write(length);
    }

    method CopyIn(at: nat, bytes: seq<byte>)
      requires at + |bytes| <= messageBuffer.Length
      modifies messageBuffer
      ensures messageBuffer[at..at + |bytes|] == bytes
      ensures messageBuffer[..at] == old(messageBuffer[..at])
    {
      for i := 0 to |bytes|
        invariant messageBuffer[at..at + i] == bytes[..i]
        invariant messageBuffer[..at] == old(messageBuffer[..at])
      {
        messageBuffer[at + i] := bytes[i];
      }
    }

    // A message laid out in the message buffer, one byte in, and framed where it lies.
    method WriteInPlace(m: Message)
      requires Valid() && IsVolatile(m.body)
      requires VolatileBaseSize(TypeOf(m.body)) + |Tail(m.body)| + 2 <= node.size
      modifies this`wire, messageBuffer
      ensures Valid() && wire == Written(node, old(wire), m)
    {
      hide Frame, FixedPayload, Tail, ParserSoundness.Shape;
      var head := FixedPart(m, node.garbage(|wire|));
      var tail := Tail(m.body);
      CopyIn(1, head);
      assert messageBuffer[1..1 + |head|] == head;
      CopyIn(1 + |head|, tail);
      assert messageBuffer[1..1 + |head|] == messageBuffer[..1 + |head|][1..] == head;
      assert messageBuffer[1..1 + |head| + |tail|] == head + tail;
      var length := P.Create(messageBuffer, messageBuffer, 1, |head| + |tail|);
      Write(length);
    }

    // ----- senders: each takes the next message number -----

    method NextNumber() returns (number: byte)
      modifies this`messageNumber
      ensures number == messageNumber == (old(messageNumber) + 1) % 0x100
    {
      messageNumber := (messageNumber + 1) % 0x100;
      number := messageNumber;
    }

    ghost predicate Sent(before: Traffic, receiver: byte, number: byte, body: Body)
      reads this
    {
      && number == (before.number + 1) % 0x100
      && View() == Traffic(number, before.calls, Written(node, before.wire, Message(receiver, node.uid, number, body)))
    }

    method SendCommand(receiver: byte, command: byte, argument: byte) returns (number: byte)
      requires Valid()
      modifies this, messageBuffer
      ensures Valid() && Sent(old(View()), receiver, number, Command(command, argument))
    {
      hide Written;
      number := NextNumber();
      WriteStruct(Message(receiver, node.uid, number, Command(command, argument)));
    }

    method SendBlobRequest(receiver: byte, request: byte, dataSize: byte) returns (number: byte)
      requires Valid()
      modifies this, messageBuffer
      ensures Valid() && Sent(old(View()), receiver, number, BlobRequest(request, dataSize))
    {
      hide Written;
      number := NextNumber();
      WriteStruct(Message(receiver, node.uid, number, BlobRequest(request, dataSize)));
    }

    method SendDeviceInfoRequest(receiver: byte) returns (number: byte)
      requires Valid()
      modifies this, messageBuffer
      ensures Valid() && Sent(old(View()), receiver, number, DeviceInfoReq)
    {
      hide Written;
      number := NextNumber();
      WriteStruct(Message(receiver, node.uid, number, DeviceInfoReq));
    }

    method SendRebootCmd(receiver: byte, magic: uint64) returns (number: byte)
      requires Valid()
      modifies this, messageBuffer
      ensures Valid() && Sent(old(View()), receiver, number, Reboot(magic))
    {
      hide Written;
      number := NextNumber();
      WriteStruct(Message(receiver, node.uid, number, Reboot(magic)));
    }

    method FileWriteRequest(receiver: byte, file: byte, size: uint32) returns (number: byte)
      requires Valid()
      modifies this, messageBuffer
      ensures Valid() && Sent(old(View()), receiver, number, Body.FileWriteRequest(file, size))
    {
      hide Written;
      number := NextNumber();
      WriteStruct(Message(receiver, node.uid, number, Body.FileWriteRequest(file, size)));
    }

    // The caller keeps the chunk within the message buffer; the source does not check it.
    method FileWriteChunk(receiver: byte, file: byte, chunk: Blob) returns (number: byte)
      requires Valid() && |chunk| + 8 <= node.size
      modifies this, messageBuffer
      ensures Valid() && Sent(old(View()), receiver, number, Body.FileWriteChunk(file, chunk))
    {
      hide Written;
      number := NextNumber();
      WriteInPlace(Message(receiver, node.uid, number, Body.FileWriteChunk(file, chunk)));
    }

    method FileWriteFinalize(receiver: byte, file: byte, chunks: uint16, crc: uint64) returns (number: byte)
      requires Valid()
      modifies this, messageBuffer
      ensures Valid() && Sent(old(View()), receiver, number, Body.FileWriteFinalize(file, chunks, crc))
    {
      hide Written;
      number := NextNumber();
      WriteStruct(Message(receiver, node.uid, number, Body.FileWriteFinalize(file, chunks, crc)));
    }

    method SendProbe(receiver: byte) returns (number: byte)
      requires Valid()
      modifies this, messageBuffer
      ensures Valid() && Sent(old(View()), receiver, number, Probe)
    {
      hide Written;
      number := NextNumber();
      WriteStruct(Message(receiver, node.uid, number, Probe));
    }

    method SendHealthRequest(receiver: byte) returns (number: byte)
      requires Valid()
      modifies this, messageBuffer
      ensures Valid() && Sent(old(View()), receiver, number, HealthReq)
    {
      hide Written;
      number := NextNumber();
      WriteStruct(Message(receiver, node.uid, number, HealthReq));
    }

    // ----- replies: under the number they answer, leaving the counter alone -----

    method SendAnswer(receiver: byte, number: byte, request: byte, requestedSize: byte, data: Blob) returns (ok: bool)
      requires Valid()
      modifies this`wire, messageBuffer
      ensures Valid() && (ok <==> AnswerFits(node, requestedSize, data))
      ensures ok ==> wire == Written(node, old(wire), Message(receiver, node.uid, number, BlobAnswer(request, data)))
      ensures !ok ==> wire == old(wire)
    {
      if |data| != requestedSize {
        return false;
      }
      if |data| + 2 + VolatileBaseSize(BLOB_ANSWER) > node.size {
        return false;
      }
      WriteInPlace(Message(receiver, node.uid, number, BlobAnswer(request, data)));
      return true;
    }

    method SendAck(receiver: byte, number: byte, code: byte)
      requires Valid()
      modifies this`wire, messageBuffer
      ensures Valid() && wire == Written(node, old(wire), Message(receiver, node.uid, number, Ack(code)))
    {
      WriteStruct(Message(receiver, node.uid, number, Ack(code)));
    }

    method SendHealth(receiver: byte, number: byte)
      requires Valid()
      modifies this`wire, messageBuffer
      ensures Valid() && wire == Written(node, old(wire),
              Message(receiver, node.uid, number, HealthAnw(node.health, node.flags)))
    {
      WriteStruct(Message(receiver, node.uid, number, HealthAnw(node.health, node.flags)));
    }

    method ProcessDeviceInfoRequest(receiver: byte, number: byte)
      requires Valid()
      modifies this`wire, messageBuffer
      ensures Valid()
      ensures var answer := DeviceInfoAnw(node.version, SentName(node));
              wire == Written(node, old(wire), Message(receiver, node.uid, number, answer))
    {
      WriteInPlace(Message(receiver, node.uid, number, DeviceInfoAnw(node.version, SentName(node))));
    }

    // ----- receiving -----

    // Runs the client's handler and takes its result.
    method Ask(call: Call) returns (code: byte)
      requires Valid()
      modifies this`calls
      ensures Valid() && calls == old(calls) + [call] && code == node.onCall(calls)
    {
      calls := calls + [call];
      code := node.onCall(calls);
    }

    method AskBlob(from: byte, number: byte, request: byte, answerSize: byte) returns (code: byte)
      requires Valid()
      modifies this`calls, this`wire, messageBuffer
      ensures Valid() && calls == old(calls) + [ProcessBlobRequest(from, number, request, answerSize)]
      ensures match node.onBlobRequest(calls)
              case Return(c) => code == c && wire == old(wire)
              case Answer(data) =>
                && code == (if AnswerFits(node, answerSize, data) then OK else ERROR)
                && wire == if code == OK
                           then Written(node, old(wire), Message(from, node.uid, number, BlobAnswer(request, data)))
                           else old(wire)
    {
      calls := calls + [ProcessBlobRequest(from, number, request, answerSize)];
      match node.onBlobRequest(calls)
      case Return(c) =>
        code := c;
      case Answer(data) =>
        var ok := SendAnswer(from, number, request, answerSize, data);
        code := if ok then OK else ERROR;
    }

    // The switch of `process`: runs the handler the message's type calls for, and says whether an
    // acknowledgement is still to be sent.
    method Dispatch(message: seq<byte>) returns (ackNeeded: bool, ackCode: byte)
      requires Valid() && WellFormed(message)
      modifies this`calls, this`wire, messageBuffer
      ensures Valid()
      ensures calls == CallsAfter(old(calls), Decode(message))
      ensures var body := ReplyBody(node, calls, Decode(message));
              if ackNeeded then wire == old(wire) && body == Some(Ack(ackCode))
              else if body == None then wire == old(wire)
              else wire == Written(node, old(wire), Message(message[1], node.uid, message[3], body.value))
    {
      hide Written, Valid, VersionAt;
      var from, messageType, number := message[1], message[2], message[3];
      ackNeeded, ackCode := true, UNSUPPORTED;
      if messageType == ACK {
        var _ := Ask(HandleAck(from, number, message[4]));
        ackNeeded := false;
      } else if messageType == BLOB_ANSWER {
        ackCode := Ask(HandleBlobAnswer(from, number, message[4], message[7..]));
      } else if messageType == COMMAND {
        ackCode := Ask(HandleCommand(message[4], message[5]));
      } else if messageType == BLOB_REQUEST {
        ackCode := AskBlob(from, number, message[4], message[5]);
        if ackCode == OK {
          ackNeeded := false;
        }
      } else if messageType == PROBE {
        ackCode := OK;
      } else if messageType == REBOOT {
        ackCode := Ask(HandleReboot(UInt64At(message, 4)));
      } else if messageType == DEVICE_INFO_REQ {
        ProcessDeviceInfoRequest(from, number);
        ackNeeded := false;
      } else if messageType == DEVICE_INFO_ANW {
        var _ := Ask(HandleDeviceInfoAnswer(from, number, VersionAt(message, 4), message[21..]));
        ackCode := OK;
      } else if messageType == FILE_WRITE_REQUEST {
        ackCode := Ask(HandleFileWriteRequest(from, message[4], UInt32At(message, 5)));
      } else if messageType == FILE_WRITE_CHUNK {
        ackCode := Ask(HandleWriteChunk(from, message[4], message[6..]));
      } else if messageType == FILE_WRITE_FINALIZE {
        ackCode := Ask(HandleWriteChunkFinalize(from, message[4], UInt16At(message, 5), UInt64At(message, 7)));
      } else if messageType == HEALTH_REQ {
        SendHealth(from, number);
        ackNeeded := false;
      } else {
        var _ := Ask(HandleDeviceHealth(from, number, message[4], UInt16At(message, 6)));
        ackCode := OK;
      }
    }

    /** `process`: handles one parsed message, if it is for this node, and acknowledges it if that is due. */
    method Process(message: seq<byte>)
      requires Valid() && WellFormed(message)
      modifies this`calls, this`wire, messageBuffer
      ensures Valid() && View() == NodeSpec.Process(node, old(View()), message)
    {
      hide Written, Valid, ReplyBody, CallOf, DecodeBody;
      var receiver := message[0];
      if receiver == node.uid || receiver == RESERVED_UID {
        var ackNeeded, ackCode := Dispatch(message);
        if ackNeeded {
          SendAck(message[1], message[3], ackCode);
        }
      }
    }

    // One turn of the loop in `update`: a call of the parser, and the message it completed, if any.
    method Pass(fragment: seq<byte>) returns (parsed: nat)
      requires Valid() && Listening()
      modifies Repr()
      ensures Valid() && Listening()
      ensures var (q, n) := ParserSpec.Update(node.size, old(parser.View()), fragment);
              && parsed == n
              && parser.View() == (if n == 0 || q.state == Done then RESET else q)
              && if n != 0 && q.state == Done
                 then WellFormed(q.content) && View() == NodeSpec.Process(node, old(View()), q.content)
                 else View() == old(View())
    {
      hide NodeSpec.Process;
      ParserSoundness.ScanKeepsShape(node.size, parser.View(), fragment);
      parsed := parser.Update(fragment);
      if parsed == 0 {
        parser.Reset();
      } else if parser.parserState == Done {
        Process(parser.buffer[..parser.position]);
        parser.Reset();
      }
    }

    /** `update`: feeds a fragment to the parser and processes every message it completes. */
    method Update(data: seq<byte>)
      requires Valid() && Listening()
      modifies Repr()
      ensures Valid() && Listening()
      ensures var (last, messages) := Feed(node.size, old(parser.View()), data);
              && (forall m :: m in messages ==> WellFormed(m))
              && parser.View() == last
              && View() == ProcessAll(node, old(View()), messages)
    {
      hide NodeSpec.Process, WellFormed, ParserSoundness.Shape, ParserSpec.Update;
      ghost var p0 := parser.View();
      ParserSoundness.FedMessagesAreWellFormed(node.size, p0, data);
      ghost var done: seq<seq<byte>> := [];
      assert done + Feed(node.size, p0, data).1 == Feed(node.size, p0, data).1;
      var left := |data|;
      while left > 0
        invariant 0 <= left <= |data|
        invariant Valid() && Listening()
        invariant forall m :: m in done ==> WellFormed(m)
        invariant View() == ProcessAll(node, old(View()), done)
        invariant var rest := Feed(node.size, parser.View(), data[|data| - left..]);
                  Feed(node.size, p0, data) == (rest.0, done + rest.1)
      {
        ghost var fragment := data[|data| - left..];
        ghost var (q, n) := ParserSpec.Update(node.size, parser.View(), fragment);
        var parsed := Pass(data[|data| - left..]);
        if parsed == 0 {
          break;
        }
        left := left - parsed;
        assert fragment[parsed..] == data[|data| - left..];
        if q.state == Done {
          ghost var rest := Feed(node.size, RESET, data[|data| - left..]).1;
          ProcessAllConcat(node, old(View()), done, [q.content]);
          assert done + ([q.content] + rest) == (done + [q.content]) + rest;
          done := done + [q.content];
        }
      }
      ghost var none: seq<seq<byte>> := [];
      assert done + none == done;
    }
  }
}
