/** A composite of several nodes behind one parser (MultiNode.hpp). */
module MultiNode {
  import opened Bytes
  import opened Messages
  import opened NodeSpec
  import opened ParserSpec
  import ParserSoundness
  import P = RsParser
  import H = RsHandler

  class MultiNode {
    const parser: P.RsParser
    const devices: seq<H.RsHandler>

    // The composite writes its own parser, and its devices' logs and message buffers.
    ghost function Buffers(): set<array<byte>> {
      set d | d in devices :: d.messageBuffer
    }

    ghost predicate Valid()
      reads this, parser, parser.buffer
      reads devices, set d | d in devices :: d.parser, set d | d in devices :: d.parser.buffer
    {
      && parser.Valid()
      && ParserSoundness.Shape(parser.buffer.Length, parser.View())
      && parser.buffer !in Buffers()
      && (forall d :: d in devices ==> d.Valid() && d.parser != parser && d.parser.buffer != parser.buffer)
      && (forall d :: d in devices ==> d.parser.buffer !in Buffers())
      && (forall i, j :: 0 <= i < j < |devices| ==> devices[i] != devices[j])
    }

    ghost predicate Listening()
      reads this, parser
    {
      parser.parserState != Done
    }

    constructor (devices: seq<H.RsHandler>, parserSize: nat)
      requires parserSize > 0
      requires forall d :: d in devices ==> d.Valid()
      requires forall d, e :: d in devices && e in devices ==> d.parser.buffer != e.messageBuffer
      requires forall i, j :: 0 <= i < j < |devices| ==> devices[i] != devices[j]
      ensures Valid() && Listening() && this.devices == devices
      ensures parser.buffer.Length == parserSize && parser.View() == RESET
    {
      this.devices := devices;
      parser := new P.RsParser(parserSize);
    }

    // The routing filter is redundant: `process` makes the same test itself.
    lemma UnaddressedIsIgnored(node: Node, t: Traffic, message: seq<byte>)
      requires WellFormed(message) && node.uid != message[0] && message[0] != RESERVED_UID
      ensures Process(node, t, message) == t
    {
    }

    /** `routeMessage`: offers the message to every device it is addressed to. */
    method RouteMessage(message: seq<byte>)
      requires Valid() && WellFormed(message)
      modifies devices, Buffers()
      ensures Valid() && parser.View() == old(parser.View())
      ensures forall d :: d in devices ==> d.View() == Process(d.node, old(d.View()), message)
    {
      hide Process, ParserSoundness.Shape;
      var target := message[0];
      for i := 0 to |devices|
        invariant Valid() && parser.View() == old(parser.View())
        invariant forall k :: 0 <= k < i ==>
                    devices[k].View() == Process(devices[k].node, old(devices[k].View()), message)
        invariant forall k :: i <= k < |devices| ==> devices[k].View() == old(devices[k].View())
      {
        var device := devices[i];
        if device.node.uid == target || target == RESERVED_UID {
          device.Process(message);
        } else {
          UnaddressedIsIgnored(device.node, device.View(), message);
        }
      }
    }

    // One turn of the loop in `update`.
    method Pass(fragment: seq<byte>) returns (parsed: nat)
      requires Valid() && Listening()
      modifies parser, parser.buffer, devices, Buffers()
      ensures Valid() && Listening()
      ensures var (q, n) := ParserSpec.Update(parser.buffer.Length, old(parser.View()), fragment);
              && parsed == n
              && parser.View() == (if n == 0 || q.state == Done then RESET else q)
              && if n != 0 && q.state == Done
                 then
                   && WellFormed(q.content)
                   && forall d :: d in devices ==> d.View() == Process(d.node, old(d.View()), q.content)
                 else forall d :: d in devices ==> d.View() == old(d.View())
    {
      hide Process;
      ParserSoundness.ScanKeepsShape(parser.buffer.Length, parser.View(), fragment);
      parsed := parser.Update(fragment);
      if parsed == 0 {
        parser.Reset();
      } else if parser.parserState == Done {
        RouteMessage(parser.buffer[..parser.position]);
        parser.Reset();
      }
    }

    /**
      `update`: each device ends as if the fragment had been fed to a handler of its own with a parser
      of the composite's size, in the state of the composite's parser.
    */
    method Update(data: seq<byte>)
      requires Valid() && Listening()
      modifies parser, parser.buffer, devices, Buffers()
      ensures Valid() && Listening()
      ensures var (last, messages) := Feed(parser.buffer.Length, old(parser.View()), data);
              && (forall m :: m in messages ==> WellFormed(m))
              && parser.View() == last
              && forall d :: d in devices ==> d.View() == ProcessAll(d.node, old(d.View()), messages)
    {
      hide Process, WellFormed, ParserSoundness.Shape, ParserSpec.Update;
      ghost var size, p0 := parser.buffer.Length, parser.View();
      ParserSoundness.FedMessagesAreWellFormed(size, p0, data);
      ghost var done: seq<seq<byte>> := [];
      assert done + Feed(size, p0, data).1 == Feed(size, p0, data).1;
      var left := |data|;
      while left > 0
        invariant 0 <= left <= |data|
        invariant Valid() && Listening()
        invariant forall m :: m in done ==> WellFormed(m)
        invariant forall d :: d in devices ==> d.View() == ProcessAll(d.node, old(d.View()), done)
        invariant var rest := Feed(size, parser.View(), data[|data| - left..]);
                  Feed(size, p0, data) == (rest.0, done + rest.1)
      {
        ghost var fragment := data[|data| - left..];
        ghost var (q, n) := ParserSpec.Update(size, parser.View(), fragment);
        var parsed := Pass(data[|data| - left..]);
        if parsed == 0 {
          break;
        }
        left := left - parsed;
        assert fragment[parsed..] == data[|data| - left..];
        if q.state == Done {
          ghost var rest := Feed(size, RESET, data[|data| - left..]).1;
          forall d | d in devices
            ensures ProcessAll(d.node, old(d.View()), done + [q.content])
                 == Process(d.node, ProcessAll(d.node, old(d.View()), done), q.content)
          {
            ProcessAllConcat(d.node, old(d.View()), done, [q.content]);
          }
          assert done + ([q.content] + rest) == (done + [q.content]) + rest;
          done := done + [q.content];
        }
      }
      ghost var none: seq<seq<byte>> := [];
      assert done + none == done;
    }
  }
}
