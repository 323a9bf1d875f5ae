/**
  Rejected bytes: the type a header may not have, and content the buffer has no room for. What is read again, and what
  is lost.
*/
module ParserRejects {
  import opened Bytes
  import opened Messages
  import opened ParserSpec
  import opened ParserStreams
  import opened ParserRecovery
  import Crc8

  // The parser is where a run without rejected bytes has left it, and rejects the next byte.
  ghost predicate Rejects(size: nat, p: Parser, accepted: seq<byte>, data: seq<byte>) {
    && p.state != Done && data != []
    && var r := Run(size, p, accepted);
       r.Ran? && Step(size, r.last, data[0]).Rejected?
  }

  // One call of `update` ends at the first finished message, or else just before the rejected byte.
  lemma {:induction false} ScanToReject(size: nat, p: Parser, accepted: seq<byte>, data: seq<byte>)
    requires Rejects(size, p, accepted, data)
    ensures var (q, n) := Scan(size, p, accepted + data);
            var r := Run(size, p, accepted);
            if r.messages == [] then q == RESET && n == |accepted|
            else
              && q.state == Done && 0 < n <= |accepted| && q.content == r.messages[0]
              && Run(size, RESET, accepted[n..]) == Ran(r.last, r.messages[1..])
    decreases |accepted|
  {
    hide Step;
    if accepted == [] {
      assert accepted + data == data;
    } else {
      var rest := accepted[1..];
      assert (accepted + data)[0] == accepted[0] && (accepted + data)[1..] == rest + data;
      var q := Step(size, p, accepted[0]).next;
      if q.state == Done {
        assert Scan(size, q, rest + data) == (q, 0);
        assert accepted[1..] == rest;
      } else {
        ScanToReject(size, q, rest, data);
        var n := Scan(size, q, rest + data).1;
        assert rest[n..] == accepted[n + 1..];
      }
    }
  }

  lemma IdleRejectsNothing(size: nat, value: byte)
    requires size > 0
    ensures Step(size, RESET, value).Consumed?
  {
  }

  /**
    A rejected byte in the middle of a fragment is read again, by an idle parser, and so is all that follows it. At the
    beginning of a fragment it costs the whole fragment.
  */
  lemma {:induction false} RejectedByteIsReadAgain(size: nat, p: Parser, accepted: seq<byte>, data: seq<byte>)
    requires size > 0 && Rejects(size, p, accepted, data)
    ensures var again := Feed(size, RESET, data);
            Feed(size, p, accepted + data)
            == if accepted == [] then (RESET, []) else (again.0, Run(size, p, accepted).messages + again.1)
    decreases |accepted|
  {
    hide Step;
    ScanToReject(size, p, accepted, data);
    var n := Scan(size, p, accepted + data).1;
    var r := Run(size, p, accepted);
    if r.messages != [] {
      assert (accepted + data)[n..] == accepted[n..] + data;
      if n == |accepted| {
        IdleRejectsNothing(size, data[0]);
        assert false;
      }
      RejectedByteIsReadAgain(size, RESET, accepted[n..], data);
      assert [r.messages[0]] + (r.messages[1..] + Feed(size, RESET, data).1)
             == r.messages + Feed(size, RESET, data).1;
    } else if accepted != [] {
      assert (accepted + data)[n..] == data;
      assert [] + Feed(size, RESET, data).1 == Feed(size, RESET, data).1;
    }
  }

  // ----- unknown types -----

  // The parser in the middle of a header of this type.
  lemma HeaderRun(size: nat, receiver: byte, transmitter: byte, msgType: byte)
    requires size > 4
    ensures Run(size, RESET, [0x52, receiver, transmitter, msgType])
            == Ran(Parser(Header, [receiver, transmitter, msgType], msgType, 0), [])
  {
    var h := [0x52, receiver, transmitter, msgType];
    RunOne(size, RESET, h, Parser(Header, [], PROBE, 0));
    assert h[1..] == [receiver, transmitter, msgType];
    RunOne(size, Parser(Header, [], PROBE, 0), h[1..], Parser(Header, [receiver], PROBE, 0));
    assert h[1..][1..] == [transmitter, msgType];
    var q := Parser(Header, [receiver, transmitter], PROBE, 0);
    RunOne(size, Parser(Header, [receiver], PROBE, 0), [transmitter, msgType], q);
    assert [transmitter, msgType][1..] == [msgType];
    RunOne(size, q, [msgType], Parser(Header, [receiver, transmitter, msgType], msgType, 0));
  }

  lemma FeedTwo(size: nat, p: Parser, a: seq<byte>, b: seq<byte>)
    ensures var first := Feed(size, p, a);
            var second := Feed(size, first.0, b);
            FeedAll(size, p, [a, b]) == (second.0, first.1 + second.1)
  {
    var (q, before) := Feed(size, p, a);
    var (last, after) := Feed(size, q, b);
    hide Feed;
    assert [a, b][1..] == [b] && [b][1..] == [];
    assert after + [] == after;
    assert FeedAll(size, q, [b]) == (last, after);
  }

  lemma NumberIsRejected(size: nat, p: Parser, number: byte)
    requires p.state == Header && |p.content| == 3 && p.msgType >= 13
    ensures Step(size, p, number).Rejected?
  {
  }

  /**
    A header with a type of 13 or more is given up at its last byte, the message number: in the middle of a fragment
    that byte is looked at again, as if nothing had come before; first in a fragment it costs the whole fragment.
  */
  lemma UnknownTypeIsGivenUp(
    size: nat, receiver: byte, transmitter: byte, msgType: byte, number: byte, rest: seq<byte>)
    requires size > 4 && msgType >= 13
    ensures var head, data := [0x52, receiver, transmitter, msgType], [number] + rest;
            && Feed(size, RESET, head + data) == Feed(size, RESET, data)
            && FeedAll(size, RESET, [head, data]) == (RESET, [])
  {
    var head, data := [0x52, receiver, transmitter, msgType], [number] + rest;
    HeaderRun(size, receiver, transmitter, msgType);
    var p := Run(size, RESET, head).last;
    NumberIsRejected(size, p, number);
    FeedFollowsRun(size, RESET, head);
    FeedTwo(size, RESET, head, data);
    hide Step, Feed;
    assert Run(size, p, []) == Ran(p, []);
    RejectedByteIsReadAgain(size, RESET, head, data);
    RejectedByteIsReadAgain(size, p, [], data);
    assert [] + data == data;
    assert [] + Feed(size, RESET, data).1 == Feed(size, RESET, data).1;
    var none: seq<seq<byte>> := [];
    assert Feed(size, RESET, head) == (p, none) && Feed(size, p, data) == (RESET, none) && none + none == none;
  }

  /**
    So the fragments matter once a byte is rejected: a frame that follows a header of unknown type is delivered if
    both come together, and lost if the cut is before the message number.
  */
  lemma CutsMatter(size: nat, m: seq<byte>)
    requires size > 4 && WellFormed(m) && |m| < size
    ensures var head, data := [0x52, 0, 0, 13], [0] + Frame(m);
            && FeedAll(size, RESET, [head + data]) == (RESET, [m])
            && FeedAll(size, RESET, [head, data]) == (RESET, [])
  {
    var head, data := [0x52, 0, 0, 13], [0] + Frame(m);
    UnknownTypeIsGivenUp(size, 0, 0, 13, 0, Frame(m));
    RunFrame(size, m);
    assert Step(size, RESET, 0) == Consumed(RESET);
    assert data[1..] == Frame(m);
    assert Run(size, RESET, data) == Ran(RESET, [m]);
    FeedFollowsRun(size, RESET, data);
    hide Step, Run, Feed;
    assert [head + data][1..] == [];
    assert FeedAll(size, RESET, []) == (RESET, []);
    assert [m] + [] == [m];
  }

  // ----- content the buffer has no room for -----

  lemma {:induction false} RunUntilFull(size: nat, m: seq<byte>, k: nat, end: nat)
    requires WellFormed(m) && k <= end < |m| && end < size
    ensures Run(size, Midway(m, k), m[k..end]) == Ran(Midway(m, end), [])
    decreases end - k
  {
    if k < end {
      assert Step(size, Midway(m, k), m[k]) == Consumed(Midway(m, k + 1)) by {
        assert m[..k + 1] == m[..k] + [m[k]];
      }
      RunUntilFull(size, m, k + 1, end);
      hide Step, Midway;
      assert m[k..end][1..] == m[k + 1..end] && m[k..end][0] == m[k];
    }
  }

  // Up to the byte that would fill the buffer.
  lemma HeadRun(size: nat, m: seq<byte>)
    requires WellFormed(m) && 0 < size <= |m|
    ensures Run(size, RESET, [PREAMBLE] + m[..size - 1]) == Ran(Midway(m, size - 1), [])
  {
    var head := [PREAMBLE] + m[..size - 1];
    RunUntilFull(size, m, 0, size - 1);
    assert m[0..size - 1] == m[..size - 1] && m[..0] == [];
    assert head[1..] == m[..size - 1];
    RunOne(size, RESET, head, Midway(m, 0));
  }

  lemma FullRejects(size: nat, m: seq<byte>)
    requires WellFormed(m) && 0 < size <= |m|
    ensures Step(size, Midway(m, size - 1), m[size - 1]).Rejected?
    ensures Midway(m, size - 1).state != Done
  {
  }

  lemma SplitFrame(m: seq<byte>, rest: seq<byte>, k: nat)
    requires k <= |m|
    ensures Frame(m) + rest == ([PREAMBLE] + m[..k]) + (m[k..] + [Crc8.Crc(m)] + rest)
  {
    assert m == m[..k] + m[k..];
  }

  /**
    A frame whose content fills the buffer or more is given up at the byte that would fill it; that byte and all that
    follow, the rest of the frame included, are read as if nothing had come before.
  */
  lemma TooLongIsGivenUp(size: nat, m: seq<byte>, rest: seq<byte>)
    requires WellFormed(m) && 0 < size <= |m|
    ensures Feed(size, RESET, Frame(m) + rest) == Feed(size, RESET, m[size - 1..] + [Crc8.Crc(m)] + rest)
  {
    var head, data := [PREAMBLE] + m[..size - 1], m[size - 1..] + [Crc8.Crc(m)] + rest;
    HeadRun(size, m);
    FullRejects(size, m);
    SplitFrame(m, rest, size - 1);
    hide Step, Run, Midway, Feed;
    assert data[0] == m[size - 1];
    RejectedByteIsReadAgain(size, RESET, head, data);
    assert [] + Feed(size, RESET, data).1 == Feed(size, RESET, data).1;
  }
}
