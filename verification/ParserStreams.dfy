/** Framed streams: what `create` wrote is what a handler is given back, however the stream is cut. */
module ParserStreams {
  import opened Bytes
  import opened Messages
  import opened ParserSpec
  import opened Sequences
  import opened ParserSoundness
  import Crc8

  // ----- streams in which no byte is rejected, one byte at a time -----

  datatype Ran = Ran(last: Parser, messages: seq<seq<byte>>) | Refused

  // A finished message is handed over at once and the parser reset, as the handlers do.
  function Run(size: nat, p: Parser, data: seq<byte>): Ran
    requires p.state != Done
    decreases |data|
  {
    if data == [] then Ran(p, [])
    else
      match Step(size, p, data[0])
      case Rejected => Refused
      case Consumed(q) =>
        var rest := Run(size, if q.state == Done then RESET else q, data[1..]);
        if q.state == Done && rest.Ran? then Ran(rest.last, [q.content] + rest.messages) else rest
  }

  // One call of `update` covers the bytes up to the first finished message.
  lemma {:induction false} ScanFollowsRun(size: nat, p: Parser, data: seq<byte>)
    requires p.state != Done && Run(size, p, data).Ran?
    ensures var (q, n) := Scan(size, p, data);
            && (data != [] ==> n > 0)
            && (q.state != Done ==> n == |data| && Run(size, p, data) == Ran(q, []))
            && (q.state == Done ==>
                  var rest := Run(size, RESET, data[n..]);
                  rest.Ran? && Run(size, p, data) == Ran(rest.last, [q.content] + rest.messages))
    decreases |data|
  {
    hide Step;
    if data != [] {
      var q := Step(size, p, data[0]).next;
      if q.state == Done {
        assert Scan(size, q, data[1..]) == (q, 0);
      } else {
        ScanFollowsRun(size, q, data[1..]);
        var n := Scan(size, q, data[1..]).1;
        assert data[1..][n..] == data[n + 1..];
      }
    }
  }

  lemma {:induction false} FeedFollowsRun(size: nat, p: Parser, data: seq<byte>)
    requires p.state != Done && Run(size, p, data).Ran?
    ensures var r := Run(size, p, data);
            Feed(size, p, data) == (r.last, r.messages) && r.last.state != Done
    decreases |data|
  {
    if data != [] {
      ScanFollowsRun(size, p, data);
      var (q, n) := Update(size, p, data);
      if q.state == Done {
        FeedFollowsRun(size, RESET, data[n..]);
      } else {
        assert data[n..] == [];
      }
    }
  }

  lemma {:induction false} RunConcat(size: nat, p: Parser, a: seq<byte>, b: seq<byte>)
    requires p.state != Done
    ensures var first := Run(size, p, a);
            Run(size, p, a + b) ==
            if first.Refused? || first.last.state == Done then Run(size, p, a + b)
            else
              var second := Run(size, first.last, b);
              if second.Refused? then Refused else Ran(second.last, first.messages + second.messages)
    decreases |a|
  {
    hide Step;
    if a == [] {
      assert a + b == b;
    } else {
      assert (a + b)[1..] == a[1..] + b && (a + b)[0] == a[0];
      var s := Step(size, p, a[0]);
      if s.Consumed? {
        RunConcat(size, if s.next.state == Done then RESET else s.next, a[1..], b);
        if s.next.state == Done {
          var first, second := Run(size, RESET, a[1..]), Run(size, p, a);
          if first.Ran? && first.last.state != Done {
            var third := Run(size, first.last, b);
            if third.Ran? {
              assert [s.next.content] + (first.messages + third.messages) == second.messages + third.messages;
            }
          }
        }
      }
    }
  }

  // ----- one frame -----

  // The parser after the preamble and the first k bytes of m.
  ghost function Midway(m: seq<byte>, k: nat): Parser
    requires k <= |m| && WellFormed(m)
  {
    var t := m[2];
    var msgType := if k < 3 then PROBE else t;
    var fixed, base := MessageSizeByType(t), VolatileBaseSize(t);
    if k < HEADER_SIZE then Parser(Header, m[..k], msgType, 0)
    else if k == |m| then Parser(State.Crc, m, t, if fixed == 0 then m[base - 1] else 0)
    else if fixed != 0 then Parser(ConstPayload, m[..k], t, 0)
    else Parser(VolatilePayload, m[..k], t, if k < base then 0 else m[base - 1])
  }

  lemma MidwayStep(size: nat, m: seq<byte>, k: nat)
    requires WellFormed(m) && k < |m| < size
    ensures Step(size, Midway(m, k), m[k]) == Consumed(Midway(m, k + 1))
  {
    assert m[..k + 1] == m[..k] + [m[k]];
    assert m[..|m|] == m;
  }

  lemma {:induction false} RunContent(size: nat, m: seq<byte>, k: nat)
    requires WellFormed(m) && k <= |m| < size
    ensures Run(size, Midway(m, k), m[k..]) == Ran(Midway(m, |m|), [])
    decreases |m| - k
  {
    if k < |m| {
      MidwayStep(size, m, k);
      RunContent(size, m, k + 1);
      hide Step, Midway;
      assert m[k..][1..] == m[k + 1..];
    }
  }

  // Preamble and content leave the parser waiting for the checksum of exactly that content.
  lemma RunHead(size: nat, m: seq<byte>)
    requires WellFormed(m) && |m| < size
    ensures Run(size, RESET, [PREAMBLE] + m) == Ran(Midway(m, |m|), [])
    ensures Midway(m, |m|).state == State.Crc && Midway(m, |m|).content == m
  {
    RunContent(size, m, 0);
    assert m[0..] == m && m[..0] == [];
    assert ([PREAMBLE] + m)[1..] == m;
    assert Step(size, RESET, PREAMBLE) == Consumed(Midway(m, 0));
  }

  lemma RunChecksum(size: nat, m: seq<byte>, crc: byte)
    requires WellFormed(m) && |m| < size
    ensures Run(size, Midway(m, |m|), [crc]) == if crc == Crc8.Crc(m) then Ran(RESET, [m]) else Ran(RESET, [])
  {
    hide Crc8.Crc;
    var p := Midway(m, |m|);
    assert [crc][1..] == [];
    assert Run(size, RESET, []) == Ran(RESET, []);
  }

  lemma RunFrame(size: nat, m: seq<byte>)
    requires WellFormed(m) && |m| < size
    ensures Run(size, RESET, Frame(m)) == Ran(RESET, [m])
  {
    RunHead(size, m);
    RunConcat(size, RESET, [PREAMBLE] + m, [Crc8.Crc(m)]);
    RunChecksum(size, m, Crc8.Crc(m));
  }

  /**
    Whatever bytes are framed, feeding the frame to an idle handler delivers them if and only if they
    are well formed and leave room in the buffer; then nothing else is delivered and the parser is idle.
    A length-prefixed message with nothing to carry is therefore never delivered.
  */
  lemma FrameIsDelivered(size: nat, m: seq<byte>)
    requires size > 0
    ensures m in Feed(size, RESET, Frame(m)).1 <==> WellFormed(m) && |m| < size
    ensures WellFormed(m) && |m| < size ==> Feed(size, RESET, Frame(m)) == (RESET, [m])
  {
    if WellFormed(m) && |m| < size {
      RunFrame(size, m);
      FeedFollowsRun(size, RESET, Frame(m));
    }
    FedMessagesAreWellFormed(size, RESET, Frame(m));
  }

  // ----- whole streams -----

  ghost predicate Noise(data: seq<byte>) {
    PREAMBLE !in data
  }

  lemma {:induction false} RunNoise(size: nat, noise: seq<byte>)
    requires size > 0 && Noise(noise)
    ensures Run(size, RESET, noise) == Ran(RESET, [])
    decreases |noise|
  {
    if noise != [] {
      assert noise[0] in noise;
      RunNoise(size, noise[1..]);
    }
  }

  // Each message framed and preceded by some noise; noise may also end the stream.
  ghost function Stream(messages: seq<seq<byte>>, noises: seq<seq<byte>>): seq<byte>
    requires |noises| == |messages| + 1
  {
    if messages == [] then noises[0]
    else noises[0] + Frame(messages[0]) + Stream(messages[1..], noises[1..])
  }

  lemma {:induction false} RunStream(size: nat, messages: seq<seq<byte>>, noises: seq<seq<byte>>)
    requires size > 0 && |noises| == |messages| + 1
    requires forall n :: n in noises ==> Noise(n)
    requires forall m :: m in messages ==> WellFormed(m) && |m| < size
    ensures Run(size, RESET, Stream(messages, noises)) == Ran(RESET, messages)
    decreases |messages|
  {
    hide Run, Frame, WellFormed, Noise;
    assert noises[0] in noises;
    RunNoise(size, noises[0]);
    if messages != [] {
      var m, rest := messages[0], Stream(messages[1..], noises[1..]);
      assert m in messages;
      RunFrame(size, m);
      RunStream(size, messages[1..], noises[1..]);
      RunConcat(size, RESET, noises[0], Frame(m));
      RunConcat(size, RESET, noises[0] + Frame(m), rest);
      assert Stream(messages, noises) == noises[0] + Frame(m) + rest;
      assert messages == [] + [m] + messages[1..];
    }
  }

  lemma RunOfNothing(size: nat, p: Parser)
    requires p.state != Done
    ensures Run(size, p, []) == Ran(p, [])
  {
  }

  lemma {:induction false} RunPrefix(size: nat, p: Parser, a: seq<byte>, b: seq<byte>)
    requires p.state != Done && Run(size, p, a + b).Ran?
    ensures Run(size, p, a).Ran? && Run(size, p, a).last.state != Done
    decreases |a|
  {
    hide Step;
    if a != [] {
      assert (a + b)[1..] == a[1..] + b && (a + b)[0] == a[0];
      var q := Step(size, p, a[0]).next;
      RunPrefix(size, if q.state == Done then RESET else q, a[1..], b);
    }
  }

  // Cutting a stream that is never refused changes nothing.
  lemma {:induction false} FeedAllFollowsRun(size: nat, p: Parser, fragments: seq<seq<byte>>)
    requires p.state != Done && Run(size, p, Concat(fragments)).Ran?
    ensures var r := Run(size, p, Concat(fragments));
            FeedAll(size, p, fragments) == (r.last, r.messages)
    decreases |fragments|
  {
    hide Run;
    if fragments == [] {
      RunOfNothing(size, p);
    } else {
      var a, b := fragments[0], Concat(fragments[1..]);
      RunPrefix(size, p, a, b);
      FeedFollowsRun(size, p, a);
      RunConcat(size, p, a, b);
      FeedAllFollowsRun(size, Run(size, p, a).last, fragments[1..]);
    }
  }

  /**
    Any list of well-formed messages that fit the buffer, framed, with any preamble-free noise before,
    between and after them, cut into fragments anywhere: an idle handler is given exactly that list, in
    order, each once, and is idle again.
  */
  lemma StreamIsDecoded(size: nat, messages: seq<seq<byte>>, noises: seq<seq<byte>>, fragments: seq<seq<byte>>)
    requires size > 0 && |noises| == |messages| + 1
    requires forall n :: n in noises ==> Noise(n)
    requires forall m :: m in messages ==> WellFormed(m) && |m| < size
    requires Concat(fragments) == Stream(messages, noises)
    ensures FeedAll(size, RESET, fragments) == (RESET, messages)
  {
    RunStream(size, messages, noises);
    FeedAllFollowsRun(size, RESET, fragments);
  }

  // ----- corruption -----

  // The frame positions a receiver can check: all but preamble, type and the length byte, if any.
  ghost predicate Checked(m: seq<byte>, k: nat)
    requires WellFormed(m)
  {
    && 0 < k < |Frame(m)| && k != 3
    && (MessageSizeByType(m[2]) == 0 ==> k != VolatileBaseSize(m[2]))
  }

  lemma DamagedChecksum(size: nat, m: seq<byte>, crc: byte)
    requires WellFormed(m) && |m| < size && crc != Crc8.Crc(m)
    ensures Feed(size, RESET, ([PREAMBLE] + m) + [crc]) == (RESET, [])
  {
    hide Crc8.Crc, Run;
    RunHead(size, m);
    RunConcat(size, RESET, [PREAMBLE] + m, [crc]);
    RunChecksum(size, m, crc);
    var none: seq<seq<byte>> := [];
    assert none + none == none;
    FeedFollowsRun(size, RESET, ([PREAMBLE] + m) + [crc]);
  }

  /** One changed byte in a checked position: nothing is delivered and the parser is idle. */
  lemma OneByteIsDetected(size: nat, m: seq<byte>, k: nat, b: byte)
    requires WellFormed(m) && |m| < size && Checked(m, k) && b != Frame(m)[k]
    ensures Feed(size, RESET, Frame(m)[k := b]) == (RESET, [])
  {
    var bad := Frame(m)[k := b];
    if k == |m| + 1 {
      assert bad == ([PREAMBLE] + m) + [b];
      DamagedChecksum(size, m, b);
    } else {
      var n := m[k - 1 := b];
      assert bad == ([PREAMBLE] + n) + [Crc8.Crc(m)];
      Crc8.OneByteChangesCrc(m, k - 1, b);
      assert WellFormed(n);
      DamagedChecksum(size, n, Crc8.Crc(m));
    }
  }
}
