/** How long a broken frame can keep the parser busy, and the buffer sizes for which it always ends. */
module ParserRecovery {
  import opened Bytes
  import opened Messages
  import opened ParserSpec
  import opened ParserSoundness
  import opened ParserStreams
  import opened Sequences

  // An upper bound on the bytes that can still be captured before the parser is idle or done.
  ghost function Remaining(size: nat, p: Parser): nat
    requires |p.content| < size
  {
    if p.state == Idle || p.state == Done then 0 else size - |p.content|
  }

  ghost predicate Settled(p: Parser) {
    p.state == Idle || p.state == Done
  }

  // One captured byte brings the end nearer, if the payload area cannot fill up below the buffer's end.
  lemma StepRemaining(size: nat, p: Parser, value: byte)
    requires 0 < size <= 261 && Shape(size, p) && !Settled(p)
    ensures var s := Step(size, p, value);
            s.Consumed? ==> |s.next.content| < size && Remaining(size, s.next) < Remaining(size, p)
  {
  }

  lemma IdleIgnoresNoise(size: nat, value: byte)
    requires size > 0 && value != PREAMBLE
    ensures Step(size, RESET, value) == Consumed(RESET)
  {
  }

  // The bytes `update` has counted are bytes nearer to the end.
  lemma {:induction false} ScanRemaining(size: nat, p: Parser, data: seq<byte>)
    requires 0 < size <= 261 && Shape(size, p) && p.state != Done && Noise(data)
    ensures var (q, n) := Scan(size, p, data);
            && Shape(size, q) && (q.state != Idle ==> Remaining(size, q) + n <= Remaining(size, p))
            && (n < |data| ==> Settled(q))
    decreases |data|
  {
    if data != [] {
      assert data[0] in data;
      StepKeepsShape(size, p, data[0]);
      if p.state == Idle {
        IdleIgnoresNoise(size, data[0]);
      } else {
        StepRemaining(size, p, data[0]);
      }
      hide Step, Shape;
      var s := Step(size, p, data[0]);
      if s.Consumed? && s.next.state != Done {
        ScanRemaining(size, s.next, data[1..]);
      }
    }
  }

  lemma {:induction false} FeedRemaining(size: nat, p: Parser, data: seq<byte>)
    requires 0 < size <= 261 && Shape(size, p) && p.state != Done && Noise(data)
    ensures var q := Feed(size, p, data).0;
            Shape(size, q) && q.state != Done && (q.state != Idle ==> Remaining(size, q) + |data| <= Remaining(size, p))
    decreases |data|
  {
    if data != [] {
      ScanRemaining(size, p, data);
      var (q, n) := Scan(size, p, data);
      if n != 0 {
        FeedRemaining(size, if q.state == Done then RESET else q, data[n..]);
      }
    }
  }

  lemma {:induction false} FeedAllRemaining(size: nat, p: Parser, fragments: seq<seq<byte>>)
    requires 0 < size <= 261 && Shape(size, p) && p.state != Done && Noise(Concat(fragments))
    ensures var q := FeedAll(size, p, fragments).0;
            && Shape(size, q) && q.state != Done
            && (q.state != Idle ==> Remaining(size, q) + |Concat(fragments)| <= Remaining(size, p))
    decreases |fragments|
  {
    if fragments != [] {
      forall b | b in fragments[0] ensures b in Concat(fragments) {
      }
      forall b | b in Concat(fragments[1..]) ensures b in Concat(fragments) {
      }
      FeedRemaining(size, p, fragments[0]);
      FeedAllRemaining(size, Feed(size, p, fragments[0]).0, fragments[1..]);
    }
  }

  /**
    A handler recovers if, whatever state its parser is in, as many preamble-free bytes as its buffer
    holds, however cut, make it idle, so that the next frame that fits is delivered.
  */
  ghost predicate Recovers(size: nat)
    requires size > 0
  {
    forall p: Parser, fragments: seq<seq<byte>> ::
      Shape(size, p) && p.state != Done && Noise(Concat(fragments)) && |Concat(fragments)| >= size ==>
        FeedAll(size, p, fragments).0 == RESET
  }

  lemma RecoversWhenSmall(size: nat)
    requires 0 < size <= 261
    ensures Recovers(size)
  {
    forall p: Parser, fragments: seq<seq<byte>> |
      Shape(size, p) && p.state != Done && Noise(Concat(fragments)) && |Concat(fragments)| >= size
      ensures FeedAll(size, p, fragments).0 == RESET
    {
      FeedAllRemaining(size, p, fragments);
    }
  }

  // A chunk frame whose length byte is zero, followed by 255 bytes of anything.
  ghost function ZeroChunk(filler: seq<byte>): seq<byte> {
    [0, 0, FILE_WRITE_CHUNK, 0, 0, 0] + filler
  }

  ghost function Captured(content: seq<byte>): Parser {
    Parser(VolatilePayload, content, FILE_WRITE_CHUNK, 0)
  }

  lemma {:induction false} ZeroChunkFills(size: nat, filler: seq<byte>, rest: seq<byte>)
    requires size > 261 && |filler| + |rest| <= 255
    ensures Run(size, Captured(ZeroChunk(filler)), rest) == Ran(Captured(ZeroChunk(filler + rest)), [])
    decreases |rest|
  {
    if rest == [] {
      assert filler + rest == filler;
    } else {
      var p := Captured(ZeroChunk(filler));
      assert ZeroChunk(filler) + [rest[0]] == ZeroChunk(filler + [rest[0]]);
      assert Step(size, p, rest[0]) == Consumed(Captured(ZeroChunk(filler + [rest[0]])));
      ZeroChunkFills(size, filler + [rest[0]], rest[1..]);
      assert filler + rest == filler + [rest[0]] + rest[1..];
    }
  }

  lemma RunOne(size: nat, p: Parser, data: seq<byte>, q: Parser)
    requires p.state != Done && data != [] && Step(size, p, data[0]) == Consumed(q) && q.state != Done
    ensures Run(size, p, data) == Run(size, q, data[1..])
  {
  }

  lemma ZeroChunkHeader(size: nat)
    requires size > 261
    ensures Run(size, RESET, [PREAMBLE, 0, 0, FILE_WRITE_CHUNK, 0]) == Ran(Captured([0, 0, FILE_WRITE_CHUNK, 0]), [])
  {
    var p1, p2 := Parser(Header, [], PROBE, 0), Parser(Header, [0], PROBE, 0);
    var p3, p4 := Parser(Header, [0, 0], PROBE, 0), Parser(Header, [0, 0, FILE_WRITE_CHUNK], FILE_WRITE_CHUNK, 0);
    var p5 := Captured([0, 0, FILE_WRITE_CHUNK, 0]);
    assert Step(size, RESET, PREAMBLE) == Consumed(p1);
    assert Step(size, p1, 0) == Consumed(p2);
    assert Step(size, p2, 0) == Consumed(p3);
    assert Step(size, p3, FILE_WRITE_CHUNK) == Consumed(p4);
    assert Step(size, p4, 0) == Consumed(p5);
    hide Step, Run;
    RunOne(size, RESET, [PREAMBLE, 0, 0, FILE_WRITE_CHUNK, 0], p1);
    RunOne(size, p1, [0, 0, FILE_WRITE_CHUNK, 0], p2);
    RunOne(size, p2, [0, FILE_WRITE_CHUNK, 0], p3);
    RunOne(size, p3, [FILE_WRITE_CHUNK, 0], p4);
    RunOne(size, p4, [0], p5);
    RunOfNothing(size, p5);
  }

  lemma ZeroChunkHead(size: nat)
    requires size > 261
    ensures Run(size, RESET, [PREAMBLE] + ZeroChunk([])) == Ran(Captured(ZeroChunk([])), [])
  {
    var p5, p6 := Captured([0, 0, FILE_WRITE_CHUNK, 0]), Captured([0, 0, FILE_WRITE_CHUNK, 0, 0]);
    var p7 := Captured([0, 0, FILE_WRITE_CHUNK, 0, 0, 0]);
    assert Step(size, p5, 0) == Consumed(p6);
    assert Step(size, p6, 0) == Consumed(p7);
    ZeroChunkHeader(size);
    hide Step, Run;
    assert ZeroChunk([]) == [0, 0, FILE_WRITE_CHUNK, 0, 0, 0];
    assert [PREAMBLE] + ZeroChunk([]) == [PREAMBLE, 0, 0, FILE_WRITE_CHUNK, 0] + [0, 0];
    RunConcat(size, RESET, [PREAMBLE, 0, 0, FILE_WRITE_CHUNK, 0], [0, 0]);
    RunOne(size, p5, [0, 0], p6);
    RunOne(size, p6, [0], p7);
    RunOfNothing(size, p7);
  }

  lemma {:induction false} StuckForever(size: nat, p: Parser, data: seq<byte>)
    requires size > |p.content| && Stuck(p) && p.msgType == FILE_WRITE_CHUNK
    ensures Run(size, p, data) == Ran(p, [])
    decreases |data|
  {
    if data != [] {
      StuckForever(size, p, data[1..]);
    }
  }

  lemma ZeroChunkSplits(filler: seq<byte>)
    ensures ZeroChunk(filler) == ZeroChunk([]) + filler
    ensures [PREAMBLE] + ZeroChunk(filler) == [PREAMBLE] + ZeroChunk([]) + filler
  {
  }

  lemma ZeroChunkRun(size: nat, filler: seq<byte>)
    requires size > 261 && |filler| == 255
    ensures Run(size, RESET, [PREAMBLE] + ZeroChunk(filler)) == Ran(Captured(ZeroChunk(filler)), [])
  {
    hide Step, Run, ZeroChunk;
    var head := [PREAMBLE] + ZeroChunk([]);
    ZeroChunkHead(size);
    ZeroChunkFills(size, [], filler);
    ZeroChunkSplits(filler);
    assert [] + filler == filler;
    RunConcat(size, RESET, head, filler);
  }

  /**
    With a buffer of more than 261 bytes one such frame silences the handler for good: no later
    fragment, whatever frames it holds, is ever delivered.
  */
  lemma ZeroChunkSilences(size: nat, filler: seq<byte>, later: seq<seq<byte>>)
    requires size > 261 && |filler| == 255
    ensures FeedAll(size, RESET, [[PREAMBLE] + ZeroChunk(filler)] + later).1 == []
    ensures FeedAll(size, RESET, [[PREAMBLE] + ZeroChunk(filler)] + later).0 == Captured(ZeroChunk(filler))
  {
    var frame, p := [PREAMBLE] + ZeroChunk(filler), Captured(ZeroChunk(filler));
    assert Stuck(p);
    ZeroChunkRun(size, filler);
    StuckForever(size, p, Concat(later));
    hide Step, Run, Feed, ZeroChunk, Captured;
    FeedFollowsRun(size, RESET, frame);
    FeedAllFollowsRun(size, p, later);
    assert ([frame] + later)[1..] == later;
  }

  /** Recovery within one buffer's worth of noise holds exactly for buffers of at most 261 bytes. */
  lemma RecoversExactly(size: nat)
    requires size > 0
    ensures Recovers(size) <==> size <= 261
  {
    if size <= 261 {
      RecoversWhenSmall(size);
    } else {
      var filler := seq(255, _ => 0);
      var noise := seq(size, _ => 0);
      var p := Captured(ZeroChunk(filler));
      assert Shape(size, p);
      assert Concat([noise]) == noise;
      StuckForever(size, p, noise);
      FeedAllFollowsRun(size, p, [noise]);
    }
  }

  /** After the noise, the next frame that fits is delivered, exactly once. */
  lemma NextFrameIsDelivered(size: nat, p: Parser, fragments: seq<seq<byte>>, m: seq<byte>)
    requires 0 < size <= 261 && Shape(size, p) && p.state != Done
    requires Noise(Concat(fragments)) && |Concat(fragments)| >= size
    requires WellFormed(m) && |m| < size
    ensures Feed(size, FeedAll(size, p, fragments).0, Frame(m)) == (RESET, [m])
  {
    RecoversWhenSmall(size);
    FrameIsDelivered(size, m);
  }
}
