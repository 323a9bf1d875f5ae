/** Everything the parser ever reports is a frame: an invariant over any history of calls. */
module ParserSoundness {
  import opened Bytes
  import opened Messages
  import opened ParserSpec
  import Crc8

  // The states reachable from RESET.
  ghost predicate Shape(size: nat, p: Parser) {
    && |p.content| < size
    && match p.state
       case Idle => p == RESET
       case Header => |p.content| < HEADER_SIZE && (|p.content| == 3 ==> p.msgType == p.content[2])
       case ConstPayload =>
         HEADER_SIZE <= |p.content| < MessageSizeByType(p.msgType) && p.msgType == p.content[2] < TYPE_END
       case VolatilePayload =>
         var base := VolatileBaseSize(p.msgType);
         && HEADER_SIZE <= |p.content| <= base + 0xFF
         && p.msgType == p.content[2] < TYPE_END && MessageSizeByType(p.msgType) == 0
         && (base <= |p.content| ==>
               p.chunkSize == p.content[base - 1] && (p.chunkSize == 0 || |p.content| < base + p.chunkSize))
       case Crc => WellFormed(p.content)
       case Done => WellFormed(p.content)
  }

  // A length byte of zero: the payload area fills up and every later byte is swallowed.
  ghost predicate Stuck(p: Parser) {
    p.state == VolatilePayload && p.chunkSize == 0 && |p.content| == VolatileBaseSize(p.msgType) + 0xFF
  }

  // The bytes that brought the parser here from its last reset.
  ghost function Trail(p: Parser): seq<byte> {
    match p.state
    case Idle => []
    case Done => Frame(p.content)
    case _ => [PREAMBLE] + p.content
  }

  ghost predicate EndsWith(history: seq<byte>, tail: seq<byte>) {
    |tail| <= |history| && history[|history| - |tail|..] == tail
  }

  ghost predicate Explained(p: Parser, history: seq<byte>) {
    Stuck(p) || EndsWith(history, Trail(p))
  }

  lemma StepKeepsShape(size: nat, p: Parser, value: byte)
    requires size > 0 && Shape(size, p)
    ensures Step(size, p, value).Consumed? ==> Shape(size, Step(size, p, value).next)
  {
  }

  lemma EndsWithNothing(history: seq<byte>)
    ensures EndsWith(history, [])
  {
  }

  lemma TrailGrows(history: seq<byte>, tail: seq<byte>, value: byte)
    requires EndsWith(history, tail)
    ensures EndsWith(history + [value], tail + [value])
  {
  }

  // Each consumed byte that is not the end of a bad frame or swallowed adds to the trail.
  lemma StepGrowsTrail(size: nat, p: Parser, value: byte)
    requires size > 0 && Shape(size, p) && p.state != Done
    ensures var s := Step(size, p, value);
            s.Consumed? && s.next.state != Idle && !Stuck(s.next) ==> !Stuck(p) && Trail(s.next) == Trail(p) + [value]
  {
    hide WellFormed, Crc8.Crc;
  }

  lemma StepExplained(size: nat, p: Parser, value: byte, history: seq<byte>)
    requires size > 0 && Shape(size, p) && p.state != Done && Explained(p, history)
    ensures Step(size, p, value).Consumed? ==> Explained(Step(size, p, value).next, history + [value])
  {
    StepGrowsTrail(size, p, value);
    hide Step, Shape, EndsWith;
    var s := Step(size, p, value);
    if s.Consumed? {
      if s.next.state == Idle {
        EndsWithNothing(history + [value]);
      } else if !Stuck(s.next) {
        TrailGrows(history, Trail(p), value);
      }
    }
  }

  lemma ResetIsSound(size: nat, history: seq<byte>)
    requires size > 0
    ensures Shape(size, RESET) && Explained(RESET, history)
  {
  }

  lemma {:induction false} ScanSound(size: nat, p: Parser, data: seq<byte>, history: seq<byte>)
    requires size > 0 && Shape(size, p) && Explained(p, history)
    ensures var (q, n) := Scan(size, p, data);
            Shape(size, q) && Explained(q, history + data[..n])
    decreases |data|
  {
    hide Step, Shape, Explained;
    ResetIsSound(size, history + data[..0]);
    var (q, n) := Scan(size, p, data);
    if data == [] || p.state == Done {
      assert history + data[..n] == history;
    } else {
      StepKeepsShape(size, p, data[0]);
      StepExplained(size, p, data[0], history);
      var s := Step(size, p, data[0]);
      if s.Consumed? {
        ScanSound(size, s.next, data[1..], history + [data[0]]);
        assert history + data[..n] == history + [data[0]] + data[1..][..n - 1];
      }
    }
  }

  lemma UpdateSound(size: nat, p: Parser, data: seq<byte>, history: seq<byte>)
    requires size > 0 && Shape(size, p) && Explained(p, history)
    ensures var (q, n) := Update(size, p, data);
            Shape(size, q) && Explained(q, history + data[..n])
  {
    ScanSound(size, if p.state == Done then RESET else p, data, history);
  }

  // A client's history: calls of `update` with any bytes, and of `reset`, in any order.
  datatype Call = UpdateCall(data: seq<byte>) | ResetCall

  // The parser after a history, and all the bytes its calls reported as parsed.
  ghost function Replay(size: nat, calls: seq<Call>): (Parser, seq<byte>) {
    if calls == [] then (RESET, [])
    else
      var (p, parsed) := Replay(size, calls[..|calls| - 1]);
      match calls[|calls| - 1]
      case ResetCall => (RESET, parsed)
      case UpdateCall(data) => var (q, n) := Update(size, p, data); (q, parsed + data[..n])
  }

  lemma {:induction false} ReplaySound(size: nat, calls: seq<Call>)
    requires size > 0
    ensures Shape(size, Replay(size, calls).0) && Explained(Replay(size, calls).0, Replay(size, calls).1)
  {
    if calls != [] {
      var earlier := calls[..|calls| - 1];
      ReplaySound(size, earlier);
      var (p, parsed) := Replay(size, earlier);
      match calls[|calls| - 1]
      case ResetCall =>
      case UpdateCall(data) => UpdateSound(size, p, data, parsed);
    }
  }

  /**
    After any history: the fill position is inside the buffer; and when the parser is Done, what it
    holds has a known type and the length its type and length byte prescribe, and the last bytes
    parsed were exactly that content framed by `create`.
  */
  lemma DoneIsAFrame(size: nat, calls: seq<Call>)
    requires size > 0
    ensures var (p, parsed) := Replay(size, calls);
            && |p.content| < size
            && (p.state == Done ==> WellFormed(p.content) && EndsWith(parsed, Frame(p.content)))
  {
    ReplaySound(size, calls);
  }

  lemma {:induction false} ScanKeepsShape(size: nat, p: Parser, data: seq<byte>)
    requires size > 0 && Shape(size, p)
    ensures Shape(size, Scan(size, p, data).0)
    decreases |data|
  {
    if data != [] && p.state != Done {
      StepKeepsShape(size, p, data[0]);
      var s := Step(size, p, data[0]);
      if s.Consumed? {
        ScanKeepsShape(size, s.next, data[1..]);
      }
    }
  }

  /** A handler is only ever given well-formed messages shorter than its buffer. */
  lemma {:induction false} FedMessagesAreWellFormed(size: nat, p: Parser, data: seq<byte>)
    requires size > 0 && Shape(size, p)
    ensures Shape(size, Feed(size, p, data).0)
    ensures forall m :: m in Feed(size, p, data).1 ==> WellFormed(m) && |m| < size
    decreases |data|
  {
    if data != [] {
      var (q, n) := Update(size, p, data);
      ScanKeepsShape(size, if p.state == Done then RESET else p, data);
      if n != 0 {
        FedMessagesAreWellFormed(size, if q.state == Done then RESET else q, data[n..]);
      }
    }
  }
}
