/**
  What the incremental parser of RsParser.hpp does, as functions: one byte (`Step`), one call of
  `update` (`Scan`), and the loop with which a handler feeds a fragment to it (`Feed`).
*/
module ParserSpec {
  import opened Bytes
  import opened Messages
  import Crc8

  const PREAMBLE: byte := 0x52 // 'R'

  datatype State = Idle | Header | ConstPayload | VolatilePayload | Crc | Done

  // `content` is the filled part of the parser's buffer.
  datatype Parser = Parser(state: State, content: seq<byte>, msgType: byte, chunkSize: nat)

  const RESET := Parser(Idle, [], PROBE, 0)

  // A byte is consumed, or it is rejected: the parser is reset and `update` returns without counting it.
  datatype Stepped = Consumed(next: Parser) | Rejected

  function Append(p: Parser, value: byte): Parser {
    p.(content := p.content + [value])
  }

  function HeaderStep(p: Parser, value: byte): Stepped {
    if |p.content| >= HEADER_SIZE then Rejected
    else
      var q := Append(p, value);
      var typed := if |q.content| == 3 then q.(msgType := value) else q;
      if |q.content| < HEADER_SIZE then Consumed(typed)
      else if typed.msgType >= TYPE_END then Rejected
      else if MessageSizeByType(typed.msgType) != 0 then Consumed(typed.(state := ConstPayload))
      else Consumed(typed.(state := VolatilePayload))
  }

  function ConstStep(p: Parser, value: byte): Stepped {
    var messageSize := MessageSizeByType(p.msgType);
    if |p.content| >= messageSize then Rejected
    else
      var q := Append(p, value);
      Consumed(if |q.content| == messageSize then q.(state := State.Crc) else q)
  }

  function VolatileStep(p: Parser, value: byte): Stepped {
    var baseSize := VolatileBaseSize(p.msgType);
    var payloadMaxSize := VolatileMaxPayload(p.msgType);
    if baseSize == 0 || payloadMaxSize == 0 then Rejected
    else if |p.content| < baseSize then
      var q := Append(p, value);
      // A length byte cannot exceed payloadMaxSize, so the source's check for that never fires.
      Consumed(if |q.content| == baseSize then q.(chunkSize := value) else q)
    else if |p.content| < baseSize + payloadMaxSize then
      var q := Append(p, value);
      Consumed(if |q.content| == baseSize + p.chunkSize then q.(state := State.Crc) else q)
    else
      Consumed(p)
  }

  // One iteration of the loop in `update`; `size` is BufferSize.
  function Step(size: nat, p: Parser, value: byte): Stepped {
    var s :=
      match p.state
      case Idle => Consumed(if value == PREAMBLE then p.(state := Header) else p)
      case Header => HeaderStep(p, value)
      case ConstPayload => ConstStep(p, value)
      case VolatilePayload => VolatileStep(p, value)
      case Crc => Consumed(if Crc8.Crc(p.content) == value then p.(state := Done) else RESET)
      case Done => Consumed(p);
    if s.Consumed? && |s.next.content| >= size then Rejected else s
  }

  // The loop of `update`: the parser it leaves and the number of bytes it reports as parsed.
  function Scan(size: nat, p: Parser, data: seq<byte>): (r: (Parser, nat))
    ensures r.1 <= |data|
    decreases |data|
  {
    if data == [] || p.state.Done? then (p, 0)
    else
      match Step(size, p, data[0])
      case Rejected => (RESET, 0)
      case Consumed(q) => var (last, n) := Scan(size, q, data[1..]); (last, n + 1)
  }

  function Update(size: nat, p: Parser, data: seq<byte>): (r: (Parser, nat))
    ensures r.1 <= |data|
  {
    Scan(size, if p.state.Done? then RESET else p, data)
  }

  // The loop of a handler's `update`: the messages handed to `process`, in order.
  // A call that parses nothing resets the parser and drops the rest of the fragment.
  function Feed(size: nat, p: Parser, data: seq<byte>): (r: (Parser, seq<seq<byte>>))
    decreases |data|
  {
    if data == [] then (p, [])
    else
      var (q, n) := Update(size, p, data);
      if n == 0 then (RESET, [])
      else if q.state.Done? then
        var (last, messages) := Feed(size, RESET, data[n..]);
        (last, [q.content] + messages)
      else
        Feed(size, q, data[n..])
  }

  // Fragments fed one after the other.
  function FeedAll(size: nat, p: Parser, fragments: seq<seq<byte>>): (r: (Parser, seq<seq<byte>>))
    decreases |fragments|
  {
    if fragments == [] then (p, [])
    else
      var (q, first) := Feed(size, p, fragments[0]);
      var (last, rest) := FeedAll(size, q, fragments[1..]);
      (last, first + rest)
  }

  // What `create` makes of a message's header and payload.
  function Frame(m: seq<byte>): seq<byte> {
    [PREAMBLE] + m + [Crc8.Crc(m)]
  }
}
