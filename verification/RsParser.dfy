/** The parser object of RsParser.hpp: a fixed buffer, a fill position and the automaton's state. */
module RsParser {
  import opened Bytes
  import opened Messages
  import opened ParserSpec
  import Crc8

  class RsParser {
    const buffer: array<byte>
    var position: nat
    var parserState: State
    var msgType: byte
    var chunkSize: nat

    ghost predicate Valid()
      reads this
    {
      position < buffer.Length
    }

    ghost function View(): Parser
      reads this, buffer
      requires Valid()
    {
      Parser(parserState, buffer[..position], msgType, chunkSize)
    }

    constructor (bufferSize: nat)
      requires bufferSize > 0
      ensures Valid() && View() == RESET
      ensures fresh(buffer) && buffer.Length == bufferSize
    {
      buffer := new byte[bufferSize](_ => 0);
      position, parserState, msgType, chunkSize := 0, Idle, PROBE, 0;
    }

    method Reset()
      requires buffer.Length > 0
      modifies this
      ensures Valid() && View() == RESET
    {
      position, parserState, msgType, chunkSize := 0, Idle, PROBE, 0;
    }

    // Writes the byte at the fill position; the position may now be one past the buffer.
    method Store(value: byte)
      requires Valid()
      modifies this`position, buffer
      ensures position == old(position) + 1 <= buffer.Length
      ensures buffer[..position] == old(buffer[..position]) + [value]
    {
      buffer[position] := value;
      position := position + 1;
    }

    // The body of the loop in `update`.
    method StepInPlace(value: byte) returns (rejected: bool)
      requires Valid()
      modifies this, buffer
      ensures Valid()
      ensures old(Step(buffer.Length, View(), value)) == if rejected then Rejected else Consumed(View())
      ensures rejected ==> View() == RESET
    {
      ghost var p := View();
      match parserState {
        case Idle =>
          if value == PREAMBLE {
            parserState := Header;
          }
        case Header =>
          if position >= HEADER_SIZE {
            Reset();
            return true;
          }
          Store(value);
          if position == 3 {
            msgType := value;
          }
          if position == HEADER_SIZE {
            if msgType >= TYPE_END {
              Reset();
              return true;
            }
            if MessageSizeByType(msgType) != 0 {
              parserState := ConstPayload;
            } else {
              parserState := VolatilePayload;
            }
          }
        case ConstPayload =>
          var messageSize := MessageSizeByType(msgType);
          if position >= messageSize {
            Reset();
            return true;
          }
          Store(value);
          if position == messageSize {
            parserState := State.Crc;
          }
        case VolatilePayload =>
          var baseSize := VolatileBaseSize(msgType);
          var payloadMaxSize := VolatileMaxPayload(msgType);
          if baseSize == 0 || payloadMaxSize == 0 {
            Reset();
            return true;
          }
          if position < baseSize {
            Store(value);
            if position == baseSize {
              chunkSize := value;
            }
          } else if position < baseSize + payloadMaxSize {
            Store(value);
            if position == baseSize + chunkSize {
              parserState := State.Crc;
            }
          }
        case Crc =>
          var crc := Crc8.Calculate(buffer[..position]);
          if crc == value {
            parserState := Done;
          } else {
            Reset();
          }
        case Done =>
      }
      if position >= buffer.Length {
        Reset();
        return true;
      }
      return false;
    }

    /** `update`: scans a fragment up to the end of a frame, the first rejected byte, or its own end. */
    method Update(data: seq<byte>) returns (parsed: nat)
      requires Valid()
      modifies this, buffer
      ensures Valid()
      ensures (View(), parsed) == ParserSpec.Update(buffer.Length, old(View()), data)
    {
      if parserState == Done {
        Reset();
      }
      ghost var start := View();
      var i := 0;
      while i < |data|
        invariant 0 <= i <= |data|
        invariant Valid()
        invariant var whole := Scan(buffer.Length, start, data);
                  var rest := Scan(buffer.Length, View(), data[i..]);
                  whole.0 == rest.0 && whole.1 == i + rest.1
      {
        if parserState == Done {
          return i;
        }
        assert data[i..][1..] == data[i + 1..];
        var rejected := StepInPlace(data[i]);
        if rejected {
          return i;
        }
        i := i + 1;
      }
      return |data|;
    }
  }

  // Copies a message to one byte into the target, where it may lie already.
  method CopyMessage(target: array<byte>, source: array<byte>, from: nat, length: nat)
    requires from + length <= source.Length && length < target.Length
    requires source == target ==> from == 1
    modifies target
    ensures target[0] == old(target[0])
    ensures target[1..length + 1] == old(source[from..from + length])
  {
    ghost var message := source[from..from + length];
    for i := 0 to length
      invariant target[0] == old(target[0])
      invariant forall k :: 1 <= k <= i ==> target[k] == message[k - 1]
      invariant forall k :: from + i <= k < from + length ==> source[k] == message[k - from]
    {
      target[1 + i] := source[from + i];
    }
  }

  /**
    `create`: writes preamble, message and checksum into `target`. The message is the `length` bytes of
    `source` from `from` on; a sender may have laid it out in `target` itself, one byte in.
  */
  method Create(target: array<byte>, source: array<byte>, from: nat, length: nat) returns (total: nat)
    requires from + length <= source.Length
    requires length + 2 <= target.Length
    requires source == target ==> from == 1
    modifies target
    ensures total == length + 2
    ensures target[..total] == Frame(old(source[from..from + length]))
  {
    target[0] := PREAMBLE;
    assert source[from..from + length] == old(source[from..from + length]);
    CopyMessage(target, source, from, length);
    var crc := Crc8.Calculate(target[1..length + 1]);
    target[length + 1] := crc;
    assert target[..length + 2] == [target[0]] + target[1..length + 1] + [target[length + 1]];
    return length + 2;
  }
}
