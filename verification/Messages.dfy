/** Message types, their packed layouts (RsTypes.hpp) and the frame grammar (RsHelpers.hpp). */
module Messages {
  import opened Bytes

  const RESERVED_UID: byte := 0xFF

  const PROBE: byte := 0
  const ACK: byte := 1
  const COMMAND: byte := 2
  const BLOB_REQUEST: byte := 3
  const BLOB_ANSWER: byte := 4
  const DEVICE_INFO_REQ: byte := 5
  const DEVICE_INFO_ANW: byte := 6
  const FILE_WRITE_REQUEST: byte := 7
  const FILE_WRITE_CHUNK: byte := 8
  const FILE_WRITE_FINALIZE: byte := 9
  const HEALTH_REQ: byte := 10
  const HEALTH_ANW: byte := 11
  const REBOOT: byte := 12
  const TYPE_END: byte := 13

  // Result codes; any other byte is a client's own code.
  const OK: byte := 0
  const ERROR: byte := 1
  const WAIT: byte := 2
  const BUSY: byte := 3
  const UNSUPPORTED: byte := 6

  datatype Option<+T> = None | Some(value: T)

  // ----- the frame grammar: sizes of header plus payload -----

  const HEADER_SIZE := 4

  function MessageSizeByType(t: byte): nat {
    if t == ACK || t == PROBE || t == DEVICE_INFO_REQ || t == HEALTH_REQ then 5
    else if t == BLOB_REQUEST then 6
    else if t == COMMAND then 7
    else if t == HEALTH_ANW then 8
    else if t == FILE_WRITE_REQUEST then 9
    else if t == REBOOT then 12
    else if t == FILE_WRITE_FINALIZE then 15
    else 0
  }

  function VolatileBaseSize(t: byte): nat {
    if t == BLOB_ANSWER then 7 else if t == FILE_WRITE_CHUNK then 6 else if t == DEVICE_INFO_ANW then 21 else 0
  }

  function VolatileMaxPayload(t: byte): nat {
    if t == BLOB_ANSWER || t == FILE_WRITE_CHUNK || t == DEVICE_INFO_ANW then 0xFF else 0
  }

  // Header and payload of a frame a receiver can accept: a known type, and the length its
  // type (and, for the length-prefixed types, its own non-zero length byte) prescribes.
  predicate WellFormed(m: seq<byte>) {
    && HEADER_SIZE <= |m|
    && m[2] < TYPE_END
    && var fixed := MessageSizeByType(m[2]);
       if fixed != 0 then |m| == fixed
       else
         var base := VolatileBaseSize(m[2]);
         base <= |m| && m[base - 1] != 0 && |m| == base + m[base - 1]
  }

  // ----- messages -----

  type Blob = s: seq<byte> | |s| < 0x100

  datatype DeviceVersion = DeviceVersion(
    reserved: byte, hwRevision: byte, swMajor: byte, swMinor: byte, swRevision: uint32, hash: uint64)

  datatype Body =
    | Probe
    | Ack(code: byte)
    | Command(command: byte, value: byte)
    | BlobRequest(request: byte, answerSize: byte)
    | BlobAnswer(request: byte, data: Blob)
    | DeviceInfoReq
    | DeviceInfoAnw(version: DeviceVersion, name: Blob)
    | FileWriteRequest(file: byte, size: uint32)
    | FileWriteChunk(file: byte, chunk: Blob)
    | FileWriteFinalize(file: byte, chunks: uint16, crc: uint64)
    | HealthReq
    | HealthAnw(health: byte, flags: uint16)
    | Reboot(magic: uint64)

  datatype Message = Message(receiver: byte, transmitter: byte, number: byte, body: Body)

  function TypeOf(b: Body): (t: byte)
    ensures t < TYPE_END
  {
    match b
    case Probe => PROBE
    case Ack(_) => ACK
    case Command(_, _) => COMMAND
    case BlobRequest(_, _) => BLOB_REQUEST
    case BlobAnswer(_, _) => BLOB_ANSWER
    case DeviceInfoReq => DEVICE_INFO_REQ
    case DeviceInfoAnw(_, _) => DEVICE_INFO_ANW
    case FileWriteRequest(_, _) => FILE_WRITE_REQUEST
    case FileWriteChunk(_, _) => FILE_WRITE_CHUNK
    case FileWriteFinalize(_, _, _) => FILE_WRITE_FINALIZE
    case HealthReq => HEALTH_REQ
    case HealthAnw(_, _) => HEALTH_ANW
    case Reboot(_) => REBOOT
  }

  // The bytes that follow the fixed part of a length-prefixed message.
  function Tail(b: Body): Blob {
    match b
    case BlobAnswer(_, data) => data
    case DeviceInfoAnw(_, name) => name
    case FileWriteChunk(_, chunk) => chunk
    case _ => []
  }

  predicate IsVolatile(b: Body) {
    b.BlobAnswer? || b.DeviceInfoAnw? || b.FileWriteChunk?
  }

  // ----- layout -----

  function LittleEndian(x: nat, n: nat): (s: seq<byte>)
    ensures |s| == n
  {
    if n == 0 then [] else [x % 0x100] + LittleEndian(x / 0x100, n - 1)
  }

  function FromLittleEndian(s: seq<byte>): nat {
    if s == [] then 0 else s[0] + 0x100 * FromLittleEndian(s[1..])
  }

  function Power(n: nat): (p: nat)
    ensures p > 0
  {
    if n == 0 then 1 else 0x100 * Power(n - 1)
  }

  lemma {:induction false} LittleEndianRoundTrip(x: nat, n: nat)
    requires x < Power(n)
    ensures FromLittleEndian(LittleEndian(x, n)) == x
  {
    if n > 0 {
      assert x / 0x100 < Power(n - 1);
      LittleEndianRoundTrip(x / 0x100, n - 1);
      assert LittleEndian(x, n)[1..] == LittleEndian(x / 0x100, n - 1);
    }
  }

  lemma {:induction false} FromLittleEndianBound(s: seq<byte>)
    ensures FromLittleEndian(s) < Power(|s|)
  {
    if s != [] {
      FromLittleEndianBound(s[1..]);
    }
  }

  function VersionBytes(v: DeviceVersion): (s: seq<byte>)
    ensures |s| == 16
  {
    [v.reserved, v.hwRevision, v.swMajor, v.swMinor] + LittleEndian(v.swRevision, 4) + LittleEndian(v.hash, 8)
  }

  // The fixed part of the payload. `pad` stands for a field the sender leaves uninitialised.
  function FixedPayload(b: Body, pad: byte): (s: seq<byte>)
    ensures HEADER_SIZE + |s| == if IsVolatile(b) then VolatileBaseSize(TypeOf(b)) else MessageSizeByType(TypeOf(b))
    ensures IsVolatile(b) ==> s[|s| - 1] == |Tail(b)|
  {
    match b
    case Probe => [0xFF]
    case Ack(code) => [code]
    case Command(command, value) => [command, value, pad]
    case BlobRequest(request, answerSize) => [request, answerSize]
    case BlobAnswer(request, data) => [request, pad, |data|]
    case DeviceInfoReq => [pad]
    case DeviceInfoAnw(version, name) => VersionBytes(version) + [|name|]
    case FileWriteRequest(file, size) => [file] + LittleEndian(size, 4)
    case FileWriteChunk(file, chunk) => [file, |chunk|]
    case FileWriteFinalize(file, chunks, crc) => [file] + LittleEndian(chunks, 2) + LittleEndian(crc, 8)
    case HealthReq => [pad]
    case HealthAnw(health, flags) => [health, pad] + LittleEndian(flags, 2)
    case Reboot(magic) => LittleEndian(magic, 8)
  }

  function FixedPart(m: Message, pad: byte): seq<byte> {
    [m.receiver, m.transmitter, TypeOf(m.body), m.number] + FixedPayload(m.body, pad)
  }

  // The length of a message without its preamble and its checksum.
  function ContentLength(b: Body): nat {
    (if IsVolatile(b) then VolatileBaseSize(TypeOf(b)) else MessageSizeByType(TypeOf(b))) + |Tail(b)|
  }

  function Encode(m: Message, pad: byte): seq<byte> {
    FixedPart(m, pad) + Tail(m.body)
  }

  lemma EncodedLength(m: Message, pad: byte)
    ensures |Encode(m, pad)| == ContentLength(m.body)
  {
  }

  lemma {:induction false} PowerAdds(a: nat, b: nat)
    ensures Power(a + b) == Power(a) * Power(b)
  {
    if a > 0 {
      PowerAdds(a - 1, b);
      assert Power(a + b) == 0x100 * (Power(a - 1) * Power(b)) == (0x100 * Power(a - 1)) * Power(b);
    }
  }
}
