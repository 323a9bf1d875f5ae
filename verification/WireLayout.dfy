/**
  The packed layouts byte by byte, in plain numbers: what every message looks like on the wire, apart from
  how it is encoded and decoded here.
*/
module WireLayout {
  import opened Bytes
  import opened Messages
  import opened Codec
  import opened ParserSpec
  import Crc8

  // ----- numbers, least significant byte first -----

  ghost function Digit(s: seq<byte>, i: nat): nat
    requires i < |s|
  {
    s[i]
  }

  ghost predicate Holds2(s: seq<byte>, at: nat, x: nat) {
    at + 2 <= |s| && x == Digit(s, at) + 0x100 * Digit(s, at + 1)
  }

  ghost predicate Holds4(s: seq<byte>, at: nat, x: nat) {
    && at + 4 <= |s|
    && x == Digit(s, at) + 0x100 * Digit(s, at + 1) + 0x1_0000 * Digit(s, at + 2) + 0x100_0000 * Digit(s, at + 3)
  }

  ghost predicate Holds8(s: seq<byte>, at: nat, x: nat) {
    && at + 8 <= |s|
    && x == Digit(s, at) + 0x100 * Digit(s, at + 1) + 0x1_0000 * Digit(s, at + 2) + 0x100_0000 * Digit(s, at + 3)
            + 0x1_0000_0000 * Digit(s, at + 4) + 0x100_0000_0000 * Digit(s, at + 5)
            + 0x1_0000_0000_0000 * Digit(s, at + 6) + 0x100_0000_0000_0000 * Digit(s, at + 7)
  }

  lemma FourBytes(s: seq<byte>)
    requires |s| >= 4
    ensures FromLittleEndian(s)
            == s[0] + 0x100 * s[1] + 0x1_0000 * s[2] + 0x100_0000 * s[3] + 0x1_0000_0000 * FromLittleEndian(s[4..])
  {
    assert s[1..][1..] == s[2..] && s[2..][1..] == s[3..] && s[3..][1..] == s[4..];
    assert FromLittleEndian(s) == s[0] + 0x100 * FromLittleEndian(s[1..]);
    assert FromLittleEndian(s[1..]) == s[1] + 0x100 * FromLittleEndian(s[2..]);
    assert FromLittleEndian(s[2..]) == s[2] + 0x100 * FromLittleEndian(s[3..]);
    assert FromLittleEndian(s[3..]) == s[3] + 0x100 * FromLittleEndian(s[4..]);
  }

  lemma TwoBytesHold(s: seq<byte>, at: nat, x: uint16)
    requires at + 2 <= |s| && s[at..at + 2] == LittleEndian(x, 2)
    ensures Holds2(s, at, x)
  {
    assert Power(2) == 0x1_0000;
    LittleEndianRoundTrip(x, 2);
    var t := s[at..at + 2];
    assert t[1..][1..] == [];
    assert FromLittleEndian(t[1..]) == t[1] + 0x100 * FromLittleEndian([]);
  }

  lemma FourBytesHold(s: seq<byte>, at: nat, x: uint32)
    requires at + 4 <= |s| && s[at..at + 4] == LittleEndian(x, 4)
    ensures Holds4(s, at, x)
  {
    assert Power(4) == 0x1_0000_0000;
    LittleEndianRoundTrip(x, 4);
    FourBytes(s[at..at + 4]);
    assert s[at..at + 4][4..] == [];
  }

  lemma EightBytesHold(s: seq<byte>, at: nat, x: uint64)
    requires at + 8 <= |s| && s[at..at + 8] == LittleEndian(x, 8)
    ensures Holds8(s, at, x)
  {
    PowerOfEight();
    LittleEndianRoundTrip(x, 8);
    var t := s[at..at + 8];
    FourBytes(t);
    FourBytes(t[4..]);
    assert t[4..][4..] == [];
  }

  // ----- the messages -----

  ghost predicate VersionLayout(s: seq<byte>, at: nat, v: DeviceVersion) {
    && at + 16 <= |s|
    && s[at] == v.reserved && s[at + 1] == v.hwRevision && s[at + 2] == v.swMajor && s[at + 3] == v.swMinor
    && Holds4(s, at + 4, v.swRevision) && Holds8(s, at + 8, v.hash)
  }

  // Type byte, length and payload; bytes that are not mentioned are reserved.
  ghost predicate BodyLayout(s: seq<byte>, body: Body)
    requires |s| >= 4
  {
    match body
    case Probe => s[2] == 0 && |s| == 5 && s[4] == 0xFF
    case Ack(code) => s[2] == 1 && |s| == 5 && s[4] == code
    case Command(command, value) => s[2] == 2 && |s| == 7 && s[4] == command && s[5] == value
    case BlobRequest(request, size) => s[2] == 3 && |s| == 6 && s[4] == request && s[5] == size
    case BlobAnswer(request, data) =>
      s[2] == 4 && |s| == 7 + |data| && s[4] == request && s[6] == |data| && s[7..] == data
    case DeviceInfoReq => s[2] == 5 && |s| == 5
    case DeviceInfoAnw(version, name) =>
      s[2] == 6 && |s| == 21 + |name| && VersionLayout(s, 4, version) && s[20] == |name| && s[21..] == name
    case FileWriteRequest(file, size) => s[2] == 7 && |s| == 9 && s[4] == file && Holds4(s, 5, size)
    case FileWriteChunk(file, chunk) =>
      s[2] == 8 && |s| == 6 + |chunk| && s[4] == file && s[5] == |chunk| && s[6..] == chunk
    case FileWriteFinalize(file, chunks, crc) =>
      s[2] == 9 && |s| == 15 && s[4] == file && Holds2(s, 5, chunks) && Holds8(s, 7, crc)
    case HealthReq => s[2] == 10 && |s| == 5
    case HealthAnw(health, flags) => s[2] == 11 && |s| == 8 && s[4] == health && Holds2(s, 6, flags)
    case Reboot(magic) => s[2] == 12 && |s| == 12 && Holds8(s, 4, magic)
  }

  lemma VersionIsLaidOut(m: Message, pad: byte)
    requires m.body.DeviceInfoAnw?
    ensures VersionLayout(Encode(m, pad), 4, m.body.version)
  {
    var s, v := Encode(m, pad), m.body.version;
    FieldsOf(m, pad);
    var p := VersionBytes(v);
    assert s[4..20] == p by { assert FixedPayload(m.body, pad)[..16] == p; }
    assert forall i :: 0 <= i < 16 ==> s[4..20][i] == s[4 + i];
    assert s[8..12] == p[4..8] == LittleEndian(v.swRevision, 4);
    assert s[12..20] == p[8..16] == LittleEndian(v.hash, 8);
    hide Encode, LittleEndian, FixedPayload;
    FourBytesHold(s, 8, v.swRevision);
    EightBytesHold(s, 12, v.hash);
  }

  lemma NumbersAreLaidOut(m: Message, pad: byte)
    ensures var s := Encode(m, pad);
            match m.body
            case FileWriteRequest(_, size) => Holds4(s, 5, size)
            case FileWriteFinalize(_, chunks, crc) => Holds2(s, 5, chunks) && Holds8(s, 7, crc)
            case HealthAnw(_, flags) => Holds2(s, 6, flags)
            case Reboot(magic) => Holds8(s, 4, magic)
            case _ => true
  {
    var s, p := Encode(m, pad), FixedPayload(m.body, pad);
    FieldsOf(m, pad);
    hide Encode, Holds2, Holds4, Holds8;
    match m.body
    case FileWriteRequest(_, size) =>
      assert s[5..9] == p[1..5] == LittleEndian(size, 4);
      FourBytesHold(s, 5, size);
    case FileWriteFinalize(_, chunks, crc) =>
      assert s[5..7] == p[1..3] == LittleEndian(chunks, 2);
      assert s[7..15] == p[3..11] == LittleEndian(crc, 8);
      TwoBytesHold(s, 5, chunks);
      EightBytesHold(s, 7, crc);
    case HealthAnw(_, flags) =>
      assert s[6..8] == p[2..4] == LittleEndian(flags, 2);
      TwoBytesHold(s, 6, flags);
    case Reboot(magic) =>
      assert s[4..12] == LittleEndian(magic, 8);
      EightBytesHold(s, 4, magic);
    case _ =>
  }

  /** Every message is laid out as the packed structs say: header, type number, length and every field. */
  lemma MessageLayout(m: Message, pad: byte)
    ensures var s := Encode(m, pad);
            |s| >= 4 && s[0] == m.receiver && s[1] == m.transmitter && s[3] == m.number && BodyLayout(s, m.body)
  {
    FieldsOf(m, pad);
    NumbersAreLaidOut(m, pad);
    if m.body.DeviceInfoAnw? {
      VersionIsLaidOut(m, pad);
      assert FixedPayload(m.body, pad)[16] == |m.body.name|;
    }
    hide Encode, LittleEndian, Holds2, Holds4, Holds8, VersionLayout;
  }

  /** A frame is the letter R, the message, and the message's checksum, which starts from zero. */
  lemma FrameLayout(content: seq<byte>)
    ensures var f := Frame(content);
            && |f| == |content| + 2 && f[0] == 0x52 && f[1..|content| + 1] == content
            && f[|content| + 1] == Crc8.Register(0, content)
  {
  }
}
