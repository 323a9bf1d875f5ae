/** Reading a received message back out of its packed layout (RsHandler.hpp, `process`). */
module Codec {
  import opened Bytes
  import opened Messages

  function UIntAt(s: seq<byte>, at: nat, n: nat): (x: nat)
    requires at + n <= |s|
    ensures x < Power(n)
  {
    FromLittleEndianBound(s[at..at + n]);
    FromLittleEndian(s[at..at + n])
  }

  function UInt16At(s: seq<byte>, at: nat): uint16
    requires at + 2 <= |s|
  {
    assert Power(2) == 0x1_0000;
    UIntAt(s, at, 2)
  }

  lemma PowerOfEight()
    ensures Power(8) == 0x1_0000_0000_0000_0000
  {
    assert Power(4) == 0x1_0000_0000;
    PowerAdds(4, 4);
  }

  function UInt64At(s: seq<byte>, at: nat): uint64
    requires at + 8 <= |s|
  {
    PowerOfEight();
    UIntAt(s, at, 8)
  }

  function UInt32At(s: seq<byte>, at: nat): uint32
    requires at + 4 <= |s|
  {
    assert Power(4) == 0x1_0000_0000;
    UIntAt(s, at, 4)
  }

  function VersionAt(s: seq<byte>, at: nat): DeviceVersion
    requires at + 16 <= |s|
  {
    DeviceVersion(s[at], s[at + 1], s[at + 2], s[at + 3], UInt32At(s, at + 4), UInt64At(s, at + 8))
  }

  // The counted tail of a length-prefixed message whose fixed part is `base` bytes long.
  function TailAt(s: seq<byte>, base: nat): Blob
    requires 0 < base <= |s| && |s| == base + s[base - 1]
  {
    s[base..]
  }

  function DecodeBody(s: seq<byte>): Body
    requires WellFormed(s)
  {
    var t := s[2];
    if t == PROBE then Probe
    else if t == ACK then Ack(s[4])
    else if t == COMMAND then Command(s[4], s[5])
    else if t == BLOB_REQUEST then BlobRequest(s[4], s[5])
    else if t == BLOB_ANSWER then BlobAnswer(s[4], TailAt(s, 7))
    else if t == DEVICE_INFO_REQ then DeviceInfoReq
    else if t == DEVICE_INFO_ANW then DeviceInfoAnw(VersionAt(s, 4), TailAt(s, 21))
    else if t == FILE_WRITE_REQUEST then FileWriteRequest(s[4], UInt32At(s, 5))
    else if t == FILE_WRITE_CHUNK then FileWriteChunk(s[4], TailAt(s, 6))
    else if t == FILE_WRITE_FINALIZE then FileWriteFinalize(s[4], UInt16At(s, 5), UInt64At(s, 7))
    else if t == HEALTH_REQ then HealthReq
    else if t == HEALTH_ANW then HealthAnw(s[4], UInt16At(s, 6))
    else Reboot(UInt64At(s, 4))
  }

  function Decode(s: seq<byte>): Message
    requires WellFormed(s)
  {
    Message(s[0], s[1], s[3], DecodeBody(s))
  }

  lemma UIntRoundTrip(s: seq<byte>, at: nat, n: nat, x: nat)
    requires at + n <= |s| && s[at..at + n] == LittleEndian(x, n) && x < Power(n)
    ensures UIntAt(s, at, n) == x
  {
    LittleEndianRoundTrip(x, n);
  }

  /** An encoded message is well formed exactly when it is not a length-prefixed one with nothing to carry. */
  lemma EncodedIsWellFormed(m: Message, pad: byte)
    ensures WellFormed(Encode(m, pad)) <==> (IsVolatile(m.body) ==> Tail(m.body) != [])
  {
    var s, p := Encode(m, pad), FixedPayload(m.body, pad);
    assert s[2] == TypeOf(m.body);
    assert |s| == HEADER_SIZE + |p| + |Tail(m.body)|;
    if IsVolatile(m.body) {
      assert s[HEADER_SIZE + |p| - 1] == p[|p| - 1];
    }
  }

  lemma FieldsOf(m: Message, pad: byte)
    ensures var s := Encode(m, pad);
            var p := FixedPayload(m.body, pad);
            && |s| == HEADER_SIZE + |p| + |Tail(m.body)|
            && s[0] == m.receiver && s[1] == m.transmitter && s[2] == TypeOf(m.body) && s[3] == m.number
            && s[4..4 + |p|] == p && s[4 + |p|..] == Tail(m.body)
            && forall i :: 0 <= i < |p| ==> s[4 + i] == p[i]
  {
  }

  lemma VersionRoundTrip(m: Message, pad: byte)
    requires m.body.DeviceInfoAnw?
    ensures VersionAt(Encode(m, pad), 4) == m.body.version
  {
    var s, v := Encode(m, pad), m.body.version;
    FieldsOf(m, pad);
    var p := VersionBytes(v);
    assert s[4..20] == p by { assert FixedPayload(m.body, pad)[..16] == p; }
    assert s[8..12] == p[4..8] == LittleEndian(v.swRevision, 4);
    assert s[12..20] == p[8..16] == LittleEndian(v.hash, 8);
    PowerOfEight();
    assert Power(4) == 0x1_0000_0000;
    UIntRoundTrip(s, 8, 4, v.swRevision);
    UIntRoundTrip(s, 12, 8, v.hash);
  }

  lemma FinalizeRoundTrip(m: Message, pad: byte)
    requires m.body.FileWriteFinalize?
    ensures UInt16At(Encode(m, pad), 5) == m.body.chunks && UInt64At(Encode(m, pad), 7) == m.body.crc
  {
    var s, p := Encode(m, pad), FixedPayload(m.body, pad);
    FieldsOf(m, pad);
    assert s[5..7] == p[1..3] == LittleEndian(m.body.chunks, 2);
    assert s[7..15] == p[3..11] == LittleEndian(m.body.crc, 8);
    PowerOfEight();
    assert Power(2) == 0x1_0000;
    UIntRoundTrip(s, 5, 2, m.body.chunks);
    UIntRoundTrip(s, 7, 8, m.body.crc);
  }

  /** Decoding an encoded message gives back every field, whatever the uninitialised bytes held. */
  lemma DecodeEncode(m: Message, pad: byte)
    requires WellFormed(Encode(m, pad))
    ensures Decode(Encode(m, pad)) == m
  {
    hide UIntAt;
    var s, p := Encode(m, pad), FixedPayload(m.body, pad);
    FieldsOf(m, pad);
    match m.body
    case DeviceInfoAnw(_, _) => VersionRoundTrip(m, pad);
    case FileWriteFinalize(_, _, _) => FinalizeRoundTrip(m, pad);
    case FileWriteRequest(_, size) =>
      assert s[5..9] == p[1..5] == LittleEndian(size, 4);
      assert Power(4) == 0x1_0000_0000;
      UIntRoundTrip(s, 5, 4, size);
    case HealthAnw(_, flags) =>
      assert s[6..8] == p[2..4] == LittleEndian(flags, 2);
      assert Power(2) == 0x1_0000;
      UIntRoundTrip(s, 6, 2, flags);
    case Reboot(magic) =>
      assert s[4..12] == LittleEndian(magic, 8);
      PowerOfEight();
      UIntRoundTrip(s, 4, 8, magic);
    case _ =>
  }
}
