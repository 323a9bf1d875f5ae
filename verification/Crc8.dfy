/**
  The frame checksum of Crc8.hpp: a byte-wise table loop (`Calculate`) and a bit-serial loop (`Update`).
  Both are proved equal, on every input, to a third form, the right-shifting feedback register of
  x^8 + x^5 + x^4 + 1. The register's algebra then gives what a receiver relies on.
*/
module Crc8 {
  import opened Bytes
  import S = Crc8Steps

  // ----- byte operations -----

  function Xor(a: byte, b: byte): byte {
    ((a as bv8) ^ (b as bv8)) as byte
  }

  function Half(a: byte): byte {
    ((a as bv8) >> 1) as byte
  }

  function Table(i: byte): byte {
    S.Table(i as bv8) as byte
  }

  function SerialBit(crc: byte, value: byte): byte {
    S.SerialBit(crc as bv8, value as bv8) as byte
  }

  function Shift(x: byte): byte {
    S.Shift(x as bv8) as byte
  }

  // ----- the specification -----

  function Shifts(x: byte, n: nat): byte
    decreases n
  {
    if n == 0 then x else Shifts(Shift(x), n - 1)
  }

  // The register after a whole message.
  function Register(crc: byte, data: seq<byte>): byte
    decreases data
  {
    if data == [] then crc else Register(Shifts(Xor(crc, data[0]), 8), data[1..])
  }

  // The checksum a frame carries.
  function Crc(data: seq<byte>): byte {
    Register(0, data)
  }

  function SerialBits(crc: byte, value: byte, n: nat): byte
    decreases n
  {
    if n == 0 then crc else SerialBits(SerialBit(crc, value), Half(value), n - 1)
  }

  lemma RegisterStep(crc: byte, data: seq<byte>, i: nat)
    requires i < |data|
    ensures Register(crc, data[i..]) == Register(Shifts(Xor(crc, data[i]), 8), data[i + 1..])
  {
    hide Xor, Shift;
    assert data[i..][1..] == data[i + 1..];
  }

  // ----- laws of the byte operations, carried over from their bits -----

  ghost function Bits(a: byte): bv8 {
    a as bv8
  }

  lemma BitsOfByte(b: bv8)
    ensures Bits(b as byte) == b
  {
  }

  lemma NextBits(b: bv8)
    requires b as byte < 255
    ensures (b + 1) as byte == b as byte + 1
  {
  }

  lemma SomeBits(a: byte) returns (b: bv8)
    ensures b as byte == a
    decreases a
  {
    if a == 0 {
      b := 0;
    } else {
      b := SomeBits(a - 1);
      NextBits(b);
      b := b + 1;
    }
  }

  lemma ByteOfBits(a: byte)
    ensures Bits(a) as byte == a
  {
    var b := SomeBits(a);
    BitsOfByte(b);
  }

  lemma BitsInjective(a: byte, b: byte)
    requires Bits(a) == Bits(b)
    ensures a == b
  {
    ByteOfBits(a);
    ByteOfBits(b);
    hide Bits;
  }

  lemma BitsOfXor(a: byte, b: byte)
    ensures Bits(Xor(a, b)) == Bits(a) ^ Bits(b)
  {
    BitsOfByte((a as bv8) ^ (b as bv8));
  }

  lemma BitsOfHalf(a: byte)
    ensures Bits(Half(a)) == Bits(a) >> 1
  {
    BitsOfByte((a as bv8) >> 1);
  }

  lemma BitsOfShift(a: byte)
    ensures Bits(Shift(a)) == S.Shift(Bits(a))
  {
    BitsOfByte(S.Shift(a as bv8));
  }

  lemma BitsOfTable(a: byte)
    ensures Bits(Table(a)) == S.Table(Bits(a))
  {
    hide S.Table;
    BitsOfByte(S.Table(a as bv8));
  }

  lemma BitsOfSerialBit(crc: byte, value: byte)
    ensures Bits(SerialBit(crc, value)) == S.SerialBit(Bits(crc), Bits(value))
  {
    hide S.SerialBit;
    BitsOfByte(S.SerialBit(crc as bv8, value as bv8));
  }

  lemma XorCommutes(a: byte, b: byte)
    ensures Xor(a, b) == Xor(b, a)
  {
  }

  lemma XorAssociates(a: byte, b: byte, c: byte)
    ensures Xor(Xor(a, b), c) == Xor(a, Xor(b, c))
  {
    hide Bits, Xor;
    BitsOfXor(a, b);
    BitsOfXor(Xor(a, b), c);
    BitsOfXor(b, c);
    BitsOfXor(a, Xor(b, c));
    BitsInjective(Xor(Xor(a, b), c), Xor(a, Xor(b, c)));
  }

  lemma XorOfEqual(a: byte)
    ensures Xor(a, a) == 0 && Xor(a, 0) == a
  {
    ByteOfBits(a);
  }

  lemma XorCancels(a: byte, b: byte, c: byte)
    requires Xor(a, c) == Xor(b, c)
    ensures a == b
  {
    hide Xor;
    XorAssociates(a, c, c);
    XorAssociates(b, c, c);
    XorOfEqual(c);
    XorOfEqual(a);
    XorOfEqual(b);
  }

  lemma XorRegroups(a: byte, b: byte, c: byte, d: byte)
    ensures Xor(Xor(a, b), Xor(c, d)) == Xor(Xor(a, c), Xor(b, d))
  {
    hide Xor;
    XorAssociates(a, b, Xor(c, d));
    XorAssociates(b, c, d);
    XorCommutes(b, c);
    XorAssociates(c, b, d);
    XorAssociates(a, c, Xor(b, d));
  }

  lemma SerialBitSplits(crc: byte, value: byte)
    ensures Xor(SerialBit(crc, value), Half(value)) == Shift(Xor(crc, value))
  {
    hide Bits, Xor, Half, Shift, SerialBit, S.Shift, S.SerialBit;
    S.SerialBitSplits(Bits(crc), Bits(value));
    BitsOfXor(crc, value);
    BitsOfShift(Xor(crc, value));
    BitsOfSerialBit(crc, value);
    BitsOfHalf(value);
    BitsOfXor(SerialBit(crc, value), Half(value));
    BitsInjective(Xor(SerialBit(crc, value), Half(value)), Shift(Xor(crc, value)));
  }

  lemma ShiftLinear(x: byte, y: byte)
    ensures Shift(Xor(x, y)) == Xor(Shift(x), Shift(y))
  {
    hide Bits, Xor, Shift, S.Shift;
    S.ShiftLinear(Bits(x), Bits(y));
    BitsOfXor(x, y);
    BitsOfShift(Xor(x, y));
    BitsOfShift(x);
    BitsOfShift(y);
    BitsOfXor(Shift(x), Shift(y));
    BitsInjective(Shift(Xor(x, y)), Xor(Shift(x), Shift(y)));
  }

  lemma ShiftInjective(x: byte, y: byte)
    requires Shift(x) == Shift(y)
    ensures x == y
  {
    hide Bits, Shift, S.Shift;
    BitsOfShift(x);
    BitsOfShift(y);
    S.ShiftInjective(Bits(x), Bits(y));
    BitsInjective(x, y);
  }

  // ----- runs of shifts -----

  lemma {:induction false} ShiftsLinear(x: byte, y: byte, n: nat)
    ensures Shifts(Xor(x, y), n) == Xor(Shifts(x, n), Shifts(y, n))
    decreases n
  {
    hide Xor, Shift;
    if n > 0 {
      ShiftLinear(x, y);
      ShiftsLinear(Shift(x), Shift(y), n - 1);
    }
  }

  lemma {:induction false} ShiftsInjective(x: byte, y: byte, n: nat)
    requires Shifts(x, n) == Shifts(y, n)
    ensures x == y
    decreases n
  {
    hide Shift;
    if n > 0 {
      ShiftsInjective(Shift(x), Shift(y), n - 1);
      ShiftInjective(x, y);
    }
  }

  lemma {:induction false} ShiftsOfZero(n: nat)
    ensures Shifts(0, n) == 0
  {
    assert Shift(0) == 0;
    hide Shift;
    if n > 0 {
      ShiftsOfZero(n - 1);
    }
  }

  lemma {:induction false} ShiftsOneMore(x: byte, n: nat)
    ensures Shifts(x, n + 1) == Shift(Shifts(x, n))
    decreases n
  {
    hide Shift;
    if n > 0 {
      ShiftsOneMore(Shift(x), n - 1);
    }
  }

  // ----- the bit-serial loop body is eight shifts -----

  ghost function ShiftedOut(value: byte, n: nat): byte
    decreases n
  {
    if n == 0 then value else ShiftedOut(Half(value), n - 1)
  }

  lemma {:induction false} SerialBitsAreShifts(crc: byte, value: byte, n: nat)
    ensures SerialBits(crc, value, n) == Xor(Shifts(Xor(crc, value), n), ShiftedOut(value, n))
    decreases n
  {
    hide Xor, Shift, Half, SerialBit;
    if n > 0 {
      SerialBitSplits(crc, value);
      SerialBitsAreShifts(SerialBit(crc, value), Half(value), n - 1);
    } else {
      XorAssociates(crc, value, value);
      XorOfEqual(value);
      XorOfEqual(crc);
    }
  }

  lemma HalfOfBits(b: bv8)
    ensures (b >> 1) as byte == (b as byte) / 2
  {
  }

  lemma HalfHalves(a: byte)
    ensures Half(a) == a / 2
  {
    ByteOfBits(a);
    HalfOfBits(a as bv8);
  }

  lemma SerialIsShifts(crc: byte, value: byte)
    ensures SerialBits(crc, value, 8) == Shifts(Xor(crc, value), 8)
  {
    hide Xor, Shift, Half, SerialBit;
    SerialBitsAreShifts(crc, value, 8);
    var a, b, c, d := Half(value), Half(Half(value)), Half(Half(Half(value))), Half(Half(Half(Half(value))));
    HalfHalves(value);
    HalfHalves(a);
    HalfHalves(b);
    HalfHalves(c);
    assert ShiftedOut(value, 8) == ShiftedOut(b, 6) == ShiftedOut(d, 4);
    HalfHalves(d);
    HalfHalves(Half(d));
    HalfHalves(Half(Half(d)));
    HalfHalves(Half(Half(Half(d))));
    assert ShiftedOut(d, 4) == ShiftedOut(Half(Half(d)), 2) == 0;
    XorOfEqual(Shifts(Xor(crc, value), 8));
  }

  method Update(checksum: byte, data: seq<byte>) returns (crc: byte)
    ensures crc == Register(checksum, data)
  {
    hide Xor, Half, SerialBit, Shift;
    crc := checksum;
    var i := 0;
    while i < |data|
      invariant 0 <= i <= |data|
      invariant Register(crc, data[i..]) == Register(checksum, data)
    {
      var value := data[i];
      ghost var before := crc;
      for bit := 0 to 8
        invariant SerialBits(crc, value, 8 - bit) == SerialBits(before, data[i], 8)
      {
        crc, value := SerialBit(crc, value), Half(value);
      }
      SerialIsShifts(before, data[i]);
      RegisterStep(before, data, i);
      i := i + 1;
    }
  }

  // ----- the table is eight shifts -----

  lemma DoubleOfBits(b: bv8)
    requires b as byte < 0x80
    ensures b < 0x80 && (2 * b) as byte == 2 * (b as byte) && (2 * b + 1) as byte == 2 * (b as byte) + 1
  {
  }

  lemma BitsOfDouble(y: byte)
    requires y < 0x80
    ensures Bits(y) < 0x80 && Bits(2 * y) == 2 * Bits(y) && Bits(2 * y + 1) == 2 * Bits(y) + 1
  {
    ByteOfBits(y);
    DoubleOfBits(Bits(y));
    BitsOfByte(2 * Bits(y));
    BitsOfByte(2 * Bits(y) + 1);
  }

  // What the two neighbouring entries owe to the bits of their indices.
  lemma DoubledBits(y: byte)
    requires y < 0x80
    ensures S.Shift(Bits(2 * y)) == Bits(y) && Bits(2 * y) ^ Bits(1) == Bits(2 * y + 1)
    ensures S.Shift(S.Table(Bits(2 * y))) == S.Table(Bits(y))
    ensures S.Table(Bits(2 * y + 1)) == S.Table(Bits(2 * y)) ^ S.Table(Bits(1))
  {
    assert Bits(1) == 1;
    hide Bits, S.Table, S.Shift;
    BitsOfDouble(y);
    S.TableDoubles(Bits(y));
    S.ShiftOfDouble(Bits(y));
  }

  lemma ShiftOfDouble(y: byte)
    requires y < 0x80
    ensures Shift(2 * y) == y && Xor(2 * y, 1) == 2 * y + 1
  {
    hide Bits, Xor, Shift, S.Shift;
    var d, e: byte := 2 * y, 2 * y + 1;
    DoubledBits(y);
    BitsOfShift(d);
    BitsOfXor(d, 1);
    BitsInjective(Shift(d), y);
    BitsInjective(Xor(d, 1), e);
  }

  lemma TableDoubles(y: byte)
    requires y < 0x80
    ensures Shift(Table(2 * y)) == Table(y)
    ensures Table(2 * y + 1) == Xor(Table(2 * y), Table(1))
  {
    hide Bits, Xor, Shift, Table, S.Table, S.Shift;
    var d, e: byte := 2 * y, 2 * y + 1;
    DoubledBits(y);
    BitsOfTable(y);
    BitsOfTable(1);
    BitsOfTable(d);
    BitsOfTable(e);
    BitsOfShift(Table(d));
    BitsOfXor(Table(d), Table(1));
    BitsInjective(Shift(Table(d)), Table(y));
    BitsInjective(Table(e), Xor(Table(d), Table(1)));
  }

  lemma TableOfZeroAndOne()
    ensures Table(0) == 0 && Table(1) == 0x5E
    ensures Shifts(1, 8) == 0x5E
  {
    assert Shift(0x01) == 0x8C && Shift(0x8C) == 0x46 && Shift(0x46) == 0x23 && Shift(0x23) == 0x9D;
    assert Shift(0x9D) == 0xC2 && Shift(0xC2) == 0x61 && Shift(0x61) == 0xBC && Shift(0xBC) == 0x5E;
    hide Shift;
    assert Shifts(1, 8) == Shifts(0x8C, 7) == Shifts(0x46, 6) == Shifts(0x23, 5) == Shifts(0x9D, 4);
    assert Shifts(0x9D, 4) == Shifts(0xC2, 3) == Shifts(0x61, 2) == Shifts(0xBC, 1);
  }

  /** Every table entry is the register after eight shifts of its index. */
  lemma {:induction false} TableIsShifts(i: byte)
    ensures Table(i) == Shifts(i, 8)
  {
    hide Xor, Shift, Table;
    TableOfZeroAndOne();
    ShiftsOfZero(8);
    if i > 1 {
      var y: byte := i / 2;
      ShiftOfDouble(y);
      TableDoubles(y);
      if i % 2 == 0 {
        TableIsShifts(y);
        assert Shifts(i, 8) == Shifts(y, 7);
        ShiftsOneMore(i, 8);
        assert Shifts(i, 9) == Shifts(y, 8);
        ShiftInjective(Table(i), Shifts(i, 8));
      } else {
        TableIsShifts(2 * y);
        ShiftsLinear(2 * y, 1, 8);
      }
    }
  }

  method Calculate(data: seq<byte>) returns (crc: byte)
    ensures crc == Crc(data)
  {
    hide Xor, Shift, Table;
    var calculated: byte := 0;
    var i := 0;
    while i < |data|
      invariant 0 <= i <= |data|
      invariant Register(calculated, data[i..]) == Register(0, data)
    {
      TableIsShifts(Xor(calculated, data[i]));
      RegisterStep(calculated, data, i);
      calculated := Table(Xor(calculated, data[i]));
      i := i + 1;
    }
    crc := calculated;
  }

  // ----- properties of the checksum -----

  /** Feeding a message in two pieces gives the register of the whole. */
  lemma {:induction false} RegisterConcat(crc: byte, a: seq<byte>, b: seq<byte>)
    ensures Register(crc, a + b) == Register(Register(crc, a), b)
    decreases a
  {
    hide Xor, Shift, Shifts;
    if a == [] {
      assert a + b == b;
    } else {
      RegisterConcat(Shifts(Xor(crc, a[0]), 8), a[1..], b);
      assert (a + b)[1..] == a[1..] + b;
    }
  }

  ghost function XorAll(a: seq<byte>, b: seq<byte>): (r: seq<byte>)
    requires |a| == |b|
    ensures |r| == |a|
  {
    seq(|a|, i requires 0 <= i < |a| => Xor(a[i], b[i]))
  }

  /** Xor-linearity on messages of equal length. */
  lemma {:induction false} RegisterLinear(c: byte, d: byte, a: seq<byte>, b: seq<byte>)
    requires |a| == |b|
    ensures Register(Xor(c, d), XorAll(a, b)) == Xor(Register(c, a), Register(d, b))
    decreases a
  {
    hide Xor, Shift, Shifts;
    if a != [] {
      var x, y := Xor(c, a[0]), Xor(d, b[0]);
      XorRegroups(c, d, a[0], b[0]);
      ShiftsLinear(x, y, 8);
      RegisterLinear(Shifts(x, 8), Shifts(y, 8), a[1..], b[1..]);
      assert XorAll(a, b)[1..] == XorAll(a[1..], b[1..]);
    }
  }

  /** Two different registers never meet again on the same bytes. */
  lemma {:induction false} RegisterInjective(c: byte, d: byte, data: seq<byte>)
    requires Register(c, data) == Register(d, data)
    ensures c == d
    decreases data
  {
    hide Xor, Shift, Shifts;
    if data != [] {
      var x, y := Xor(c, data[0]), Xor(d, data[0]);
      RegisterInjective(Shifts(x, 8), Shifts(y, 8), data[1..]);
      ShiftsInjective(x, y, 8);
      XorCancels(c, d, data[0]);
    }
  }

  /** Changing any one byte of a message changes its checksum, whatever the message's length. */
  lemma OneByteChangesCrc(data: seq<byte>, k: nat, b: byte)
    requires k < |data| && b != data[k]
    ensures Crc(data[k := b]) != Crc(data)
  {
    hide Xor, Shift, Shifts;
    var changed := data[k := b];
    var c := Register(0, data[..k]);
    assert data == data[..k] + data[k..] && changed == data[..k] + changed[k..];
    RegisterConcat(0, data[..k], data[k..]);
    RegisterConcat(0, data[..k], changed[k..]);
    RegisterStep(c, data, k);
    RegisterStep(c, changed, k);
    assert changed[k + 1..] == data[k + 1..];
    if Crc(changed) == Crc(data) {
      var x, y := Xor(c, data[k]), Xor(c, b);
      RegisterInjective(Shifts(x, 8), Shifts(y, 8), data[k + 1..]);
      ShiftsInjective(x, y, 8);
      XorCommutes(c, data[k]);
      XorCommutes(c, b);
      XorCancels(data[k], b, c);
    }
  }

  /** A message followed by a byte leaves the register at zero exactly when that byte is its checksum. */
  lemma ResidueIsZero(data: seq<byte>, crc: byte)
    ensures Crc(data + [crc]) == 0 <==> crc == Crc(data)
  {
    hide Xor, Shift, Shifts;
    var c := Crc(data);
    RegisterConcat(0, data, [crc]);
    assert Register(c, [crc]) == Shifts(Xor(c, crc), 8);
    ShiftsOfZero(8);
    XorOfEqual(crc);
    if Crc(data + [crc]) == 0 {
      ShiftsInjective(Xor(c, crc), 0, 8);
      XorCancels(c, crc, crc);
    }
  }
}
