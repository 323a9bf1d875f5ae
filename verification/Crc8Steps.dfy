/** The single steps of the checksum, on machine bytes. */
module Crc8Steps {
  // The lookup table of the source, sixteen entries to a case.
  function Table(i: bv8): bv8 {
    match i >> 4
    case 0 =>
      (match i & 15
         case 0 => 0x00 case 1 => 0x5E case 2 => 0xBC case 3 => 0xE2
         case 4 => 0x61 case 5 => 0x3F case 6 => 0xDD case 7 => 0x83
         case 8 => 0xC2 case 9 => 0x9C case 10 => 0x7E case 11 => 0x20
         case 12 => 0xA3 case 13 => 0xFD case 14 => 0x1F case _ => 0x41)
    case 1 =>
      (match i & 15
         case 0 => 0x9D case 1 => 0xC3 case 2 => 0x21 case 3 => 0x7F
         case 4 => 0xFC case 5 => 0xA2 case 6 => 0x40 case 7 => 0x1E
         case 8 => 0x5F case 9 => 0x01 case 10 => 0xE3 case 11 => 0xBD
         case 12 => 0x3E case 13 => 0x60 case 14 => 0x82 case _ => 0xDC)
    case 2 =>
      (match i & 15
         case 0 => 0x23 case 1 => 0x7D case 2 => 0x9F case 3 => 0xC1
         case 4 => 0x42 case 5 => 0x1C case 6 => 0xFE case 7 => 0xA0
         case 8 => 0xE1 case 9 => 0xBF case 10 => 0x5D case 11 => 0x03
         case 12 => 0x80 case 13 => 0xDE case 14 => 0x3C case _ => 0x62)
    case 3 =>
      (match i & 15
         case 0 => 0xBE case 1 => 0xE0 case 2 => 0x02 case 3 => 0x5C
         case 4 => 0xDF case 5 => 0x81 case 6 => 0x63 case 7 => 0x3D
         case 8 => 0x7C case 9 => 0x22 case 10 => 0xC0 case 11 => 0x9E
         case 12 => 0x1D case 13 => 0x43 case 14 => 0xA1 case _ => 0xFF)
    case 4 =>
      (match i & 15
         case 0 => 0x46 case 1 => 0x18 case 2 => 0xFA case 3 => 0xA4
         case 4 => 0x27 case 5 => 0x79 case 6 => 0x9B case 7 => 0xC5
         case 8 => 0x84 case 9 => 0xDA case 10 => 0x38 case 11 => 0x66
         case 12 => 0xE5 case 13 => 0xBB case 14 => 0x59 case _ => 0x07)
    case 5 =>
      (match i & 15
         case 0 => 0xDB case 1 => 0x85 case 2 => 0x67 case 3 => 0x39
         case 4 => 0xBA case 5 => 0xE4 case 6 => 0x06 case 7 => 0x58
         case 8 => 0x19 case 9 => 0x47 case 10 => 0xA5 case 11 => 0xFB
         case 12 => 0x78 case 13 => 0x26 case 14 => 0xC4 case _ => 0x9A)
    case 6 =>
      (match i & 15
         case 0 => 0x65 case 1 => 0x3B case 2 => 0xD9 case 3 => 0x87
         case 4 => 0x04 case 5 => 0x5A case 6 => 0xB8 case 7 => 0xE6
         case 8 => 0xA7 case 9 => 0xF9 case 10 => 0x1B case 11 => 0x45
         case 12 => 0xC6 case 13 => 0x98 case 14 => 0x7A case _ => 0x24)
    case 7 =>
      (match i & 15
         case 0 => 0xF8 case 1 => 0xA6 case 2 => 0x44 case 3 => 0x1A
         case 4 => 0x99 case 5 => 0xC7 case 6 => 0x25 case 7 => 0x7B
         case 8 => 0x3A case 9 => 0x64 case 10 => 0x86 case 11 => 0xD8
         case 12 => 0x5B case 13 => 0x05 case 14 => 0xE7 case _ => 0xB9)
    case 8 =>
      (match i & 15
         case 0 => 0x8C case 1 => 0xD2 case 2 => 0x30 case 3 => 0x6E
         case 4 => 0xED case 5 => 0xB3 case 6 => 0x51 case 7 => 0x0F
         case 8 => 0x4E case 9 => 0x10 case 10 => 0xF2 case 11 => 0xAC
         case 12 => 0x2F case 13 => 0x71 case 14 => 0x93 case _ => 0xCD)
    case 9 =>
      (match i & 15
         case 0 => 0x11 case 1 => 0x4F case 2 => 0xAD case 3 => 0xF3
         case 4 => 0x70 case 5 => 0x2E case 6 => 0xCC case 7 => 0x92
         case 8 => 0xD3 case 9 => 0x8D case 10 => 0x6F case 11 => 0x31
         case 12 => 0xB2 case 13 => 0xEC case 14 => 0x0E case _ => 0x50)
    case 10 =>
      (match i & 15
         case 0 => 0xAF case 1 => 0xF1 case 2 => 0x13 case 3 => 0x4D
         case 4 => 0xCE case 5 => 0x90 case 6 => 0x72 case 7 => 0x2C
         case 8 => 0x6D case 9 => 0x33 case 10 => 0xD1 case 11 => 0x8F
         case 12 => 0x0C case 13 => 0x52 case 14 => 0xB0 case _ => 0xEE)
    case 11 =>
      (match i & 15
         case 0 => 0x32 case 1 => 0x6C case 2 => 0x8E case 3 => 0xD0
         case 4 => 0x53 case 5 => 0x0D case 6 => 0xEF case 7 => 0xB1
         case 8 => 0xF0 case 9 => 0xAE case 10 => 0x4C case 11 => 0x12
         case 12 => 0x91 case 13 => 0xCF case 14 => 0x2D case _ => 0x73)
    case 12 =>
      (match i & 15
         case 0 => 0xCA case 1 => 0x94 case 2 => 0x76 case 3 => 0x28
         case 4 => 0xAB case 5 => 0xF5 case 6 => 0x17 case 7 => 0x49
         case 8 => 0x08 case 9 => 0x56 case 10 => 0xB4 case 11 => 0xEA
         case 12 => 0x69 case 13 => 0x37 case 14 => 0xD5 case _ => 0x8B)
    case 13 =>
      (match i & 15
         case 0 => 0x57 case 1 => 0x09 case 2 => 0xEB case 3 => 0xB5
         case 4 => 0x36 case 5 => 0x68 case 6 => 0x8A case 7 => 0xD4
         case 8 => 0x95 case 9 => 0xCB case 10 => 0x29 case 11 => 0x77
         case 12 => 0xF4 case 13 => 0xAA case 14 => 0x48 case _ => 0x16)
    case 14 =>
      (match i & 15
         case 0 => 0xE9 case 1 => 0xB7 case 2 => 0x55 case 3 => 0x0B
         case 4 => 0x88 case 5 => 0xD6 case 6 => 0x34 case 7 => 0x6A
         case 8 => 0x2B case 9 => 0x75 case 10 => 0x97 case 11 => 0xC9
         case 12 => 0x4A case 13 => 0x14 case 14 => 0xF6 case _ => 0xA8)
    case _ =>
      (match i & 15
         case 0 => 0x74 case 1 => 0x2A case 2 => 0xC8 case 3 => 0x96
         case 4 => 0x15 case 5 => 0x4B case 6 => 0xA9 case 7 => 0xF7
         case 8 => 0xB6 case 9 => 0xE8 case 10 => 0x0A case 11 => 0x54
         case 12 => 0xD7 case 13 => 0x89 case 14 => 0x6B case _ => 0x35)
  }

  // One bit of the bit-serial loop of the source.
  function SerialBit(crc: bv8, value: bv8): bv8 {
    if (crc ^ value) & 1 != 0 then ((crc ^ 0x18) >> 1) | 0x80 else crc >> 1
  }

  // Reference: one shift of the feedback register of x^8 + x^5 + x^4 + 1 (0x31, bits reversed).
  function Shift(x: bv8): bv8 {
    if x & 1 != 0 then (x >> 1) ^ 0x8C else x >> 1
  }

  // `crc ^ value` alone drives the feedback, while `value` is shifted out.
  lemma SerialBitSplits(crc: bv8, value: bv8)
    ensures SerialBit(crc, value) ^ (value >> 1) == Shift(crc ^ value)
  {
  }

  lemma ShiftLinear(x: bv8, y: bv8)
    ensures Shift(x ^ y) == Shift(x) ^ Shift(y)
  {
  }

  lemma ShiftInjective(x: bv8, y: bv8)
    requires Shift(x) == Shift(y)
    ensures x == y
  {
  }

  lemma ShiftOfDouble(y: bv8)
    requires y < 0x80
    ensures Shift(2 * y) == y && (2 * y) ^ 1 == 2 * y + 1
  {
  }

  // Two relations between neighbouring entries; with the entry of 1 they determine the whole table.
  ghost predicate Doubles(y: bv8) {
    Shift(Table(2 * y)) == Table(y) && Table(2 * y + 1) == Table(2 * y) ^ Table(1)
  }

  lemma TableDoubles0(y: bv8)
    requires y >> 4 == 0
    ensures Doubles(y)
  {
  }

  lemma TableDoubles1(y: bv8)
    requires y >> 4 == 1
    ensures Doubles(y)
  {
  }

  lemma TableDoubles2(y: bv8)
    requires y >> 4 == 2
    ensures Doubles(y)
  {
  }

  lemma TableDoubles3(y: bv8)
    requires y >> 4 == 3
    ensures Doubles(y)
  {
  }

  lemma TableDoubles4(y: bv8)
    requires y >> 4 == 4
    ensures Doubles(y)
  {
  }

  lemma TableDoubles5(y: bv8)
    requires y >> 4 == 5
    ensures Doubles(y)
  {
  }

  lemma TableDoubles6(y: bv8)
    requires y >> 4 == 6
    ensures Doubles(y)
  {
  }

  lemma TableDoubles7(y: bv8)
    requires y >> 4 == 7
    ensures Doubles(y)
  {
  }

  lemma TableDoubles(y: bv8)
    requires y < 0x80
    ensures Doubles(y)
  {
    hide Doubles;
    if
    case y >> 4 == 0 => TableDoubles0(y);
    case y >> 4 == 1 => TableDoubles1(y);
    case y >> 4 == 2 => TableDoubles2(y);
    case y >> 4 == 3 => TableDoubles3(y);
    case y >> 4 == 4 => TableDoubles4(y);
    case y >> 4 == 5 => TableDoubles5(y);
    case y >> 4 == 6 => TableDoubles6(y);
    case y >> 4 == 7 => TableDoubles7(y);
  }
}
