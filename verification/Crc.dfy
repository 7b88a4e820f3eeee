/** The CCITT-CRC of the data integrity check (hci_h5.c), and the bit-serial register it tabulates. */
module Crc {

  import opened Bytes

  /** `crc_table`: what four zero-fed shifts of the reflected register turn each low nibble into. */
  function CrcTable(n: bv16): bv16 {
    if n == 0 then 0x0000 else if n == 1 then 0x1081 else if n == 2 then 0x2102 else if n == 3 then 0x3183
    else if n == 4 then 0x4204 else if n == 5 then 0x5285 else if n == 6 then 0x6306 else if n == 7 then 0x7387
    else if n == 8 then 0x8408 else if n == 9 then 0x9489 else if n == 10 then 0xa50a else if n == 11 then 0xb58b
    else if n == 12 then 0xc60c else if n == 13 then 0xd68d else if n == 14 then 0xe70e else 0xf78f
  }

  /** One of the two table steps of `h5_crc_update`. */
  function TableStep(reg: bv16, d: bv16): bv16 {
    (reg >> 4) ^ CrcTable((reg ^ d) & 0x000f)
  }

  /** `h5_crc_update`: one byte, low nibble first. */
  function CrcUpdate(reg: bv16, d: bv16): bv16 {
    TableStep(TableStep(reg, d), d >> 4)
  }

  /** One clock of the shift register for the reflected polynomial x^16 + x^12 + x^5 + 1. */
  function Shift(reg: bv16, bit: bv16): bv16 {
    if (reg ^ bit) & 1 == 1 then (reg >> 1) ^ 0x8408 else reg >> 1
  }

  /** `n` clocks of the register, fed with the bits of `d` from the least significant up. */
  function ShiftBits(reg: bv16, d: bv16, n: nat): bv16
    decreases n
  {
    if n == 0 then reg else ShiftBits(Shift(reg, d), d >> 1, n - 1)
  }

  /** A table step is four clocks, whichever of the sixteen entries it takes. */
  lemma NibbleStep(reg: bv16, d: bv16)
    ensures TableStep(reg, d) == Shift(Shift(Shift(Shift(reg, d), d >> 1), d >> 2), d >> 3)
  {
    NibbleCase(reg, d, (reg ^ d) & 0x000f);
  }

  lemma NibbleCase(reg: bv16, d: bv16, n: bv16)
    requires (reg ^ d) & 0x000f == n < 16
    ensures TableStep(reg, d) == Shift(Shift(Shift(Shift(reg, d), d >> 1), d >> 2), d >> 3)
  {
    if n < 8 {
      if n < 4 {
        if n < 2 { if n == 0 {} else {} } else if n == 2 {} else {}
      } else {
        if n < 6 { if n == 4 {} else {} } else if n == 6 {} else {}
      }
    } else {
      if n < 12 {
        if n < 10 { if n == 8 {} else {} } else if n == 10 {} else {}
      } else {
        if n < 14 { if n == 12 {} else {} } else if n == 14 {} else {}
      }
    }
  }

  lemma ShiftRight(d: bv16)
    ensures (d >> 1) >> 1 == d >> 2 && (d >> 2) >> 1 == d >> 3 && (d >> 3) >> 1 == d >> 4
    ensures (d >> 4) >> 1 == d >> 5 && (d >> 4) >> 2 == d >> 6 && (d >> 4) >> 3 == d >> 7
    ensures (d >> 5) >> 1 == d >> 6 && (d >> 6) >> 1 == d >> 7
  {
  }

  lemma ByteStep(reg: bv16, d: bv16)
    ensures CrcUpdate(reg, d) == ShiftBits(reg, d, 8)
  {
    NibbleStep(reg, d);
    var mid := TableStep(reg, d);
    NibbleStep(mid, d >> 4);
    ShiftRight(d);
    assert ShiftBits(reg, d, 8) == ShiftBits(mid, d >> 4, 4) by {
      assert ShiftBits(reg, d, 8) == ShiftBits(Shift(reg, d), d >> 1, 7);
      assert ShiftBits(Shift(reg, d), d >> 1, 7) == ShiftBits(Shift(Shift(reg, d), d >> 1), d >> 2, 6);
    }
  }

  /** The register after `msg`, from the preset `H5_CRC_INIT`. */
  function MessageCrc(msg: seq<byte>): bv16 {
    if msg == [] then 0xffff else CrcUpdate(MessageCrc(msg[..|msg| - 1]), msg[|msg| - 1] as bv16)
  }

  /** The CCITT-CRC as section 5 defines it: the register clocked once for every bit of the message. */
  function SerialCrc(msg: seq<byte>): bv16 {
    if msg == [] then 0xffff else ShiftBits(SerialCrc(msg[..|msg| - 1]), msg[|msg| - 1] as bv16, 8)
  }

  lemma {:induction false} TableCrcIsSerialCrc(msg: seq<byte>)
    ensures MessageCrc(msg) == SerialCrc(msg)
  {
    if msg != [] {
      TableCrcIsSerialCrc(msg[..|msg| - 1]);
      ByteStep(MessageCrc(msg[..|msg| - 1]), msg[|msg| - 1] as bv16);
    }
  }

  lemma CrcAppend(msg: seq<byte>, b: byte)
    ensures MessageCrc(msg + [b]) == CrcUpdate(MessageCrc(msg), b as bv16)
  {
    assert (msg + [b])[..|msg|] == msg;
  }

  /** `bit_rev8`: the reversal that `byte_rev_table` lists for every byte. */
  function BitRev8(x: bv16): bv16 {
    var n := ((x & 0x0f) << 4) | ((x >> 4) & 0x0f);
    var p := ((n & 0x33) << 2) | ((n >> 2) & 0x33);
    ((p & 0x55) << 1) | ((p >> 1) & 0x55)
  }

  /** byte_rev_table, by the high and the low half of the byte */
  function ByteRevTable(h: bv16, l: bv16): bv16 {
    match h
    case 0x0 => (
      match l
      case 0x0 => 0x00 case 0x1 => 0x80 case 0x2 => 0x40 case 0x3 => 0xc0
      case 0x4 => 0x20 case 0x5 => 0xa0 case 0x6 => 0x60 case 0x7 => 0xe0
      case 0x8 => 0x10 case 0x9 => 0x90 case 0xa => 0x50 case 0xb => 0xd0
      case 0xc => 0x30 case 0xd => 0xb0 case 0xe => 0x70 case 0xf => 0xf0
      case _ => 0)
    case 0x1 => (
      match l
      case 0x0 => 0x08 case 0x1 => 0x88 case 0x2 => 0x48 case 0x3 => 0xc8
      case 0x4 => 0x28 case 0x5 => 0xa8 case 0x6 => 0x68 case 0x7 => 0xe8
      case 0x8 => 0x18 case 0x9 => 0x98 case 0xa => 0x58 case 0xb => 0xd8
      case 0xc => 0x38 case 0xd => 0xb8 case 0xe => 0x78 case 0xf => 0xf8
      case _ => 0)
    case 0x2 => (
      match l
      case 0x0 => 0x04 case 0x1 => 0x84 case 0x2 => 0x44 case 0x3 => 0xc4
      case 0x4 => 0x24 case 0x5 => 0xa4 case 0x6 => 0x64 case 0x7 => 0xe4
      case 0x8 => 0x14 case 0x9 => 0x94 case 0xa => 0x54 case 0xb => 0xd4
      case 0xc => 0x34 case 0xd => 0xb4 case 0xe => 0x74 case 0xf => 0xf4
      case _ => 0)
    case 0x3 => (
      match l
      case 0x0 => 0x0c case 0x1 => 0x8c case 0x2 => 0x4c case 0x3 => 0xcc
      case 0x4 => 0x2c case 0x5 => 0xac case 0x6 => 0x6c case 0x7 => 0xec
      case 0x8 => 0x1c case 0x9 => 0x9c case 0xa => 0x5c case 0xb => 0xdc
      case 0xc => 0x3c case 0xd => 0xbc case 0xe => 0x7c case 0xf => 0xfc
      case _ => 0)
    case 0x4 => (
      match l
      case 0x0 => 0x02 case 0x1 => 0x82 case 0x2 => 0x42 case 0x3 => 0xc2
      case 0x4 => 0x22 case 0x5 => 0xa2 case 0x6 => 0x62 case 0x7 => 0xe2
      case 0x8 => 0x12 case 0x9 => 0x92 case 0xa => 0x52 case 0xb => 0xd2
      case 0xc => 0x32 case 0xd => 0xb2 case 0xe => 0x72 case 0xf => 0xf2
      case _ => 0)
    case 0x5 => (
      match l
      case 0x0 => 0x0a case 0x1 => 0x8a case 0x2 => 0x4a case 0x3 => 0xca
      case 0x4 => 0x2a case 0x5 => 0xaa case 0x6 => 0x6a case 0x7 => 0xea
      case 0x8 => 0x1a case 0x9 => 0x9a case 0xa => 0x5a case 0xb => 0xda
      case 0xc => 0x3a case 0xd => 0xba case 0xe => 0x7a case 0xf => 0xfa
      case _ => 0)
    case 0x6 => (
      match l
      case 0x0 => 0x06 case 0x1 => 0x86 case 0x2 => 0x46 case 0x3 => 0xc6
      case 0x4 => 0x26 case 0x5 => 0xa6 case 0x6 => 0x66 case 0x7 => 0xe6
      case 0x8 => 0x16 case 0x9 => 0x96 case 0xa => 0x56 case 0xb => 0xd6
      case 0xc => 0x36 case 0xd => 0xb6 case 0xe => 0x76 case 0xf => 0xf6
      case _ => 0)
    case 0x7 => (
      match l
      case 0x0 => 0x0e case 0x1 => 0x8e case 0x2 => 0x4e case 0x3 => 0xce
      case 0x4 => 0x2e case 0x5 => 0xae case 0x6 => 0x6e case 0x7 => 0xee
      case 0x8 => 0x1e case 0x9 => 0x9e case 0xa => 0x5e case 0xb => 0xde
      case 0xc => 0x3e case 0xd => 0xbe case 0xe => 0x7e case 0xf => 0xfe
      case _ => 0)
    case 0x8 => (
      match l
      case 0x0 => 0x01 case 0x1 => 0x81 case 0x2 => 0x41 case 0x3 => 0xc1
      case 0x4 => 0x21 case 0x5 => 0xa1 case 0x6 => 0x61 case 0x7 => 0xe1
      case 0x8 => 0x11 case 0x9 => 0x91 case 0xa => 0x51 case 0xb => 0xd1
      case 0xc => 0x31 case 0xd => 0xb1 case 0xe => 0x71 case 0xf => 0xf1
      case _ => 0)
    case 0x9 => (
      match l
      case 0x0 => 0x09 case 0x1 => 0x89 case 0x2 => 0x49 case 0x3 => 0xc9
      case 0x4 => 0x29 case 0x5 => 0xa9 case 0x6 => 0x69 case 0x7 => 0xe9
      case 0x8 => 0x19 case 0x9 => 0x99 case 0xa => 0x59 case 0xb => 0xd9
      case 0xc => 0x39 case 0xd => 0xb9 case 0xe => 0x79 case 0xf => 0xf9
      case _ => 0)
    case 0xa => (
      match l
      case 0x0 => 0x05 case 0x1 => 0x85 case 0x2 => 0x45 case 0x3 => 0xc5
      case 0x4 => 0x25 case 0x5 => 0xa5 case 0x6 => 0x65 case 0x7 => 0xe5
      case 0x8 => 0x15 case 0x9 => 0x95 case 0xa => 0x55 case 0xb => 0xd5
      case 0xc => 0x35 case 0xd => 0xb5 case 0xe => 0x75 case 0xf => 0xf5
      case _ => 0)
    case 0xb => (
      match l
      case 0x0 => 0x0d case 0x1 => 0x8d case 0x2 => 0x4d case 0x3 => 0xcd
      case 0x4 => 0x2d case 0x5 => 0xad case 0x6 => 0x6d case 0x7 => 0xed
      case 0x8 => 0x1d case 0x9 => 0x9d case 0xa => 0x5d case 0xb => 0xdd
      case 0xc => 0x3d case 0xd => 0xbd case 0xe => 0x7d case 0xf => 0xfd
      case _ => 0)
    case 0xc => (
      match l
      case 0x0 => 0x03 case 0x1 => 0x83 case 0x2 => 0x43 case 0x3 => 0xc3
      case 0x4 => 0x23 case 0x5 => 0xa3 case 0x6 => 0x63 case 0x7 => 0xe3
      case 0x8 => 0x13 case 0x9 => 0x93 case 0xa => 0x53 case 0xb => 0xd3
      case 0xc => 0x33 case 0xd => 0xb3 case 0xe => 0x73 case 0xf => 0xf3
      case _ => 0)
    case 0xd => (
      match l
      case 0x0 => 0x0b case 0x1 => 0x8b case 0x2 => 0x4b case 0x3 => 0xcb
      case 0x4 => 0x2b case 0x5 => 0xab case 0x6 => 0x6b case 0x7 => 0xeb
      case 0x8 => 0x1b case 0x9 => 0x9b case 0xa => 0x5b case 0xb => 0xdb
      case 0xc => 0x3b case 0xd => 0xbb case 0xe => 0x7b case 0xf => 0xfb
      case _ => 0)
    case 0xe => (
      match l
      case 0x0 => 0x07 case 0x1 => 0x87 case 0x2 => 0x47 case 0x3 => 0xc7
      case 0x4 => 0x27 case 0x5 => 0xa7 case 0x6 => 0x67 case 0x7 => 0xe7
      case 0x8 => 0x17 case 0x9 => 0x97 case 0xa => 0x57 case 0xb => 0xd7
      case 0xc => 0x37 case 0xd => 0xb7 case 0xe => 0x77 case 0xf => 0xf7
      case _ => 0)
    case 0xf => (
      match l
      case 0x0 => 0x0f case 0x1 => 0x8f case 0x2 => 0x4f case 0x3 => 0xcf
      case 0x4 => 0x2f case 0x5 => 0xaf case 0x6 => 0x6f case 0x7 => 0xef
      case 0x8 => 0x1f case 0x9 => 0x9f case 0xa => 0x5f case 0xb => 0xdf
      case 0xc => 0x3f case 0xd => 0xbf case 0xe => 0x7f case 0xf => 0xff
      case _ => 0)
    case _ => 0
  }

  lemma TableReversesLow(h: bv16, l: bv16)
    requires h < 8 && l < 16
    ensures ByteRevTable(h, l) == BitRev8(h * 16 + l)
  {
    match h
    case 0x0 => assert ByteRevTable(0x0, l) == BitRev8(0x00 + l);
    case 0x1 => assert ByteRevTable(0x1, l) == BitRev8(0x10 + l);
    case 0x2 => assert ByteRevTable(0x2, l) == BitRev8(0x20 + l);
    case 0x3 => assert ByteRevTable(0x3, l) == BitRev8(0x30 + l);
    case 0x4 => assert ByteRevTable(0x4, l) == BitRev8(0x40 + l);
    case 0x5 => assert ByteRevTable(0x5, l) == BitRev8(0x50 + l);
    case 0x6 => assert ByteRevTable(0x6, l) == BitRev8(0x60 + l);
    case 0x7 => assert ByteRevTable(0x7, l) == BitRev8(0x70 + l);
  }

  lemma TableReversesHigh(h: bv16, l: bv16)
    requires 8 <= h < 16 && l < 16
    ensures ByteRevTable(h, l) == BitRev8(h * 16 + l)
  {
    match h
    case 0x8 => assert ByteRevTable(0x8, l) == BitRev8(0x80 + l);
    case 0x9 => assert ByteRevTable(0x9, l) == BitRev8(0x90 + l);
    case 0xa => assert ByteRevTable(0xa, l) == BitRev8(0xa0 + l);
    case 0xb => assert ByteRevTable(0xb, l) == BitRev8(0xb0 + l);
    case 0xc => assert ByteRevTable(0xc, l) == BitRev8(0xc0 + l);
    case 0xd => assert ByteRevTable(0xd, l) == BitRev8(0xd0 + l);
    case 0xe => assert ByteRevTable(0xe, l) == BitRev8(0xe0 + l);
    case 0xf => assert ByteRevTable(0xf, l) == BitRev8(0xf0 + l);
  }

  /** The table lists the reversal of every byte. */
  lemma TableReverses(h: bv16, l: bv16)
    requires h < 16 && l < 16
    ensures ByteRevTable(h, l) == BitRev8(h * 16 + l)
  {
    if h < 8 { TableReversesLow(h, l); } else { TableReversesHigh(h, l); }
  }

  /** `bit_rev16` */
  function BitRev16(x: bv16): bv16 {
    (BitRev8(x & 0x00ff) << 8) | BitRev8(x >> 8)
  }

  lemma BitRev16Involution(x: bv16)
    ensures BitRev16(BitRev16(x)) == x
  {
  }

  /** Bit i goes to bit 15 - i. */
  lemma BitRev16MovesBits(x: bv16, i: bv16)
    requires i < 16
    ensures (BitRev16(x) >> (15 - i)) & 1 == (x >> i) & 1
  {
  }

  /** The two check bytes h5_prepare_pkt appends for a message: high half of the reversed register first. */
  function CheckBytes(msg: seq<byte>): (r: seq<byte>)
    ensures |r| == 2
  {
    var c := BitRev16(MessageCrc(msg)) as int;
    [c / 256, c % 256]
  }
}
