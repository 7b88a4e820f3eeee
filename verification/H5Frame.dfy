/** Three-wire UART framing: packet header, payload, data integrity check and SLIP (hci_h5.c). */
module H5Frame {
  import opened Bytes
  import opened Crc

  // Packet types; the first four are HCI types, the others belong to the transport.
  const H5_ACK_PKT := 0
  const HCI_COMMAND_PKT := 1
  const HCI_ACLDATA_PKT := 2
  const HCI_EVENT_PKT := 4
  const H5_VDRSPEC_PKT := 14
  const H5_LINK_CTL_PKT := 15

  const MAX_PAYLOAD := 0xFFF

  /** A three-bit field: a sequence number, an acknowledgement number or a window size. */
  type Bits3 = x: int | 0 <= x < 8

  type Bits4 = x: int | 0 <= x < 16

  /** What one H5 packet says: header fields and payload. */
  datatype Frame = Frame(rel: bool, seqNo: Bits3, ackNo: Bits3, crc: bool, kind: Bits4, data: seq<byte>) {
    predicate Valid() {
      |data| <= MAX_PAYLOAD
    }
  }

  // ----- header

  /** The header h5_prepare_pkt builds. Its `|`s combine fields of disjoint bits, so they are sums (HeaderByteBits). */
  function Header(f: Frame): (h: seq<byte>)
    requires f.Valid()
    ensures |h| == 4
  {
    var h0 := f.ackNo * 8 + f.seqNo + (if f.crc then 64 else 0) + (if f.rel then 128 else 0);
    var h1 := |f.data| % 16 * 16 + f.kind;
    var h2 := |f.data| / 16;
    [h0, h1, h2, 255 - (h0 + h1 + h2) % 256]
  }

  // The H5_HDR_* macros.
  function HdrSeq(h: seq<byte>): Bits3 requires |h| >= 1 { h[0] % 8 }
  function HdrAck(h: seq<byte>): Bits3 requires |h| >= 1 { h[0] / 8 % 8 }
  predicate HdrCrc(h: seq<byte>) requires |h| >= 1 { h[0] / 64 % 2 == 1 }
  predicate HdrReliable(h: seq<byte>) requires |h| >= 1 { h[0] / 128 % 2 == 1 }
  function HdrKind(h: seq<byte>): Bits4 requires |h| >= 2 { h[1] % 16 }
  function HdrLen(h: seq<byte>): nat requires |h| >= 3 { h[1] as int / 16 + h[2] as int * 16 }

  /** The header checksum test of h5_recv. */
  predicate ChecksumOk(h: seq<byte>)
    requires |h| >= 4
  {
    255 - (h[0] as int + h[1] as int + h[2] as int) % 256 == h[3]
  }

  /** The header's arithmetic is the source's shifts and masks. */
  lemma HeaderByteBits(ack: bv8, seqNo: bv8, x: bv8)
    requires ack < 8 && seqNo < 8
    ensures (ack << 3) | (0x80 + seqNo) | 0x40 == ack * 8 + seqNo + 0x40 + 0x80
    ensures (ack << 3) | (0x80 + seqNo) == ack * 8 + seqNo + 0x80
    ensures (ack << 3) | 0x40 == ack * 8 + 0x40 && ack << 3 == ack * 8
    ensures x & 0x07 == x % 8 && (x >> 3) & 0x07 == x / 8 % 8 && (x >> 6) & 1 == x / 64 % 2
    ensures (x >> 7) & 1 == x / 128 % 2 && x & 0x0f == x % 16 && x >> 4 == x / 16
    ensures !x == 255 - x
  {
  }

  /** Every field survives the header, and the header passes its own checksum. */
  lemma HeaderRoundTrip(f: Frame)
    requires f.Valid()
    ensures var h := Header(f);
      && ChecksumOk(h) && HdrSeq(h) == f.seqNo && HdrAck(h) == f.ackNo && HdrCrc(h) == f.crc
      && HdrReliable(h) == f.rel && HdrKind(h) == f.kind && HdrLen(h) == |f.data|
  {
  }

  // ----- SLIP

  const DELIM: byte := 0xc0
  const ESC: byte := 0xdb

  /** h5_slip_one_byte */
  function SlipByte(b: byte, oof: bool): (r: seq<byte>)
    ensures 1 <= |r| <= 2
    ensures DELIM !in r
  {
    if b == 0xc0 then [ESC, 0xdc]
    else if b == 0xdb then [ESC, 0xdd]
    else if b == 0x11 && oof then [ESC, 0xde]
    else if b == 0x13 && oof then [ESC, 0xdf]
    else [b]
  }

  function Slip(msg: seq<byte>, oof: bool): (r: seq<byte>)
    ensures |msg| <= |r| <= 2 * |msg|
    ensures DELIM !in r
  {
    if msg == [] then [] else Slip(msg[..|msg| - 1], oof) + SlipByte(msg[|msg| - 1], oof)
  }

  /** With out-of-frame flow control on, no XON or XOFF byte ever reaches the line inside a packet. */
  lemma {:induction false} SlipHidesFlowControl(msg: seq<byte>)
    ensures 0x11 !in Slip(msg, true) && 0x13 !in Slip(msg, true)
  {
    if msg != [] {
      SlipHidesFlowControl(msg[..|msg| - 1]);
    }
  }

  /** Nothing else is escaped: a delimiter, an escape byte, and with flow control those two. */
  lemma {:induction false} SlipLeavesOthers(msg: seq<byte>, oof: bool)
    requires forall i :: 0 <= i < |msg| ==> msg[i] != 0xC0 && msg[i] != 0xDB
    requires oof ==> forall i :: 0 <= i < |msg| ==> msg[i] != 0x11 && msg[i] != 0x13
    ensures Slip(msg, oof) == msg
    decreases |msg|
  {
    if msg != [] {
      SlipLeavesOthers(msg[..|msg| - 1], oof);
      assert msg[..|msg| - 1] + [msg[|msg| - 1]] == msg;
    }
  }

  lemma SlipAppend(a: seq<byte>, x: byte, oof: bool)
    ensures Slip(a + [x], oof) == Slip(a, oof) + SlipByte(x, oof)
  {
    assert (a + [x])[..|a|] == a;
  }

  lemma Associative(a: seq<byte>, b: seq<byte>, c: seq<byte>)
    ensures (a + b) + c == a + (b + c)
  {
  }

  lemma {:induction false} SlipConcat(a: seq<byte>, b: seq<byte>, oof: bool)
    ensures Slip(a + b, oof) == Slip(a, oof) + Slip(b, oof)
  {
    if b == [] {
      assert a + b == a;
    } else {
      var b0, x := b[..|b| - 1], b[|b| - 1];
      assert b == b0 + [x];
      Associative(a, b0, [x]);
      SlipAppend(a + b0, x, oof);
      SlipConcat(a, b0, oof);
      SlipAppend(b0, x, oof);
      Associative(Slip(a, oof), Slip(b0, oof), SlipByte(x, oof));
    }
  }

  // ----- whole packets

  /** The data integrity check that follows the payload when the header announces one. */
  function Check(f: Frame): seq<byte>
    requires f.Valid()
  {
    if f.crc then CheckBytes(Header(f) + f.data) else []
  }

  /** The unescaped packet. */
  function Content(f: Frame): (r: seq<byte>)
    requires f.Valid()
    ensures |r| <= |f.data| + 6
  {
    Header(f) + f.data + Check(f)
  }

  /** The bytes h5_prepare_pkt leaves in its buffer. */
  function Encode(f: Frame, oof: bool): (r: seq<byte>)
    requires f.Valid()
    ensures |r| <= (|f.data| + 6) * 2 + 2
  {
    [DELIM] + Slip(Content(f), oof) + [DELIM]
  }
}
