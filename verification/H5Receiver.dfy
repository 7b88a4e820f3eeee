/** The receive decoder of h5_recv, byte by byte, and what it keeps. */
module H5Receiver {
  import opened Bytes
  import opened Crc
  import opened H5Frame

  datatype RxState = W4Delimiter | W4Start | W4Hdr | W4Data | W4Crc

  /** rx_state, rx_esc_state, rx_count, rx_skb and message_crc. */
  datatype Rx = Rx(state: RxState, esc: bool, count: nat, skb: Option<seq<byte>>, crc: bv16)

  const RX_INIT := Rx(W4Delimiter, false, 0, None, 0)

  /** The allocation h5_recv makes for a packet. */
  const RX_ALLOC := 0x1005

  /** What a check of h5_recv finds: nothing to report, a packet out of sequence, or a whole packet
      together with the bytes its buffer holds after the header. */
  datatype Event = Silent | OutOfSequence | Completed(frame: Frame, rest: seq<byte>)

  /** The buffer is freed and the decoder waits for a delimiter. */
  function Drop(rx: Rx): Rx {
    Idle(rx.esc, rx.crc)
  }

  function Idle(esc: bool, crc: bv16): Rx {
    Rx(W4Delimiter, esc, 0, None, crc)
  }

  /** A delimiter inside a packet: the packet is given up, and the next may start. */
  function Short(rx: Rx): Rx {
    rx.(state := W4Start, count := 0, skb := None)
  }

  /** The header is good: its length field says how much payload follows. */
  function StartData(rx: Rx): Rx
    requires rx.skb.Some? && |rx.skb.value| >= 3
  {
    rx.(state := W4Data, count := HdrLen(rx.skb.value))
  }

  /** The payload is in and the header announces a check. */
  function StartCheck(rx: Rx): Rx {
    rx.(state := W4Crc, count := 2)
  }

  function SetState(rx: Rx, state: RxState): Rx {
    rx.(state := state)
  }

  function Escape(rx: Rx): Rx {
    rx.(esc := true)
  }

  /** A new packet: buffer allocated, header expected, CRC preset. */
  function Open(rx: Rx): Rx {
    Rx(W4Hdr, false, 4, Some([]), 0xffff)
  }

  function PutByte(rx: Rx, b: byte): Rx
    requires rx.skb.Some? && rx.count > 0
  {
    var m := rx.skb.value + [b];
    Rx(rx.state, false, rx.count - 1, Some(m),
       if HdrCrc(m) && rx.state != W4Crc then CrcUpdate(rx.crc, b as bv16) else rx.crc)
  }

  /** h5_unslip_one_byte */
  function Unslip(rx: Rx, b: byte): Rx
    requires rx.skb.Some? && rx.count > 0
  {
    if !rx.esc then
      if b == 0xdb then Escape(rx) else PutByte(rx, b)
    else if b == 0xdc then PutByte(rx, 0xc0)
    else if b == 0xdd then PutByte(rx, 0xdb)
    else if b == 0xde then PutByte(rx, 0x11)
    else if b == 0xdf then PutByte(rx, 0x13)
    else Drop(rx)
  }

  /** All bytes of the current part are in, and the check that follows has not been made. */
  predicate Pending(rx: Rx) {
    rx.count == 0 && (rx.state == W4Hdr || rx.state == W4Data || rx.state == W4Crc)
  }

  /** The packet in a buffer whose last `trail` bytes are its check. */
  function Parse(m: seq<byte>, trail: nat): Frame
    requires 4 + trail <= |m|
  {
    Frame(HdrReliable(m), HdrSeq(m), HdrAck(m), HdrCrc(m), HdrKind(m), m[4..|m| - trail])
  }

  /** One iteration of h5_recv that consumes no byte. */
  function Settle1(rx: Rx, expected: Bits3): (Rx, Event)
    requires Valid(rx) && Pending(rx)
  {
    var m := rx.skb.value;
    if rx.state == W4Hdr then
      if !ChecksumOk(m) then (Drop(rx), Silent)
      else if HdrReliable(m) && HdrSeq(m) != expected then (Drop(rx), OutOfSequence)
      else (StartData(rx), Silent)
    else if rx.state == W4Data then
      if HdrCrc(m) then (StartCheck(rx), Silent)
      else (Drop(rx), Completed(Parse(m, 0), m[4..]))
    else
      if BitRev16(rx.crc) as int != m[|m| - 1] as int + m[|m| - 2] as int * 256 then (Drop(rx), Silent)
      else (Drop(rx), Completed(Parse(m, 2), m[4..]))
  }

  function Rank(rx: Rx): nat {
    if rx.state == W4Hdr then 3 else if rx.state == W4Data then 2 else if rx.state == W4Crc then 1 else 0
  }

  /** All the iterations of h5_recv that precede the consumption of the next byte. */
  function Settle(rx: Rx, expected: Bits3): (Rx, Event)
    requires Valid(rx)
    decreases Rank(rx)
  {
    if !Pending(rx) then (rx, Silent)
    else
      var (r, e) := Settle1(rx, expected);
      Settle1Valid(rx, expected);
      if e == Silent then Settle(r, expected) else (r, e)
  }

  /** A byte inside a packet */
  function Inside(rx: Rx, b: byte): Rx
    requires rx.skb.Some? && rx.count > 0
  {
    if b == DELIM then Short(rx) else Unslip(rx, b)
  }

  /** The iteration of h5_recv that consumes a byte. */
  function Consume(rx: Rx, b: byte): Rx
    requires Valid(rx) && !Pending(rx)
  {
    if rx.count > 0 then Inside(rx, b)
    else if rx.state == W4Delimiter then
      if b == DELIM then SetState(rx, W4Start) else rx
    else
      if b == DELIM then rx else Unslip(Open(rx), b)
  }

  // ----- the invariant

  ghost predicate InHeader(m: seq<byte>, count: nat, crc: bv16) {
    && |m| + count == 4
    && (m == [] || HdrCrc(m) ==> crc == MessageCrc(m))
  }

  ghost predicate InData(m: seq<byte>, count: nat, crc: bv16) {
    && |m| >= 4 && ChecksumOk(m)
    && |m| + count == 4 + HdrLen(m)
    && (HdrCrc(m) ==> crc == MessageCrc(m))
  }

  ghost predicate InCheck(m: seq<byte>, count: nat, crc: bv16) {
    && |m| >= 4 && ChecksumOk(m) && HdrCrc(m)
    && |m| + count == 4 + HdrLen(m) + 2 && count <= 2
    && crc == MessageCrc(m[..4 + HdrLen(m)])
  }

  /** A buffer is live exactly inside a packet; what it holds and rx_count make up what the header promises;
      message_crc is the CRC of what has been received, when the header announces a check. */
  ghost predicate Valid(rx: Rx) {
    if rx.state == W4Delimiter || rx.state == W4Start then rx.count == 0 && rx.skb == None
    else
      && rx.skb.Some?
      && if rx.state == W4Hdr then InHeader(rx.skb.value, rx.count, rx.crc)
         else if rx.state == W4Data then InData(rx.skb.value, rx.count, rx.crc)
         else InCheck(rx.skb.value, rx.count, rx.crc)
  }

  /** Every skb_put on the receive buffer finds room. */
  lemma BufferSuffices(rx: Rx)
    requires Valid(rx) && rx.skb.Some?
    ensures |rx.skb.value| + rx.count <= RX_ALLOC == 0x1005
    ensures rx.count > 0 ==> |rx.skb.value| < RX_ALLOC
  {
  }

  lemma Settle1Valid(rx: Rx, expected: Bits3)
    requires Valid(rx) && Pending(rx)
    ensures var (r, e) := Settle1(rx, expected);
      && Valid(r) && Rank(r) < Rank(rx)
      && (e == Silent || (r.state == W4Delimiter && !Pending(r)))
  {
    var m := rx.skb.value;
    if rx.state == W4Data && HdrCrc(m) {
      assert m[..4 + HdrLen(m)] == m;
      assert InCheck(m, 2, rx.crc);
    } else {
    }
  }

  lemma {:induction false} SettleValid(rx: Rx, expected: Bits3)
    requires Valid(rx)
    ensures var (r, e) := Settle(rx, expected); Valid(r) && !Pending(r)
    decreases Rank(rx)
  {
    if Pending(rx) {
      Settle1Valid(rx, expected);
      SettleValid(Settle1(rx, expected).0, expected);
    }
  }

  lemma PutInHeader(m: seq<byte>, count: nat, crc: bv16, b: byte)
    requires InHeader(m, count, crc) && count > 0
    ensures InHeader(m + [b], count - 1, if HdrCrc(m + [b]) then CrcUpdate(crc, b as bv16) else crc)
  {
    CrcAppend(m, b);
  }

  lemma PutInData(m: seq<byte>, count: nat, crc: bv16, b: byte)
    requires InData(m, count, crc) && count > 0
    ensures InData(m + [b], count - 1, if HdrCrc(m + [b]) then CrcUpdate(crc, b as bv16) else crc)
  {
    CrcAppend(m, b);
  }

  lemma PutInCheck(m: seq<byte>, count: nat, crc: bv16, b: byte)
    requires InCheck(m, count, crc) && count > 0
    ensures InCheck(m + [b], count - 1, crc)
  {
    assert (m + [b])[..4 + HdrLen(m)] == m[..4 + HdrLen(m)];
  }

  lemma PutByteValid(rx: Rx, b: byte)
    requires Valid(rx) && rx.skb.Some? && rx.count > 0
    ensures Valid(PutByte(rx, b))
  {
    if rx.state == W4Hdr {
      PutInHeader(rx.skb.value, rx.count, rx.crc, b);
    } else if rx.state == W4Data {
      PutInData(rx.skb.value, rx.count, rx.crc, b);
    } else {
      PutInCheck(rx.skb.value, rx.count, rx.crc, b);
    }
  }

  lemma UnslipValid(rx: Rx, b: byte)
    requires Valid(rx) && rx.skb.Some? && rx.count > 0
    ensures Valid(Unslip(rx, b))
  {
    if !rx.esc {
      if b != 0xdb { PutByteValid(rx, b); }
    } else if b == 0xdc {
      PutByteValid(rx, 0xc0);
    } else if b == 0xdd {
      PutByteValid(rx, 0xdb);
    } else if b == 0xde {
      PutByteValid(rx, 0x11);
    } else if b == 0xdf {
      PutByteValid(rx, 0x13);
    }
  }

  lemma ConsumeValid(rx: Rx, b: byte)
    requires Valid(rx) && !Pending(rx)
    ensures Valid(Consume(rx, b))
  {
    if rx.count > 0 {
      UnslipValid(rx, b);
    } else {
      UnslipValid(Open(rx), b);
    }
  }
}
