/**
 The H5 control block (hci_h5.c): queues, sequence numbers, retransmission and link establishment.
 Each function gives the control block after one C function; the receive decoder is in H5Receiver.
 */
module H5Control {
  import opened Bytes
  import opened H5Frame

  const DATA_RETRANS_COUNT := 40

  datatype Packet = Packet(kind: Bits4, data: seq<byte>)

  datatype LinkState = Uninitialized | Initialized | Active

  /** A packet as it went to the UART: its content and coding, its position `index` in the order of the
      reliable stream, and what had been sent (`high`) and accepted (`acked`) when it left. */
  datatype Sent = Sent(frame: Frame, oof: bool, index: nat, high: nat, acked: nat)

  /** A record of the run so far. No function below branches on it. */
  datatype History = History(
    queued: seq<Packet>,    // every packet h5_enqueue put on rel
    released: nat,          // how many of those h5_remove_acked_pkt has freed
    high: nat,              // how many of those have been sent at least once
    accepted: seq<Packet>,  // every reliable packet h5_complete_rx_pkt completed
    sent: seq<Sent>,        // every packet handed to the UART
    wasActive: bool)        // the link has been ACTIVE

  type Stale = s: seq<byte> | |s| == 3 witness [0, 0, 0]

  datatype Cb = Cb(
    window: Bits3, oof: bool, dic: bool, useCrc: bool,
    unack: seq<Packet>, rel: seq<Packet>, unrel: seq<Packet>, recvData: seq<Packet>,
    rxseqTxack: Bits3, rxack: Bits3, ackReq: bool, txseq: Bits3,
    link: LinkState,
    retransCount: nat,
    dataTimer: bool,        // the one-shot data retransmission timer is armed
    rxEvent: bool,          // H5_EVENT_RX is pending for the retransmission thread
    stale: Stale,           // what malloc left where the code reads past a short link control payload
    hist: History)

  /** hci_h5_int_init */
  function Init(stale: Stale): Cb {
    Cb(0, false, false, false, [], [], [], [], 0, 0, false, 0, Uninitialized, 0, false, false, stale,
       History([], 0, 0, [], [], false))
  }

  // ----- sending

  /** What is left to send: every frame h5_dequeue emits lowers it. */
  function Work(cb: Cb): nat {
    |cb.unrel| + |cb.rel| + if cb.ackReq then 1 else 0
  }

  predicate ReliableKind(kind: Bits4) {
    kind == HCI_ACLDATA_PKT || kind == HCI_COMMAND_PKT || kind == HCI_EVENT_PKT
  }

  predicate UnreliableKind(kind: Bits4) {
    kind == H5_ACK_PKT || kind == H5_VDRSPEC_PKT || kind == H5_LINK_CTL_PKT
  }

  /** h5_prepare_pkt up to the encoding: header fields, and what they change. */
  function Prepare(cb: Cb, p: Packet): (Cb, Option<Frame>) {
    var rel := ReliableKind(p.kind);
    if !rel && !UnreliableKind(p.kind) then (cb, None)
    else
      (cb.(ackReq := false, txseq := if rel then (cb.txseq + 1) % 8 else cb.txseq),
       Some(Frame(rel, if rel then cb.txseq else 0, cb.rxseqTxack, cb.useCrc, p.kind, p.data)))
  }

  // skb_dequeue_head, skb_queue_head and skb_queue_tail on the three queues.

  function PopUnrel(cb: Cb): Cb
    requires cb.unrel != []
  {
    cb.(unrel := cb.unrel[1..])
  }

  function PushUnrel(cb: Cb, p: Packet): Cb {
    cb.(unrel := [p] + cb.unrel)
  }

  function PopRel(cb: Cb): Cb
    requires cb.rel != []
  {
    cb.(rel := cb.rel[1..])
  }

  function PushRel(cb: Cb, p: Packet): Cb {
    cb.(rel := [p] + cb.rel)
  }

  lemma PutFrontBack(ps: seq<Packet>)
    requires ps != []
    ensures [ps[0]] + ps[1..] == ps
  {
  }

  /** A reliable packet waits for its acknowledgement, with the data timer running. */
  function KeepUnacked(cb: Cb, p: Packet): Cb {
    cb.(unack := cb.unack + [p], dataTimer := true)
  }

  function DequeueUnreliable(cb: Cb): (r: (Cb, Option<Frame>))
    ensures r.1.Some? ==> Work(r.0) < Work(cb)
    ensures r.1.None? ==> r.0 == cb
    ensures r.0.hist == cb.hist
  {
    if cb.unrel == [] then (cb, None)
    else
      var p := cb.unrel[0];
      var (c, f) := Prepare(PopUnrel(cb), p);
      PutFrontBack(cb.unrel);
      if f.Some? then (c, f) else (PushUnrel(c, p), f)
  }

  function DequeueReliable(cb: Cb): (r: (Cb, Option<Frame>))
    ensures r.1.Some? ==> Work(r.0) < Work(cb)
    ensures r.1.None? ==> r.0 == cb
    ensures r.0.hist == cb.hist
  {
    if |cb.unack| >= cb.window || cb.rel == [] then (cb, None)
    else
      var p := cb.rel[0];
      var (c, f) := Prepare(PopRel(cb), p);
      PutFrontBack(cb.rel);
      if f.Some? then (KeepUnacked(c, p), f) else (PushRel(c, p), f)
  }

  function DequeueAck(cb: Cb): (r: (Cb, Option<Frame>))
    ensures r.1.Some? ==> Work(r.0) < Work(cb)
    ensures r.1.None? ==> r.0 == cb
    ensures r.0.hist == cb.hist
  {
    if cb.ackReq then Prepare(cb, Packet(H5_ACK_PKT, [])) else (cb, None)
  }

  /** h5_dequeue: unreliable packets first, then reliable ones while the window is open, then a bare ack. */
  function Dequeue(cb: Cb): (r: (Cb, Option<Frame>))
    ensures r.1.Some? ==> Work(r.0) < Work(cb)
    ensures r.1.None? ==> r.0 == cb
    ensures r.0.hist == cb.hist
  {
    var u := DequeueUnreliable(cb);
    if u.1.Some? then u else
    var r := DequeueReliable(cb);
    if r.1.Some? then r else DequeueAck(cb)
  }

  function Record(cb: Cb, f: Frame): History {
    var index := if f.rel && cb.unack != [] then cb.hist.released + |cb.unack| - 1 else 0;
    var high := if f.rel && cb.hist.high <= index then index + 1 else cb.hist.high;
    cb.hist.(high := high, sent := cb.hist.sent + [Sent(f, cb.oof, index, high, |cb.hist.accepted|)])
  }

  /** A frame that the control block has just dequeued goes to the UART. */
  function Transmit(cb: Cb, f: Frame): Cb {
    cb.(hist := Record(cb, f))
  }

  /** h5_wake_up: dequeue and send until there is nothing to send. */
  function WakeUp(cb: Cb): Cb
    decreases Work(cb)
  {
    var (c, f) := Dequeue(cb);
    if f.None? then c else WakeUp(Transmit(c, f.value))
  }

  /** h5_enqueue */
  function Enqueue(cb: Cb, p: Packet): Cb {
    if |p.data| > MAX_PAYLOAD then cb
    else if p.kind == HCI_ACLDATA_PKT || p.kind == HCI_COMMAND_PKT then
      cb.(rel := cb.rel + [p], hist := cb.hist.(queued := cb.hist.queued + [p]))
    else if UnreliableKind(p.kind) then cb.(unrel := cb.unrel + [p])
    else cb
  }

  // ----- acknowledgement and retransmission

  /** The backward search of h5_remove_acked_pkt: how many of n packets, the newest sent as seqno - 1, are acked. */
  function AckedCount(rxack: Bits3, seqno: Bits3, n: nat): (k: nat)
    ensures k <= n
    decreases n
  {
    if n == 0 || rxack == seqno then n else AckedCount(rxack, (seqno + 7) % 8, n - 1)
  }

  /** The k oldest packets are unlinked. */
  function Unlink(cb: Cb, k: nat): Cb
    requires k <= |cb.unack|
  {
    cb.(unack := cb.unack[k..], hist := cb.hist.(released := cb.hist.released + k))
  }

  function StopDataTimer(cb: Cb): Cb {
    cb.(dataTimer := false, retransCount := 0)
  }

  /** h5_remove_acked_pkt */
  function RemoveAcked(cb: Cb): Cb {
    var c := Unlink(cb, AckedCount(cb.rxack, cb.txseq, |cb.unack|));
    if c.unack == [] then StopDataTimer(c) else c
  }

  /** The data timer fires: h5_retransfer_timeout_handler. */
  function TimerFires(cb: Cb): Cb {
    if cb.dataTimer then cb.(dataTimer := false, rxEvent := true) else cb
  }

  /** The loop of data_retransfer_thread that takes back every unacknowledged packet. */
  function Rollback(cb: Cb): Cb {
    cb.(rel := cb.unack + cb.rel, unack := [], txseq := (cb.txseq + 7 * |cb.unack|) % 8)
  }

  /** What data_retransfer_thread does with H5_EVENT_RX before it wakes the sender. */
  function TakeBack(cb: Cb): Cb {
    if cb.retransCount < DATA_RETRANS_COUNT then
      Rollback(cb).(rxEvent := false, retransCount := cb.retransCount + 1)
    else cb.(rxEvent := false)
  }

  /** One round of data_retransfer_thread. */
  function Retransfer(cb: Cb): Cb {
    if !cb.rxEvent then cb
    else if cb.retransCount < DATA_RETRANS_COUNT then WakeUp(TakeBack(cb))
    else TakeBack(cb)
  }

  // ----- link establishment

  const SYNC: seq<byte> := [0x01, 0x7E]
  const SYNC_RESP: seq<byte> := [0x02, 0x7D]
  const CONF: seq<byte> := [0x03, 0xFC, 0x14]
  const CONF_RESP: seq<byte> := [0x04, 0x7B]

  /** The two-byte memcmp of h5_process_ctl_pkts. */
  predicate Same2(v: seq<byte>, m: seq<byte>)
    requires |v| >= 2 && |m| >= 2
  {
    v[0] == m[0] && v[1] == m[1]
  }

  function SetLink(cb: Cb, link: LinkState): Cb {
    cb.(link := link)
  }

  function SendControl(cb: Cb, data: seq<byte>): Cb {
    WakeUp(Enqueue(cb, Packet(H5_LINK_CTL_PKT, data)))
  }

  function Deliver(cb: Cb, p: Packet): Cb {
    cb.(recvData := cb.recvData + [p])
  }

  function SetWindow(cb: Cb, cfg: byte): Cb {
    cb.(window := cfg % 8, oof := cfg / 8 % 2 == 1, dic := cfg / 16 % 2 == 1)
  }

  /** The check is used from now on if the configuration asks for it. */
  function UseCheck(cb: Cb): Cb {
    cb.(useCrc := cb.useCrc || cb.dic, hist := cb.hist.(wasActive := true))
  }

  function Negotiate(cb: Cb, cfg: byte): Cb {
    UseCheck(SetWindow(cb, cfg))
  }

  /** rtk_notify_hw_h5_init_result */
  const INIT_EVENT := Packet(HCI_EVENT_PKT, [0x0e, 0x04, 0x03, 0xee, 0xfc, 0x00])

  /** The configuration field of a configuration response takes effect. */
  function Configure(cb: Cb, cfg: byte): Cb {
    Deliver(Negotiate(SetLink(cb, Active), cfg), INIT_EVENT)
  }

  // h5_process_ctl_pkts on the first three bytes at the payload's address, by the state of the link.

  function ControlUninitialized(cb: Cb, v: seq<byte>): Cb
    requires |v| == 3
  {
    if Same2(v, SYNC) then SendControl(cb, SYNC_RESP)
    else if Same2(v, SYNC_RESP) then SendControl(SetLink(cb, Initialized), CONF)
    else cb
  }

  function ControlInitialized(cb: Cb, v: seq<byte>): Cb
    requires |v| == 3
  {
    if Same2(v, SYNC) then SendControl(cb, SYNC_RESP)
    else if Same2(v, CONF) then SendControl(cb, CONF_RESP)
    else if Same2(v, CONF_RESP) then Configure(cb, v[2])
    else cb
  }

  function ControlActive(cb: Cb, v: seq<byte>): Cb
    requires |v| == 3
  {
    if Same2(v, SYNC) then SendControl(SetLink(SendControl(cb, SYNC_RESP), Uninitialized), SYNC)
    else if Same2(v, CONF) then SendControl(cb, CONF_RESP)
    else cb
  }

  function ProcessControl(cb: Cb, v: seq<byte>): Cb
    requires |v| == 3
  {
    match cb.link
    case Uninitialized => ControlUninitialized(cb, v)
    case Initialized => ControlInitialized(cb, v)
    case Active => ControlActive(cb, v)
  }

  // ----- receiving

  /** h5_complete_rx_pkt, the part for reliable packets: the next one is expected, an acknowledgement is owed. */
  function Accept(cb: Cb, f: Frame): Cb {
    cb.(rxseqTxack := (f.seqNo + 1) % 8, ackReq := true,
        hist := cb.hist.(accepted := cb.hist.accepted + [Packet(f.kind, f.data)]))
  }

  /** The three bytes at the payload's address: the payload and its check, then what malloc left there. */
  function ControlBytes(rest: seq<byte>, stale: Stale): (v: seq<byte>)
    ensures |v| == 3
  {
    if |rest| >= 3 then rest[..3] else rest + stale[|rest|..]
  }

  /** The end of h5_complete_rx_pkt: link control is processed here, HCI packets go to recv_data. */
  function PassUp(cb: Cb, f: Frame, v: seq<byte>): Cb
    requires |v| == 3
  {
    if f.kind == H5_LINK_CTL_PKT then ProcessControl(cb, v)
    else if HCI_COMMAND_PKT <= f.kind <= HCI_EVENT_PKT then Deliver(cb, Packet(f.kind, f.data))
    else cb
  }

  function SetRxack(cb: Cb, ack: Bits3): Cb {
    cb.(rxack := ack)
  }

  function OweAck(cb: Cb): Cb {
    cb.(ackReq := true)
  }

  /** h5_complete_rx_pkt; `rest` is what the receive buffer holds after the header. */
  function Complete(cb: Cb, f: Frame, rest: seq<byte>): Cb
  {
    var c0 := if f.rel then WakeUp(Accept(cb, f)) else cb;
    PassUp(RemoveAcked(SetRxack(c0, f.ackNo)), f, ControlBytes(rest, cb.stale))
  }

  /** h5_recv on a reliable packet with an unexpected number: it is dropped and the expected one is announced. */
  function OutOfOrder(cb: Cb): Cb {
    WakeUp(OweAck(cb))
  }

  /** What a whole received packet does. */
  function Receive(cb: Cb, f: Frame, rest: seq<byte>): Cb
  {
    if f.rel && f.seqNo != cb.rxseqTxack then OutOfOrder(cb) else Complete(cb, f, rest)
  }
}
