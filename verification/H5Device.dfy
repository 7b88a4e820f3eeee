/**
 The H5 endpoint as the object hci_h5.c makes of it: one control block updated in place by loops over bytes and
 packets. Every method is proved to do what the functions of H5Control, H5Receiver and H5Stream say.
 */
module H5Device {
  import opened Bytes
  import opened Crc
  import opened H5Frame
  import opened RtkBuffers
  import C = H5Control
  import R = H5Receiver
  import S = H5Stream
  import W = H5Window

  /** What the recorded packets amount to on the UART. */
  ghost function Wire(sent: seq<C.Sent>): seq<byte> {
    if sent == [] then []
    else
      var s := sent[|sent| - 1];
      Wire(sent[..|sent| - 1]) + if s.frame.Valid() then Encode(s.frame, s.oof) else []
  }

  ghost predicate Sized(q: seq<C.Packet>) {
    forall i :: 0 <= i < |q| ==> |q[i].data| <= MAX_PAYLOAD
  }

  /** h5_slip_one_byte */
  method SlipOneByte(skb: RtkBuffer, b: byte, oof: bool)
    requires skb.Valid() && skb.Room() >= 2
    modifies skb, skb.head
    ensures skb.Valid()
    ensures skb.Contents() == old(skb.Contents()) + SlipByte(b, oof)
    ensures skb.Room() == old(skb.Room()) - |SlipByte(b, oof)|
  {
    if b == 0xc0 {
      skb.Put(0xdb);
      skb.Put(0xdc);
    } else if b == 0xdb {
      skb.Put(0xdb);
      skb.Put(0xdd);
    } else if b == 0x11 && oof {
      skb.Put(0xdb);
      skb.Put(0xde);
    } else if b == 0x13 && oof {
      skb.Put(0xdb);
      skb.Put(0xdf);
    } else {
      skb.Put(b);
    }
  }

  /** One byte of h5_prepare_pkt's loops: into the buffer and into the check. */
  method PutOne(nskb: RtkBuffer, b: byte, oof: bool, useCrc: bool, crc0: bv16, ghost done: seq<byte>)
    returns (crc: bv16)
    requires nskb.Valid() && nskb.Contents() == [DELIM] + Slip(done, oof) && nskb.Room() >= 2
    requires useCrc ==> crc0 == MessageCrc(done)
    modifies nskb, nskb.head
    ensures nskb.Valid() && nskb.Contents() == [DELIM] + Slip(done + [b], oof)
    ensures nskb.Room() >= old(nskb.Room()) - 2
    ensures useCrc ==> crc == MessageCrc(done + [b])
  {
    SlipOneByte(nskb, b, oof);
    crc := if useCrc then CrcUpdate(crc0, b as bv16) else crc0;
    SlipNext(done, b, oof);
    CrcAppend(done, b);
  }

  /** One of the two byte loops of h5_prepare_pkt. */
  method PutAll(nskb: RtkBuffer, bytes: seq<byte>, oof: bool, useCrc: bool, crc0: bv16, ghost before: seq<byte>)
    returns (crc: bv16)
    requires nskb.Valid() && nskb.Contents() == [DELIM] + Slip(before, oof)
    requires nskb.Room() >= 2 * |bytes|
    requires useCrc ==> crc0 == MessageCrc(before)
    modifies nskb, nskb.head
    ensures nskb.Valid() && nskb.Contents() == [DELIM] + Slip(before + bytes, oof)
    ensures nskb.Room() >= old(nskb.Room()) - 2 * |bytes|
    ensures useCrc ==> crc == MessageCrc(before + bytes)
  {
    crc := crc0;
    ghost var done := before;
    Ends(before, bytes);
    for i := 0 to |bytes|
      invariant nskb.Valid() && nskb.Contents() == [DELIM] + Slip(done, oof) && done == before + bytes[..i]
      invariant nskb.Room() >= old(nskb.Room()) - 2 * i
      invariant useCrc ==> crc == MessageCrc(done)
    {
      crc := PutOne(nskb, bytes[i], oof, useCrc, crc, done);
      Prefix(before, bytes, i);
      done := done + [bytes[i]];
    }
    Ends(before, bytes);
  }

  lemma Ends(before: seq<byte>, bytes: seq<byte>)
    ensures before + bytes[..0] == before && before + bytes[..|bytes|] == before + bytes
  {
  }

  /** What h5_prepare_pkt puts into its buffer after the opening delimiter. */
  method PutContent(nskb: RtkBuffer, hdr: seq<byte>, data: seq<byte>, oof: bool, useCrc: bool, ghost f: Frame)
    requires nskb.Valid() && nskb.Contents() == [DELIM] && nskb.Room() == (|data| + 6) * 2 + 1
    requires f.Valid() && hdr == Header(f) && data == f.data && useCrc == f.crc
    modifies nskb, nskb.head
    ensures nskb.Valid() && nskb.Contents() == Encode(f, oof)
  {
    var crc := PutAll(nskb, hdr, oof, useCrc, 0xffff, []);
    assert [] + hdr == hdr;
    crc := PutAll(nskb, data, oof, useCrc, crc, hdr);
    if useCrc {
      PutCheck(nskb, crc, oof, hdr + data);
    }
    assert Content(f) == hdr + data + Check(f);
    assert !useCrc ==> hdr + data + Check(f) == hdr + data;
    nskb.Put(DELIM);
  }

  method PutCheck(nskb: RtkBuffer, crc: bv16, oof: bool, ghost msg: seq<byte>)
    requires nskb.Valid() && nskb.Contents() == [DELIM] + Slip(msg, oof) && nskb.Room() >= 5
    requires crc == MessageCrc(msg)
    modifies nskb, nskb.head
    ensures nskb.Valid() && nskb.Contents() == [DELIM] + Slip(msg + CheckBytes(msg), oof) && nskb.Room() >= 1
  {
    var rev := BitRev16(crc) as int;
    var check: seq<byte> := [rev / 256, rev % 256];
    SlipOneByte(nskb, check[0], oof);
    SlipOneByte(nskb, check[1], oof);
    SlipTwo(msg, check[0], check[1], oof);
    assert check == CheckBytes(msg);
  }

  /** The timers that repeat a synchronisation or configuration request, and how often they have. */
  datatype Timers = Timers(sync: bool, syncCount: nat, conf: bool, confCount: nat)

  /** What h5_process_ctl_pkts does to them: the answer to a request stops its repetition, and a request starts it. */
  function ControlTimers(t: Timers, link: C.LinkState, v: seq<byte>): Timers
    requires |v| == 3
  {
    match link
    case Uninitialized => if C.Same2(v, C.SYNC_RESP) then t.(sync := false, syncCount := 0, conf := true) else t
    case Initialized => if C.Same2(v, C.CONF_RESP) then t.(conf := false, confCount := 0) else t
    case Active => if C.Same2(v, C.SYNC) then t.(sync := true) else t
  }

  class H5 {
    var window: Bits3
    var oof: bool
    var dic: bool
    var useCrc: bool
    var unack: seq<C.Packet>
    var rel: seq<C.Packet>
    var unrel: seq<C.Packet>
    var recvData: seq<C.Packet>
    var rxseqTxack: Bits3
    var rxack: Bits3
    var ackReq: bool
    var txseq: Bits3
    var link: C.LinkState
    var retransCount: nat
    var dataTimer: bool
    var rxEvent: bool
    var timers: Timers
    var cleanuping: bool

    var rxState: R.RxState
    var rxEsc: bool
    var rxCount: nat
    var rxSkb: RtkBuffer?
    var messageCrc: bv16

    var wire: seq<byte>       // everything given to uart_send
    const stale: C.Stale      // what malloc leaves at the payload's place in a receive buffer

    ghost var hist: C.History

    ghost function Cb(): C.Cb
      reads this`window, this`oof, this`dic, this`useCrc, this`unack, this`rel, this`unrel, this`recvData,
            this`rxseqTxack, this`rxack, this`ackReq, this`txseq, this`link, this`retransCount,
            this`dataTimer, this`rxEvent, this`hist
    {
      C.Cb(window, oof, dic, useCrc, unack, rel, unrel, recvData, rxseqTxack, rxack, ackReq, txseq,
           link, retransCount, dataTimer, rxEvent, stale, hist)
    }

    /** Packets in the queues are short enough for the length field, and the UART got what the record says. */
    ghost predicate Ready()
      reads this`unack, this`rel, this`unrel, this`wire, this`hist
    {
      Sized(unack) && Sized(rel) && Sized(unrel) && wire == Wire(hist.sent)
    }

    /** h5_prepare_pkt: no buffer for an unknown packet type, otherwise one that holds the encoded packet. */
    method PreparePkt(p: C.Packet) returns (nskb: RtkBuffer?, ghost f: Option<Frame>)
      requires |p.data| <= MAX_PAYLOAD
      modifies this`ackReq, this`txseq
      ensures (Cb(), f) == C.Prepare(old(Cb()), p)
      ensures nskb == null <==> f.None?
      ensures f.Some? <==> p.kind == 0 || p.kind == 1 || p.kind == 2 || p.kind == 4 || p.kind == 14 || p.kind == 15
      ensures f.Some? ==> f.value.kind == p.kind && f.value.data == p.data && (f.value.rel <==> 1 <= p.kind <= 4)
      ensures nskb != null ==> fresh(nskb) && fresh(nskb.head) && nskb.Valid()
      ensures nskb != null ==> f.value.Valid() && nskb.Contents() == Encode(f.value, oof)
    {
      var reliable;
      if p.kind == HCI_ACLDATA_PKT || p.kind == HCI_COMMAND_PKT || p.kind == HCI_EVENT_PKT {
        reliable := true;
      } else if p.kind == H5_ACK_PKT || p.kind == H5_VDRSPEC_PKT || p.kind == H5_LINK_CTL_PKT {
        reliable := false;
      } else {
        return null, None;
      }
      nskb := new RtkBuffer((|p.data| + 6) * 2 + 2, 0, (i: nat) => 0);
      nskb.Put(DELIM);
      var hdr, frame := BuildHeader(p, reliable);
      PutContent(nskb, hdr, p.data, oof, useCrc, frame);
      f := Some(frame);
    }

    /** The header, and the sequence number and acknowledgement it takes. */
    method BuildHeader(p: C.Packet, reliable: bool) returns (hdr: seq<byte>, ghost f: Frame)
      requires |p.data| <= MAX_PAYLOAD
      requires if reliable then C.ReliableKind(p.kind) else C.UnreliableKind(p.kind)
      modifies this`ackReq, this`txseq
      ensures (Cb(), Some(f)) == C.Prepare(old(Cb()), p)
      ensures f.Valid() && hdr == Header(f) && f.data == p.data && f.crc == useCrc
    {
      f := C.Prepare(Cb(), p).1.value;
      var hdr0 := rxseqTxack * 8;
      ackReq := false;
      if reliable {
        hdr0 := hdr0 + 0x80 + txseq;
        txseq := (txseq + 1) % 8;
      }
      if useCrc {
        hdr0 := hdr0 + 0x40;
      }
      var hdr1, hdr2 := |p.data| % 16 * 16 + p.kind, |p.data| / 16;
      hdr := [hdr0, hdr1, hdr2, 255 - (hdr0 + hdr1 + hdr2) % 256];
    }

    // ----- sending

    // skb_dequeue_head, skb_queue_head and skb_queue_tail

    method PopUnrel() returns (skb: C.Packet)
      requires Ready() && unrel != []
      modifies this`unrel
      ensures Cb() == C.PopUnrel(old(Cb())) && skb == old(unrel)[0] && Ready() && |skb.data| <= MAX_PAYLOAD
    {
      skb := unrel[0];
      unrel := unrel[1..];
    }

    method PushUnrel(skb: C.Packet)
      requires Ready() && |skb.data| <= MAX_PAYLOAD
      modifies this`unrel
      ensures Cb() == C.PushUnrel(old(Cb()), skb) && Ready()
    {
      unrel := [skb] + unrel;
    }

    method PopRel() returns (skb: C.Packet)
      requires Ready() && rel != []
      modifies this`rel
      ensures Cb() == C.PopRel(old(Cb())) && skb == old(rel)[0] && Ready() && |skb.data| <= MAX_PAYLOAD
    {
      skb := rel[0];
      rel := rel[1..];
    }

    method PushRel(skb: C.Packet)
      requires Ready() && |skb.data| <= MAX_PAYLOAD
      modifies this`rel
      ensures Cb() == C.PushRel(old(Cb()), skb) && Ready()
    {
      rel := [skb] + rel;
    }

    method KeepUnacked(skb: C.Packet)
      requires Ready() && |skb.data| <= MAX_PAYLOAD
      modifies this`unack, this`dataTimer
      ensures Cb() == C.KeepUnacked(old(Cb()), skb) && Ready()
    {
      unack := unack + [skb];
      dataTimer := true;
    }

    /** h5_dequeue: unreliable packets have priority. */
    method DequeueUnreliable() returns (nskb: RtkBuffer?, ghost f: Option<Frame>)
      requires Ready()
      modifies this`unrel, this`ackReq, this`txseq
      ensures (Cb(), f) == C.DequeueUnreliable(old(Cb())) && Ready()
      ensures nskb == null <==> f.None?
      ensures nskb != null ==> fresh(nskb) && fresh(nskb.head) && nskb.Valid()
      ensures nskb != null ==> f.value.Valid() && nskb.Contents() == Encode(f.value, oof)
    {
      if unrel == [] {
        return null, None;
      }
      var skb := PopUnrel();
      nskb, f := PreparePkt(skb);
      if nskb == null {
        PushUnrel(skb);
      }
    }

    /** h5_dequeue: a reliable packet goes out while fewer than the window are unacknowledged. */
    method DequeueReliable() returns (nskb: RtkBuffer?, ghost f: Option<Frame>)
      requires Ready()
      modifies this`unack, this`rel, this`ackReq, this`txseq, this`dataTimer
      ensures (Cb(), f) == C.DequeueReliable(old(Cb())) && Ready()
      ensures nskb == null <==> f.None?
      ensures nskb != null ==> fresh(nskb) && fresh(nskb.head) && nskb.Valid()
      ensures nskb != null ==> f.value.Valid() && nskb.Contents() == Encode(f.value, oof)
    {
      if |unack| >= window || rel == [] {
        return null, None;
      }
      var skb := PopRel();
      nskb, f := PreparePkt(skb);
      if nskb != null {
        KeepUnacked(skb);
      } else {
        PushRel(skb);
      }
    }

    /** h5_dequeue */
    method Dequeue() returns (nskb: RtkBuffer?, ghost f: Option<Frame>)
      requires Ready()
      modifies this`unack, this`rel, this`unrel, this`ackReq, this`txseq, this`dataTimer
      ensures (Cb(), f) == C.Dequeue(old(Cb())) && Ready()
      ensures nskb == null <==> f.None?
      ensures nskb != null ==> fresh(nskb) && fresh(nskb.head) && nskb.Valid()
      ensures nskb != null ==> f.value.Valid() && nskb.Contents() == Encode(f.value, oof)
    {
      nskb, f := DequeueUnreliable();
      if nskb == null {
        nskb, f := DequeueReliable();
        if nskb == null && ackReq {
          nskb, f := PreparePkt(C.Packet(H5_ACK_PKT, []));
        }
      }
    }

    /** h5_wake_up */
    method WakeUp()
      requires Ready()
      modifies this`unack, this`rel, this`unrel, this`ackReq, this`txseq, this`dataTimer, this`wire, this`hist
      ensures Cb() == C.WakeUp(old(Cb())) && Ready()
    {
      while true
        invariant Ready() && C.WakeUp(Cb()) == C.WakeUp(old(Cb()))
        decreases C.Work(Cb())
      {
        ghost var before := Cb();
        var skb, f := Dequeue();
        if skb == null {
          break;
        }
        assert C.WakeUp(before) == C.WakeUp(C.Transmit(Cb(), f.value));
        Send(skb, f.value);
      }
    }

    /** uart_send, and the record of it */
    method Send(skb: RtkBuffer, ghost f: Frame)
      requires Ready() && skb.Valid() && f.Valid() && skb.Contents() == Encode(f, oof)
      modifies this`wire, this`hist
      ensures Cb() == C.Transmit(old(Cb()), f) && Ready()
    {
      SendBytes(skb, Encode(f, oof));
      RecordSent(f);
    }

    /** uart_send */
    method SendBytes(skb: RtkBuffer, ghost bytes: seq<byte>)
      requires skb.Valid() && skb.Contents() == bytes
      modifies this`wire
      ensures wire == old(wire) + bytes
    {
      wire := wire + skb.head[skb.data..skb.end];
    }

    ghost method RecordSent(f: Frame)
      requires f.Valid() && Sized(unack) && Sized(rel) && Sized(unrel) && wire == Wire(hist.sent) + Encode(f, oof)
      modifies this`hist
      ensures Cb() == C.Transmit(old(Cb()), f) && Ready()
    {
      ghost var now := C.Record(Cb(), f);
      RecordWire(Cb(), f);
      hist := now;
    }

    /** h5_enqueue */
    method Enqueue(skb: C.Packet)
      requires Ready()
      modifies this`rel, this`unrel, this`hist
      ensures Cb() == C.Enqueue(old(Cb()), skb) && Ready()
    {
      if |skb.data| > MAX_PAYLOAD {
        return;
      }
      if skb.kind == HCI_ACLDATA_PKT || skb.kind == HCI_COMMAND_PKT {
        rel := rel + [skb];
        hist := hist.(queued := hist.queued + [skb]);
      } else if skb.kind == H5_LINK_CTL_PKT || skb.kind == H5_ACK_PKT || skb.kind == H5_VDRSPEC_PKT {
        unrel := unrel + [skb];
      }
    }

    // ----- acknowledgement and retransmission

    /** h5_remove_acked_pkt: the search back from the next sequence number. */
    method CountAcked() returns (toRemove: nat)
      ensures toRemove == C.AckedCount(rxack, txseq, |unack|)
    {
      var seqno: Bits3 := txseq;
      toRemove := |unack|;
      while toRemove > 0
        invariant C.AckedCount(rxack, seqno, toRemove) == C.AckedCount(rxack, txseq, |unack|)
      {
        if rxack == seqno {
          break;
        }
        toRemove := toRemove - 1;
        seqno := (seqno + 7) % 8;
      }
    }

    /** h5_remove_acked_pkt: the packets are unlinked from the head of unack. */
    method Unlink(toRemove: nat)
      requires Ready() && toRemove <= |unack|
      modifies this`unack, this`hist
      ensures Cb() == C.Unlink(old(Cb()), toRemove) && Ready()
    {
      var i := 0;
      while i < toRemove
        invariant i <= toRemove && hist == old(hist)
        invariant unack == old(unack)[i..]
      {
        unack := unack[1..];
        i := i + 1;
      }
      hist := hist.(released := hist.released + toRemove);
    }

    /** h5_stop_data_retrans_timer, and the round count starts over */
    method StopDataTimer()
      requires Ready()
      modifies this`dataTimer, this`retransCount
      ensures Cb() == C.StopDataTimer(old(Cb())) && Ready()
    {
      dataTimer := false;
      retransCount := 0;
    }

    /** h5_remove_acked_pkt */
    method RemoveAckedPkt()
      requires Ready()
      modifies this`unack, this`dataTimer, this`retransCount, this`hist
      ensures Cb() == C.RemoveAcked(old(Cb())) && Ready()
      ensures if unack == [] then !dataTimer && retransCount == 0
              else dataTimer == old(dataTimer) && retransCount == old(retransCount)
    {
      var toRemove := CountAcked();
      Unlink(toRemove);
      if unack == [] {
        StopDataTimer();
      }
    }

    /** h5_retransfer_timeout_handler, when the armed timer fires; to no effect when the transport is being shut down */
    method TimerFires()
      requires Ready()
      modifies this`dataTimer, this`rxEvent
      ensures Cb() == (if cleanuping then old(Cb()).(dataTimer := false) else C.TimerFires(old(Cb()))) && Ready()
      ensures !dataTimer && (rxEvent <==> old(rxEvent) || (old(dataTimer) && !cleanuping))
    {
      if dataTimer {
        dataTimer := false;
        if !cleanuping {
          rxEvent := true;
        }
      }
    }

    /** One round of data_retransfer_thread */
    method Retransfer()
      requires Ready()
      modifies this`unack, this`rel, this`unrel, this`ackReq, this`txseq, this`dataTimer, this`wire, this`hist,
               this`rxEvent, this`retransCount
      ensures Cb() == C.Retransfer(old(Cb())) && Ready() && !rxEvent
    {
      if !rxEvent {
        return;
      }
      var again := TakeBack();
      if again {
        WakeUp();
      }
    }

    /** The event is taken; while the budget lasts, so is every unacknowledged packet. */
    method TakeBack() returns (again: bool)
      requires Ready()
      modifies this`unack, this`rel, this`txseq, this`rxEvent, this`retransCount
      ensures Cb() == C.TakeBack(old(Cb())) && Ready() && !rxEvent
      ensures again == (old(retransCount) < 40)
    {
      again := retransCount < C.DATA_RETRANS_COUNT;
      rxEvent := false;
      if again {
        TakeBackAll();
        retransCount := retransCount + 1;
      }
    }

    /** The loop of data_retransfer_thread: from the tail of unack to the head of rel, until unack is empty. */
    method TakeBackAll()
      requires Ready()
      modifies this`unack, this`rel, this`txseq
      ensures Cb() == C.Rollback(old(Cb())) && Ready()
    {
      ghost var n, all := 0, unack + rel;
      while unack != []
        invariant n + |unack| == |old(unack)| && unack + rel == all
        invariant txseq == (old(txseq) + 7 * n) % 8
        invariant Sized(unack) && Sized(rel)
        decreases |unack|
      {
        MoveBack(unack, rel);
        var last := |unack| - 1;
        var skb := unack[last];
        unack := unack[..last];
        W.Mod8(old(txseq) + 7 * n, 7);
        txseq := (txseq + 7) % 8;
        rel := [skb] + rel;
        n := n + 1;
      }
      assert rel == all;
    }

    // ----- link establishment

    method SendControl(data: seq<byte>)
      requires Ready()
      modifies this`unack, this`rel, this`unrel, this`ackReq, this`txseq, this`dataTimer, this`wire, this`hist
      ensures Cb() == C.SendControl(old(Cb()), data) && Ready()
    {
      Enqueue(C.Packet(H5_LINK_CTL_PKT, data));
      WakeUp();
    }

    method SetLink(l: C.LinkState)
      requires Ready()
      modifies this`link
      ensures Cb() == C.SetLink(old(Cb()), l) && Ready()
    {
      link := l;
    }

    /** The packet goes to recv_data. */
    method Deliver(p: C.Packet)
      requires Ready()
      modifies this`recvData
      ensures Cb() == C.Deliver(old(Cb()), p) && Ready()
    {
      recvData := recvData + [p];
    }

    /** The settings of a configuration field */
    method SetWindow(cfg: byte)
      requires Ready()
      modifies this`window, this`oof, this`dic
      ensures Cb() == C.SetWindow(old(Cb()), cfg) && Ready()
    {
      window := cfg % 8;
      oof := cfg / 8 % 2 == 1;
      dic := cfg / 16 % 2 == 1;
    }

    method UseCheck()
      requires Ready()
      modifies this`useCrc, this`hist
      ensures Cb() == C.UseCheck(old(Cb())) && Ready()
    {
      if dic {
        useCrc := true;
      }
      hist := hist.(wasActive := true);
    }

    method Negotiate(cfg: byte)
      requires Ready()
      modifies this`window, this`oof, this`dic, this`useCrc, this`hist
      ensures Cb() == C.Negotiate(old(Cb()), cfg) && Ready()
    {
      SetWindow(cfg);
      UseCheck();
    }

    /** h5_process_ctl_pkts on a configuration response */
    method Configure(cfg: byte)
      requires Ready()
      modifies this`link, this`window, this`oof, this`dic, this`useCrc, this`recvData, this`hist
      ensures Cb() == C.Configure(old(Cb()), cfg) && Ready()
    {
      SetLink(C.Active);
      Negotiate(cfg);
      Deliver(C.INIT_EVENT);
    }

    /** h5_process_ctl_pkts */
    method ProcessCtlPkts(v: seq<byte>)
      requires Ready() && |v| == 3
      modifies this`unack, this`rel, this`unrel, this`ackReq, this`txseq, this`dataTimer, this`wire, this`hist,
               this`link, this`window, this`oof, this`dic, this`useCrc, this`recvData, this`timers
      ensures Cb() == C.ProcessControl(old(Cb()), v) && Ready()
      ensures timers == ControlTimers(old(timers), old(link), v)
      ensures timers ==
        if old(link) == C.Uninitialized && v[0] == 0x02 && v[1] == 0x7D then
          old(timers).(sync := false, syncCount := 0, conf := true)
        else if old(link) == C.Initialized && v[0] == 0x04 && v[1] == 0x7B then
          old(timers).(conf := false, confCount := 0)
        else if old(link) == C.Active && v[0] == 0x01 && v[1] == 0x7E then old(timers).(sync := true)
        else old(timers)
    {
      SetTimers(v);
      ProcessLink(v);
    }

    /** By the state of the link */
    method ProcessLink(v: seq<byte>)
      requires Ready() && |v| == 3
      modifies this`unack, this`rel, this`unrel, this`ackReq, this`txseq, this`dataTimer, this`wire, this`hist,
               this`link, this`window, this`oof, this`dic, this`useCrc, this`recvData
      ensures Cb() == C.ProcessControl(old(Cb()), v) && Ready()
    {
      if link == C.Uninitialized {
        CtlUninitialized(v);
      } else if link == C.Initialized {
        CtlInitialized(v);
      } else {
        CtlActive(v);
      }
    }

    /** The timers, which nothing else here looks at */
    method SetTimers(v: seq<byte>)
      requires |v| == 3
      modifies this`timers
      ensures timers == ControlTimers(old(timers), link, v)
    {
      if link == C.Uninitialized && C.Same2(v, C.SYNC_RESP) {
        timers := timers.(sync := false, syncCount := 0);
        timers := timers.(conf := true);
      } else if link == C.Initialized && C.Same2(v, C.CONF_RESP) {
        timers := timers.(conf := false, confCount := 0);
      } else if link == C.Active && C.Same2(v, C.SYNC) {
        timers := timers.(sync := true);
      }
    }

    method CtlUninitialized(v: seq<byte>)
      requires Ready() && |v| == 3
      modifies this`unack, this`rel, this`unrel, this`ackReq, this`txseq, this`dataTimer, this`wire, this`hist,
               this`link
      ensures Cb() == C.ControlUninitialized(old(Cb()), v) && Ready()
    {
      if C.Same2(v, C.SYNC) {
        SendControl(C.SYNC_RESP);
      } else if C.Same2(v, C.SYNC_RESP) {
        StartConfig();
      }
    }

    method CtlInitialized(v: seq<byte>)
      requires Ready() && |v| == 3
      modifies this`unack, this`rel, this`unrel, this`ackReq, this`txseq, this`dataTimer, this`wire, this`hist,
               this`link, this`window, this`oof, this`dic, this`useCrc, this`recvData
      ensures Cb() == C.ControlInitialized(old(Cb()), v) && Ready()
    {
      if C.Same2(v, C.SYNC) {
        SendControl(C.SYNC_RESP);
      } else if C.Same2(v, C.CONF) {
        SendControl(C.CONF_RESP);
      } else if C.Same2(v, C.CONF_RESP) {
        Configure(v[2]);
      }
    }

    method StartConfig()
      requires Ready()
      modifies this`unack, this`rel, this`unrel, this`ackReq, this`txseq, this`dataTimer, this`wire, this`hist,
               this`link
      ensures Cb() == C.SendControl(C.SetLink(old(Cb()), C.Initialized), C.CONF) && Ready()
    {
      SetLink(C.Initialized);
      SendControl(C.CONF);
    }

    method Resync()
      requires Ready()
      modifies this`unack, this`rel, this`unrel, this`ackReq, this`txseq, this`dataTimer, this`wire, this`hist,
               this`link
      ensures Cb() == C.SendControl(C.SetLink(C.SendControl(old(Cb()), C.SYNC_RESP), C.Uninitialized), C.SYNC)
      ensures Ready()
    {
      SendControl(C.SYNC_RESP);
      SetLink(C.Uninitialized);
      SendControl(C.SYNC);
    }

    method CtlActive(v: seq<byte>)
      requires Ready() && |v| == 3
      modifies this`unack, this`rel, this`unrel, this`ackReq, this`txseq, this`dataTimer, this`wire, this`hist,
               this`link
      ensures Cb() == C.ControlActive(old(Cb()), v) && Ready()
    {
      if C.Same2(v, C.SYNC) {
        Resync();
      } else if C.Same2(v, C.CONF) {
        SendControl(C.CONF_RESP);
      }
    }

    // ----- receiving

    ghost function RxRepr(): set<object>
      reads this`rxSkb
    {
      if rxSkb == null then {} else {rxSkb, rxSkb.head}
    }

    ghost function Rx(): R.Rx
      reads this`rxState, this`rxEsc, this`rxCount, this`rxSkb, this`messageCrc
      reads rxSkb, if rxSkb == null then {} else {rxSkb.head}
      requires rxSkb != null ==> rxSkb.Valid()
    {
      R.Rx(rxState, rxEsc, rxCount, if rxSkb == null then None else Some(rxSkb.Contents()), messageCrc)
    }

    /** The receive buffer has the size h5_recv asked for, and malloc's leftovers where nothing was received yet. */
    ghost predicate BufferOk()
      reads this`rxSkb, RxRepr()
    {
      rxSkb != null ==>
        && rxSkb.Valid() && rxSkb.data == DEFAULT_HEADER_SIZE
        && rxSkb.Room() + rxSkb.length == R.RX_ALLOC
        && forall i :: 0 <= i < 3 && rxSkb.length <= 4 + i ==> rxSkb.head[rxSkb.data + 4 + i] == stale[i]
    }

    ghost predicate Valid()
      reads this, RxRepr()
    {
      Ready() && BufferOk() && R.Valid(Rx())
    }

    ghost function Self(): S.Endpoint
      reads this, RxRepr()
      requires Valid()
    {
      S.Endpoint(Cb(), Rx())
    }

    /** hci_h5_int_init; `leftover` is what malloc will leave in receive buffers */
    constructor (leftover: C.Stale)
      ensures Valid() && Self() == S.Endpoint(C.Init(leftover), R.RX_INIT) && fresh(RxRepr())
    {
      window, oof, dic, useCrc := 0, false, false, false;
      unack, rel, unrel, recvData := [], [], [], [];
      rxseqTxack, rxack, ackReq, txseq := 0, 0, false, 0;
      link, retransCount, dataTimer, rxEvent := C.Uninitialized, 0, false, false;
      timers, cleanuping := Timers(false, 0, false, 0), false;
      rxState, rxEsc, rxCount, rxSkb, messageCrc := R.W4Delimiter, false, 0, null, 0;
      wire, stale := [], leftover;
      hist := C.Init(leftover).hist;
    }

    /** A byte goes into the receive buffer, and into the CRC when the header announces one. */
    method PutReceived(b: byte)
      requires rxSkb != null && BufferOk() && rxCount > 0 && rxSkb.Room() >= 1
      modifies this`rxEsc, this`rxCount, this`messageCrc, rxSkb, rxSkb.head
      ensures rxSkb == old(rxSkb) && BufferOk() && Rx() == R.PutByte(old(Rx()), b)
    {
      rxSkb.Put(b);
      if rxSkb.head[rxSkb.data] / 64 % 2 == 1 && rxState != R.W4Crc {
        messageCrc := CrcUpdate(messageCrc, b as bv16);
      }
      rxEsc := false;
      rxCount := rxCount - 1;
    }

    /** skb_free, and back to waiting for a delimiter */
    method DropRx()
      requires BufferOk()
      modifies this`rxState, this`rxCount, this`rxSkb
      ensures BufferOk() && Rx() == R.Drop(old(Rx())) && rxSkb == null
    {
      rxSkb := null;
      rxState := R.W4Delimiter;
      rxCount := 0;
    }

    /** h5_unslip_one_byte */
    method UnslipOneByte(b: byte)
      requires rxSkb != null && BufferOk() && rxCount > 0 && rxSkb.Room() >= 1
      modifies this`rxState, this`rxEsc, this`rxCount, this`rxSkb, this`messageCrc, rxSkb, rxSkb.head
      ensures BufferOk() && Rx() == R.Unslip(old(Rx()), b) && (rxSkb == null || rxSkb == old(rxSkb))
    {
      if !rxEsc {
        if b == 0xdb {
          rxEsc := true;
        } else {
          PutReceived(b);
        }
      } else if b == 0xdc {
        PutReceived(0xc0);
      } else if b == 0xdd {
        PutReceived(0xdb);
      } else if b == 0xde {
        PutReceived(0x11);
      } else if b == 0xdf {
        PutReceived(0x13);
      } else {
        DropRx();
      }
    }

    /** h5_complete_rx_pkt for reliable packets */
    method Accept(seqNo: Bits3, ghost f: Frame)
      requires Ready() && f.seqNo == seqNo
      modifies this`rxseqTxack, this`ackReq, this`hist
      ensures Cb() == C.Accept(old(Cb()), f) && Ready()
    {
      rxseqTxack := (seqNo + 1) % 8;
      ackReq := true;
      hist := C.Accept(Cb(), f).hist;
    }

    method SetRxack(ack: Bits3)
      requires Ready()
      modifies this`rxack
      ensures Cb() == C.SetRxack(old(Cb()), ack) && Ready()
    {
      rxack := ack;
    }

    method OweAck()
      requires Ready()
      modifies this`ackReq
      ensures Cb() == C.OweAck(old(Cb())) && Ready()
    {
      ackReq := true;
    }

    /** What the receive buffer's memory holds from the payload on, as far as the code reads. */
    ghost predicate Leftover(rest: seq<byte>)
      reads this`rxSkb, RxRepr()
      requires rxSkb != null
    {
      && rxSkb.data + 7 <= rxSkb.head.Length
      && rxSkb.head[rxSkb.data + 4..rxSkb.data + 7] == C.ControlBytes(rest, stale)
    }

    /** h5_complete_rx_pkt: acknowledgement of a reliable packet, then the peer's acknowledgement. */
    method CompleteHeader(h0: byte, ghost f: Frame)
      requires Ready() && f.rel == (h0 / 128 % 2 == 1) && f.seqNo == h0 % 8 && f.ackNo == h0 / 8 % 8
      modifies this`unack, this`rel, this`unrel, this`ackReq, this`txseq, this`dataTimer, this`wire, this`hist,
               this`rxseqTxack, this`rxack, this`retransCount
      ensures Ready()
      ensures Cb() == C.RemoveAcked(C.SetRxack(if f.rel then C.WakeUp(C.Accept(old(Cb()), f)) else old(Cb()), f.ackNo))
    {
      if h0 / 128 % 2 == 1 {
        Accept(h0 % 8, f);
        WakeUp();
      }
      SetRxack(h0 / 8 % 8);
      RemoveAckedPkt();
    }

    /** skb_pull and h5_process_ctl_pkts */
    method PassControl(skb: RtkBuffer, ghost rest: seq<byte>)
      requires Ready() && skb == rxSkb && skb.Valid() && skb.length >= 4 && Leftover(rest)
      modifies this`unack, this`rel, this`unrel, this`ackReq, this`txseq, this`dataTimer, this`wire, this`hist,
               this`link, this`window, this`oof, this`dic, this`useCrc, this`recvData, this`timers, skb
      ensures Cb() == C.ProcessControl(old(Cb()), C.ControlBytes(rest, stale)) && Ready()
      ensures timers == ControlTimers(old(timers), old(link), C.ControlBytes(rest, stale))
    {
      var _ := skb.RemoveHead(4);
      ProcessCtlPkts(skb.head[skb.data..skb.data + 3]);
    }

    /** skb_pull and the packet to recv_data */
    method PassData(skb: RtkBuffer, kind: Bits4)
      requires Ready() && skb.Valid() && skb.length >= 4
      modifies this`recvData, skb
      ensures Cb() == C.Deliver(old(Cb()), C.Packet(kind, old(skb.Contents())[4..])) && Ready()
    {
      var _ := skb.RemoveHead(4);
      Deliver(C.Packet(kind, skb.head[skb.data..skb.end]));
    }

    /** The end of h5_complete_rx_pkt: the header is pulled off a packet that is processed here or passed up. */
    method PassUp(skb: RtkBuffer, kind: Bits4, ghost f: Frame, ghost rest: seq<byte>)
      requires Ready() && skb == rxSkb && skb.Valid() && skb.length >= 4
      requires f.kind == kind && f.data == skb.Contents()[4..] && Leftover(rest)
      modifies this`unack, this`rel, this`unrel, this`ackReq, this`txseq, this`dataTimer, this`wire, this`hist,
               this`link, this`window, this`oof, this`dic, this`useCrc, this`recvData, this`timers, skb
      ensures Cb() == C.PassUp(old(Cb()), f, C.ControlBytes(rest, stale)) && Ready()
    {
      if kind == H5_LINK_CTL_PKT {
        PassControl(skb, rest);
      } else if HCI_COMMAND_PKT <= kind <= HCI_EVENT_PKT {
        PassData(skb, kind);
      }
    }

    /** h5_complete_rx_pkt, up to what it leaves the decoder in */
    method CompletePkt(skb: RtkBuffer, ghost f: Frame, ghost rest: seq<byte>)
      requires Ready() && skb == rxSkb && skb.Valid() && skb.length >= 4
      requires f == R.Parse(skb.Contents(), 0) && Leftover(rest)
      modifies this`unack, this`rel, this`unrel, this`ackReq, this`txseq, this`dataTimer, this`wire, this`hist,
               this`link, this`window, this`oof, this`dic, this`useCrc, this`recvData, this`timers,
               this`rxseqTxack, this`rxack, this`retransCount, skb
      ensures Cb() == C.Complete(old(Cb()), f, rest) && Ready()
    {
      var h0, kind := skb.head[skb.data], skb.head[skb.data + 1] % 16;
      CompleteHeader(h0, f);
      PassUp(skb, kind, f, rest);
    }

    /** h5_complete_rx_pkt */
    method CompleteRxPkt(ghost f: Frame, ghost rest: seq<byte>)
      requires Ready() && rxSkb != null && rxSkb.Valid() && rxSkb.length >= 4 && rxCount == 0
      requires f == R.Parse(rxSkb.Contents(), 0) && Leftover(rest)
      modifies this`unack, this`rel, this`unrel, this`ackReq, this`txseq, this`dataTimer, this`wire, this`hist,
               this`link, this`window, this`oof, this`dic, this`useCrc, this`recvData, this`timers,
               this`rxseqTxack, this`rxack, this`retransCount, this`rxState, this`rxSkb, rxSkb
      ensures Cb() == C.Complete(old(Cb()), f, rest) && Ready()
      ensures rxSkb == null && Rx() == R.Drop(old(Rx()))
    {
      CompletePkt(rxSkb, f, rest);
      FinishRx();
    }

    method FinishRx()
      requires rxCount == 0
      modifies this`rxState, this`rxSkb
      ensures rxSkb == null && Rx() == R.Idle(rxEsc, messageCrc)
    {
      rxState := R.W4Delimiter;
      rxSkb := null;
    }

    // ----- h5_recv

    /** The payload length of a good header */
    method StartData()
      requires rxSkb != null && BufferOk() && rxSkb.length >= 4
      modifies this`rxState, this`rxCount
      ensures Rx() == R.StartData(old(Rx()))
    {
      var d := rxSkb.data;
      rxState := R.W4Data;
      rxCount := rxSkb.head[d + 1] as int / 16 + rxSkb.head[d + 2] as int * 16;
    }

    method StartCheck()
      requires BufferOk()
      modifies this`rxState, this`rxCount
      ensures Rx() == R.StartCheck(old(Rx()))
    {
      rxState := R.W4Crc;
      rxCount := 2;
    }

    /** The header checksum test of h5_recv */
    method GoodHeader() returns (ok: bool)
      requires rxSkb != null && BufferOk() && rxSkb.length >= 4
      ensures ok == ChecksumOk(rxSkb.Contents())
    {
      var d := rxSkb.data;
      var sum := rxSkb.head[d] as int + rxSkb.head[d + 1] as int + rxSkb.head[d + 2] as int;
      ok := 255 - sum % 256 == rxSkb.head[d + 3];
    }

    /** An unexpected sequence number: the expected one is announced. */
    method AnnounceExpected()
      requires Ready()
      modifies this`unack, this`rel, this`unrel, this`ackReq, this`txseq, this`dataTimer, this`wire, this`hist
      ensures Ready() && Cb() == C.OutOfOrder(old(Cb()))
    {
      OweAck();
      WakeUp();
    }

    /** The acknowledgement goes out; the receiver does not notice. */
    method AnnounceAside()
      requires Ready() && BufferOk()
      modifies this`unack, this`rel, this`unrel, this`ackReq, this`txseq, this`dataTimer, this`wire, this`hist
      ensures Ready() && BufferOk() && Cb() == C.OutOfOrder(old(Cb())) && Rx() == old(Rx())
    {
      AnnounceExpected();
    }

    method RejectOutOfOrder()
      requires Ready() && BufferOk()
      modifies this`unack, this`rel, this`unrel, this`ackReq, this`txseq, this`dataTimer, this`wire, this`hist,
               this`rxState, this`rxCount, this`rxSkb
      ensures Ready() && BufferOk() && rxSkb == null && Cb() == C.OutOfOrder(old(Cb())) && Rx() == R.Drop(old(Rx()))
    {
      AnnounceAside();
      DropRx();
    }

    /** case H5_W4_HDR */
    method CheckHeader()
      requires Valid() && rxState == R.W4Hdr && rxCount == 0
      modifies this`unack, this`rel, this`unrel, this`ackReq, this`txseq, this`dataTimer, this`wire, this`hist,
               this`rxState, this`rxCount, this`rxSkb
      ensures Valid() && Self() == S.Step1(old(Self()))
      ensures !R.Settle1(old(Rx()), old(rxseqTxack)).1.Completed?
      ensures rxSkb == null || rxSkb == old(rxSkb)
    {
      S.Step1Header(Self());
      JudgeHeader();
    }

    /** A bad header and an unexpected number drop the packet. */
    method JudgeHeader()
      requires Ready() && BufferOk() && rxSkb != null && rxSkb.length >= 4
      modifies this`unack, this`rel, this`unrel, this`ackReq, this`txseq, this`dataTimer, this`wire, this`hist,
               this`rxState, this`rxCount, this`rxSkb
      ensures Ready() && BufferOk() && (rxSkb == null || rxSkb == old(rxSkb))
      ensures var m := old(rxSkb.Contents());
        S.Endpoint(Cb(), Rx()) ==
          if !ChecksumOk(m) then S.Endpoint(old(Cb()), R.Drop(old(Rx())))
          else if HdrReliable(m) && HdrSeq(m) != old(rxseqTxack) then
            S.Endpoint(C.OutOfOrder(old(Cb())), R.Drop(old(Rx())))
          else S.Endpoint(old(Cb()), R.StartData(old(Rx())))
    {
      var ok := GoodHeader();
      var h0 := rxSkb.head[rxSkb.data];
      if !ok {
        DropRx();
      } else if h0 / 128 % 2 == 1 && h0 % 8 != rxseqTxack {
        RejectOutOfOrder();
      } else {
        StartData();
      }
    }

    /** case H5_W4_DATA */
    method EndOfData() returns (complete: bool)
      requires Valid() && rxState == R.W4Data && rxCount == 0
      modifies this, rxSkb
      ensures Valid() && Self() == S.Step1(old(Self()))
      ensures complete == R.Settle1(old(Rx()), old(rxseqTxack)).1.Completed?
      ensures rxSkb == null || rxSkb == old(rxSkb)
    {
      S.Step1Data(Self());
      complete := JudgeData();
    }

    /** A packet that announces no check is complete. */
    method JudgeData() returns (complete: bool)
      requires Ready() && BufferOk() && rxSkb != null && rxSkb.length >= 4 && rxCount == 0
      modifies this, rxSkb
      ensures Ready() && BufferOk() && (rxSkb == null || rxSkb == old(rxSkb))
      ensures complete == !HdrCrc(old(rxSkb.Contents()))
      ensures var m := old(rxSkb.Contents());
        S.Endpoint(Cb(), Rx()) ==
          if HdrCrc(m) then S.Endpoint(old(Cb()), R.StartCheck(old(Rx())))
          else S.Endpoint(C.Complete(old(Cb()), R.Parse(m, 0), m[4..]), R.Drop(old(Rx())))
    {
      complete := rxSkb.head[rxSkb.data] / 64 % 2 != 1;
      if !complete {
        StartCheck();
      } else {
        ghost var m := rxSkb.Contents();
        LeftoverHolds(m[4..]);
        CompleteRxPkt(R.Parse(m, 0), m[4..]);
      }
    }

    /** h5_get_crc against message_crc */
    method GoodCheck() returns (ok: bool)
      requires rxSkb != null && BufferOk() && rxSkb.length >= 6
      ensures ok == S.CheckGood(Rx())
    {
      var e := rxSkb.end;
      ok := BitRev16(messageCrc) as int == rxSkb.head[e - 1] as int + rxSkb.head[e - 2] as int * 256;
    }

    /** case H5_W4_CRC */
    method EndOfCheck() returns (complete: bool)
      requires Valid() && rxState == R.W4Crc && rxCount == 0
      modifies this, rxSkb
      ensures Valid() && Self() == S.Step1(old(Self()))
      ensures complete == R.Settle1(old(Rx()), old(rxseqTxack)).1.Completed?
      ensures rxSkb == null || rxSkb == old(rxSkb)
    {
      S.Step1Check(Self());
      complete := JudgeCheck();
    }

    /** A packet with a bad check is dropped. */
    method JudgeCheck() returns (complete: bool)
      requires Ready() && BufferOk() && rxSkb != null && rxSkb.length >= 6 && rxCount == 0
      modifies this, rxSkb
      ensures Ready() && BufferOk() && (rxSkb == null || rxSkb == old(rxSkb)) && complete == S.CheckGood(old(Rx()))
      ensures var m := old(rxSkb.Contents());
        S.Endpoint(Cb(), Rx()) ==
          if !S.CheckGood(old(Rx())) then S.Endpoint(old(Cb()), R.Drop(old(Rx())))
          else S.Endpoint(C.Complete(old(Cb()), R.Parse(m, 2), m[4..]), R.Drop(old(Rx())))
    {
      complete := GoodCheck();
      if !complete {
        DropRx();
      } else {
        CompleteChecked();
      }
    }

    /** skb_trim takes the check off, and the packet is complete. */
    method CompleteChecked()
      requires Ready() && BufferOk() && rxSkb != null && rxSkb.length >= 6 && rxCount == 0
      modifies this, rxSkb
      ensures Ready() && rxSkb == null && Rx() == R.Drop(old(Rx()))
      ensures Cb() == C.Complete(old(Cb()), R.Parse(old(rxSkb.Contents()), 2), old(rxSkb.Contents())[4..])
    {
      ghost var m := rxSkb.Contents();
      LeftoverHolds(m[4..]);
      var _ := rxSkb.RemoveTail(2);
      assert rxSkb.Contents()[4..] == m[4..|m| - 2];
      CompleteRxPkt(R.Parse(m, 2), m[4..]);
    }

    lemma LeftoverHolds(rest: seq<byte>)
      requires rxSkb != null && BufferOk() && rxSkb.length >= 4 && rest == rxSkb.Contents()[4..]
      ensures Leftover(rest)
    {
      var v, d := C.ControlBytes(rest, stale), rxSkb.data + 4;
      assert rxSkb.data + 7 <= rxSkb.head.Length;
      forall i | 0 <= i < 3 ensures rxSkb.head[d + i] == v[i] {
        if 4 + i < rxSkb.length {
          assert rest[i] == rxSkb.Contents()[4 + i] == rxSkb.head[d + i];
        }
      }
      assert rxSkb.head[d..d + 3] == v;
    }

    /** case H5_W4_PKT_START: a buffer is allocated, the byte stays */
    method OpenPacket()
      requires Valid() && rxState == R.W4Start
      modifies this`rxState, this`rxEsc, this`rxCount, this`rxSkb, this`messageCrc
      ensures BufferOk() && Rx() == R.Open(old(Rx())) && rxSkb != null && fresh(rxSkb) && fresh(rxSkb.head)
    {
      rxState := R.W4Hdr;
      rxCount := 4;
      rxEsc := false;
      messageCrc := 0xffff;
      var left: seq<byte> := stale;
      rxSkb := new RtkBuffer(R.RX_ALLOC, 0, (i: nat) =>
        if DEFAULT_HEADER_SIZE + 4 <= i < DEFAULT_HEADER_SIZE + 4 + |left| then left[i - DEFAULT_HEADER_SIZE - 4]
        else 0);
    }

    /** A byte inside a packet */
    method PacketByte(b: byte)
      requires rxSkb != null && BufferOk() && R.Valid(Rx()) && rxCount > 0
      modifies this`rxState, this`rxEsc, this`rxCount, this`rxSkb, this`messageCrc, rxSkb, rxSkb.head
      ensures BufferOk() && (rxSkb == null || rxSkb == old(rxSkb))
      ensures Rx() == R.Inside(old(Rx()), b)
    {
      R.BufferSuffices(Rx());
      if b == DELIM {
        ShortPacket();
      } else {
        UnslipOneByte(b);
      }
    }

    method ShortPacket()
      requires BufferOk()
      modifies this`rxState, this`rxCount, this`rxSkb
      ensures rxSkb == null && Rx() == R.Short(old(Rx()))
    {
      rxSkb := null;
      rxState := R.W4Start;
      rxCount := 0;
    }

    /** The cases of h5_recv that consume nothing because a check is due. */
    method DueCheck() returns (complete: bool)
      requires Valid() && R.Pending(Rx())
      modifies this, RxRepr()
      ensures Valid() && (rxSkb == null || rxSkb == old(rxSkb)) && Self() == S.Step1(old(Self()))
      ensures complete == R.Settle1(old(Rx()), old(rxseqTxack)).1.Completed?
    {
      complete := false;
      if rxState == R.W4Hdr {
        CheckHeader();
      } else if rxState == R.W4Data {
        complete := EndOfData();
      } else {
        complete := EndOfCheck();
      }
    }

    method CheckTurn(b: byte) returns (complete: bool)
      requires Valid() && R.Pending(Rx())
      modifies this, RxRepr()
      ensures Valid() && fresh(RxRepr() - old(RxRepr()))
      ensures S.InStep(old(Self()), Self(), b, complete) && S.Progress(Rx()) < S.Progress(old(Rx()))
    {
      S.Step1Turn(Self(), b);
      complete := DueCheck();
    }

    method OpenTurn(b: byte)
      requires Valid() && rxState == R.W4Start && b != DELIM
      modifies this, RxRepr()
      ensures Valid() && fresh(RxRepr() - old(RxRepr()))
      ensures S.InStep(old(Self()), Self(), b, false) && S.Progress(Rx()) < S.Progress(old(Rx()))
    {
      S.OpenFeeds(Self(), b);
      OpenPacket();
      assert R.Valid(Rx()) && Cb() == old(Cb());
    }

    /** The link does not notice a byte of a packet. */
    method PacketAside(b: byte)
      requires rxSkb != null && BufferOk() && R.Valid(Rx()) && rxCount > 0
      modifies this`rxState, this`rxEsc, this`rxCount, this`rxSkb, this`messageCrc, rxSkb, rxSkb.head
      ensures BufferOk() && (rxSkb == null || rxSkb == old(rxSkb)) && Rx() == R.Inside(old(Rx()), b)
      ensures Cb() == old(Cb())
    {
      PacketByte(b);
    }

    /** A byte inside a packet */
    method PacketTurn(b: byte)
      requires Valid() && rxCount > 0
      modifies this, RxRepr()
      ensures Valid() && fresh(RxRepr() - old(RxRepr()))
      ensures Self() == S.Feed(old(Self()), b) && !S.Reports(old(Self()))
    {
      ghost var p := Self();
      S.FeedConsumes(p, b);
      R.ConsumeValid(p.rx, b);
      PacketAside(b);
    }

    /** A byte outside a packet */
    method IdleTurn(b: byte)
      requires Valid() && rxCount == 0 && !R.Pending(Rx()) && (rxState == R.W4Start ==> b == DELIM)
      modifies this`rxState
      ensures Valid() && Self() == S.Feed(old(Self()), b) && !S.Reports(old(Self()))
    {
      S.FeedConsumes(Self(), b);
      if rxState == R.W4Delimiter && b == DELIM {
        rxState := R.W4Start;
      }
    }

    /** One turn of the loop of h5_recv on the byte b. */
    method Turn(b: byte) returns (consumed: bool, complete: bool)
      requires Valid()
      modifies this, RxRepr()
      ensures Valid() && fresh(RxRepr() - old(RxRepr()))
      ensures consumed ==> Self() == S.Feed(old(Self()), b) && !complete && !S.Reports(old(Self()))
      ensures !consumed ==> S.InStep(old(Self()), Self(), b, complete) && S.Progress(Rx()) < S.Progress(old(Rx()))
    {
      consumed, complete := false, false;
      if rxCount == 0 && (rxState == R.W4Hdr || rxState == R.W4Data || rxState == R.W4Crc) {
        complete := CheckTurn(b);
      } else if rxState == R.W4Start && b != DELIM {
        OpenTurn(b);
      } else if rxCount > 0 {
        PacketTurn(b);
        consumed := true;
      } else {
        IdleTurn(b);
        consumed := true;
      }
    }

    /** The turns of the loop of h5_recv until the byte b is consumed. */
    method Byte(b: byte) returns (complete: bool)
      requires Valid()
      modifies this, RxRepr()
      ensures Valid() && fresh(RxRepr() - old(RxRepr()))
      ensures Self() == S.Feed(old(Self()), b) && complete == S.Reports(old(Self()))
    {
      var consumed := false;
      complete := false;
      while !consumed
        invariant Valid() && fresh(RxRepr() - old(RxRepr()))
        invariant !consumed ==> S.InStep(old(Self()), Self(), b, complete)
        invariant consumed ==> Self() == S.Feed(old(Self()), b) && complete == S.Reports(old(Self()))
        decreases !consumed, S.Progress(Rx())
      {
        var done;
        consumed, done := Turn(b);
        complete := complete || done;
      }
    }

    /** h5_recv. Its one loop, whose turns may consume no byte, is the loop here around that of Byte. */
    method Recv(data: seq<byte>) returns (complete: bool)
      requires Valid()
      modifies this, RxRepr()
      ensures Valid() && fresh(RxRepr() - old(RxRepr()))
      ensures Self() == S.Recv(old(Self()), data)
      ensures complete == S.Completes(old(Self()), data)
    {
      complete := false;
      for i := 0 to |data|
        invariant Valid() && fresh(RxRepr() - old(RxRepr()))
        invariant Self() == S.Recv(old(Self()), data[..i])
        invariant complete == S.Completes(old(Self()), data[..i])
      {
        S.RecvNext(old(Self()), data, i);
        var done := Byte(data[i]);
        complete := complete || done;
      }
      assert data[..|data|] == data;
    }
  }

  lemma MoveBack(u: seq<C.Packet>, l: seq<C.Packet>)
    requires u != []
    ensures u[..|u| - 1] + ([u[|u| - 1]] + l) == u + l
  {
  }

  lemma WireAppend(sent: seq<C.Sent>, s: C.Sent)
    requires s.frame.Valid()
    ensures Wire(sent + [s]) == Wire(sent) + Encode(s.frame, s.oof)
  {
    assert (sent + [s])[..|sent|] == sent;
  }

  lemma RecordWire(cb: C.Cb, f: Frame)
    requires f.Valid()
    ensures Wire(C.Record(cb, f).sent) == Wire(cb.hist.sent) + Encode(f, cb.oof)
  {
    var sent := C.Record(cb, f).sent;
    WireAppend(cb.hist.sent, sent[|cb.hist.sent|]);
  }

  lemma SlipNext(m: seq<byte>, b: byte, oof: bool)
    ensures [DELIM] + Slip(m + [b], oof) == [DELIM] + Slip(m, oof) + SlipByte(b, oof)
  {
    SlipAppend(m, b, oof);
  }

  lemma SlipTwo(m: seq<byte>, b: byte, c: byte, oof: bool)
    ensures [DELIM] + Slip(m + [b, c], oof) == [DELIM] + Slip(m, oof) + SlipByte(b, oof) + SlipByte(c, oof)
  {
    SlipNext(m, b, oof);
    SlipNext(m + [b], c, oof);
    assert m + [b, c] == m + [b] + [c];
  }

  lemma Prefix(before: seq<byte>, bytes: seq<byte>, i: nat)
    requires i < |bytes|
    ensures (before + bytes[..i]) + [bytes[i]] == before + bytes[..i + 1]
  {
  }
}
