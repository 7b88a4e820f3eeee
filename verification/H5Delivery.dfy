/** What the two ends of the line see: packets encoded by one, read from the UART in any pieces by the other. */
module H5Delivery {
  import opened Bytes
  import opened H5Frame
  import opened H5Control
  import opened H5Stream
  import Rx = H5Receiver
  import L = H5Link
  import W = H5Window

  /** The number expected of the next reliable packet, after fs. */
  function Expected(first: Bits3, fs: seq<Frame>): Bits3 {
    if fs == [] then first
    else if fs[|fs| - 1].rel then (fs[|fs| - 1].seqNo + 1) % 8
    else Expected(first, fs[..|fs| - 1])
  }

  /** HCI packets, the reliable ones numbered from `first` on. */
  ghost predicate InOrder(first: Bits3, fs: seq<Frame>) {
    fs == [] ||
    var f := fs[|fs| - 1];
    && InOrder(first, fs[..|fs| - 1])
    && 1 <= f.kind <= 4
    && (f.rel ==> f.seqNo == Expected(first, fs[..|fs| - 1]))
  }

  function Payloads(fs: seq<Frame>): seq<Packet> {
    seq(|fs|, i requires 0 <= i < |fs| => Packet(fs[i].kind, fs[i].data))
  }

  /** Sending leaves the receiving side alone. */
  ghost predicate SameReceiver(a: Cb, b: Cb) {
    a.recvData == b.recvData && a.rxseqTxack == b.rxseqTxack
  }

  lemma DequeueKeeps(cb: Cb)
    ensures SameReceiver(cb, Dequeue(cb).0)
  {
    UnreliableKeeps(cb);
    ReliableKeeps(cb);
  }

  lemma UnreliableKeeps(cb: Cb)
    ensures SameReceiver(cb, DequeueUnreliable(cb).0) && SameReceiver(cb, DequeueAck(cb).0)
  {
  }

  lemma ReliableKeeps(cb: Cb)
    ensures SameReceiver(cb, DequeueReliable(cb).0)
  {
  }

  lemma {:induction false} WakeUpKeeps(cb: Cb)
    ensures SameReceiver(cb, WakeUp(cb))
    decreases Work(cb)
  {
    DequeueKeeps(cb);
    var (c, f) := Dequeue(cb);
    if f.Some? { WakeUpKeeps(Transmit(c, f.value)); }
  }

  lemma ReceivePassesUp(cb: Cb, f: Frame, rest: seq<byte>)
    requires 1 <= f.kind <= 4 && (f.rel ==> f.seqNo == cb.rxseqTxack)
    ensures var c := Receive(cb, f, rest);
      && c.recvData == cb.recvData + [Packet(f.kind, f.data)]
      && c.rxseqTxack == if f.rel then (f.seqNo + 1) % 8 else cb.rxseqTxack
  {
    if f.rel { WakeUpKeeps(Accept(cb, f)); }
  }

  /** A packet of another kind passes nothing up, but for a configuration response. */
  lemma OthersPassNothingUp(cb: Cb, f: Frame, rest: seq<byte>)
    requires f.kind == 0 || 5 <= f.kind <= 14
    ensures Receive(cb, f, rest).recvData == cb.recvData
  {
    if f.rel {
      WakeUpKeeps(OweAck(cb));
      WakeUpKeeps(Accept(cb, f));
    }
  }

  lemma PayloadsAppend(before: seq<Packet>, fs: seq<Frame>)
    requires fs != []
    ensures var f := fs[|fs| - 1];
      before + Payloads(fs) == (before + Payloads(fs[..|fs| - 1])) + [Packet(f.kind, f.data)]
  {
  }

  lemma {:induction false} ReceiveAllPassesUp(cb: Cb, fs: seq<Frame>)
    requires InOrder(cb.rxseqTxack, fs) && forall f :: f in fs ==> f.Valid()
    ensures ReceiveAll(cb, fs).recvData == cb.recvData + Payloads(fs)
    ensures ReceiveAll(cb, fs).rxseqTxack == Expected(cb.rxseqTxack, fs)
    decreases |fs|
  {
    if fs == [] {
      assert cb.recvData + [] == cb.recvData;
    } else {
      var init, f := fs[..|fs| - 1], fs[|fs| - 1];
      ReceiveAllPassesUp(cb, init);
      var c := ReceiveAll(cb, init);
      ReceivePassesUp(c, f, f.data + Check(f));
      assert ReceiveAll(cb, fs) == Receive(c, f, f.data + Check(f));
      PayloadsAppend(cb.recvData, fs);
    }
  }

  /** A stream of encoded HCI packets, cut in two anywhere: exactly these payloads come out, in order. (Cutting it
      further is cutting its halves: ChunkIndependence.) */
  lemma StreamDelivers(p: Endpoint, fs: seq<Frame>, oof: bool, left: seq<byte>, right: seq<byte>)
    requires Between(p.rx) && InOrder(p.cb.rxseqTxack, fs)
    requires (forall f :: f in fs ==> f.Valid()) && left + right == EncodeAll(fs, oof)
    ensures var q := Recv(Recv(p, left), right);
      && q.cb.recvData == p.cb.recvData + Payloads(fs)
      && Between(q.rx) && (fs != [] ==> q.rx.state == Rx.W4Start)
  {
    ChunkIndependence(p, left, right);
    StreamRoundTrip(p, fs, oof);
    ReceiveAllPassesUp(p.cb, fs);
  }

  /** An endpoint as it is created. */
  function Fresh(stale: Stale): Endpoint {
    Endpoint(Init(stale), Rx.RX_INIT)
  }

  /** In particular the first packets an endpoint ever receives come out, all of them. */
  lemma FreshStreamDelivers(stale: Stale, fs: seq<Frame>, oof: bool, left: seq<byte>, right: seq<byte>)
    requires InOrder(0, fs) && (forall f :: f in fs ==> f.Valid()) && left + right == EncodeAll(fs, oof)
    ensures Recv(Recv(Fresh(stale), left), right).cb.recvData == Payloads(fs)
  {
    StreamDelivers(Fresh(stale), fs, oof, left, right);
    assert [] + Payloads(fs) == Payloads(fs);
  }

  // ----- the line of H5Link, made of bytes

  /** To read the encoding of a packet is to get the packet. */
  lemma ArrivesAsBytes(cb: Cb, rx: Rx.Rx, s: Sent, stale: Stale)
    requires Between(rx) && s.frame.Valid()
    ensures var q := Recv(Endpoint(cb.(stale := stale), rx), Encode(s.frame, s.oof));
      Between(q.rx) && q.cb == L.Arrive(cb, s, stale)
  {
    PacketRoundTrip(Endpoint(cb.(stale := stale), rx), s.frame, s.oof);
  }

  /** Two endpoints that read bytes; otherwise as L.Net. */
  datatype ByteNet = ByteNet(a: Endpoint, b: Endpoint, aRead: nat, bRead: nat)

  /** What a packet on record put on the UART. */
  function OnTheWire(s: Sent): seq<byte> {
    if s.frame.Valid() then Encode(s.frame, s.oof) else []
  }

  function Reads(p: Endpoint, s: Sent, stale: Stale): (q: Endpoint)
    requires Rx.Valid(p.rx)
    ensures Rx.Valid(q.rx)
  {
    Recv(Endpoint(p.cb.(stale := stale), p.rx), OnTheWire(s))
  }

  function ByteApply(n: ByteNet, s: L.NetStep): (m: ByteNet)
    requires Rx.Valid(n.a.rx) && Rx.Valid(n.b.rx)
    ensures Rx.Valid(m.a.rx) && Rx.Valid(m.b.rx)
  {
    match s
    case Local(A, step) => if L.NeedsNoPacket(step) then n.(a := n.a.(cb := W.Apply(n.a.cb, step))) else n
    case Local(B, step) => if L.NeedsNoPacket(step) then n.(b := n.b.(cb := W.Apply(n.b.cb, step))) else n
    case Deliver(B, j, stale) =>
      if n.bRead <= j < |n.a.cb.hist.sent| then n.(b := Reads(n.b, n.a.cb.hist.sent[j], stale), bRead := j + 1) else n
    case Deliver(A, j, stale) =>
      if n.aRead <= j < |n.b.cb.hist.sent| then n.(a := Reads(n.a, n.b.cb.hist.sent[j], stale), aRead := j + 1) else n
  }

  function ByteRun(n: ByteNet, steps: seq<L.NetStep>): (m: ByteNet)
    requires Rx.Valid(n.a.rx) && Rx.Valid(n.b.rx)
    ensures Rx.Valid(m.a.rx) && Rx.Valid(m.b.rx)
    decreases |steps|
  {
    if steps == [] then n else ByteRun(ByteApply(n, steps[0]), steps[1..])
  }

  /** Both lines are in the same state, between packets. */
  ghost predicate Alike(n: ByteNet, m: L.Net) {
    && Between(n.a.rx) && Between(n.b.rx)
    && m == L.Net(n.a.cb, n.b.cb, n.aRead, n.bRead)
  }

  lemma ReadsAsArrives(p: Endpoint, sender: Cb, j: nat, stale: Stale)
    requires Between(p.rx) && W.Valid(sender) && j < |sender.hist.sent|
    ensures var q := Reads(p, sender.hist.sent[j], stale);
      Between(q.rx) && q.cb == L.Arrive(p.cb, sender.hist.sent[j], stale)
  {
    assert W.Entry(sender.hist, sender.hist.sent[j]);
    ArrivesAsBytes(p.cb, p.rx, sender.hist.sent[j], stale);
  }

  lemma ApplyAlike(n: ByteNet, m: L.Net, s: L.NetStep)
    requires Alike(n, m) && W.Valid(m.a) && W.Valid(m.b)
    ensures Alike(ByteApply(n, s), L.NetApply(m, s))
  {
    match s
    case Local(_, step) =>
    case Deliver(B, j, stale) =>
      if n.bRead <= j < |n.a.cb.hist.sent| { ReadsAsArrives(n.b, n.a.cb, j, stale); }
    case Deliver(A, j, stale) =>
      if n.aRead <= j < |n.b.cb.hist.sent| { ReadsAsArrives(n.a, n.b.cb, j, stale); }
  }

  lemma {:induction false} RunAlike(n: ByteNet, m: L.Net, steps: seq<L.NetStep>)
    requires Alike(n, m) && L.NetValid(m)
    ensures Alike(ByteRun(n, steps), L.NetRun(m, steps))
    decreases |steps|
  {
    if steps != [] {
      ApplyAlike(n, m, steps[0]);
      L.NetApplyValid(m, steps[0]);
      RunAlike(ByteApply(n, steps[0]), L.NetApply(m, steps[0]), steps[1..]);
    }
  }

  function FreshLine(sa: Stale, sb: Stale): (n: ByteNet)
    ensures Rx.Valid(n.a.rx) && Rx.Valid(n.b.rx)
  {
    ByteNet(Fresh(sa), Fresh(sb), 0, 0)
  }

  /** Two endpoints that encode, lose packets and decode byte by byte are, after every run, where packets would have
      taken them; so what one has accepted is a prefix of what was handed to the other, and nothing is released before
      it is accepted. */
  lemma ReliableByteDelivery(sa: Stale, sb: Stale, steps: seq<L.NetStep>)
    ensures var n, m := ByteRun(FreshLine(sa, sb), steps), L.NetRun(L.Net(Init(sa), Init(sb), 0, 0), steps);
      && n.a.cb == m.a && n.b.cb == m.b
      && n.b.cb.hist.accepted <= L.Handed(steps, L.A) && n.a.cb.hist.released <= |n.b.cb.hist.accepted|
      && n.a.cb.hist.accepted <= L.Handed(steps, L.B) && n.b.cb.hist.released <= |n.a.cb.hist.accepted|
  {
    W.InitValid(sa);
    W.InitValid(sb);
    RunAlike(FreshLine(sa, sb), L.Net(Init(sa), Init(sb), 0, 0), steps);
    L.ReliableDelivery(sa, sb, steps);
  }
}
