/**
 What one upper layer hands over and the other is given, told from the steps of the run alone: the two ends of H5Link
 with everything between them left out.
 */
module H5EndToEnd {
  import opened Bytes
  import opened H5Frame
  import opened H5Control
  import opened H5Window
  import opened H5Link
  import opened H5Delivery
  import V = H5Recovery

  /** What an endpoint has passed up, but for events: the link reports its own establishment by one. */
  function FromPeer(up: seq<Packet>): seq<Packet> {
    if up == [] then []
    else FromPeer(up[..|up| - 1]) + if up[|up| - 1].kind == 4 then [] else [up[|up| - 1]]
  }

  lemma FromPeerAppend(up: seq<Packet>, p: Packet)
    ensures FromPeer(up + [p]) == FromPeer(up) + if p.kind == 4 then [] else [p]
  {
    assert (up + [p])[..|up|] == up;
  }

  /** The event that says that initialization has succeeded. */
  predicate OnlyInitEvents(up: seq<Packet>) {
    forall i :: 0 <= i < |up| && up[i].kind == 4 ==> up[i].data == [0x0e, 0x04, 0x03, 0xee, 0xfc, 0x00]
  }

  // ----- what an arriving packet adds

  lemma SendControlKeeps(cb: Cb, data: seq<byte>)
    ensures SendControl(cb, data).recvData == cb.recvData
  {
    var e := Enqueue(cb, Packet(H5_LINK_CTL_PKT, data));
    assert e.recvData == cb.recvData;
    WakeUpKeeps(e);
  }

  /** A configuration response to a request just sent. */
  predicate Configures(cb: Cb, v: seq<byte>)
    requires |v| == 3
  {
    cb.link == Initialized && v[0] == 0x04 && v[1] == 0x7B
  }

  lemma ConfigurePassesUp(cb: Cb, cfg: byte)
    ensures Configure(cb, cfg).recvData == cb.recvData + [Packet(4, [0x0e, 0x04, 0x03, 0xee, 0xfc, 0x00])]
  {
  }

  lemma ResyncKeeps(cb: Cb)
    ensures SendControl(SetLink(SendControl(cb, SYNC_RESP), Uninitialized), SYNC).recvData == cb.recvData
  {
    SendControlKeeps(cb, SYNC_RESP);
    SendControlKeeps(SetLink(SendControl(cb, SYNC_RESP), Uninitialized), SYNC);
  }

  lemma ControlPassesUp(cb: Cb, v: seq<byte>)
    requires |v| == 3
    ensures Configures(cb, v) ==>
      ProcessControl(cb, v).recvData == cb.recvData + [Packet(4, [0x0e, 0x04, 0x03, 0xee, 0xfc, 0x00])]
    ensures !Configures(cb, v) ==> ProcessControl(cb, v).recvData == cb.recvData
  {
    match cb.link
    case Uninitialized =>
      SendControlKeeps(cb, SYNC_RESP);
      SendControlKeeps(SetLink(cb, Initialized), CONF);
    case Initialized =>
      SendControlKeeps(cb, SYNC_RESP);
      SendControlKeeps(cb, CONF_RESP);
      ConfigurePassesUp(cb, v[2]);
    case Active =>
      ResyncKeeps(cb);
      SendControlKeeps(cb, CONF_RESP);
  }

  /** A frame that such an endpoint sends. */
  predicate FromSuch(f: Frame) {
    && f.Valid()
    && if f.rel then f.kind == 1 || f.kind == 2 else f.kind == 0 || f.kind == 14 || f.kind == 15
  }

  /** What has been passed up is what has been accepted, and notices that the link is there. */
  ghost predicate UpToDate(c: Cb) {
    FromPeer(c.recvData) == c.hist.accepted && OnlyInitEvents(c.recvData)
  }

  lemma AcceptUp(cb: Cb, f: Frame)
    requires UpToDate(cb) && FromSuch(f) && f.rel
    ensures UpToDate(Accept(cb, f).(recvData := cb.recvData + [Packet(f.kind, f.data)]))
  {
    FromPeerAppend(cb.recvData, Packet(f.kind, f.data));
  }

  /** An accepted packet is passed up at once. */
  lemma ReliableUp(cb: Cb, f: Frame, rest: seq<byte>)
    requires UpToDate(cb) && FromSuch(f) && f.rel
    ensures UpToDate(Complete(cb, f, rest))
  {
    var c := Accept(cb, f);
    AcceptUp(cb, f);
    WakeUpKeeps(c);
    WakeUpQuiet(c);
  }

  lemma ControlUp(c: Cb, v: seq<byte>)
    requires UpToDate(c) && |v| == 3
    ensures UpToDate(ProcessControl(c, v))
  {
    ControlPassesUp(c, v);
    ProcessControlQuiet(c, v);
    FromPeerAppend(c.recvData, Packet(4, [0x0e, 0x04, 0x03, 0xee, 0xfc, 0x00]));
  }

  lemma UnreliableUp(cb: Cb, f: Frame, rest: seq<byte>)
    requires UpToDate(cb) && FromSuch(f) && !f.rel
    ensures UpToDate(Complete(cb, f, rest))
  {
    var c, v := RemoveAcked(SetRxack(cb, f.ackNo)), ControlBytes(rest, cb.stale);
    assert UpToDate(c);
    assert Complete(cb, f, rest) == PassUp(c, f, v);
    ControlUp(c, v);
  }

  lemma ArriveUp(r: Cb, e: Sent, stale: Stale)
    requires UpToDate(r) && FromSuch(e.frame)
    ensures UpToDate(Arrive(r, e, stale))
  {
    var f, c := e.frame, r.(stale := stale);
    if f.rel && f.seqNo != c.rxseqTxack {
      WakeUpKeeps(OweAck(c));
      WakeUpQuiet(OweAck(c));
    } else if f.rel {
      ReliableUp(c, f, f.data + Check(f));
    } else {
      UnreliableUp(c, f, f.data + Check(f));
    }
  }

  lemma LocalKeeps(c: Cb, s: Step)
    requires NeedsNoPacket(s)
    ensures Apply(c, s).recvData == c.recvData
  {
    match s
    case StepEnqueue(p) =>
    case StepWakeUp => WakeUpKeeps(c);
    case StepTimer =>
    case StepTakeBack =>
    case StepRetransfer => RetransferKeeps(c);
  }

  lemma RetransferKeeps(c: Cb)
    ensures Retransfer(c).recvData == c.recvData
  {
    TakeBackKeeps(c);
    WakeUpKeeps(TakeBack(c));
  }

  lemma TakeBackKeeps(c: Cb)
    ensures TakeBack(c).recvData == c.recvData
  {
  }

  lemma LocalUp(c: Cb, s: Step)
    requires UpToDate(c) && NeedsNoPacket(s)
    ensures UpToDate(Apply(c, s))
  {
    LocalQuiet(c, s);
    LocalKeeps(c, s);
  }

  // ----- over whole runs

  ghost predicate OnlyReliableKinds(ps: seq<Packet>) {
    forall i :: 0 <= i < |ps| ==> ps[i].kind == 1 || ps[i].kind == 2
  }

  lemma SentFromSuch(s: Cb, j: nat)
    requires Valid(s) && OnlyReliableKinds(s.hist.queued) && j < |s.hist.sent|
    ensures FromSuch(s.hist.sent[j].frame)
  {
    assert Entry(s.hist, s.hist.sent[j]);
  }

  ghost predicate NetUp(n: Net) {
    && NetValid(n) && UpToDate(n.a) && UpToDate(n.b)
    && OnlyReliableKinds(n.a.hist.queued) && OnlyReliableKinds(n.b.hist.queued)
  }

  lemma BothUp(n: Net, s: NetStep)
    requires NetUp(n)
    ensures UpToDate(NetApply(n, s).a) && UpToDate(NetApply(n, s).b)
  {
    match s
    case Local(A, step) => if NeedsNoPacket(step) { LocalUp(n.a, step); }
    case Local(B, step) => if NeedsNoPacket(step) { LocalUp(n.b, step); }
    case Deliver(A, j, stale) =>
      if n.aRead <= j < |n.b.hist.sent| {
        SentFromSuch(n.b, j);
        ArriveUp(n.a, n.b.hist.sent[j], stale);
      }
    case Deliver(B, j, stale) =>
      if n.bRead <= j < |n.a.hist.sent| {
        SentFromSuch(n.a, j);
        ArriveUp(n.b, n.a.hist.sent[j], stale);
      }
  }

  lemma TakesReliable(q: seq<Packet>, s: NetStep, side: Side)
    requires OnlyReliableKinds(q)
    ensures OnlyReliableKinds(q + Takes(s, side))
  {
  }

  lemma BothReliable(n: Net, s: NetStep)
    requires OnlyReliableKinds(n.a.hist.queued) && OnlyReliableKinds(n.b.hist.queued)
    ensures OnlyReliableKinds(NetApply(n, s).a.hist.queued) && OnlyReliableKinds(NetApply(n, s).b.hist.queued)
  {
    NetApplyQueued(n, s);
    TakesReliable(n.a.hist.queued, s, A);
    TakesReliable(n.b.hist.queued, s, B);
  }

  lemma NetApplyUp(n: Net, s: NetStep)
    requires NetUp(n)
    ensures NetUp(NetApply(n, s))
  {
    NetApplyValid(n, s);
    BothReliable(n, s);
    BothUp(n, s);
  }

  lemma {:induction false} NetRunUp(n: Net, steps: seq<NetStep>)
    requires NetUp(n)
    ensures NetUp(NetRun(n, steps))
    decreases |steps|
  {
    if steps != [] {
      NetApplyUp(n, steps[0]);
      NetRunUp(NetApply(n, steps[0]), steps[1..]);
    }
  }

  /** Whatever the line loses and whenever either side sends: what an upper layer is given is a prefix of what the other
      one handed over, in order, without gap, duplicate or invention; beside it, it is only told that the link is up. */
  lemma PassedUpIsHanded(sa: Stale, sb: Stale, steps: seq<NetStep>)
    ensures var n := NetRun(Net(Init(sa), Init(sb), 0, 0), steps);
      && FromPeer(n.b.recvData) <= Handed(steps, A) && OnlyInitEvents(n.b.recvData)
      && FromPeer(n.a.recvData) <= Handed(steps, B) && OnlyInitEvents(n.a.recvData)
  {
    InitValid(sa);
    InitValid(sb);
    NetRunUp(Net(Init(sa), Init(sb), 0, 0), steps);
    ReliableDelivery(sa, sb, steps);
  }

  /** The same of endpoints that encode and decode, byte by byte. */
  lemma PassedUpAsBytes(sa: Stale, sb: Stale, steps: seq<NetStep>)
    ensures var n := ByteRun(FreshLine(sa, sb), steps);
      && FromPeer(n.b.cb.recvData) <= Handed(steps, A) && OnlyInitEvents(n.b.cb.recvData)
      && FromPeer(n.a.cb.recvData) <= Handed(steps, B) && OnlyInitEvents(n.a.cb.recvData)
  {
    ReliableByteDelivery(sa, sb, steps);
    PassedUpIsHanded(sa, sb, steps);
  }

  // ----- and when the line has stopped losing packets

  lemma {:induction false} RestUp(n: Net, stale: Stale)
    requires NetUp(n)
    ensures NetUp(DeliverRest(n, stale))
    decreases |n.a.hist.sent| - n.bRead
  {
    if n.bRead < |n.a.hist.sent| {
      NetApplyUp(n, NetStep.Deliver(B, n.bRead, stale));
      RestUp(NetApply(n, NetStep.Deliver(B, n.bRead, stale)), stale);
    }
  }

  lemma {:induction false} BackUp(n: Net, stale: Stale)
    requires NetUp(n)
    ensures NetUp(V.DeliverBack(n, stale))
    decreases |n.b.hist.sent| - n.aRead
  {
    if n.aRead < |n.b.hist.sent| {
      NetApplyUp(n, NetStep.Deliver(A, n.aRead, stale));
      BackUp(NetApply(n, NetStep.Deliver(A, n.aRead, stale)), stale);
    }
  }

  lemma SettleUp(n: Net, stale: Stale)
    requires NetUp(n)
    ensures NetUp(V.Settle(n, stale))
  {
    RestUp(n, stale);
    BackUp(DeliverRest(n, stale), stale);
  }

  lemma ExchangeUp(n: Net, stale: Stale)
    requires NetUp(n)
    ensures NetUp(V.Exchange(n, stale))
  {
    var m := NetApply(n, Local(A, StepWakeUp));
    NetApplyUp(n, Local(A, StepWakeUp));
    NetApplyUp(m, Local(B, StepWakeUp));
    SettleUp(NetApply(m, Local(B, StepWakeUp)), stale);
  }

  lemma ExchangesUp(n: Net, count: nat, stale: Stale)
    requires NetUp(n)
    ensures NetUp(V.Exchanges(n, count, stale))
  {
    var f := x => V.Exchange(x, stale);
    var p := (x: Net, j: nat) => NetUp(x);
    forall x: Net, j: nat | j > 0 && p(x, j) ensures p(f(x), j - 1) {
      ExchangeUp(x, stale);
    }
    V.IterateCounts(f, p, n, count);
  }

  lemma AgainUp(n: Net, side: Side)
    requires NetUp(n)
    ensures NetUp(V.Again(n, side))
  {
    var m := NetApply(n, Local(side, StepTimer));
    NetApplyUp(n, Local(side, StepTimer));
    NetApplyUp(m, Local(side, StepRetransfer));
    NetApplyUp(NetApply(m, Local(side, StepRetransfer)), Local(side, StepWakeUp));
  }

  lemma RestartUp(n: Net)
    requires NetUp(n)
    ensures NetUp(V.Restart(n))
  {
    var l := n.(aRead := |n.b.hist.sent|, bRead := |n.a.hist.sent|);
    LaterRead(n.a.hist, n.b.hist, n.bRead, n.aRead, l.bRead, l.aRead);
    LaterRead(n.b.hist, n.a.hist, n.aRead, n.bRead, l.aRead, l.bRead);
    AgainUp(l, A);
    AgainUp(V.Again(l, A), B);
    V.RestartIs(n);
  }

  /** Whatever has happened before: one round on each side and as many exchanges without loss as packets are left bring
      the other upper layer exactly what was handed over. */
  lemma EverythingIsPassedUp(sa: Stale, sb: Stale, steps: seq<NetStep>, count: nat, stale: Stale)
    requires var n := NetRun(Net(Init(sa), Init(sb), 0, 0), steps);
      && V.Willing(n.a) && V.Willing(n.b) && V.InWindow(n.a, n.b) && V.InWindow(n.b, n.a)
      && (n.a.window > 0 || n.a.hist.released == |n.a.hist.queued|)
      && |Handed(steps, A)| <= n.a.hist.released + count
    ensures var n := NetRun(Net(Init(sa), Init(sb), 0, 0), steps);
      FromPeer(V.Recovery(n, count, stale).b.recvData) == Handed(steps, A)
  {
    var n := NetRun(Net(Init(sa), Init(sb), 0, 0), steps);
    InitValid(sa);
    InitValid(sb);
    NetRunUp(Net(Init(sa), Init(sb), 0, 0), steps);
    ReliableDelivery(sa, sb, steps);
    RecoveryUp(n, count, stale);
    V.Recovers(n, count, stale);
  }

  lemma RecoveryUp(n: Net, count: nat, stale: Stale)
    requires NetUp(n)
    ensures NetUp(V.Recovery(n, count, stale))
  {
    RestartUp(n);
    SettleUp(V.Restart(n), stale);
    ExchangesUp(V.Settle(V.Restart(n), stale), count, stale);
  }

  // ----- what is not sent reliably

  /** A packet of an unreliable type goes out with the next wake-up, after those that are queued before it. */
  lemma UnreliableGoesOut(stale: Stale, before: seq<Step>, p: Packet)
    requires (p.kind == 0 || p.kind == 14 || p.kind == 15) && |p.data| <= 4095
    ensures var cb := Run(Init(stale), before);
      var w, j := Apply(Apply(cb, StepEnqueue(p)), StepWakeUp), |cb.hist.sent| + |cb.unrel|;
      && j < |w.hist.sent| && cb.hist.sent <= w.hist.sent
      && w.hist.sent[j].frame == Frame(false, 0, |cb.hist.accepted| % 8, cb.useCrc, p.kind, p.data)
  {
    InitValid(stale);
    RunValid(Init(stale), before);
    SentNext(Run(Init(stale), before), p);
  }

  lemma SentNext(cb: Cb, p: Packet)
    requires Valid(cb) && (p.kind == 0 || p.kind == 14 || p.kind == 15) && |p.data| <= 4095
    ensures var w, j := WakeUp(Enqueue(cb, p)), |cb.hist.sent| + |cb.unrel|;
      && j < |w.hist.sent| && cb.hist.sent <= w.hist.sent
      && w.hist.sent[j].frame == Frame(false, 0, |cb.hist.accepted| % 8, cb.useCrc, p.kind, p.data)
  {
    var c := Enqueue(cb, p);
    assert c == cb.(unrel := cb.unrel + [p]);
    EnqueueValid(cb, p);
    WakeUpDrains(c);
    WakeUpQuiet(c);
    FrameAt(cb, c, WakeUp(c), p);
  }

  lemma FrameAt(cb: Cb, c: Cb, w: Cb, p: Packet)
    requires c == cb.(unrel := cb.unrel + [p]) && Drained(c, w)
    ensures var j := |cb.hist.sent| + |cb.unrel|;
      j < |w.hist.sent| && w.hist.sent[j].frame == Frame(false, 0, cb.rxseqTxack, cb.useCrc, p.kind, p.data)
  {
    var f, j := Frame(false, 0, cb.rxseqTxack, cb.useCrc, p.kind, p.data), |cb.hist.sent| + |cb.unrel|;
    assert UnreliableFrames(c)[|cb.unrel|] == f;
    assert Burst(c)[|cb.unrel|] == f;
    assert Frames(w.hist.sent)[j] == f;
  }

  /** A packet that is too long, or of a type that is not sent this way, is dropped. */
  lemma DroppedAtOnce(cb: Cb, p: Packet)
    requires |p.data| > 4095 || (3 <= p.kind <= 13)
    ensures Apply(cb, StepEnqueue(p)) == cb
  {
  }
}
