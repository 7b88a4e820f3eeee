/**
 Two endpoints that run this code, joined by a line in each direction that keeps order but may lose any packet.
 Main result: what one accepts is always a prefix of what the other queued, and nothing is released unaccepted.
 */
module H5Link {
  import opened Bytes
  import opened H5Frame
  import opened H5Control
  import opened H5Window

  /** Positions in the peer's record of sent packets say what is still in flight: everything from there on.
      To deliver a later packet is to lose those before it. */
  datatype Net = Net(a: Cb, b: Cb, aRead: nat, bRead: nat)

  datatype Side = A | B

  datatype NetStep =
    | Local(side: Side, step: Step)
    | Deliver(to: Side, j: nat, stale: Stale)   // the peer's j-th packet arrives; the buffer was malloc'ed over `stale`

  /** Steps that need no packet of the peer. */
  predicate NeedsNoPacket(s: Step) {
    !s.StepReceive?
  }

  function Arrive(c: Cb, s: Sent, stale: Stale): Cb {
    var f := s.frame;
    Receive(c.(stale := stale), f, if f.Valid() then f.data + Check(f) else f.data)
  }

  function NetApply(n: Net, s: NetStep): Net {
    match s
    case Local(A, step) => if NeedsNoPacket(step) then n.(a := Apply(n.a, step)) else n
    case Local(B, step) => if NeedsNoPacket(step) then n.(b := Apply(n.b, step)) else n
    case Deliver(B, j, stale) =>
      if n.bRead <= j < |n.a.hist.sent| then n.(b := Arrive(n.b, n.a.hist.sent[j], stale), bRead := j + 1) else n
    case Deliver(A, j, stale) =>
      if n.aRead <= j < |n.b.hist.sent| then n.(a := Arrive(n.a, n.b.hist.sent[j], stale), aRead := j + 1) else n
  }

  function NetRun(n: Net, steps: seq<NetStep>): Net
    decreases |steps|
  {
    if steps == [] then n else NetRun(NetApply(n, steps[0]), steps[1..])
  }

  // ----- the invariant

  /** From sender s to receiver r: r has read s's record up to `read`, s has read r's up to `back`. */
  ghost predicate Flow(s: History, r: History, read: nat, back: nat) {
    && read <= |s.sent| && back <= |r.sent|
    && s.released <= |r.accepted| <= s.high
    && r.accepted <= s.queued
    && (forall j :: read <= j < |s.sent| ==> |r.accepted| <= s.sent[j].high)
    && (forall j :: back <= j < |r.sent| ==> s.released <= r.sent[j].acked)
  }

  ghost predicate NetValid(n: Net) {
    && Valid(n.a) && Valid(n.b)
    && Flow(n.a.hist, n.b.hist, n.bRead, n.aRead)
    && Flow(n.b.hist, n.a.hist, n.aRead, n.bRead)
  }

  // ----- steps that accept nothing and release nothing

  ghost predicate Quiet(h: History, k: History) {
    && k.accepted == h.accepted && k.released == h.released
    && h.queued <= k.queued && h.high <= k.high && h.sent <= k.sent
    && (forall j :: |h.sent| <= j < |k.sent| ==> k.sent[j].high >= h.high && k.sent[j].acked == |h.accepted|)
  }

  lemma QuietTwice(h: History, k: History, l: History)
    requires Quiet(h, k) && Quiet(k, l)
    ensures Quiet(h, l)
  {
  }

  lemma QuietSender(s: History, s': History, r: History, read: nat, back: nat)
    requires Flow(s, r, read, back) && Quiet(s, s')
    ensures Flow(s', r, read, back)
  {
    forall j | read <= j < |s'.sent| ensures |r.accepted| <= s'.sent[j].high {
      if j < |s.sent| { assert s'.sent[j] == s.sent[j]; }
    }
  }

  lemma QuietReceiver(s: History, r: History, r': History, read: nat, back: nat)
    requires Flow(s, r, read, back) && Quiet(r, r')
    ensures Flow(s, r', read, back)
  {
    forall j | back <= j < |r'.sent| ensures s.released <= r'.sent[j].acked {
      if j < |r.sent| { assert r'.sent[j] == r.sent[j]; }
    }
  }

  lemma TransmitQuiet(cb: Cb, f: Frame)
    ensures Quiet(cb.hist, Transmit(cb, f).hist)
  {
  }

  lemma {:induction false} WakeUpQuiet(cb: Cb)
    ensures Quiet(cb.hist, WakeUp(cb).hist)
    decreases Work(cb)
  {
    var (c, f) := Dequeue(cb);
    if f.Some? {
      var t := Transmit(c, f.value);
      TransmitQuiet(c, f.value);
      WakeUpQuiet(t);
      QuietTwice(cb.hist, t.hist, WakeUp(t).hist);
    }
  }

  /** Nothing accepted, released or sent. */
  lemma StillQuiet(h: History, k: History)
    requires k.accepted == h.accepted && k.released == h.released && k.high == h.high && k.sent == h.sent
    requires h.queued <= k.queued
    ensures Quiet(h, k)
  {
  }

  lemma EnqueueQuiet(cb: Cb, p: Packet)
    ensures Quiet(cb.hist, Enqueue(cb, p).hist)
  {
    StillQuiet(cb.hist, Enqueue(cb, p).hist);
  }

  lemma SendControlQuiet(cb: Cb, data: seq<byte>)
    ensures Quiet(cb.hist, SendControl(cb, data).hist)
  {
    var e := Enqueue(cb, Packet(H5_LINK_CTL_PKT, data));
    EnqueueQuiet(cb, Packet(H5_LINK_CTL_PKT, data));
    WakeUpQuiet(e);
    QuietTwice(cb.hist, e.hist, WakeUp(e).hist);
  }

  lemma ConfigureQuiet(cb: Cb, cfg: byte)
    ensures Quiet(cb.hist, Configure(cb, cfg).hist)
  {
    StillQuiet(cb.hist, Configure(cb, cfg).hist);
  }

  lemma ProcessControlQuiet(cb: Cb, v: seq<byte>)
    requires |v| == 3
    ensures Quiet(cb.hist, ProcessControl(cb, v).hist)
  {
    StillQuiet(cb.hist, cb.hist);
    SendControlQuiet(cb, SYNC_RESP);
    match cb.link
    case Uninitialized => InitializeQuiet(cb);
    case Initialized =>
      SendControlQuiet(cb, CONF_RESP);
      ConfigureQuiet(cb, v[2]);
    case Active =>
      ResyncQuiet(cb);
      SendControlQuiet(cb, CONF_RESP);
  }

  lemma InitializeQuiet(cb: Cb)
    ensures Quiet(cb.hist, SendControl(SetLink(cb, Initialized), CONF).hist)
  {
    SendControlQuiet(SetLink(cb, Initialized), CONF);
  }

  lemma ResyncQuiet(cb: Cb)
    ensures Quiet(cb.hist, SendControl(SetLink(SendControl(cb, SYNC_RESP), Uninitialized), SYNC).hist)
  {
    var c := SetLink(SendControl(cb, SYNC_RESP), Uninitialized);
    SendControlQuiet(cb, SYNC_RESP);
    SendControlQuiet(c, SYNC);
    QuietTwice(cb.hist, c.hist, SendControl(c, SYNC).hist);
  }

  lemma PassUpQuiet(cb: Cb, f: Frame, v: seq<byte>)
    requires |v| == 3
    ensures Quiet(cb.hist, PassUp(cb, f, v).hist)
  {
    ProcessControlQuiet(cb, v);
  }

  lemma LocalQuiet(cb: Cb, s: Step)
    requires NeedsNoPacket(s)
    ensures Quiet(cb.hist, Apply(cb, s).hist)
  {
    match s
    case StepEnqueue(p) => EnqueueQuiet(cb, p);
    case StepWakeUp => WakeUpQuiet(cb);
    case StepReceive(f, rest) =>
    case StepTimer => StillQuiet(cb.hist, TimerFires(cb).hist);
    case StepTakeBack => StillQuiet(cb.hist, Apply(cb, s).hist);
    case StepRetransfer => RetransferQuiet(cb);
  }

  lemma RetransferQuiet(cb: Cb)
    ensures Quiet(cb.hist, Retransfer(cb).hist)
  {
    StillQuiet(cb.hist, cb.hist);
    TakeBackSilent(cb);
    if cb.rxEvent && cb.retransCount < DATA_RETRANS_COUNT { WakeUpQuiet(TakeBack(cb)); }
  }

  lemma TakeBackSilent(cb: Cb)
    ensures TakeBack(cb).hist == cb.hist
  {
  }

  // ----- accepting and releasing

  /** The sequence number identifies the packet: the one accepted is the next one. */
  lemma AcceptedIsNext(s: Cb, r: Cb, read: nat, back: nat, j: nat)
    requires Valid(s) && Valid(r) && Flow(s.hist, r.hist, read, back)
    requires read <= j < |s.hist.sent|
    requires s.hist.sent[j].frame.rel && s.hist.sent[j].frame.seqNo == r.rxseqTxack
    ensures s.hist.sent[j].index == |r.hist.accepted|
  {
    var e, n := s.hist.sent[j], |r.hist.accepted|;
    assert Entry(s.hist, e);
    NumberedOnce(0, e.index, n, r.rxseqTxack);
  }

  lemma AcceptFlow(s: Cb, r: Cb, read: nat, back: nat, j: nat)
    requires Valid(s) && Valid(r) && Flow(s.hist, r.hist, read, back)
    requires read <= j < |s.hist.sent|
    requires s.hist.sent[j].frame.rel && s.hist.sent[j].frame.seqNo == r.rxseqTxack
    ensures Flow(s.hist, Accept(r, s.hist.sent[j].frame).hist, j + 1, back)
  {
    var e := s.hist.sent[j];
    AcceptedIsNext(s, r, read, back, j);
    assert Entry(s.hist, e);
    var acc := r.hist.accepted + [Packet(e.frame.kind, e.frame.data)];
    assert acc <= s.hist.queued;
  }

  /** An arriving acknowledgement releases only what the peer has accepted. */
  lemma ReleaseFlow(s: Cb, r: Cb, read: nat, back: nat, j: nat)
    requires Valid(s) && Valid(r) && Flow(s.hist, r.hist, read, back)
    requires back <= j < |r.hist.sent| && s.rxack == r.hist.sent[j].frame.ackNo
    ensures Flow(RemoveAcked(s).hist, r.hist, read, j + 1)
  {
    var e := r.hist.sent[j];
    assert Entry(r.hist, e);
    RemoveAckedReleases(s, e.acked);
    forall i | j + 1 <= i < |r.hist.sent| ensures RemoveAcked(s).hist.released <= r.hist.sent[i].acked {
      assert e.acked <= r.hist.sent[i].acked;
    }
  }

  lemma LaterRead(s: History, r: History, read: nat, back: nat, read': nat, back': nat)
    requires Flow(s, r, read, back) && read <= read' <= |s.sent| && back <= back' <= |r.sent|
    ensures Flow(s, r, read', back')
  {
  }

  /** Both directions at once, r being the endpoint that does something. */
  ghost predicate Both(s: Cb, r: Cb, read: nat, back: nat) {
    && Valid(s) && Valid(r)
    && Flow(s.hist, r.hist, read, back)
    && Flow(r.hist, s.hist, back, read)
  }

  lemma BothQuiet(s: Cb, r: Cb, r': Cb, read: nat, back: nat)
    requires Both(s, r, read, back) && Valid(r') && Quiet(r.hist, r'.hist)
    ensures Both(s, r', read, back)
  {
    QuietReceiver(s.hist, r.hist, r'.hist, read, back);
    QuietSender(r.hist, r'.hist, s.hist, back, read);
  }

  lemma BothAccept(s: Cb, r: Cb, read: nat, back: nat, j: nat)
    requires Both(s, r, read, back) && read <= j < |s.hist.sent|
    requires s.hist.sent[j].frame.rel && s.hist.sent[j].frame.seqNo == r.rxseqTxack
    ensures var r' := WakeUp(Accept(r, s.hist.sent[j].frame));
      Valid(r') && Flow(s.hist, r'.hist, j + 1, back) && Flow(r'.hist, s.hist, back, read)
  {
    var f := s.hist.sent[j].frame;
    var c := Accept(r, f);
    AcceptFlow(s, r, read, back, j);
    AcceptValid(r, f);
    WakeUpValid(c);
    WakeUpQuiet(c);
    QuietReceiver(s.hist, c.hist, WakeUp(c).hist, j + 1, back);
    QuietSender(c.hist, WakeUp(c).hist, s.hist, back, read);
  }

  lemma BothRelease(s: Cb, r: Cb, read: nat, back: nat, j: nat)
    requires Valid(s) && Valid(r) && Flow(s.hist, r.hist, j + 1, back) && Flow(r.hist, s.hist, back, read)
    requires read <= j < |s.hist.sent|
    ensures Both(s, RemoveAcked(r.(rxack := s.hist.sent[j].frame.ackNo)), j + 1, back)
  {
    var c := r.(rxack := s.hist.sent[j].frame.ackNo);
    SameButReceived(r, c);
    ReleaseFlow(c, s, back, read, j);
    RemoveAckedValid(c);
  }

  lemma ArriveFlow(s: Cb, r: Cb, read: nat, back: nat, j: nat, stale: Stale)
    requires Both(s, r, read, back) && read <= j < |s.hist.sent|
    ensures Both(s, Arrive(r, s.hist.sent[j], stale), j + 1, back)
  {
    var f, c := s.hist.sent[j].frame, r.(stale := stale);
    assert Valid(c) && Entry(s.hist, s.hist.sent[j]);
    if f.rel && f.seqNo != c.rxseqTxack {
      var d := c.(ackReq := true);
      WakeUpValid(d);
      WakeUpQuiet(d);
      BothQuiet(s, r, WakeUp(d), read, back);
      LaterRead(s.hist, WakeUp(d).hist, read, back, j + 1, back);
      LaterRead(WakeUp(d).hist, s.hist, back, read, back, j + 1);
    } else {
      CompleteFlow(s, c, read, back, j);
    }
  }

  lemma CompleteFlow(s: Cb, c: Cb, read: nat, back: nat, j: nat)
    requires Both(s, c, read, back) && read <= j < |s.hist.sent|
    requires var f := s.hist.sent[j].frame; f.Valid() && (f.rel ==> f.seqNo == c.rxseqTxack)
    ensures var f := s.hist.sent[j].frame; Both(s, Complete(c, f, f.data + Check(f)), j + 1, back)
  {
    var f := s.hist.sent[j].frame;
    var c0 := if f.rel then WakeUp(Accept(c, f)) else c;
    if f.rel {
      BothAccept(s, c, read, back, j);
    } else {
      LaterRead(s.hist, c.hist, read, back, j + 1, back);
    }
    BothRelease(s, c0, read, back, j);
    var c1 := RemoveAcked(c0.(rxack := f.ackNo));
    var v := ControlBytes(f.data + Check(f), c.stale);
    PassUpValid(c1, f, v);
    PassUpQuiet(c1, f, v);
    BothQuiet(s, c1, PassUp(c1, f, v), j + 1, back);
  }

  lemma LocalFlow(s: Cb, r: Cb, read: nat, back: nat, step: Step)
    requires Both(s, r, read, back) && NeedsNoPacket(step)
    ensures Both(s, Apply(r, step), read, back)
  {
    ApplyValid(r, step);
    LocalQuiet(r, step);
    BothQuiet(s, r, Apply(r, step), read, back);
  }

  // ----- what the upper layers hand over

  /** Told by the step alone: a command or a data packet that the format can carry. */
  function Takes(s: NetStep, side: Side): seq<Packet> {
    if s.Local? && s.side == side && s.step.StepEnqueue? && (s.step.p.kind == 1 || s.step.p.kind == 2)
       && |s.step.p.data| <= 4095
    then [s.step.p]
    else []
  }

  /** What one side is given to send reliably, in order. */
  function Handed(steps: seq<NetStep>, side: Side): seq<Packet>
    decreases |steps|
  {
    if steps == [] then [] else Takes(steps[0], side) + Handed(steps[1..], side)
  }

  lemma {:induction false} WakeUpQueued(cb: Cb)
    ensures WakeUp(cb).hist.queued == cb.hist.queued
    decreases Work(cb)
  {
    var (c, f) := Dequeue(cb);
    if f.Some? { WakeUpQueued(Transmit(c, f.value)); }
  }

  lemma SendControlQueued(cb: Cb, data: seq<byte>)
    ensures SendControl(cb, data).hist.queued == cb.hist.queued
  {
    WakeUpQueued(Enqueue(cb, Packet(H5_LINK_CTL_PKT, data)));
  }

  lemma ConfigureQueued(cb: Cb, cfg: byte)
    ensures Configure(cb, cfg).hist.queued == cb.hist.queued
  {
  }

  lemma ProcessControlQueued(cb: Cb, v: seq<byte>)
    requires |v| == 3
    ensures ProcessControl(cb, v).hist.queued == cb.hist.queued
  {
    SendControlQueued(cb, SYNC_RESP);
    match cb.link
    case Uninitialized => SendControlQueued(SetLink(cb, Initialized), CONF);
    case Initialized =>
      SendControlQueued(cb, CONF_RESP);
      ConfigureQueued(cb, v[2]);
    case Active =>
      SendControlQueued(SetLink(SendControl(cb, SYNC_RESP), Uninitialized), SYNC);
      SendControlQueued(cb, CONF_RESP);
  }

  lemma PassUpQueued(cb: Cb, f: Frame, v: seq<byte>)
    requires |v| == 3
    ensures PassUp(cb, f, v).hist.queued == cb.hist.queued
  {
    ProcessControlQueued(cb, v);
  }

  /** Nothing that arrives is queued to be sent reliably. */
  lemma ReceiveQueued(cb: Cb, f: Frame, rest: seq<byte>)
    ensures Receive(cb, f, rest).hist.queued == cb.hist.queued
  {
    if f.rel && f.seqNo != cb.rxseqTxack {
      WakeUpQueued(OweAck(cb));
    } else {
      if f.rel { WakeUpQueued(Accept(cb, f)); }
      var c := RemoveAcked(SetRxack(if f.rel then WakeUp(Accept(cb, f)) else cb, f.ackNo));
      PassUpQueued(c, f, ControlBytes(rest, cb.stale));
    }
  }

  lemma LocalQueued(cb: Cb, s: Step, side: Side)
    requires NeedsNoPacket(s)
    ensures Apply(cb, s).hist.queued == cb.hist.queued + Takes(Local(side, s), side)
  {
    assert cb.hist.queued + [] == cb.hist.queued;
    match s
    case StepEnqueue(p) =>
    case StepWakeUp => WakeUpQueued(cb);
    case StepTimer =>
    case StepTakeBack => TakeBackSilent(cb);
    case StepRetransfer =>
      TakeBackSilent(cb);
      WakeUpQueued(TakeBack(cb));
  }

  lemma NetApplyQueued(n: Net, s: NetStep)
    ensures NetApply(n, s).a.hist.queued == n.a.hist.queued + Takes(s, A)
    ensures NetApply(n, s).b.hist.queued == n.b.hist.queued + Takes(s, B)
  {
    assert n.a.hist.queued + [] == n.a.hist.queued && n.b.hist.queued + [] == n.b.hist.queued;
    match s
    case Local(A, step) => if NeedsNoPacket(step) { LocalQueued(n.a, step, A); }
    case Local(B, step) => if NeedsNoPacket(step) { LocalQueued(n.b, step, B); }
    case Deliver(A, j, stale) =>
      if n.aRead <= j < |n.b.hist.sent| { ArriveQueued(n.a, n.b.hist.sent[j], stale); }
    case Deliver(B, j, stale) =>
      if n.bRead <= j < |n.a.hist.sent| { ArriveQueued(n.b, n.a.hist.sent[j], stale); }
  }

  lemma ArriveQueued(r: Cb, e: Sent, stale: Stale)
    ensures Arrive(r, e, stale).hist.queued == r.hist.queued
  {
    var f := e.frame;
    ReceiveQueued(r.(stale := stale), f, if f.Valid() then f.data + Check(f) else f.data);
  }

  lemma {:induction false} NetRunQueued(n: Net, steps: seq<NetStep>)
    ensures NetRun(n, steps).a.hist.queued == n.a.hist.queued + Handed(steps, A)
    ensures NetRun(n, steps).b.hist.queued == n.b.hist.queued + Handed(steps, B)
    decreases |steps|
  {
    if steps != [] {
      NetApplyQueued(n, steps[0]);
      NetRunQueued(NetApply(n, steps[0]), steps[1..]);
    }
  }

  // ----- the main result

  lemma NetApplyValid(n: Net, s: NetStep)
    requires NetValid(n)
    ensures NetValid(NetApply(n, s))
  {
    match s
    case Local(A, step) => if NeedsNoPacket(step) { LocalFlow(n.b, n.a, n.aRead, n.bRead, step); }
    case Local(B, step) => if NeedsNoPacket(step) { LocalFlow(n.a, n.b, n.bRead, n.aRead, step); }
    case Deliver(A, j, stale) =>
      if n.aRead <= j < |n.b.hist.sent| { ArriveFlow(n.b, n.a, n.aRead, n.bRead, j, stale); }
    case Deliver(B, j, stale) =>
      if n.bRead <= j < |n.a.hist.sent| { ArriveFlow(n.a, n.b, n.bRead, n.aRead, j, stale); }
  }

  lemma {:induction false} NetRunValid(n: Net, steps: seq<NetStep>)
    requires NetValid(n)
    ensures NetValid(NetRun(n, steps))
    decreases |steps|
  {
    if steps != [] {
      NetApplyValid(n, steps[0]);
      NetRunValid(NetApply(n, steps[0]), steps[1..]);
    }
  }

  /** After any run from reset, in both directions: the accepted packets are a prefix of those handed over for sending,
      in order, without gap or duplicate; what has left unack by acknowledgement has been accepted by the peer; and what
      has not been released is still there to be sent. */
  lemma ReliableDelivery(sa: Stale, sb: Stale, steps: seq<NetStep>)
    ensures var n, x, y := NetRun(Net(Init(sa), Init(sb), 0, 0), steps), Handed(steps, A), Handed(steps, B);
      && n.a.hist.queued == x && n.b.hist.queued == y
      && n.b.hist.accepted <= x && n.a.hist.released <= |n.b.hist.accepted|
      && n.a.hist.accepted <= y && n.b.hist.released <= |n.a.hist.accepted|
      && x[n.a.hist.released..] == n.a.unack + n.a.rel && y[n.b.hist.released..] == n.b.unack + n.b.rel
  {
    InitValid(sa);
    InitValid(sb);
    NetRunValid(Net(Init(sa), Init(sb), 0, 0), steps);
    NetRunQueued(Net(Init(sa), Init(sb), 0, 0), steps);
  }

  // ----- recovery: one round without loss

  /** The index the next reliable packet bears when those recorded from position `from` on start at `base`. */
  function NextIndex(sent: seq<Sent>, from: nat, base: nat): nat
    requires from <= |sent|
  {
    if |sent| == from then base
    else NextIndex(sent[..|sent| - 1], from, base) + if sent[|sent| - 1].frame.rel then 1 else 0
  }

  ghost predicate InSequence(sent: seq<Sent>, from: nat, base: nat)
    requires from <= |sent|
  {
    |sent| == from ||
    (InSequence(sent[..|sent| - 1], from, base) &&
     (sent[|sent| - 1].frame.rel ==> sent[|sent| - 1].index == NextIndex(sent[..|sent| - 1], from, base)))
  }

  lemma SequenceAppend(sent: seq<Sent>, e: Sent, from: nat, base: nat)
    requires from <= |sent| && InSequence(sent, from, base)
    requires e.frame.rel ==> e.index == NextIndex(sent, from, base)
    ensures InSequence(sent + [e], from, base)
    ensures NextIndex(sent + [e], from, base) == NextIndex(sent, from, base) + if e.frame.rel then 1 else 0
  {
    assert (sent + [e])[..|sent|] == sent;
  }

  lemma {:induction false} SequencePrefix(sent: seq<Sent>, from: nat, base: nat, k: nat)
    requires from <= k < |sent| && InSequence(sent, from, base)
    ensures InSequence(sent[..k], from, base)
    ensures sent[k].frame.rel ==> sent[k].index == NextIndex(sent[..k], from, base)
    ensures NextIndex(sent[..k + 1], from, base) ==
      NextIndex(sent[..k], from, base) + if sent[k].frame.rel then 1 else 0
    decreases |sent|
  {
    if k < |sent| - 1 {
      SequencePrefix(sent[..|sent| - 1], from, base, k);
      assert sent[..|sent| - 1][..k] == sent[..k] && sent[..|sent| - 1][..k + 1] == sent[..k + 1];
    } else {
      assert sent[..k + 1] == sent;
    }
  }

  /** What has been recorded since position `from` is in sequence up to the last packet in unack. */
  ghost predicate Orderly(cb: Cb, from: nat, base: nat) {
    && from <= |cb.hist.sent| && InSequence(cb.hist.sent, from, base)
    && NextIndex(cb.hist.sent, from, base) == cb.hist.released + |cb.unack|
  }

  lemma TurnOrderly(cb: Cb, c: Cb, e: Sent, from: nat, base: nat)
    requires Orderly(cb, from, base)
    requires c.hist.sent == cb.hist.sent + [e] && c.hist.released == cb.hist.released
    requires |c.unack| == |cb.unack| + if e.frame.rel then 1 else 0
    requires e.frame.rel ==> e.index == cb.hist.released + |cb.unack|
    ensures Orderly(c, from, base)
  {
    SequenceAppend(cb.hist.sent, e, from, base);
  }

  lemma UnreliableOrderly(cb: Cb, from: nat, base: nat)
    requires cb.unrel != [] && Orderly(cb, from, base)
    ensures Orderly(SendUnreliable(cb), from, base)
  {
    var c := SendUnreliable(cb);
    TurnOrderly(cb, c, c.hist.sent[|cb.hist.sent|], from, base);
  }

  lemma ReliableOrderly(cb: Cb, from: nat, base: nat)
    requires cb.rel != [] && Orderly(cb, from, base)
    ensures Orderly(SendReliable(cb), from, base)
  {
    var c := SendReliable(cb);
    TurnOrderly(cb, c, c.hist.sent[|cb.hist.sent|], from, base);
  }

  lemma AckOrderly(cb: Cb, from: nat, base: nat)
    requires Orderly(cb, from, base)
    ensures Orderly(SendAck(cb), from, base)
  {
    var c := SendAck(cb);
    TurnOrderly(cb, c, c.hist.sent[|cb.hist.sent|], from, base);
  }

  lemma {:induction false} WakeUpOrderly(cb: Cb, from: nat, base: nat)
    requires Queues(cb) && Orderly(cb, from, base)
    ensures Orderly(WakeUp(cb), from, base)
    decreases Work(cb)
  {
    if cb.unrel != [] {
      UnreliableTurn(cb);
      UnreliableQueues(cb);
      UnreliableOrderly(cb, from, base);
      WakeUpOrderly(SendUnreliable(cb), from, base);
    } else if Slots(cb) > 0 {
      ReliableTurn(cb);
      ReliableQueues(cb);
      ReliableOrderly(cb, from, base);
      WakeUpOrderly(SendReliable(cb), from, base);
    } else {
      LastTurn(cb);
      AckOrderly(cb, from, base);
    }
  }

  lemma CompleteAccepts(c: Cb, f: Frame, rest: seq<byte>)
    ensures Complete(c, f, rest).hist.accepted ==
      if f.rel then c.hist.accepted + [Packet(f.kind, f.data)] else c.hist.accepted
  {
    WakeUpQuiet(Accept(c, f));
    var c0 := if f.rel then WakeUp(Accept(c, f)) else c;
    var c1 := RemoveAcked(c0.(rxack := f.ackNo));
    assert c1.hist.accepted == c0.hist.accepted;
    PassUpQuiet(c1, f, ControlBytes(rest, c.stale));
  }

  /** Exactly a reliable packet with the expected number is accepted. */
  lemma ArriveAccepts(r: Cb, e: Sent, stale: Stale)
    ensures Arrive(r, e, stale).hist.accepted ==
      if e.frame.rel && e.frame.seqNo == r.rxseqTxack
      then r.hist.accepted + [Packet(e.frame.kind, e.frame.data)] else r.hist.accepted
  {
    var f, c := e.frame, r.(stale := stale);
    if f.rel && f.seqNo != c.rxseqTxack {
      WakeUpQuiet(c.(ackReq := true));
    } else {
      CompleteAccepts(c, f, if f.Valid() then f.data + Check(f) else f.data);
    }
  }

  /** Everything still in flight to b arrives, in order. */
  function DeliverRest(n: Net, stale: Stale): Net
    decreases |n.a.hist.sent| - n.bRead
  {
    if n.bRead < |n.a.hist.sent| then DeliverRest(NetApply(n, Deliver(B, n.bRead, stale)), stale) else n
  }

  ghost predicate CaughtUp(n: Net, from: nat, base: nat) {
    && NetValid(n) && from <= n.bRead
    && InSequence(n.a.hist.sent, from, base)
    && NextIndex(n.a.hist.sent[..n.bRead], from, base) <= |n.b.hist.accepted|
  }

  lemma Advances(n: Net, stale: Stale)
    requires NetValid(n) && n.bRead < |n.a.hist.sent|
    ensures var e, m := n.a.hist.sent[n.bRead], Arrive(n.b, n.a.hist.sent[n.bRead], stale);
      && |n.b.hist.accepted| <= |m.hist.accepted|
      && (e.frame.rel && e.index == |n.b.hist.accepted| ==> |m.hist.accepted| == e.index + 1)
  {
    ArriveAccepts(n.b, n.a.hist.sent[n.bRead], stale);
    assert Entry(n.a.hist, n.a.hist.sent[n.bRead]);
  }

  /** The next packet in flight is either accepted already or exactly the one expected. */
  lemma CatchUpStep(n: Net, stale: Stale, from: nat, base: nat)
    requires CaughtUp(n, from, base) && n.bRead < |n.a.hist.sent|
    ensures CaughtUp(NetApply(n, Deliver(B, n.bRead, stale)), from, base)
  {
    var k, e := n.bRead, n.a.hist.sent[n.bRead];
    var m := NetApply(n, Deliver(B, k, stale));
    NetApplyValid(n, Deliver(B, k, stale));
    assert m.a == n.a && m.bRead == k + 1 && m.b == Arrive(n.b, e, stale);
    SequencePrefix(n.a.hist.sent, from, base, k);
    Advances(n, stale);
  }

  lemma {:induction false} CatchUp(n: Net, stale: Stale, from: nat, base: nat)
    requires CaughtUp(n, from, base)
    ensures NextIndex(n.a.hist.sent, from, base) <= |DeliverRest(n, stale).b.hist.accepted|
    decreases |n.a.hist.sent| - n.bRead
  {
    if n.bRead < |n.a.hist.sent| {
      CatchUpStep(n, stale, from, base);
      CatchUp(NetApply(n, Deliver(B, n.bRead, stale)), stale, from, base);
    } else {
      assert n.a.hist.sent[..n.bRead] == n.a.hist.sent;
    }
  }

  /** All that is in flight from a is lost. */
  function Lost(n: Net): Net {
    n.(bRead := |n.a.hist.sent|)
  }

  lemma LostValid(n: Net)
    requires NetValid(n)
    ensures NetValid(Lost(n))
  {
    LaterRead(n.a.hist, n.b.hist, n.bRead, n.aRead, |n.a.hist.sent|, n.aRead);
    LaterRead(n.b.hist, n.a.hist, n.aRead, n.bRead, n.aRead, |n.a.hist.sent|);
  }

  /** A round puts on record the stream from the oldest unacknowledged packet on, as far as the window goes. */
  lemma RetransferOrderly(cb: Cb)
    requires Valid(cb) && cb.rxEvent && cb.retransCount < 40
    ensures var r, from := Retransfer(cb), |cb.hist.sent|;
      && Orderly(r, from, cb.hist.released) && r.hist.sent[..from] == cb.hist.sent
      && r.hist.released == cb.hist.released && |r.unack| == Slots(TakeBack(cb))
  {
    var t := TakeBack(cb);
    TakeBackValid(cb);
    WakeUpOrderly(t, |cb.hist.sent|, cb.hist.released);
    WakeUpQuiet(t);
    RetransferRestores(cb);
  }

  /** Go-back-N recovers: whatever was lost before, once one retransmission round gets through, the peer has accepted
      every packet that was unacknowledged, or a whole window of them if the window has become less than that. */
  lemma RoundRecovers(n: Net, stale: Stale)
    requires NetValid(n) && n.a.rxEvent && n.a.retransCount < 40
    ensures var m := DeliverRest(NetApply(Lost(n), Local(A, StepRetransfer)), stale);
      n.a.hist.released + (if |n.a.unack| <= n.a.window then |n.a.unack| else n.a.window) <= |m.b.hist.accepted|
  {
    RoundStarts(n);
    RetransferRestores(n.a);
    CatchUp(NetApply(Lost(n), Local(A, StepRetransfer)), stale, |n.a.hist.sent|, n.a.hist.released);
  }

  /** After the loss of everything in flight and one round, the record from there on starts at the oldest packet. */
  lemma RoundStarts(n: Net)
    requires NetValid(n) && n.a.rxEvent && n.a.retransCount < 40
    ensures var m, from, base := NetApply(Lost(n), Local(A, StepRetransfer)), |n.a.hist.sent|, n.a.hist.released;
      CaughtUp(m, from, base) && NextIndex(m.a.hist.sent, from, base) == base + |Retransfer(n.a).unack|
  {
    LostValid(n);
    NetApplyValid(Lost(n), Local(A, StepRetransfer));
    RoundIs(n);
    RetransferOrderly(n.a);
  }

  lemma RoundIs(n: Net)
    ensures NetApply(Lost(n), Local(A, StepRetransfer)) == Net(Retransfer(n.a), n.b, n.aRead, |n.a.hist.sent|)
  {
  }

  // ----- where the configuration comes from

  /** A configuration response, as h5_process_ctl_pkts knows it by two bytes. */
  predicate ConfigResponse(f: Frame) {
    f.Valid() && !f.rel && f.kind == H5_LINK_CTL_PKT && |f.data| >= 2 && Same2(f.data, CONF_RESP)
  }

  /** The byte behind those two: a configuration field exactly when the payload has one; otherwise the first byte of the
      check, or, without a check, what the allocation left there. */
  function ConfigByte(f: Frame, stale: Stale): byte
    requires f.Valid() && |f.data| >= 2
  {
    if |f.data| >= 3 then f.data[2] else if f.crc then Check(f)[0] else stale[2]
  }

  /** That byte configures the link. */
  lemma ConfiguredFrom(c: Cb, s: Sent, stale: Stale)
    requires c.link == Initialized && ConfigResponse(s.frame)
    ensures var d, cfg := Arrive(c, s, stale), ConfigByte(s.frame, stale);
      d.link == Active && d.window == cfg % 8 && d.oof == (cfg / 8 % 2 == 1) && d.dic == (cfg / 16 % 2 == 1)
  {
    var f := s.frame;
    var rest := f.data + Check(f);
    var v := ControlBytes(rest, stale);
    assert v[0] == f.data[0] && v[1] == f.data[1] && v[2] == ConfigByte(f, stale);
    var r := RemoveAcked(SetRxack(c.(stale := stale), f.ackNo));
    assert r.link == Initialized;
    assert Arrive(c, s, stale) == ProcessControl(r, v) == Configure(r, v[2]);
  }

  /** The window does not depend on what the buffer held before exactly when the packet is long enough. */
  lemma ConfiguredByPacket(c: Cb, s: Sent)
    requires c.link == Initialized && ConfigResponse(s.frame)
    ensures (forall x: Stale, y: Stale :: Arrive(c, s, x).window == Arrive(c, s, y).window)
      <==> |s.frame.data| >= 3 || s.frame.crc
  {
    forall x: Stale ensures Arrive(c, s, x).window == ConfigByte(s.frame, x) % 8 {
      ConfiguredFrom(c, s, x);
    }
    var x: Stale, y: Stale := [0, 0, 0], [0, 0, 1];
    if |s.frame.data| < 3 && !s.frame.crc { assert Arrive(c, s, x).window != Arrive(c, s, y).window; }
  }

  /** The response that this code itself sends, 04 7B, has no configuration field: without a check, the window that it
      sets is any that the buffer happens to hold, a closed one too. */
  lemma OwnResponse(c: Cb, s: Sent, ack: Bits3, w: Bits3)
    requires c.link == Initialized && s.frame == Frame(false, 0, ack, false, H5_LINK_CTL_PKT, [0x04, 0x7B])
    ensures Arrive(c, s, [0, 0, w]).window == w
  {
    ConfiguredFrom(c, s, [0, 0, w]);
  }
}
