/**
 What repeated transmission achieves: once the line stops losing packets, one retransmission round on each side and then
 wake-ups bring everything queued to the peer. Link control packets are left aside; they may change the window.
 */
module H5Recovery {
  import opened Bytes
  import opened H5Frame
  import opened H5Control
  import opened H5Window
  import opened H5Link

  // ----- what a sender keeps

  /** No link control packet is queued, and none has been recorded since `from`. */
  ghost predicate Plain(cb: Cb, from: nat) {
    && from <= |cb.hist.sent|
    && (forall i :: 0 <= i < |cb.unrel| ==> cb.unrel[i].kind != H5_LINK_CTL_PKT)
    && (forall j :: from <= j < |cb.hist.sent| ==> cb.hist.sent[j].frame.kind != H5_LINK_CTL_PKT)
  }

  /** What has been recorded since `from` is in sequence from `base` on, and plain. */
  ghost predicate Tidy(cb: Cb, from: nat, base: nat) {
    Queues(cb) && Orderly(cb, from, base) && Plain(cb, from)
  }

  /** The window, the stream and the record stay; the record and what has been sent of the stream only grow. */
  ghost predicate Kept(c: Cb, d: Cb) {
    && d.window == c.window && d.hist.queued == c.hist.queued && c.hist.sent <= d.hist.sent
    && c.hist.released <= d.hist.released
    && c.hist.released + |c.unack| <= d.hist.released + |d.unack|
  }

  lemma KeptTwice(c: Cb, d: Cb, e: Cb)
    requires Kept(c, d) && Kept(d, e)
    ensures Kept(c, e)
  {
  }

  lemma PlainUnreliable(cb: Cb, from: nat)
    requires cb.unrel != [] && Plain(cb, from)
    ensures Plain(SendUnreliable(cb), from)
  {
  }

  lemma PlainReliable(cb: Cb, from: nat)
    requires cb.rel != [] && Sendable(cb.rel[0], true) && Plain(cb, from)
    ensures Plain(SendReliable(cb), from)
  {
  }

  lemma PlainAck(cb: Cb, from: nat)
    requires Plain(cb, from)
    ensures Plain(SendAck(cb), from)
  {
  }

  lemma {:induction false} WakeUpPlain(cb: Cb, from: nat)
    requires Queues(cb) && Plain(cb, from)
    ensures Plain(WakeUp(cb), from)
    decreases Work(cb)
  {
    if cb.unrel != [] {
      UnreliableTurn(cb);
      UnreliableQueues(cb);
      PlainUnreliable(cb, from);
      WakeUpPlain(SendUnreliable(cb), from);
    } else if Slots(cb) > 0 {
      ReliableTurn(cb);
      ReliableQueues(cb);
      PlainReliable(cb, from);
      WakeUpPlain(SendReliable(cb), from);
    } else {
      LastTurn(cb);
      PlainAck(cb, from);
    }
  }

  lemma WakeUpTidy(cb: Cb, from: nat, base: nat)
    requires Tidy(cb, from, base)
    ensures Tidy(WakeUp(cb), from, base)
  {
    WakeUpQueues(cb);
    WakeUpOrderly(cb, from, base);
    WakeUpPlain(cb, from);
  }

  lemma WakeUpKept(cb: Cb)
    requires Queues(cb)
    ensures Kept(cb, WakeUp(cb)) && WakeUp(cb).hist.accepted == cb.hist.accepted
    ensures WakeUp(cb).hist.released == cb.hist.released
  {
    WakeUpQueues(cb);
    WakeUpDrains(cb);
    WakeUpQuiet(cb);
  }

  /** An acknowledgement owed goes out, and says what has been accepted. */
  lemma WakeUpAnnounces(cb: Cb)
    requires Queues(cb) && cb.ackReq
    ensures var s := WakeUp(cb).hist.sent;
      |s| > |cb.hist.sent| && s[|s| - 1].acked == |cb.hist.accepted|
  {
    WakeUpDrains(cb);
    WakeUpQuiet(cb);
    assert |Burst(cb)| > 0;
    assert |Frames(WakeUp(cb).hist.sent)| == |Frames(cb.hist.sent)| + |Burst(cb)|;
  }

  // ----- a plain packet arrives

  lemma ArriveOutOfOrder(r: Cb, e: Sent, stale: Stale)
    requires e.frame.rel && e.frame.seqNo != r.rxseqTxack
    ensures Arrive(r, e, stale) == WakeUp(OweAck(r.(stale := stale)))
  {
  }

  /** The control block when the acknowledgement of a packet in order is looked at. */
  function Before(r: Cb, e: Sent, stale: Stale): Cb {
    var c := r.(stale := stale);
    if e.frame.rel then WakeUp(Accept(c, e.frame)) else c
  }

  lemma ArriveInOrder(r: Cb, e: Sent, stale: Stale)
    requires (e.frame.rel ==> e.frame.seqNo == r.rxseqTxack) && e.frame.kind != H5_LINK_CTL_PKT
    ensures var c, d := RemoveAcked(SetRxack(Before(r, e, stale), e.frame.ackNo)), Arrive(r, e, stale);
      d == c.(recvData := d.recvData)
  {
    var f, c := e.frame, r.(stale := stale);
    var rest := if f.Valid() then f.data + Check(f) else f.data;
    assert Arrive(r, e, stale) == Complete(c, f, rest);
    PassUpPlain(RemoveAcked(SetRxack(Before(r, e, stale), f.ackNo)), f, ControlBytes(rest, stale));
  }

  lemma PassUpPlain(c: Cb, f: Frame, v: seq<byte>)
    requires |v| == 3 && f.kind != H5_LINK_CTL_PKT
    ensures PassUp(c, f, v) == c.(recvData := PassUp(c, f, v).recvData)
  {
  }

  lemma BeforeTidy(r: Cb, e: Sent, stale: Stale, from: nat, base: nat)
    requires Tidy(r, from, base)
    ensures Tidy(Before(r, e, stale), from, base)
    ensures Kept(r, Before(r, e, stale)) && Before(r, e, stale).hist.released == r.hist.released
  {
    var c := r.(stale := stale);
    if e.frame.rel {
      WakeUpTidy(Accept(c, e.frame), from, base);
      WakeUpKept(Accept(c, e.frame));
    }
  }

  lemma ReleaseTidy(c: Cb, ack: Bits3, from: nat, base: nat)
    requires Tidy(c, from, base)
    ensures Tidy(RemoveAcked(SetRxack(c, ack)), from, base) && Kept(c, RemoveAcked(SetRxack(c, ack)))
    ensures RemoveAcked(SetRxack(c, ack)).hist.sent == c.hist.sent
  {
    RemoveAckedQueues(SetRxack(c, ack));
  }

  lemma ArriveTidy(r: Cb, e: Sent, stale: Stale, from: nat, base: nat)
    requires Tidy(r, from, base) && e.frame.kind != H5_LINK_CTL_PKT
    ensures Tidy(Arrive(r, e, stale), from, base) && Kept(r, Arrive(r, e, stale))
  {
    if e.frame.rel && e.frame.seqNo != r.rxseqTxack {
      var c := OweAck(r.(stale := stale));
      ArriveOutOfOrder(r, e, stale);
      WakeUpTidy(c, from, base);
      WakeUpKept(c);
    } else {
      var b := Before(r, e, stale);
      ArriveInOrder(r, e, stale);
      BeforeTidy(r, e, stale, from, base);
      ReleaseTidy(b, e.frame.ackNo, from, base);
      KeptTwice(r, b, RemoveAcked(SetRxack(b, e.frame.ackNo)));
    }
  }

  /** A reliable packet, in order or not, is answered. */
  lemma ArriveAnnounces(r: Cb, e: Sent, stale: Stale)
    requires Queues(r) && e.frame.rel && e.frame.kind != H5_LINK_CTL_PKT
    ensures var d := Arrive(r, e, stale);
      |d.hist.sent| > |r.hist.sent| && d.hist.sent[|d.hist.sent| - 1].acked == |d.hist.accepted|
  {
    if e.frame.seqNo != r.rxseqTxack {
      ArriveOutOfOrder(r, e, stale);
      WakeUpAnnounces(OweAck(r.(stale := stale)));
      WakeUpKept(OweAck(r.(stale := stale)));
    } else {
      var a := Accept(r.(stale := stale), e.frame);
      ArriveInOrder(r, e, stale);
      WakeUpAnnounces(a);
      WakeUpKept(a);
    }
  }

  /** The packet is not dropped. */
  predicate Taken(r: Cb, f: Frame) {
    f.rel ==> f.seqNo == r.rxseqTxack
  }

  /** A packet that is taken releases what it acknowledges, if that has not been taken back. */
  lemma ArriveReleases(s: Cb, r: Cb, read: nat, back: nat, stale: Stale)
    requires Both(s, r, read, back) && read < |s.hist.sent| && s.hist.sent[read].frame.kind != H5_LINK_CTL_PKT
    requires |s.hist.accepted| <= r.hist.released + |r.unack| && Taken(r, s.hist.sent[read].frame)
    ensures Arrive(r, s.hist.sent[read], stale).hist.released == s.hist.sent[read].acked
  {
    BeforeReleases(s, r, read, back, stale);
    ReleasesTo(r, s.hist.sent[read], stale);
  }

  lemma ReleasesTo(r: Cb, e: Sent, stale: Stale)
    requires Taken(r, e.frame) && e.frame.kind != H5_LINK_CTL_PKT
    requires var b := Before(r, e, stale);
      && Numbers(b) && e.frame.ackNo == e.acked % 8
      && b.hist.released <= e.acked <= b.hist.high && e.acked <= b.hist.released + |b.unack|
    ensures Arrive(r, e, stale).hist.released == e.acked
  {
    ArriveInOrder(r, e, stale);
    RemoveAckedReleases(SetRxack(Before(r, e, stale), e.frame.ackNo), e.acked);
  }

  lemma BeforeReleases(s: Cb, r: Cb, read: nat, back: nat, stale: Stale)
    requires Both(s, r, read, back) && read < |s.hist.sent| && Taken(r, s.hist.sent[read].frame)
    ensures var e, b := s.hist.sent[read], Before(r, s.hist.sent[read], stale);
      && Numbers(b) && b.hist.released == r.hist.released && Kept(r, b)
      && e.frame.ackNo == e.acked % 8 && b.hist.released <= e.acked <= |s.hist.accepted| <= b.hist.high
  {
    assert Entry(s.hist, s.hist.sent[read]);
    BeforeValid(r, s.hist.sent[read], stale);
  }

  lemma BeforeValid(r: Cb, e: Sent, stale: Stale)
    requires Valid(r) && Taken(r, e.frame)
    ensures var b := Before(r, e, stale);
      Valid(b) && Kept(r, b) && b.hist.released == r.hist.released && r.hist.high <= b.hist.high
  {
    if e.frame.rel {
      var a := Accept(r.(stale := stale), e.frame);
      AcceptValid(r.(stale := stale), e.frame);
      WakeUpValid(a);
      WakeUpKept(a);
      WakeUpQuiet(a);
    }
  }

  // ----- one direction of the line

  /** Where the record is followed from: its position, the index of the first reliable packet there, and how many the
      receiver had accepted at that moment. */
  datatype Mark = Mark(from: nat, base: nat, had: nat)

  function Most(x: nat, y: nat): nat {
    if x <= y then y else x
  }

  function Least(x: nat, y: nat): nat {
    if x <= y then x else y
  }

  /** s sends to r, who has read `read` packets of the record and has accepted all that came since the mark. */
  ghost predicate Way(s: Cb, r: Cb, read: nat, m: Mark) {
    && Tidy(s, m.from, m.base) && m.from <= read <= |s.hist.sent|
    && m.had <= s.hist.released + |s.unack|
    && |r.hist.accepted| == Most(NextIndex(s.hist.sent[..read], m.from, m.base), m.had)
  }

  lemma {:induction false} NextIndexGrows(sent: seq<Sent>, from: nat, base: nat, k: nat)
    requires from <= k <= |sent|
    ensures base <= NextIndex(sent[..k], from, base) <= NextIndex(sent, from, base)
    decreases |sent|
  {
    if k == |sent| {
      assert sent[..k] == sent;
      if k > from {
        NextIndexGrows(sent[..k - 1], from, base, from);
      }
    } else {
      assert sent[..|sent| - 1][..k] == sent[..k];
      NextIndexGrows(sent[..|sent| - 1], from, base, k);
    }
  }

  /** The receiver is not ahead of what the sender holds as unacknowledged. */
  lemma WithinReach(s: Cb, r: Cb, read: nat, m: Mark)
    requires Way(s, r, read, m)
    ensures |r.hist.accepted| <= s.hist.released + |s.unack|
  {
    NextIndexGrows(s.hist.sent, m.from, m.base, read);
  }

  /** Once everything has been read, everything that is unacknowledged has been accepted. */
  lemma AllRead(s: Cb, r: Cb, m: Mark)
    requires Way(s, r, |s.hist.sent|, m)
    ensures |r.hist.accepted| == s.hist.released + |s.unack|
    ensures Way(s, r, |s.hist.sent|, Mark(|s.hist.sent|, |r.hist.accepted|, 0))
  {
    assert s.hist.sent[..|s.hist.sent|] == s.hist.sent;
  }

  /** The number says whether the packet is the next one. */
  lemma TakenIsNext(s: Cb, r: Cb, read: nat, back: nat)
    requires Both(s, r, read, back) && read < |s.hist.sent|
    ensures var e := s.hist.sent[read]; Taken(r, e.frame) <==> e.frame.rel ==> e.index == |r.hist.accepted|
  {
    var e := s.hist.sent[read];
    assert Entry(s.hist, e);
    if e.frame.rel && e.frame.seqNo == r.rxseqTxack { AcceptedIsNext(s, r, read, back, read); }
  }

  /** What is read is accepted exactly if it is the next packet; then it has not been accepted before. */
  lemma ReadAccepts(s: Cb, r: Cb, read: nat, back: nat, m: Mark, stale: Stale)
    requires Both(s, r, read, back) && Way(s, r, read, m) && read < |s.hist.sent|
    ensures Way(s, Arrive(r, s.hist.sent[read], stale), read + 1, m)
    ensures Taken(r, s.hist.sent[read].frame) <==>
      s.hist.sent[read].frame.rel ==> NextIndex(s.hist.sent[..read], m.from, m.base) >= m.had
  {
    SequencePrefix(s.hist.sent, m.from, m.base, read);
    TakenIsNext(s, r, read, back);
    ArriveAccepts(r, s.hist.sent[read], stale);
  }

  /** The other direction goes on as it was. */
  lemma ReadKeepsWay(r: Cb, d: Cb, s: Cb, back: nat, k: Mark)
    requires Way(r, s, back, k) && Kept(r, d) && Tidy(d, k.from, k.base)
    ensures Way(d, s, back, k)
  {
    assert d.hist.sent[..back] == r.hist.sent[..back];
  }

  /** r reads one packet of s. */
  lemma ReadOne(s: Cb, r: Cb, read: nat, back: nat, m: Mark, k: Mark, stale: Stale)
    requires Both(s, r, read, back) && Way(s, r, read, m) && Way(r, s, back, k) && read < |s.hist.sent|
    ensures var d := Arrive(r, s.hist.sent[read], stale);
      Both(s, d, read + 1, back) && Way(s, d, read + 1, m) && Way(d, s, back, k) && Kept(r, d)
  {
    var e := s.hist.sent[read];
    ArriveFlow(s, r, read, back, read, stale);
    ReadAccepts(s, r, read, back, m, stale);
    ArriveTidy(r, e, stale, k.from, k.base);
    ReadKeepsWay(r, Arrive(r, e, stale), s, back, k);
  }

  // ----- both directions

  ghost predicate Linked(n: Net, m: Mark, k: Mark) {
    NetValid(n) && Way(n.a, n.b, n.bRead, m) && Way(n.b, n.a, n.aRead, k)
  }

  /** Everything in flight to a arrives, in order. */
  function DeliverBack(n: Net, stale: Stale): Net
    decreases |n.b.hist.sent| - n.aRead
  {
    if n.aRead < |n.b.hist.sent| then DeliverBack(NetApply(n, Deliver(A, n.aRead, stale)), stale) else n
  }

  /** b has answered after its first `before` packets, or has read nothing that needs an answer. */
  ghost predicate Told(n: Net, m: Mark, before: nat)
    requires m.from <= n.bRead <= |n.a.hist.sent|
  {
    var t := n.b.hist.sent;
    || NextIndex(n.a.hist.sent[..n.bRead], m.from, m.base) <= n.a.hist.released
    || (before < |t| && t[|t| - 1].acked == |n.b.hist.accepted|)
  }

  lemma ToldStep(n: Net, m: Mark, k: Mark, before: nat, stale: Stale)
    requires Linked(n, m, k) && Told(n, m, before) && before <= |n.b.hist.sent| && n.bRead < |n.a.hist.sent|
    ensures var d := NetApply(n, Deliver(B, n.bRead, stale));
      && Linked(d, m, k) && Told(d, m, before) && d.a == n.a && d.aRead == n.aRead && d.bRead == n.bRead + 1
      && Kept(n.b, d.b)
  {
    ReadOne(n.a, n.b, n.bRead, n.aRead, m, k, stale);
    ToldAfter(n, m, before, Arrive(n.b, n.a.hist.sent[n.bRead], stale), stale);
  }

  lemma ToldAfter(n: Net, m: Mark, before: nat, b: Cb, stale: Stale)
    requires m.from <= n.bRead < |n.a.hist.sent| && Tidy(n.a, m.from, m.base) && Queues(n.b)
    requires Told(n, m, before) && before <= |n.b.hist.sent| && b == Arrive(n.b, n.a.hist.sent[n.bRead], stale)
    ensures Told(Net(n.a, b, n.aRead, n.bRead + 1), m, before)
  {
    var e := n.a.hist.sent[n.bRead];
    SequencePrefix(n.a.hist.sent, m.from, m.base, n.bRead);
    if e.frame.rel {
      ArriveAnnounces(n.b, e, stale);
    } else {
      ArriveSame(n.b, e, stale);
    }
  }

  /** A packet that is not reliable is not answered. */
  lemma ArriveSame(r: Cb, e: Sent, stale: Stale)
    requires !e.frame.rel && e.frame.kind != H5_LINK_CTL_PKT
    ensures var d := Arrive(r, e, stale);
      d.hist.sent == r.hist.sent && d.hist.accepted == r.hist.accepted && d.rel == r.rel
  {
    ArriveInOrder(r, e, stale);
  }

  lemma {:induction false} DeliverRestTold(n: Net, m: Mark, k: Mark, before: nat, stale: Stale)
    requires Linked(n, m, k) && Told(n, m, before) && before <= |n.b.hist.sent|
    ensures var d := DeliverRest(n, stale);
      && Linked(d, m, k) && Told(d, m, before) && d.a == n.a && d.aRead == n.aRead && d.bRead == |n.a.hist.sent|
      && Kept(n.b, d.b)
    decreases |n.a.hist.sent| - n.bRead
  {
    if n.bRead < |n.a.hist.sent| {
      var d := NetApply(n, Deliver(B, n.bRead, stale));
      ToldStep(n, m, k, before, stale);
      DeliverRestTold(d, m, k, before, stale);
      KeptTwice(n.b, d.b, DeliverRest(d, stale).b);
    }
  }

  lemma BackStep(n: Net, m: Mark, k: Mark, stale: Stale)
    requires Linked(n, m, k) && n.aRead < |n.b.hist.sent|
    ensures var e, d := n.b.hist.sent[n.aRead], NetApply(n, Deliver(A, n.aRead, stale));
      && Linked(d, m, k) && d.b == n.b && d.aRead == n.aRead + 1 && d.bRead == n.bRead && Kept(n.a, d.a)
      && (NextIndex(n.b.hist.sent[..n.aRead], k.from, k.base) >= k.had ==> d.a.hist.released == e.acked)
  {
    var e := n.b.hist.sent[n.aRead];
    ReadOne(n.b, n.a, n.aRead, n.bRead, k, m, stale);
    ReadAccepts(n.b, n.a, n.aRead, n.bRead, k, stale);
    WithinReach(n.a, n.b, n.bRead, m);
    if Taken(n.a, e.frame) { ArriveReleases(n.b, n.a, n.aRead, n.bRead, stale); }
  }

  lemma {:induction false} DeliverBackLinked(n: Net, m: Mark, k: Mark, stale: Stale)
    requires Linked(n, m, k)
    ensures var d := DeliverBack(n, stale);
      Linked(d, m, k) && d.b == n.b && d.aRead == |n.b.hist.sent| && d.bRead == n.bRead && Kept(n.a, d.a)
    decreases |n.b.hist.sent| - n.aRead
  {
    if n.aRead < |n.b.hist.sent| {
      var d := NetApply(n, Deliver(A, n.aRead, stale));
      BackStep(n, m, k, stale);
      DeliverBackLinked(d, m, k, stale);
      KeptTwice(n.a, d.a, DeliverBack(d, stale).a);
      assert DeliverBack(n, stale) == DeliverBack(d, stale);
    }
  }

  lemma DeliverBackFirst(n: Net, stale: Stale)
    requires n.aRead < |n.b.hist.sent|
    ensures var d := NetApply(n, Deliver(A, n.aRead, stale));
      && DeliverBack(n, stale) == DeliverBack(d, stale)
      && (n.aRead + 1 == |n.b.hist.sent| ==> DeliverBack(d, stale) == d)
  {
  }

  lemma LastBack(n: Net, m: Mark, k: Mark, stale: Stale)
    requires Linked(n, m, k) && n.aRead + 1 == |n.b.hist.sent|
    requires NextIndex(n.b.hist.sent[..n.aRead], k.from, k.base) >= k.had
    ensures DeliverBack(n, stale).a.hist.released == n.b.hist.sent[n.aRead].acked
  {
    BackStep(n, m, k, stale);
    DeliverBackFirst(n, stale);
  }

  /** The last packet that comes back releases what it acknowledges. */
  lemma {:induction false} DeliverBackReleases(n: Net, m: Mark, k: Mark, last: nat, stale: Stale)
    requires Linked(n, m, k) && n.aRead <= last && last + 1 == |n.b.hist.sent|
    requires k.from <= last && NextIndex(n.b.hist.sent[..last], k.from, k.base) >= k.had
    ensures DeliverBack(n, stale).a.hist.released == n.b.hist.sent[last].acked
    decreases |n.b.hist.sent| - n.aRead
  {
    if n.aRead == last {
      LastBack(n, m, k, stale);
    } else {
      BackStep(n, m, k, stale);
      DeliverBackFirst(n, stale);
      DeliverBackReleases(NetApply(n, Deliver(A, n.aRead, stale)), m, k, last, stale);
    }
  }

  // ----- an exchange: nothing is lost, everything sent arrives

  /** Each side has read in sequence whatever it has read, and b has read nothing reliable that a has not released. */
  ghost predicate Smooth(n: Net) {
    exists m: Mark, k: Mark ::
      Linked(n, m, k) && NextIndex(n.a.hist.sent[..n.bRead], m.from, m.base) <= n.a.hist.released
  }

  function Settle(n: Net, stale: Stale): Net {
    DeliverBack(DeliverRest(n, stale), stale)
  }

  /** All that a has unacknowledged reaches b, and the acknowledgement comes back. */
  lemma Settles(n: Net, stale: Stale)
    requires Smooth(n)
    ensures var d := Settle(n, stale);
      && Smooth(d) && d.a.hist.released == n.a.hist.released + |n.a.unack|
      && d.a.window == n.a.window && d.a.hist.queued == n.a.hist.queued
  {
    var m: Mark, k: Mark :|
      Linked(n, m, k) && NextIndex(n.a.hist.sent[..n.bRead], m.from, m.base) <= n.a.hist.released;
    var c, d := DeliverRest(n, stale), Settle(n, stale);
    DeliverRestTold(n, m, k, |n.b.hist.sent|, stale);
    AllRead(c.a, c.b, m);
    var m' := Mark(|c.a.hist.sent|, |c.b.hist.accepted|, 0);
    DeliverBackLinked(c, m', k, stale);
    ComesBack(n, c, m, k, stale);
    SmoothFrom(d, m', k);
  }

  /** A line that is followed from where b has read, with all that released. */
  lemma SmoothFrom(d: Net, m: Mark, k: Mark)
    requires Linked(d, m, k) && m.from == d.bRead && m.base <= d.a.hist.released
    ensures Smooth(d)
  {
    assert NextIndex(d.a.hist.sent[..d.bRead], m.from, m.base) == m.base;
  }

  lemma ComesBack(n: Net, c: Net, m: Mark, k: Mark, stale: Stale)
    requires Linked(n, m, k) && Linked(c, m, k) && Told(c, m, |n.b.hist.sent|)
    requires c.a == n.a && c.bRead == |n.a.hist.sent| && c.aRead == n.aRead && Kept(n.b, c.b)
    ensures DeliverBack(c, stale).a.hist.released == n.a.hist.released + |n.a.unack|
  {
    var t := c.b.hist.sent;
    AllRead(c.a, c.b, m);
    if |n.b.hist.sent| < |t| && t[|t| - 1].acked == |c.b.hist.accepted| {
      AnswerReleases(n.b, c, m, k, stale);
    } else {
      NothingToTell(c, m, k, stale);
    }
  }

  /** What b has sent since is in sequence behind all that a had accepted, so its last answer counts. */
  lemma AnswerReleases(b: Cb, c: Net, m: Mark, k: Mark, stale: Stale)
    requires Linked(c, m, k) && c.aRead <= |b.hist.sent| < |c.b.hist.sent| && b.hist.sent <= c.b.hist.sent
    requires k.from <= |b.hist.sent| && NextIndex(b.hist.sent, k.from, k.base) >= k.had
    requires c.b.hist.sent[|c.b.hist.sent| - 1].acked == |c.b.hist.accepted|
    ensures DeliverBack(c, stale).a.hist.released == |c.b.hist.accepted|
  {
    var t, s := c.b.hist.sent, b.hist.sent;
    assert t[..|t| - 1][..|s|] == s;
    NextIndexGrows(t[..|t| - 1], k.from, k.base, |s|);
    DeliverBackReleases(c, m, k, |t| - 1, stale);
  }

  /** Nothing is unacknowledged, and nothing more can be released. */
  lemma NothingToTell(c: Net, m: Mark, k: Mark, stale: Stale)
    requires Linked(c, m, k) && |c.b.hist.accepted| == c.a.hist.released + |c.a.unack|
    requires c.bRead == |c.a.hist.sent|
    requires NextIndex(c.a.hist.sent[..c.bRead], m.from, m.base) <= c.a.hist.released
    ensures DeliverBack(c, stale).a.hist.released == c.a.hist.released + |c.a.unack|
  {
    assert c.a.hist.sent[..c.bRead] == c.a.hist.sent;
    DeliverBackLinked(c, m, k, stale);
  }

  /** Both sides wake up to send, and everything arrives. */
  function Exchange(n: Net, stale: Stale): Net {
    Settle(NetApply(NetApply(n, Local(A, StepWakeUp)), Local(B, StepWakeUp)), stale)
  }

  lemma ExchangeIs(n: Net, stale: Stale)
    ensures Exchange(n, stale) == Settle(Net(WakeUp(n.a), WakeUp(n.b), n.aRead, n.bRead), stale)
  {
  }

  lemma WakeUpWay(s: Cb, r: Cb, read: nat, m: Mark)
    requires Way(s, r, read, m) && Queues(r)
    ensures Way(WakeUp(s), WakeUp(r), read, m)
  {
    WakeUpTidy(s, m.from, m.base);
    WakeUpKept(s);
    WakeUpKept(r);
    assert WakeUp(s).hist.sent[..read] == s.hist.sent[..read];
  }

  lemma WakeUpFills(cb: Cb)
    requires Valid(cb)
    ensures |WakeUp(cb).unack| >= Least(cb.window, |cb.hist.queued| - cb.hist.released)
  {
    WakeUpDrains(cb);
    assert |cb.hist.queued[cb.hist.released..]| == |cb.unack + cb.rel|;
  }

  lemma WakeUpSmooth(n: Net)
    requires Smooth(n)
    ensures Smooth(Net(WakeUp(n.a), WakeUp(n.b), n.aRead, n.bRead))
  {
    var m: Mark, k: Mark :|
      Linked(n, m, k) && NextIndex(n.a.hist.sent[..n.bRead], m.from, m.base) <= n.a.hist.released;
    var w := Net(WakeUp(n.a), WakeUp(n.b), n.aRead, n.bRead);
    BothWakeUp(n);
    WakeUpWay(n.a, n.b, n.bRead, m);
    WakeUpWay(n.b, n.a, n.aRead, k);
    WakeUpKept(n.a);
    assert w.a.hist.sent[..n.bRead] == n.a.hist.sent[..n.bRead];
    assert Linked(w, m, k);
  }

  lemma WakeUpProgress(cb: Cb)
    requires Valid(cb)
    ensures var w := WakeUp(cb);
      && w.window == cb.window && w.hist.queued == cb.hist.queued && w.hist.released == cb.hist.released
      && |w.unack| >= Least(cb.window, |cb.hist.queued| - cb.hist.released)
  {
    WakeUpKept(cb);
    WakeUpFills(cb);
  }

  lemma ExchangeProgress(n: Net, stale: Stale)
    requires Smooth(n)
    ensures var d := Exchange(n, stale);
      && Smooth(d) && d.a.window == n.a.window && d.a.hist.queued == n.a.hist.queued
      && d.a.hist.released >=
           n.a.hist.released + Least(n.a.window, |n.a.hist.queued| - n.a.hist.released)
  {
    var w := Net(WakeUp(n.a), WakeUp(n.b), n.aRead, n.bRead);
    WakeUpSmooth(n);
    WakeUpProgress(n.a);
    Settles(w, stale);
    ExchangeIs(n, stale);
  }

  lemma BothWakeUp(n: Net)
    requires NetValid(n)
    ensures var w := Net(WakeUp(n.a), WakeUp(n.b), n.aRead, n.bRead);
      NetApply(NetApply(n, Local(A, StepWakeUp)), Local(B, StepWakeUp)) == w && NetValid(w)
  {
    NetApplyValid(n, Local(A, StepWakeUp));
    NetApplyValid(NetApply(n, Local(A, StepWakeUp)), Local(B, StepWakeUp));
  }

  function Iterate(f: Net -> Net, n: Net, count: nat): Net
    decreases count
  {
    if count == 0 then n else Iterate(f, f(n), count - 1)
  }

  lemma {:induction false} IterateCounts(f: Net -> Net, p: (Net, nat) -> bool, n: Net, count: nat)
    requires p(n, count) && forall x: Net, j: nat :: j > 0 && p(x, j) ==> p(f(x), j - 1)
    ensures p(Iterate(f, n, count), 0)
    decreases count
  {
    if count > 0 {
      IterateCounts(f, p, f(n), count - 1);
    }
  }

  function Exchanges(n: Net, count: nat, stale: Stale): Net {
    Iterate(x => Exchange(x, stale), n, count)
  }

  /** Everything queued has been accepted by the peer and released. */
  ghost predicate AllThrough(n: Net, queued: seq<Packet>) {
    && n.b.hist.accepted == queued == n.a.hist.queued && n.a.hist.released == |queued|
    && n.a.unack == [] && n.a.rel == []
  }

  /** At most `left` packets of the queue are not released, and exchanges make them fewer. */
  ghost predicate Within(n: Net, queued: seq<Packet>, left: nat) {
    && Smooth(n) && n.a.hist.queued == queued && |queued| <= n.a.hist.released + left
    && (n.a.window > 0 || |queued| <= n.a.hist.released)
  }

  lemma ExchangeWithin(n: Net, queued: seq<Packet>, left: nat, stale: Stale)
    requires Within(n, queued, left) && left > 0
    ensures Within(Exchange(n, stale), queued, left - 1)
  {
    ReleasedBound(n);
    ExchangeProgress(n, stale);
  }

  lemma ReleasedBound(n: Net)
    requires Smooth(n)
    ensures n.a.hist.released <= |n.a.hist.queued|
  {
  }

  lemma ExchangesFinish(n: Net, queued: seq<Packet>, count: nat, stale: Stale)
    requires Within(n, queued, count)
    ensures Within(Exchanges(n, count, stale), queued, 0)
  {
    var f := x => Exchange(x, stale);
    var p := (x: Net, j: nat) => Within(x, queued, j);
    forall x: Net, j: nat | j > 0 && p(x, j) ensures p(f(x), j - 1) {
      ExchangeWithin(x, queued, j, stale);
    }
    IterateCounts(f, p, n, count);
  }

  lemma Finished(n: Net, queued: seq<Packet>)
    requires Within(n, queued, 0)
    ensures AllThrough(n, queued)
  {
    ReleasedBound(n);
    assert |n.a.hist.queued[n.a.hist.released..]| == |n.a.unack + n.a.rel|;
  }

  // ----- the restart: everything in flight is lost, and each side makes a round

  /** The data timer fires, the retransmission thread makes its round, and the sender wakes up. */
  function Resend(cb: Cb): Cb {
    WakeUp(Retransfer(TimerFires(cb)))
  }

  /** The budget of rounds is not spent, and what is queued is plain. */
  ghost predicate Willing(cb: Cb) {
    (cb.unack != [] ==> cb.retransCount < 40) && Plain(cb, |cb.hist.sent|)
  }

  /** The peer has no more of the packets that s has not released than a window of them. */
  predicate InWindow(s: Cb, r: Cb) {
    |r.hist.accepted| <= s.hist.released + s.window
  }

  ghost predicate Resent(cb: Cb, r: Cb) {
    && Tidy(r, |cb.hist.sent|, cb.hist.released)
    && r.window == cb.window && r.hist.queued == cb.hist.queued && cb.hist.sent <= r.hist.sent
    && r.hist.released == cb.hist.released && r.hist.accepted == cb.hist.accepted
    && |r.unack| == Least(cb.window, |cb.unack| + |cb.rel|)
  }

  /** Nothing has been sent since, and nothing is unacknowledged: the sender starts afresh. */
  lemma StartsTidy(cb: Cb)
    requires Queues(cb) && Plain(cb, |cb.hist.sent|) && cb.unack == []
    ensures Tidy(cb, |cb.hist.sent|, cb.hist.released)
  {
  }

  lemma ResendStarts(cb: Cb, t: Cb)
    requires Queues(t) && Plain(t, |t.hist.sent|) && t.unack == [] && t.hist == cb.hist && t.window == cb.window
    requires |t.rel| == |cb.unack| + |cb.rel|
    ensures Resent(cb, WakeUp(t))
  {
    StartsTidy(t);
    WakeUpTidy(t, |t.hist.sent|, t.hist.released);
    WakeUpKept(t);
    WakeUpDrains(t);
  }

  /** Waking up again sends nothing more of the stream. */
  lemma ResendAgain(cb: Cb, r: Cb)
    requires Resent(cb, r) && |r.unack| + |r.rel| == |cb.unack| + |cb.rel|
    ensures Resent(cb, WakeUp(r))
  {
    WakeUpTidy(r, |cb.hist.sent|, cb.hist.released);
    WakeUpKept(r);
    WakeUpDrains(r);
  }

  lemma ResendIs(cb: Cb)
    requires Valid(cb) && Willing(cb)
    ensures Resent(cb, Resend(cb))
  {
    var t := TimerFires(cb);
    if t.rxEvent && t.retransCount < DATA_RETRANS_COUNT {
      TakeBackValid(t);
      ResendStarts(cb, TakeBack(t));
      WakeUpDrains(TakeBack(t));
      ResendAgain(cb, Retransfer(t));
    } else {
      ResendStarts(cb, Retransfer(t));
    }
  }

  function Restart(n: Net): Net {
    Net(Resend(n.a), Resend(n.b), |n.b.hist.sent|, |n.a.hist.sent|)
  }

  function Again(n: Net, side: Side): Net {
    NetApply(NetApply(NetApply(n, Local(side, StepTimer)), Local(side, StepRetransfer)), Local(side, StepWakeUp))
  }

  /** So it is six steps of the endpoints, after the loss of everything in flight. */
  lemma RestartIs(n: Net)
    ensures Restart(n) == Again(Again(n.(aRead := |n.b.hist.sent|, bRead := |n.a.hist.sent|), A), B)
  {
    AgainIs(n.(aRead := |n.b.hist.sent|, bRead := |n.a.hist.sent|), A);
  }

  lemma AgainIs(n: Net, side: Side)
    ensures Again(n, side) == if side == A then n.(a := Resend(n.a)) else n.(b := Resend(n.b))
  {
  }

  lemma RestartWay(s: Cb, r: Cb, s': Cb, r': Cb)
    requires Valid(s) && Resent(s, s') && r'.hist.accepted == r.hist.accepted
    requires s.hist.released <= |r.hist.accepted| <= s.hist.released + s.window
    requires |r.hist.accepted| <= |s.hist.queued|
    ensures Way(s', r', |s.hist.sent|, Mark(|s.hist.sent|, s.hist.released, |r.hist.accepted|))
  {
    assert |s.hist.queued[s.hist.released..]| == |s.unack + s.rel|;
  }

  lemma RestartValid(n: Net)
    requires NetValid(n)
    ensures NetValid(Restart(n))
  {
    var l := n.(aRead := |n.b.hist.sent|, bRead := |n.a.hist.sent|);
    LaterRead(n.a.hist, n.b.hist, n.bRead, n.aRead, l.bRead, l.aRead);
    LaterRead(n.b.hist, n.a.hist, n.aRead, n.bRead, l.aRead, l.bRead);
    AgainValid(l, A);
    AgainValid(Again(l, A), B);
    RestartIs(n);
  }

  lemma AgainValid(n: Net, side: Side)
    requires NetValid(n)
    ensures NetValid(Again(n, side))
  {
    NetApplyValid(n, Local(side, StepTimer));
    NetApplyValid(NetApply(n, Local(side, StepTimer)), Local(side, StepRetransfer));
    NetApplyValid(NetApply(NetApply(n, Local(side, StepTimer)), Local(side, StepRetransfer)), Local(side, StepWakeUp));
  }

  lemma RestartSmooth(n: Net)
    requires NetValid(n) && Willing(n.a) && Willing(n.b) && InWindow(n.a, n.b) && InWindow(n.b, n.a)
    ensures var r := Restart(n);
      && Smooth(r) && r.a.window == n.a.window
      && r.a.hist.queued == n.a.hist.queued && r.a.hist.released == n.a.hist.released
  {
    var r := Restart(n);
    var m := Mark(|n.a.hist.sent|, n.a.hist.released, |n.b.hist.accepted|);
    var k := Mark(|n.b.hist.sent|, n.b.hist.released, |n.a.hist.accepted|);
    ResendIs(n.a);
    ResendIs(n.b);
    RestartValid(n);
    RestartWay(n.a, n.b, r.a, r.b);
    RestartWay(n.b, n.a, r.b, r.a);
    SmoothFrom(r, m, k);
  }

  /** One round on each side after the loss of everything in flight, and then `count` wake-ups of both, all of it with
      no further loss. */
  function Recovery(n: Net, count: nat, stale: Stale): Net {
    Exchanges(Settle(Restart(n), stale), count, stale)
  }

  /** Go-back-N gets everything through, whatever has been lost before. */
  lemma Recovers(n: Net, count: nat, stale: Stale)
    requires NetValid(n) && Willing(n.a) && Willing(n.b) && InWindow(n.a, n.b) && InWindow(n.b, n.a)
    requires n.a.window > 0 || n.a.hist.released == |n.a.hist.queued|
    requires |n.a.hist.queued| <= n.a.hist.released + count
    ensures AllThrough(Recovery(n, count, stale), n.a.hist.queued)
  {
    RestartSmooth(n);
    Settles(Restart(n), stale);
    ExchangesFinish(Settle(Restart(n), stale), n.a.hist.queued, count, stale);
    Finished(Recovery(n, count, stale), n.a.hist.queued);
  }

  // ----- when it does not: the window has become smaller than what the peer has and the sender has not released

  /** What a sends lies below `have`, and so do all that it holds as unacknowledged; or it may send nothing. */
  ghost predicate Below(cb: Cb, from: nat, have: nat) {
    && Queues(cb) && Plain(cb, from) && |cb.unack| <= cb.window
    && (cb.hist.released + cb.window < have || cb.window == 0)
    && forall j :: from <= j < |cb.hist.sent| && cb.hist.sent[j].frame.rel ==> cb.hist.sent[j].index < have
  }

  lemma BelowReliable(cb: Cb, from: nat, have: nat)
    requires Below(cb, from, have) && cb.rel != [] && |cb.unack| < cb.window
    ensures Below(SendReliable(cb), from, have)
  {
    ReliableQueues(cb);
    assert Sendable(cb.rel[0], true);
  }

  lemma BelowUnreliable(cb: Cb, from: nat, have: nat)
    requires Below(cb, from, have) && cb.unrel != []
    ensures Below(SendUnreliable(cb), from, have)
  {
    UnreliableQueues(cb);
    PlainUnreliable(cb, from);
  }

  lemma BelowAck(cb: Cb, from: nat, have: nat)
    requires Below(cb, from, have)
    ensures Below(SendAck(cb), from, have)
  {
    PlainAck(cb, from);
  }

  lemma {:induction false} WakeUpBelow(cb: Cb, from: nat, have: nat)
    requires Below(cb, from, have)
    ensures Below(WakeUp(cb), from, have)
    decreases Work(cb)
  {
    if cb.unrel != [] {
      UnreliableTurn(cb);
      UnreliableQueues(cb);
      BelowUnreliable(cb, from, have);
      WakeUpBelow(SendUnreliable(cb), from, have);
    } else if Slots(cb) > 0 {
      ReliableTurn(cb);
      ReliableQueues(cb);
      BelowReliable(cb, from, have);
      WakeUpBelow(SendReliable(cb), from, have);
    } else {
      LastTurn(cb);
      BelowAck(cb, from, have);
    }
  }

  /** b has accepted `have` packets, and everything that it has sent since says so. */
  ghost predicate Insists(cb: Cb, from: nat, have: nat) {
    && Queues(cb) && Plain(cb, from) && |cb.hist.accepted| == have
    && forall j :: from <= j < |cb.hist.sent| ==> cb.hist.sent[j].acked == have
  }

  lemma WakeUpInsists(cb: Cb, from: nat, have: nat)
    requires Insists(cb, from, have)
    ensures Insists(WakeUp(cb), from, have)
  {
    WakeUpQueues(cb);
    WakeUpPlain(cb, from);
    WakeUpQuiet(cb);
  }

  ghost predicate StuckAt(n: Net, have: nat) {
    NetValid(n) && Below(n.a, n.bRead, have) && Insists(n.b, n.aRead, have)
  }

  ghost predicate Stuck(n: Net, released: nat) {
    n.a.hist.released == released && exists have: nat :: StuckAt(n, have)
  }

  /** b has it already. */
  lemma StillInsists(n: Net, have: nat, stale: Stale)
    requires NetValid(n) && Below(n.a, n.bRead, have) && Insists(n.b, n.aRead, have) && n.bRead < |n.a.hist.sent|
    ensures Insists(Arrive(n.b, n.a.hist.sent[n.bRead], stale), n.aRead, have)
  {
    var e := n.a.hist.sent[n.bRead];
    if e.frame.rel {
      if e.frame.seqNo == n.b.rxseqTxack { AcceptedIsNext(n.a, n.b, n.bRead, n.aRead, n.bRead); }
      ArriveOutOfOrder(n.b, e, stale);
      WakeUpInsists(OweAck(n.b.(stale := stale)), n.aRead, have);
    } else {
      ArriveSame(n.b, e, stale);
      ArriveQueues(n.b, e, stale);
    }
  }

  lemma StuckAtB(n: Net, released: nat, stale: Stale)
    requires Stuck(n, released) && n.bRead < |n.a.hist.sent|
    ensures Stuck(NetApply(n, Deliver(B, n.bRead, stale)), released)
  {
    var have: nat :| StuckAt(n, have);
    NetApplyValid(n, Deliver(B, n.bRead, stale));
    StillInsists(n, have, stale);
    assert StuckAt(NetApply(n, Deliver(B, n.bRead, stale)), have);
  }

  lemma ArriveQueues(r: Cb, e: Sent, stale: Stale)
    requires Queues(r) && !e.frame.rel && e.frame.kind != H5_LINK_CTL_PKT
    ensures Queues(Arrive(r, e, stale)) && Arrive(r, e, stale).unrel == r.unrel
  {
    ArriveInOrder(r, e, stale);
    RemoveAckedQueues(SetRxack(Before(r, e, stale), e.frame.ackNo));
  }

  /** The same queues and the same record. */
  predicate SameStream(c: Cb, d: Cb) {
    d.unack == c.unack && d.rel == c.rel && d.unrel == c.unrel && d.hist == c.hist && d.window == c.window
  }

  /** The acknowledgement is of packets that a has taken back and may not send. */
  lemma TakenBelow(n: Net, have: nat, stale: Stale)
    requires NetValid(n) && Below(n.a, n.bRead, have) && n.aRead < |n.b.hist.sent|
    requires var e := n.b.hist.sent[n.aRead];
      e.acked == have && e.frame.kind != H5_LINK_CTL_PKT && Taken(n.a, e.frame)
    ensures var d := Arrive(n.a, n.b.hist.sent[n.aRead], stale);
      Below(d, n.bRead, have) && d.hist.released == n.a.hist.released
  {
    var e := n.b.hist.sent[n.aRead];
    BeforeReleases(n.b, n.a, n.aRead, n.bRead, stale);
    BeforeBelow(n.a, e, stale, n.bRead, have);
    ArriveChangesNothing(n.a, e, stale, n.bRead, have);
    BelowSame(Before(n.a, e, stale), Arrive(n.a, e, stale), n.bRead, have);
  }

  lemma ArriveChangesNothing(r: Cb, e: Sent, stale: Stale, from: nat, have: nat)
    requires Taken(r, e.frame) && e.frame.kind != H5_LINK_CTL_PKT && e.acked == have
    requires var b := Before(r, e, stale);
      && Numbers(b) && Below(b, from, have)
      && e.frame.ackNo == e.acked % 8 && b.hist.released <= e.acked <= b.hist.high
    ensures SameStream(Before(r, e, stale), Arrive(r, e, stale))
  {
    ArriveInOrder(r, e, stale);
    NothingReleased(Before(r, e, stale), e, from, have);
  }

  lemma BelowSame(c: Cb, d: Cb, from: nat, have: nat)
    requires Below(c, from, have) && SameStream(c, d)
    ensures Below(d, from, have)
  {
  }

  lemma DroppedBelow(r: Cb, e: Sent, stale: Stale, from: nat, have: nat)
    requires Below(r, from, have) && !Taken(r, e.frame)
    ensures Below(Arrive(r, e, stale), from, have) && Arrive(r, e, stale).hist.released == r.hist.released
  {
    var c := OweAck(r.(stale := stale));
    ArriveOutOfOrder(r, e, stale);
    WakeUpBelow(c, from, have);
    WakeUpKept(c);
  }

  lemma StillBelow(n: Net, have: nat, stale: Stale)
    requires NetValid(n) && Below(n.a, n.bRead, have) && Insists(n.b, n.aRead, have) && n.aRead < |n.b.hist.sent|
    ensures var d := Arrive(n.a, n.b.hist.sent[n.aRead], stale);
      Below(d, n.bRead, have) && d.hist.released == n.a.hist.released
  {
    var e := n.b.hist.sent[n.aRead];
    if Taken(n.a, e.frame) {
      TakenBelow(n, have, stale);
    } else {
      DroppedBelow(n.a, e, stale, n.bRead, have);
    }
  }

  lemma StuckAtA(n: Net, released: nat, stale: Stale)
    requires Stuck(n, released) && n.aRead < |n.b.hist.sent|
    ensures Stuck(NetApply(n, Deliver(A, n.aRead, stale)), released)
  {
    var have: nat :| StuckAt(n, have);
    NetApplyValid(n, Deliver(A, n.aRead, stale));
    StillBelow(n, have, stale);
    assert StuckAt(NetApply(n, Deliver(A, n.aRead, stale)), have);
  }

  lemma BeforeBelow(r: Cb, e: Sent, stale: Stale, from: nat, have: nat)
    requires Below(r, from, have)
    ensures Below(Before(r, e, stale), from, have)
  {
    if e.frame.rel { WakeUpBelow(Accept(r.(stale := stale), e.frame), from, have); }
  }

  lemma NothingReleased(b: Cb, e: Sent, from: nat, have: nat)
    requires Numbers(b) && Below(b, from, have) && e.acked == have
    requires e.frame.ackNo == e.acked % 8 && b.hist.released <= e.acked <= b.hist.high
    ensures SameStream(b, RemoveAcked(SetRxack(b, e.frame.ackNo)))
  {
    var c := SetRxack(b, e.frame.ackNo);
    RemoveAckedReleases(c, e.acked);
    UnlinkNone(c);
    assert RemoveAcked(c).hist == Unlink(c, AckedCount(c.rxack, c.txseq, |c.unack|)).hist;
  }

  lemma UnlinkNone(c: Cb)
    ensures Unlink(c, 0) == c
  {
    assert c.unack[0..] == c.unack;
  }

  lemma {:induction false} StuckRest(n: Net, released: nat, stale: Stale)
    requires Stuck(n, released)
    ensures Stuck(DeliverRest(n, stale), released)
    decreases |n.a.hist.sent| - n.bRead
  {
    if n.bRead < |n.a.hist.sent| {
      StuckAtB(n, released, stale);
      StuckRest(NetApply(n, Deliver(B, n.bRead, stale)), released, stale);
    }
  }

  lemma {:induction false} StuckBack(n: Net, released: nat, stale: Stale)
    requires Stuck(n, released)
    ensures Stuck(DeliverBack(n, stale), released)
    decreases |n.b.hist.sent| - n.aRead
  {
    if n.aRead < |n.b.hist.sent| {
      StuckAtA(n, released, stale);
      StuckBack(NetApply(n, Deliver(A, n.aRead, stale)), released, stale);
    }
  }

  lemma StuckSettles(n: Net, released: nat, stale: Stale)
    requires Stuck(n, released)
    ensures Stuck(Settle(n, stale), released)
  {
    StuckRest(n, released, stale);
    StuckBack(DeliverRest(n, stale), released, stale);
  }

  lemma StuckWakes(n: Net, released: nat)
    requires Stuck(n, released)
    ensures Stuck(Net(WakeUp(n.a), WakeUp(n.b), n.aRead, n.bRead), released)
  {
    var have: nat :| StuckAt(n, have);
    BothWakeUp(n);
    WakeUpBelow(n.a, n.bRead, have);
    WakeUpKept(n.a);
    WakeUpInsists(n.b, n.aRead, have);
    assert StuckAt(Net(WakeUp(n.a), WakeUp(n.b), n.aRead, n.bRead), have);
  }

  lemma ExchangeStuck(n: Net, released: nat, stale: Stale)
    requires Stuck(n, released)
    ensures Stuck(Exchange(n, stale), released)
  {
    StuckWakes(n, released);
    StuckSettles(Net(WakeUp(n.a), WakeUp(n.b), n.aRead, n.bRead), released, stale);
    ExchangeIs(n, stale);
  }

  lemma StuckStays(n: Net, count: nat, released: nat, stale: Stale)
    requires Stuck(n, released)
    ensures Stuck(Exchanges(n, count, stale), released)
  {
    var f := x => Exchange(x, stale);
    var p := (x: Net, j: nat) => Stuck(x, released);
    forall x: Net, j: nat | j > 0 && p(x, j) ensures p(f(x), j - 1) {
      ExchangeStuck(x, released, stale);
    }
    IterateCounts(f, p, n, count);
  }

  lemma BelowStart(cb: Cb, have: nat)
    requires Queues(cb) && Plain(cb, |cb.hist.sent|) && cb.unack == []
    requires cb.hist.released + cb.window < have || cb.window == 0
    ensures Below(cb, |cb.hist.sent|, have)
  {
  }

  /** The retransmission thread leaves nothing unacknowledged but what it has sent again. */
  lemma RoundBelow(t: Cb, have: nat)
    requires Queues(t) && Plain(t, |t.hist.sent|) && (t.hist.released + t.window < have || t.window == 0)
    requires t.unack != [] ==> t.rxEvent && t.retransCount < 40
    ensures Below(Retransfer(t), |t.hist.sent|, have)
  {
    if t.rxEvent && t.retransCount < DATA_RETRANS_COUNT {
      BelowStart(TakeBack(t), have);
      WakeUpBelow(TakeBack(t), |t.hist.sent|, have);
    } else {
      BelowStart(Retransfer(t), have);
    }
  }

  lemma ResendBelow(cb: Cb, have: nat)
    requires Valid(cb) && Willing(cb) && (cb.hist.released + cb.window < have || cb.window == 0)
    ensures Below(Resend(cb), |cb.hist.sent|, have) && Resend(cb).hist.released == cb.hist.released
  {
    ResendIs(cb);
    RoundBelow(TimerFires(cb), have);
    WakeUpBelow(Retransfer(TimerFires(cb)), |cb.hist.sent|, have);
  }

  lemma ResendInsists(cb: Cb)
    requires Valid(cb) && Willing(cb)
    ensures Insists(Resend(cb), |cb.hist.sent|, |cb.hist.accepted|)
  {
    var t := TimerFires(cb);
    TakeBackValid(t);
    WakeUpInsists(TakeBack(t), |cb.hist.sent|, |cb.hist.accepted|);
    WakeUpInsists(Retransfer(t), |cb.hist.sent|, |cb.hist.accepted|);
  }

  lemma RestartStuck(n: Net)
    requires NetValid(n) && Willing(n.a) && Willing(n.b) && (!InWindow(n.a, n.b) || n.a.window == 0)
    ensures Stuck(Restart(n), n.a.hist.released)
  {
    RestartValid(n);
    ResendBelow(n.a, |n.b.hist.accepted|);
    ResendInsists(n.b);
    assert StuckAt(Restart(n), |n.b.hist.accepted|);
  }

  /** Recovery gets everything through exactly when the window is open, unless nothing is left to send, and not smaller
      than what the peer has and the sender has not released. With a smaller one, as a new configuration may bring,
      every acknowledgement is of packets that the sender has taken back and may not send, and no round is of use. */
  lemma RecoversExactly(n: Net, count: nat, stale: Stale)
    requires NetValid(n) && Willing(n.a) && Willing(n.b) && InWindow(n.b, n.a)
    requires |n.a.hist.queued| <= n.a.hist.released + count
    ensures AllThrough(Recovery(n, count, stale), n.a.hist.queued) <==>
      InWindow(n.a, n.b) && (n.a.window > 0 || n.a.hist.released == |n.a.hist.queued|)
  {
    if InWindow(n.a, n.b) && (n.a.window > 0 || n.a.hist.released == |n.a.hist.queued|) {
      Recovers(n, count, stale);
    } else {
      RestartStuck(n);
      StuckSettles(Restart(n), n.a.hist.released, stale);
      StuckStays(Settle(Restart(n), stale), count, n.a.hist.released, stale);
    }
  }
}
