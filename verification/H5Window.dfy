/** What every step of one H5 endpoint keeps: the sliding window, the numbering and the record of the run. */
module H5Window {
  import opened Bytes
  import opened H5Frame
  import opened H5Control

  // ----- the invariant

  ghost predicate Sendable(p: Packet, reliable: bool) {
    && |p.data| <= MAX_PAYLOAD
    && if reliable then ReliableKind(p.kind) else UnreliableKind(p.kind)
  }

  ghost predicate Queues(cb: Cb) {
    && (forall i :: 0 <= i < |cb.unack| ==> Sendable(cb.unack[i], true))
    && (forall i :: 0 <= i < |cb.rel| ==> Sendable(cb.rel[i], true))
    && (forall i :: 0 <= i < |cb.unrel| ==> Sendable(cb.unrel[i], false))
  }

  /** unack and rel hold the unreleased packets in order; both counters are the true counts modulo 8. */
  ghost predicate Numbers(cb: Cb) {
    && |cb.unack| <= 7
    && cb.hist.released + |cb.unack| <= cb.hist.high <= cb.hist.released + 7
    && cb.hist.high <= |cb.hist.queued|
    && cb.hist.queued[cb.hist.released..] == cb.unack + cb.rel
    && cb.txseq == (cb.hist.released + |cb.unack|) % 8
    && cb.rxseqTxack == |cb.hist.accepted| % 8
  }

  /** A frame on record carries the true counts modulo 8, and a reliable one the packet at its position; one that is not
      reliable is an acknowledgement, vendor specific or link control. */
  ghost predicate Entry(h: History, s: Sent) {
    && s.frame.Valid()
    && s.frame.ackNo == s.acked % 8 && s.acked <= |h.accepted|
    && s.high <= h.high
    && if s.frame.rel then
         && s.index < s.high <= s.index + 7 && s.index < |h.queued|
         && s.frame.seqNo == s.index % 8
         && h.queued[s.index] == Packet(s.frame.kind, s.frame.data)
       else
         s.frame.seqNo == 0 && (s.frame.kind == 0 || s.frame.kind == 14 || s.frame.kind == 15)
  }

  ghost predicate SentAt(h: History, k: nat, j: nat) {
    j < |h.sent| && h.sent[j].frame.rel && h.sent[j].index == k
  }

  ghost predicate WasSent(h: History, k: nat) {
    exists j: nat :: SentAt(h, k, j)
  }

  ghost predicate Log(h: History) {
    && (forall j :: 0 <= j < |h.sent| ==> Entry(h, h.sent[j]))
    && (forall i, j :: 0 <= i <= j < |h.sent| ==>
          h.sent[i].high <= h.sent[j].high && h.sent[i].acked <= h.sent[j].acked)
    && (forall k :: 0 <= k < h.high ==> WasSent(h, k))
  }

  /** An unacknowledged packet has a retransmission coming, or the retransmission budget is spent. */
  ghost predicate Timers(cb: Cb) {
    && cb.retransCount <= DATA_RETRANS_COUNT
    && (cb.unack != [] ==> cb.dataTimer || cb.rxEvent || cb.retransCount == DATA_RETRANS_COUNT)
  }

  ghost predicate Establishment(cb: Cb) {
    !cb.hist.wasActive ==> cb.link != Active && cb.window == 0 && cb.unack == [] && cb.hist.high == 0
  }

  ghost predicate Valid(cb: Cb) {
    Queues(cb) && Numbers(cb) && Log(cb.hist) && Timers(cb) && Establishment(cb)
  }

  // ----- the stream: q[r..] is u + l

  lemma StreamAppend(q: seq<Packet>, r: nat, u: seq<Packet>, l: seq<Packet>, p: Packet)
    requires r <= |q| && q[r..] == u + l
    ensures (q + [p])[r..] == u + (l + [p])
  {
    assert (q + [p])[r..] == q[r..] + [p];
  }

  lemma StreamDrop(q: seq<Packet>, r: nat, u: seq<Packet>, l: seq<Packet>, k: nat)
    requires r <= |q| && q[r..] == u + l && k <= |u|
    ensures q[r + k..] == u[k..] + l
  {
    assert q[r + k..] == q[r..][k..];
    assert (u + l)[k..] == u[k..] + l;
  }

  lemma StreamMove(q: seq<Packet>, r: nat, u: seq<Packet>, l: seq<Packet>)
    requires r <= |q| && q[r..] == u + l && l != []
    ensures q[r..] == (u + [l[0]]) + l[1..]
    ensures r + |u| < |q| && q[r + |u|] == l[0]
  {
    assert q[r + |u|] == q[r..][|u|];
    assert u + l == (u + [l[0]]) + l[1..];
  }

  // ----- the invariant's preservation, one step at a time

  lemma InitValid(stale: Stale)
    ensures Valid(Init(stale))
  {
  }

  /** Recording a frame keeps the log, when the frame tells the truth. */
  lemma LogAppend(h: History, s: Sent, h': History)
    requires Log(h)
    requires h'.sent == h.sent + [s] && h'.queued == h.queued && h'.accepted == h.accepted
    requires h'.high == s.high && h.high <= s.high && s.acked == |h.accepted|
    requires Entry(h', s)
    requires s.high == h.high || (s.high == h.high + 1 && s.frame.rel && s.index == h.high)
    ensures Log(h')
  {
    forall j | 0 <= j < |h'.sent| ensures Entry(h', h'.sent[j]) {
      if j < |h.sent| { assert Entry(h, h.sent[j]); }
    }
    forall i, j | 0 <= i <= j < |h'.sent|
      ensures h'.sent[i].high <= h'.sent[j].high && h'.sent[i].acked <= h'.sent[j].acked
    {
      if j == |h.sent| && i < j { assert Entry(h, h.sent[i]); }
    }
    forall k | 0 <= k < h'.high ensures WasSent(h', k) {
      if k < h.high {
        assert WasSent(h, k);
        var j: nat :| SentAt(h, k, j);
        assert SentAt(h', k, j);
      } else {
        assert SentAt(h', k, |h.sent|);
      }
    }
  }

  // One turn of the loop of h5_wake_up, by what is sent.

  function SendUnreliable(cb: Cb): Cb
    requires cb.unrel != []
  {
    Transmit(cb.(unrel := cb.unrel[1..], ackReq := false),
             Frame(false, 0, cb.rxseqTxack, cb.useCrc, cb.unrel[0].kind, cb.unrel[0].data))
  }

  function SendReliable(cb: Cb): Cb
    requires cb.rel != []
  {
    Transmit(cb.(rel := cb.rel[1..], unack := cb.unack + [cb.rel[0]], dataTimer := true,
                 txseq := (cb.txseq + 1) % 8, ackReq := false),
             Frame(true, cb.txseq, cb.rxseqTxack, cb.useCrc, cb.rel[0].kind, cb.rel[0].data))
  }

  function SendAck(cb: Cb): Cb {
    Transmit(cb.(ackReq := false), Frame(false, 0, cb.rxseqTxack, cb.useCrc, H5_ACK_PKT, []))
  }

  lemma DequeuesUnreliable(cb: Cb)
    requires cb.unrel != [] && UnreliableKind(cb.unrel[0].kind)
    ensures var (c, f) := Dequeue(cb);
      f.Some? && Transmit(c, f.value) == SendUnreliable(cb)
  {
  }

  lemma DequeuesReliable(cb: Cb)
    requires cb.unrel == [] && |cb.unack| < cb.window && cb.rel != [] && ReliableKind(cb.rel[0].kind)
    ensures var (c, f) := Dequeue(cb);
      f.Some? && Transmit(c, f.value) == SendReliable(cb)
  {
    assert Dequeue(cb) == DequeueReliable(cb);
  }

  lemma DequeuesAck(cb: Cb)
    requires cb.unrel == [] && (|cb.unack| >= cb.window || cb.rel == [])
    ensures var (c, f) := Dequeue(cb);
      if cb.ackReq then f.Some? && Transmit(c, f.value) == SendAck(cb) else f.None? && c == cb
  {
    assert Dequeue(cb) == DequeueAck(cb);
  }

  /** What h5_wake_up comes to when every queued packet has a type its queue may hold. */
  lemma WakeUpTurn(cb: Cb)
    requires Queues(cb)
    ensures WakeUp(cb) ==
      if cb.unrel != [] then WakeUp(SendUnreliable(cb))
      else if |cb.unack| < cb.window && cb.rel != [] then WakeUp(SendReliable(cb))
      else if cb.ackReq then WakeUp(SendAck(cb))
      else cb
  {
    if cb.unrel != [] {
      assert Sendable(cb.unrel[0], false);
      DequeuesUnreliable(cb);
    } else if |cb.unack| < cb.window && cb.rel != [] {
      assert Sendable(cb.rel[0], true);
      DequeuesReliable(cb);
    } else {
      DequeuesAck(cb);
    }
  }

  lemma Mod8(x: int, d: int)
    ensures (x % 8 + d) % 8 == (x + d) % 8
  {
  }

  lemma SendUnreliableValid(cb: Cb)
    requires Valid(cb) && cb.unrel != []
    ensures Valid(SendUnreliable(cb))
  {
    var t := SendUnreliable(cb);
    assert Sendable(cb.unrel[0], false);
    LogAppend(cb.hist, t.hist.sent[|cb.hist.sent|], t.hist);
  }

  lemma SendAckValid(cb: Cb)
    requires Valid(cb)
    ensures Valid(SendAck(cb))
  {
    var t := SendAck(cb);
    LogAppend(cb.hist, t.hist.sent[|cb.hist.sent|], t.hist);
  }

  lemma SendReliableNumbers(cb: Cb)
    requires Numbers(cb) && cb.rel != [] && |cb.unack| < cb.window
    ensures Numbers(SendReliable(cb))
  {
    StreamMove(cb.hist.queued, cb.hist.released, cb.unack, cb.rel);
    Mod8(cb.hist.released + |cb.unack|, 1);
  }

  lemma SendReliableLog(cb: Cb)
    requires Queues(cb) && Numbers(cb) && Log(cb.hist) && cb.rel != [] && |cb.unack| < cb.window
    ensures Log(SendReliable(cb).hist)
  {
    var t := SendReliable(cb);
    StreamMove(cb.hist.queued, cb.hist.released, cb.unack, cb.rel);
    assert Sendable(cb.rel[0], true);
    LogAppend(cb.hist, t.hist.sent[|cb.hist.sent|], t.hist);
  }

  lemma SendReliableValid(cb: Cb)
    requires Valid(cb) && cb.rel != [] && |cb.unack| < cb.window
    ensures Valid(SendReliable(cb))
  {
    SendReliableNumbers(cb);
    SendReliableLog(cb);
    assert Queues(SendReliable(cb)) by {
      assert Sendable(cb.rel[0], true);
    }
  }

  lemma UnreliableTurn(cb: Cb)
    requires Queues(cb) && cb.unrel != []
    ensures WakeUp(cb) == WakeUp(SendUnreliable(cb))
  {
    WakeUpTurn(cb);
  }

  lemma ReliableTurn(cb: Cb)
    requires Queues(cb) && cb.unrel == [] && |cb.unack| < cb.window && cb.rel != []
    ensures WakeUp(cb) == WakeUp(SendReliable(cb))
  {
    WakeUpTurn(cb);
  }

  lemma LastTurn(cb: Cb)
    requires Queues(cb) && cb.unrel == [] && (|cb.unack| >= cb.window || cb.rel == [])
    ensures WakeUp(cb) == if cb.ackReq then SendAck(cb) else cb
  {
    WakeUpTurn(cb);
    if cb.ackReq {
      WakeUpTurn(SendAck(cb));
    }
  }

  lemma {:induction false} WakeUpValid(cb: Cb)
    requires Valid(cb)
    ensures Valid(WakeUp(cb))
    decreases Work(cb)
  {
    if cb.unrel != [] {
      WakeUpTurn(cb);
      SendUnreliableValid(cb);
      WakeUpValid(SendUnreliable(cb));
    } else if |cb.unack| < cb.window && cb.rel != [] {
      WakeUpTurn(cb);
      SendReliableValid(cb);
      WakeUpValid(SendReliable(cb));
    } else {
      LastTurn(cb);
      SendAckValid(cb);
    }
  }

  lemma EnqueueReliableValid(cb: Cb, p: Packet)
    requires Valid(cb) && Sendable(p, true)
    ensures Valid(cb.(rel := cb.rel + [p], hist := cb.hist.(queued := cb.hist.queued + [p])))
  {
    StreamAppend(cb.hist.queued, cb.hist.released, cb.unack, cb.rel, p);
    EntriesKept(cb.hist, cb.hist.(queued := cb.hist.queued + [p]));
  }

  lemma EnqueueUnreliableValid(cb: Cb, p: Packet)
    requires Valid(cb) && Sendable(p, false)
    ensures Valid(cb.(unrel := cb.unrel + [p]))
  {
  }

  lemma EnqueueValid(cb: Cb, p: Packet)
    requires Valid(cb)
    ensures Valid(Enqueue(cb, p))
  {
    if |p.data| > MAX_PAYLOAD {
      assert Enqueue(cb, p) == cb;
    } else if p.kind == HCI_ACLDATA_PKT || p.kind == HCI_COMMAND_PKT {
      EnqueueReliableValid(cb, p);
    } else if UnreliableKind(p.kind) {
      EnqueueUnreliableValid(cb, p);
    } else {
      assert Enqueue(cb, p) == cb;
    }
  }

  /** The log stays true when queued and accepted only grow. */
  lemma EntriesKept(h: History, h': History)
    requires Log(h) && h'.sent == h.sent && h'.high == h.high
    requires h.queued <= h'.queued && h.accepted <= h'.accepted
    ensures Log(h')
  {
    forall j | 0 <= j < |h'.sent| ensures Entry(h', h'.sent[j]) {
      assert Entry(h, h.sent[j]);
    }
    forall k | 0 <= k < h'.high ensures WasSent(h', k) {
      assert WasSent(h, k);
      var j: nat :| SentAt(h, k, j);
      assert SentAt(h', k, j);
    }
  }

  // ----- acknowledgements

  /** Position base + i of the stream bears the number rxack. */
  predicate Numbered(base: nat, i: nat, rxack: Bits3) {
    (base + i) % 8 == rxack
  }

  lemma NumberedOnce(base: nat, i: nat, k: nat, rxack: Bits3)
    requires Numbered(base, i, rxack) && Numbered(base, k, rxack) && -8 < i - k < 8
    ensures i == k
  {
  }

  lemma Previous(x: nat)
    requires x > 0
    ensures (x % 8 + 7) % 8 == (x - 1) % 8
  {
  }

  /** What the backward search stops at bears the acknowledged number. */
  lemma {:induction false} AckedCountSound(rxack: Bits3, base: nat, n: nat)
    ensures var k := AckedCount(rxack, (base + n) % 8, n);
      k > 0 ==> Numbered(base, k, rxack)
  {
    if n > 0 && !Numbered(base, n, rxack) {
      Previous(base + n);
      AckedCountSound(rxack, base, n - 1);
    }
  }

  lemma {:induction false} AckedCountFinds(rxack: Bits3, base: nat, n: nat, i: nat)
    requires i <= n <= 7 && Numbered(base, i, rxack)
    ensures AckedCount(rxack, (base + n) % 8, n) == i
  {
    if i < n {
      if Numbered(base, n, rxack) {
        NumberedOnce(base, i, n, rxack);
      } else {
        Previous(base + n);
        AckedCountFinds(rxack, base, n - 1, i);
      }
    }
  }

  /** The backward search finds the one position whose number is the acknowledged one, and 0 if there is none. */
  lemma AckedCountExact(rxack: Bits3, base: nat, n: nat)
    requires n <= 7
    ensures var k := AckedCount(rxack, (base + n) % 8, n);
      && (forall i :: 0 <= i <= n && Numbered(base, i, rxack) ==> i == k)
      && (k == 0 || Numbered(base, k, rxack))
  {
    AckedCountSound(rxack, base, n);
    forall i | 0 <= i <= n && Numbered(base, i, rxack)
      ensures i == AckedCount(rxack, (base + n) % 8, n)
    {
      AckedCountFinds(rxack, base, n, i);
    }
  }

  lemma UnlinkNumbers(cb: Cb, k: nat)
    requires Numbers(cb) && k <= |cb.unack|
    ensures Numbers(Unlink(cb, k))
  {
    StreamDrop(cb.hist.queued, cb.hist.released, cb.unack, cb.rel, k);
  }

  lemma RemoveAckedNumbers(cb: Cb)
    requires Numbers(cb)
    ensures Numbers(RemoveAcked(cb))
  {
    UnlinkNumbers(cb, AckedCount(cb.rxack, cb.txseq, |cb.unack|));
  }

  lemma RemoveAckedQueues(cb: Cb)
    requires Queues(cb)
    ensures Queues(RemoveAcked(cb))
  {
  }

  lemma RemoveAckedValid(cb: Cb)
    requires Valid(cb)
    ensures Valid(RemoveAcked(cb))
  {
    RemoveAckedNumbers(cb);
    RemoveAckedQueues(cb);
    EntriesKept(cb.hist, RemoveAcked(cb).hist);
  }

  /** The search from an acknowledgement of the first `a` packets. */
  lemma AckedCountOf(base: nat, n: nat, a: nat)
    requires n <= 7 && base <= a <= base + 7
    ensures AckedCount(a % 8, (base + n) % 8, n) == if a <= base + n then a - base else 0
  {
    assert Numbered(base, a - base, a % 8);
    if a <= base + n {
      AckedCountFinds(a % 8, base, n, a - base);
    } else {
      AckedCountSound(a % 8, base, n);
      var k := AckedCount(a % 8, (base + n) % 8, n);
      if k > 0 {
        NumberedOnce(base, a - base, k, a % 8);
      }
    }
  }

  /** An acknowledgement of the first `a` packets releases exactly those, unless they were taken back meanwhile. */
  lemma RemoveAckedReleases(cb: Cb, a: nat)
    requires Numbers(cb)
    requires cb.rxack == a % 8 && cb.hist.released <= a <= cb.hist.high
    ensures RemoveAcked(cb).hist.released == if a <= cb.hist.released + |cb.unack| then a else cb.hist.released
  {
    AckedCountOf(cb.hist.released, |cb.unack|, a);
    assert RemoveAcked(cb).hist == Unlink(cb, AckedCount(cb.rxack, cb.txseq, |cb.unack|)).hist;
  }

  // ----- retransmission

  lemma TimerFiresValid(cb: Cb)
    requires Valid(cb)
    ensures Valid(TimerFires(cb))
  {
  }

  /** Taking n numbers back, one at a time, returns to the number before them. */
  lemma NumbersBack(x: nat, n: nat)
    ensures ((x + n) % 8 + 7 * n) % 8 == x % 8
  {
  }

  lemma NumbersOn(x: nat, n: nat, i: nat)
    ensures ((x + n) % 8 - n + i) % 8 == (x + i) % 8
  {
  }

  lemma RollbackNumbers(cb: Cb)
    requires Numbers(cb)
    ensures Numbers(Rollback(cb))
  {
    assert [] + (cb.unack + cb.rel) == cb.unack + cb.rel;
    NumbersBack(cb.hist.released, |cb.unack|);
  }

  lemma TakeBackValid(cb: Cb)
    requires Valid(cb)
    ensures Valid(TakeBack(cb))
  {
    if cb.retransCount < DATA_RETRANS_COUNT {
      RollbackNumbers(cb);
    }
  }

  lemma RetransferValid(cb: Cb)
    requires Valid(cb)
    ensures Valid(Retransfer(cb))
  {
    TakeBackValid(cb);
    WakeUpValid(TakeBack(cb));
  }

  // ----- link control and reception

  lemma SendControlValid(cb: Cb, data: seq<byte>)
    requires Valid(cb)
    ensures Valid(SendControl(cb, data))
  {
    EnqueueValid(cb, Packet(H5_LINK_CTL_PKT, data));
    WakeUpValid(Enqueue(cb, Packet(H5_LINK_CTL_PKT, data)));
  }

  lemma ConfigureValid(cb: Cb, cfg: byte)
    requires Valid(cb)
    ensures Valid(Configure(cb, cfg))
  {
    EntriesKept(cb.hist, Configure(cb, cfg).hist);
  }

  lemma SetLinkValid(cb: Cb, link: LinkState)
    requires Valid(cb) && link != Active
    ensures Valid(SetLink(cb, link))
  {
    SameButReceived(cb, SetLink(cb, link));
  }

  lemma ResyncValid(cb: Cb)
    requires Valid(cb)
    ensures Valid(SendControl(SetLink(SendControl(cb, SYNC_RESP), Uninitialized), SYNC))
  {
    SendControlValid(cb, SYNC_RESP);
    SetLinkValid(SendControl(cb, SYNC_RESP), Uninitialized);
    SendControlValid(SetLink(SendControl(cb, SYNC_RESP), Uninitialized), SYNC);
  }

  lemma ProcessControlValid(cb: Cb, v: seq<byte>)
    requires Valid(cb) && |v| == 3
    ensures Valid(ProcessControl(cb, v))
  {
    match cb.link
    case Uninitialized => UninitializedValid(cb, v);
    case Initialized => InitializedValid(cb, v);
    case Active => ActiveValid(cb, v);
  }

  lemma UninitializedValid(cb: Cb, v: seq<byte>)
    requires Valid(cb) && |v| == 3
    ensures Valid(ControlUninitialized(cb, v))
  {
    SendControlValid(cb, SYNC_RESP);
    SetLinkValid(cb, Initialized);
    SendControlValid(SetLink(cb, Initialized), CONF);
  }

  lemma InitializedValid(cb: Cb, v: seq<byte>)
    requires Valid(cb) && |v| == 3
    ensures Valid(ControlInitialized(cb, v))
  {
    SendControlValid(cb, SYNC_RESP);
    SendControlValid(cb, CONF_RESP);
    ConfigureValid(cb, v[2]);
  }

  lemma ActiveValid(cb: Cb, v: seq<byte>)
    requires Valid(cb) && |v| == 3
    ensures Valid(ControlActive(cb, v))
  {
    ResyncValid(cb);
    SendControlValid(cb, CONF_RESP);
  }

  lemma AcceptValid(cb: Cb, f: Frame)
    requires Valid(cb) && f.seqNo == cb.rxseqTxack
    ensures Valid(Accept(cb, f))
  {
    Mod8(|cb.hist.accepted|, 1);
    EntriesKept(cb.hist, Accept(cb, f).hist);
  }

  lemma SameButReceived(c: Cb, d: Cb)
    requires Valid(c) && d == c.(rxack := d.rxack, recvData := d.recvData, link := d.link)
    requires d.link == Active ==> c.link == Active
    ensures Valid(d)
  {
  }

  lemma PassUpValid(cb: Cb, f: Frame, v: seq<byte>)
    requires Valid(cb) && |v| == 3
    ensures Valid(PassUp(cb, f, v))
  {
    ProcessControlValid(cb, v);
    SameButReceived(cb, cb.(recvData := cb.recvData + [Packet(f.kind, f.data)]));
  }

  lemma CompleteValid(cb: Cb, f: Frame, rest: seq<byte>)
    requires Valid(cb)
    requires f.rel ==> f.seqNo == cb.rxseqTxack
    ensures Valid(Complete(cb, f, rest))
  {
    if f.rel {
      AcceptValid(cb, f);
      WakeUpValid(Accept(cb, f));
    }
    var c := if f.rel then WakeUp(Accept(cb, f)) else cb;
    SameButReceived(c, c.(rxack := f.ackNo));
    RemoveAckedValid(c.(rxack := f.ackNo));
    PassUpValid(RemoveAcked(c.(rxack := f.ackNo)), f, ControlBytes(rest, cb.stale));
  }

  lemma ReceiveValid(cb: Cb, f: Frame, rest: seq<byte>)
    requires Valid(cb)
    ensures Valid(Receive(cb, f, rest))
  {
    if f.rel && f.seqNo != cb.rxseqTxack {
      WakeUpValid(cb.(ackReq := true));
    } else {
      CompleteValid(cb, f, rest);
    }
  }

  // ----- whole runs

  /** Everything that can happen to an endpoint; the peer's frames are arbitrary. */
  datatype Step =
    | StepEnqueue(p: Packet)
    | StepWakeUp
    | StepReceive(f: Frame, rest: seq<byte>)
    | StepTimer
    | StepTakeBack     // the first half of a retransmission round; StepWakeUp is the second
    | StepRetransfer   // both halves at once

  function Apply(cb: Cb, s: Step): Cb {
    match s
    case StepEnqueue(p) => Enqueue(cb, p)
    case StepWakeUp => WakeUp(cb)
    case StepReceive(f, rest) => Receive(cb, f, rest)
    case StepTimer => TimerFires(cb)
    case StepTakeBack => if cb.rxEvent then TakeBack(cb) else cb
    case StepRetransfer => Retransfer(cb)
  }

  function Run(cb: Cb, steps: seq<Step>): Cb
    decreases |steps|
  {
    if steps == [] then cb else Run(Apply(cb, steps[0]), steps[1..])
  }

  lemma ApplyValid(cb: Cb, s: Step)
    requires Valid(cb)
    ensures Valid(Apply(cb, s))
  {
    match s
    case StepEnqueue(p) => EnqueueValid(cb, p);
    case StepWakeUp => WakeUpValid(cb);
    case StepReceive(f, rest) => ReceiveValid(cb, f, rest);
    case StepTimer => TimerFiresValid(cb);
    case StepTakeBack => TakeBackValid(cb);
    case StepRetransfer => RetransferValid(cb);
  }

  lemma {:induction false} RunValid(cb: Cb, steps: seq<Step>)
    requires Valid(cb)
    ensures Valid(Run(cb, steps))
    decreases |steps|
  {
    if steps != [] {
      ApplyValid(cb, steps[0]);
      RunValid(Apply(cb, steps[0]), steps[1..]);
    }
  }

  // ----- what the invariant says

  /** The i-th unacknowledged packet is on record under number txseq - |unack| + i, counted modulo 8. */
  lemma UnackNumbering(cb: Cb, i: nat)
    requires Valid(cb) && i < |cb.unack|
    ensures exists j: nat ::
      && SentAt(cb.hist, cb.hist.released + i, j)
      && cb.hist.sent[j].frame.seqNo == (cb.txseq - |cb.unack| + i) % 8
      && Packet(cb.hist.sent[j].frame.kind, cb.hist.sent[j].frame.data) == cb.unack[i]
  {
    assert WasSent(cb.hist, cb.hist.released + i);
    var j: nat :| SentAt(cb.hist, cb.hist.released + i, j);
    assert Entry(cb.hist, cb.hist.sent[j]);
    assert cb.unack[i] == cb.hist.queued[cb.hist.released..][i];
    NumbersOn(cb.hist.released, |cb.unack|, i);
  }

  /** Before the link has been ACTIVE no reliable packet goes out: the window starts at zero. */
  lemma NothingReliableBeforeActive(stale: Stale, steps: seq<Step>, j: nat)
    requires var cb := Run(Init(stale), steps); !cb.hist.wasActive && j < |cb.hist.sent|
    ensures !Run(Init(stale), steps).hist.sent[j].frame.rel
  {
    InitValid(stale);
    RunValid(Init(stale), steps);
    assert Entry(Run(Init(stale), steps).hist, Run(Init(stale), steps).hist.sent[j]);
  }

  /** Retransmission never silently stalls, and never takes more than its budget of rounds. */
  lemma NeverStalls(stale: Stale, steps: seq<Step>)
    ensures var cb := Run(Init(stale), steps);
      && cb.retransCount <= 40
      && (cb.unack != [] ==> cb.dataTimer || cb.rxEvent || cb.retransCount == 40)
  {
    InitValid(stale);
    RunValid(Init(stale), steps);
  }

  // ----- one wake-up in closed form

  function Frames(sent: seq<Sent>): seq<Frame> {
    seq(|sent|, i requires 0 <= i < |sent| => sent[i].frame)
  }

  /** How many reliable packets the window lets out. */
  function Slots(cb: Cb): (k: nat)
    ensures k <= |cb.rel|
  {
    if cb.window <= |cb.unack| then 0
    else if cb.window - |cb.unack| <= |cb.rel| then cb.window - |cb.unack| else |cb.rel|
  }

  function UnreliableFrames(cb: Cb): seq<Frame> {
    seq(|cb.unrel|, i requires 0 <= i < |cb.unrel| =>
      Frame(false, 0, cb.rxseqTxack, cb.useCrc, cb.unrel[i].kind, cb.unrel[i].data))
  }

  function ReliableFrame(cb: Cb, i: nat): Frame
    requires i < |cb.rel|
  {
    Frame(true, (cb.txseq + i) % 8, cb.rxseqTxack, cb.useCrc, cb.rel[i].kind, cb.rel[i].data)
  }

  lemma ReliableLater(cb: Cb, i: nat)
    requires i + 1 < |cb.rel|
    ensures ReliableFrame(cb, i + 1) == ReliableFrame(SendReliable(cb), i)
  {
    Mod8(cb.txseq + 1, i);
    assert cb.rel[i + 1] == SendReliable(cb).rel[i];
  }

  function ReliableFrames(cb: Cb): seq<Frame> {
    seq(Slots(cb), i requires 0 <= i < |cb.rel| => ReliableFrame(cb, i))
  }

  /** All unreliable packets in order, then as many reliable ones as fit, numbered onwards;
      a bare acknowledgement only when nothing else carries it. */
  function Burst(cb: Cb): seq<Frame> {
    UnreliableFrames(cb) + ReliableFrames(cb) +
      if cb.ackReq && cb.unrel == [] && Slots(cb) == 0
      then [Frame(false, 0, cb.rxseqTxack, cb.useCrc, H5_ACK_PKT, [])] else []
  }

  ghost predicate Drained(cb: Cb, w: Cb) {
    var k := Slots(cb);
    && w.unrel == [] && !w.ackReq
    && w.unack == cb.unack + cb.rel[..k] && w.rel == cb.rel[k..]
    && w.txseq == (cb.txseq + k) % 8
    && Frames(w.hist.sent) == Frames(cb.hist.sent) + Burst(cb)
    && w.rxseqTxack == cb.rxseqTxack && w.window == cb.window && w.useCrc == cb.useCrc
    && w.hist.released == cb.hist.released
  }

  lemma BurstUnreliable(cb: Cb)
    requires cb.unrel != []
    ensures var c := SendUnreliable(cb);
      && Slots(c) == Slots(cb)
      && Burst(cb) == [c.hist.sent[|cb.hist.sent|].frame] + Burst(c)
  {
    var c := SendUnreliable(cb);
    assert UnreliableFrames(cb) == [c.hist.sent[|cb.hist.sent|].frame] + UnreliableFrames(c);
    assert ReliableFrames(cb) == ReliableFrames(c);
  }

  lemma BurstReliable(cb: Cb)
    requires cb.unrel == [] && cb.rel != [] && |cb.unack| < cb.window
    ensures var c := SendReliable(cb);
      && Slots(c) == Slots(cb) - 1
      && Burst(cb) == [c.hist.sent[|cb.hist.sent|].frame] + Burst(c)
  {
    ReliableOneLess(cb);
    assert UnreliableFrames(cb) == UnreliableFrames(SendReliable(cb)) == [];
  }

  lemma ReliableOneLess(cb: Cb)
    requires cb.rel != [] && |cb.unack| < cb.window
    ensures var c := SendReliable(cb);
      && Slots(c) == Slots(cb) - 1
      && ReliableFrames(cb) == [c.hist.sent[|cb.hist.sent|].frame] + ReliableFrames(c)
  {
    var c := SendReliable(cb);
    assert Slots(c) == Slots(cb) - 1;
    assert c.hist.sent[|cb.hist.sent|].frame == ReliableFrame(cb, 0);
    forall i | 0 <= i < Slots(c) ensures ReliableFrames(cb)[i + 1] == ReliableFrames(c)[i] {
      ReliableLater(cb, i);
    }
  }

  lemma FramesAppend(a: seq<Sent>, s: Sent, rest: seq<Frame>, b: seq<Frame>)
    requires b == [s.frame] + rest
    ensures Frames(a + [s]) + rest == Frames(a) + b
  {
    assert Frames(a + [s]) == Frames(a) + [s.frame];
  }

  lemma DrainUnreliable(cb: Cb, w: Cb)
    requires cb.unrel != [] && Drained(SendUnreliable(cb), w)
    ensures Drained(cb, w)
  {
    var c := SendUnreliable(cb);
    BurstUnreliable(cb);
    FramesAppend(cb.hist.sent, c.hist.sent[|cb.hist.sent|], Burst(c), Burst(cb));
  }

  lemma DrainReliable(cb: Cb, w: Cb)
    requires cb.unrel == [] && cb.rel != [] && |cb.unack| < cb.window && Drained(SendReliable(cb), w)
    ensures Drained(cb, w)
  {
    var c := SendReliable(cb);
    BurstReliable(cb);
    FramesAppend(cb.hist.sent, c.hist.sent[|cb.hist.sent|], Burst(c), Burst(cb));
    MoveOn(cb.unack, cb.rel, Slots(c));
    Mod8(cb.txseq + 1, Slots(c));
  }

  lemma MoveOn(u: seq<Packet>, l: seq<Packet>, k: nat)
    requires k < |l|
    ensures (u + [l[0]]) + l[1..][..k] == u + l[..k + 1] && l[1..][k..] == l[k + 1..]
  {
  }

  lemma DrainAck(cb: Cb)
    requires cb.unrel == [] && Slots(cb) == 0
    ensures Drained(cb, if cb.ackReq then SendAck(cb) else cb)
  {
    assert cb.unack + cb.rel[..0] == cb.unack;
    assert UnreliableFrames(cb) == [] && ReliableFrames(cb) == [];
    if cb.ackReq {
      assert Frames(SendAck(cb).hist.sent) == Frames(cb.hist.sent) + Burst(cb);
    } else {
      assert Burst(cb) == [];
    }
  }

  /** h5_wake_up ends with nothing unreliable queued, no acknowledgement owed, and rel empty or the window full. */
  lemma {:induction false} WakeUpDrains(cb: Cb)
    requires Queues(cb)
    ensures Drained(cb, WakeUp(cb))
    decreases Work(cb)
  {
    if cb.unrel != [] {
      UnreliableTurn(cb);
      UnreliableQueues(cb);
      WakeUpDrains(SendUnreliable(cb));
      DrainUnreliable(cb, WakeUp(cb));
    } else if Slots(cb) > 0 {
      ReliableTurn(cb);
      ReliableQueues(cb);
      WakeUpDrains(SendReliable(cb));
      DrainReliable(cb, WakeUp(cb));
    } else {
      LastTurn(cb);
      DrainAck(cb);
    }
  }

  lemma UnreliableQueues(cb: Cb)
    requires Queues(cb) && cb.unrel != []
    ensures Queues(SendUnreliable(cb)) && Work(SendUnreliable(cb)) < Work(cb)
  {
  }

  lemma ReliableQueues(cb: Cb)
    requires Queues(cb) && cb.rel != []
    ensures Queues(SendReliable(cb)) && Work(SendReliable(cb)) < Work(cb)
  {
    assert Sendable(cb.rel[0], true);
  }

  lemma {:induction false} WakeUpQueues(cb: Cb)
    requires Queues(cb)
    ensures Queues(WakeUp(cb)) && WakeUp(cb).hist.queued == cb.hist.queued
    decreases Work(cb)
  {
    if cb.unrel != [] {
      UnreliableTurn(cb);
      UnreliableQueues(cb);
      WakeUpQueues(SendUnreliable(cb));
    } else if Slots(cb) > 0 {
      ReliableTurn(cb);
      ReliableQueues(cb);
      WakeUpQueues(SendReliable(cb));
    } else {
      LastTurn(cb);
    }
  }

  /** Retransmission keeps the stream as it is and sends what fits the window of it, the unacknowledged packets first:
      all of them, unless the window has been renegotiated to less. */
  lemma RetransferRestores(cb: Cb)
    requires Valid(cb) && cb.rxEvent && cb.retransCount < 40
    ensures var r, stream, k := Retransfer(cb), cb.unack + cb.rel, Slots(TakeBack(cb));
      && k == (if cb.window <= |stream| then cb.window else |stream|)
      && r.unack == stream[..k] && r.rel == stream[k..]
      && (|cb.unack| <= cb.window ==> cb.unack <= r.unack)
      && Frames(r.hist.sent) == Frames(cb.hist.sent) + Burst(TakeBack(cb))
  {
    var t := TakeBack(cb);
    TakeBackValid(cb);
    WakeUpDrains(t);
    Refill(cb.unack, cb.rel, Slots(t));
  }

  lemma Refill(u: seq<Packet>, l: seq<Packet>, k: nat)
    requires k <= |u + l|
    ensures [] + (u + l)[..k] == (u + l)[..k] && (|u| <= k ==> u <= (u + l)[..k])
  {
  }

  /** The i-th packet sent in a round goes out under the number that it had, or, if it is a new one, the next. */
  lemma RetransferRenumbers(cb: Cb, i: nat)
    requires Valid(cb) && cb.rxEvent && cb.retransCount < 40
    requires i < Slots(TakeBack(cb))
    ensures var b, p := Burst(TakeBack(cb)), (cb.unack + cb.rel)[i];
      && |cb.unrel| + i < |b|
      && b[|cb.unrel| + i] == Frame(true, (cb.txseq - |cb.unack| + i) % 8, cb.rxseqTxack, cb.useCrc, p.kind, p.data)
  {
    BurstAt(TakeBack(cb), i);
    BackAndOn(cb, i);
  }

  lemma BurstAt(t: Cb, i: nat)
    requires i < Slots(t)
    ensures |t.unrel| + i < |Burst(t)| && Burst(t)[|t.unrel| + i] == ReliableFrame(t, i)
  {
    assert Burst(t)[|t.unrel| + i] == ReliableFrames(t)[i];
  }

  /** The number taken back, and on by i. */
  lemma BackAndOn(cb: Cb, i: nat)
    requires Numbers(cb)
    ensures ((cb.txseq + 7 * |cb.unack|) % 8 + i) % 8 == (cb.txseq - |cb.unack| + i) % 8
  {
    NumbersBack(cb.hist.released, |cb.unack|);
    NumbersOn(cb.hist.released, |cb.unack|, i);
    Mod8(cb.hist.released, i);
  }

  // ----- how many rounds

  /** The retransmission thread takes packets back at this step. */
  predicate Round(cb: Cb, s: Step) {
    (s.StepRetransfer? || s.StepTakeBack?) && cb.rxEvent && cb.retransCount < 40
  }

  function Rounds(cb: Cb, steps: seq<Step>): nat
    decreases |steps|
  {
    if steps == [] then 0 else (if Round(cb, steps[0]) then 1 else 0) + Rounds(Apply(cb, steps[0]), steps[1..])
  }

  /** The control block in h5_remove_acked_pkt when f has come in. */
  function Acknowledge(cb: Cb, f: Frame): Cb {
    RemoveAcked(SetRxack(if f.rel then WakeUp(Accept(cb, f)) else cb, f.ackNo))
  }

  /** The packet is not dropped as out of order, and its acknowledgement leaves nothing unacknowledged. */
  predicate AllAcknowledged(cb: Cb, s: Step) {
    s.StepReceive? && (s.f.rel ==> s.f.seqNo == cb.rxseqTxack) && Acknowledge(cb, s.f).unack == []
  }

  predicate NeverAllAcknowledged(cb: Cb, steps: seq<Step>)
    decreases |steps|
  {
    steps == [] || (!AllAcknowledged(cb, steps[0]) && NeverAllAcknowledged(Apply(cb, steps[0]), steps[1..]))
  }

  lemma {:induction false} WakeUpKeepsCount(cb: Cb)
    ensures WakeUp(cb).retransCount == cb.retransCount
    decreases Work(cb)
  {
    DequeueKeepsCount(cb);
    var (c, f) := Dequeue(cb);
    if f.Some? { WakeUpKeepsCount(Transmit(c, f.value)); }
  }

  lemma DequeueKeepsCount(cb: Cb)
    ensures Dequeue(cb).0.retransCount == cb.retransCount
  {
    UnreliableKeepsCount(cb);
    ReliableKeepsCount(cb);
  }

  lemma UnreliableKeepsCount(cb: Cb)
    ensures DequeueUnreliable(cb).0.retransCount == DequeueAck(cb).0.retransCount == cb.retransCount
  {
  }

  lemma ReliableKeepsCount(cb: Cb)
    ensures DequeueReliable(cb).0.retransCount == cb.retransCount
  {
  }

  lemma ControlKeepsCount(cb: Cb, v: seq<byte>)
    requires |v| == 3
    ensures ProcessControl(cb, v).retransCount == cb.retransCount
  {
    SendKeepsCount(cb, SYNC_RESP);
    match cb.link
    case Uninitialized => SendKeepsCount(SetLink(cb, Initialized), CONF);
    case Initialized =>
      SendKeepsCount(cb, CONF_RESP);
      ConfigureKeepsCount(cb, v[2]);
    case Active =>
      SendKeepsCount(SetLink(SendControl(cb, SYNC_RESP), Uninitialized), SYNC);
      SendKeepsCount(cb, CONF_RESP);
  }

  lemma SendKeepsCount(cb: Cb, data: seq<byte>)
    ensures SendControl(cb, data).retransCount == cb.retransCount
  {
    var e := Enqueue(cb, Packet(H5_LINK_CTL_PKT, data));
    assert e.retransCount == cb.retransCount;
    WakeUpKeepsCount(e);
  }

  lemma ConfigureKeepsCount(cb: Cb, cfg: byte)
    ensures Configure(cb, cfg).retransCount == cb.retransCount
  {
  }

  lemma AcknowledgeCount(cb: Cb, f: Frame)
    ensures Acknowledge(cb, f).retransCount == if Acknowledge(cb, f).unack == [] then 0 else cb.retransCount
  {
    if f.rel { WakeUpKeepsCount(Accept(cb, f)); }
  }

  /** An arrival starts the count afresh exactly when it leaves nothing unacknowledged; any other leaves it alone. */
  lemma ReceiveCount(cb: Cb, f: Frame, rest: seq<byte>)
    ensures Receive(cb, f, rest).retransCount ==
      if AllAcknowledged(cb, StepReceive(f, rest)) then 0 else cb.retransCount
  {
    if f.rel && f.seqNo != cb.rxseqTxack {
      WakeUpKeepsCount(OweAck(cb));
    } else {
      AcknowledgeCount(cb, f);
      if f.kind == H5_LINK_CTL_PKT { ControlKeepsCount(Acknowledge(cb, f), ControlBytes(rest, cb.stale)); }
    }
  }

  lemma StepCount(cb: Cb, s: Step)
    ensures Apply(cb, s).retransCount ==
      if AllAcknowledged(cb, s) then 0 else if Round(cb, s) then cb.retransCount + 1 else cb.retransCount
  {
    match s
    case StepEnqueue(p) =>
    case StepWakeUp => WakeUpKeepsCount(cb);
    case StepReceive(f, rest) => ReceiveCount(cb, f, rest);
    case StepTimer =>
    case StepTakeBack =>
    case StepRetransfer => WakeUpKeepsCount(TakeBack(cb));
  }

  /** Once the budget is spent, the event is taken and nothing else happens. */
  lemma SpentBudget(cb: Cb)
    requires cb.retransCount >= 40
    ensures Retransfer(cb) == TakeBack(cb) == cb.(rxEvent := false)
  {
  }

  lemma {:induction false} CountRounds(cb: Cb, steps: seq<Step>)
    requires NeverAllAcknowledged(cb, steps)
    ensures Run(cb, steps).retransCount == cb.retransCount + Rounds(cb, steps)
    decreases |steps|
  {
    if steps != [] {
      StepCount(cb, steps[0]);
      CountRounds(Apply(cb, steps[0]), steps[1..]);
    }
  }

  /** From any reachable state, and as long as no arrival leaves everything acknowledged, no more rounds are made than
      the budget of 40 has left. */
  lemma RoundsBounded(stale: Stale, before: seq<Step>, steps: seq<Step>)
    requires NeverAllAcknowledged(Run(Init(stale), before), steps)
    ensures var cb := Run(Init(stale), before);
      cb.retransCount + Rounds(cb, steps) == Run(cb, steps).retransCount <= 40
  {
    var cb := Run(Init(stale), before);
    InitValid(stale);
    RunValid(Init(stale), before);
    RunValid(cb, steps);
    CountRounds(cb, steps);
  }
}
