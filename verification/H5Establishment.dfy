/**
 Link establishment as the line shows it: for each state of the link and each message, the state it leads to and the
 messages that go out, byte by byte.
 */
module H5Establishment {
  import opened Bytes
  import opened H5Frame
  import opened H5Control
  import opened H5Window
  import opened H5Link

  // ----- link control messages on record

  /** The payloads of the link control packets among frames. */
  function Messages(fs: seq<Frame>): seq<seq<byte>> {
    if fs == [] then [] else Messages(fs[..|fs| - 1]) + if fs[|fs| - 1].kind == 15 then [fs[|fs| - 1].data] else []
  }

  /** The link control messages that have gone out. */
  function Said(cb: Cb): seq<seq<byte>> {
    Messages(Frames(cb.hist.sent))
  }

  /** Those that wait to go out. */
  function Waiting(ps: seq<Packet>): seq<seq<byte>> {
    if ps == [] then [] else Waiting(ps[..|ps| - 1]) + if ps[|ps| - 1].kind == 15 then [ps[|ps| - 1].data] else []
  }

  lemma {:induction false} MessagesConcat(a: seq<Frame>, b: seq<Frame>)
    ensures Messages(a + b) == Messages(a) + Messages(b)
    decreases |b|
  {
    if b == [] {
      assert a + b == a;
    } else {
      assert (a + b)[..|a + b| - 1] == a + b[..|b| - 1];
      MessagesConcat(a, b[..|b| - 1]);
    }
  }

  lemma {:induction false} NoMessages(fs: seq<Frame>)
    requires forall i :: 0 <= i < |fs| ==> fs[i].kind != 15
    ensures Messages(fs) == []
    decreases |fs|
  {
    if fs != [] { NoMessages(fs[..|fs| - 1]); }
  }

  /** Frames that carry these packets. */
  lemma {:induction false} MessagesOf(fs: seq<Frame>, ps: seq<Packet>)
    requires |fs| == |ps| && forall i :: 0 <= i < |fs| ==> fs[i].kind == ps[i].kind && fs[i].data == ps[i].data
    ensures Messages(fs) == Waiting(ps)
    decreases |fs|
  {
    if fs != [] { MessagesOf(fs[..|fs| - 1], ps[..|ps| - 1]); }
  }

  lemma UnreliableSays(cb: Cb)
    ensures Messages(UnreliableFrames(cb)) == Waiting(cb.unrel)
  {
    MessagesOf(UnreliableFrames(cb), cb.unrel);
  }

  lemma ReliableSays(cb: Cb)
    requires Queues(cb)
    ensures Messages(ReliableFrames(cb)) == []
  {
    forall i | 0 <= i < |ReliableFrames(cb)| ensures ReliableFrames(cb)[i].kind != 15 {
      assert Sendable(cb.rel[i], true);
    }
    NoMessages(ReliableFrames(cb));
  }

  lemma MessagesThree(u: seq<Frame>, r: seq<Frame>, a: seq<Frame>)
    requires Messages(r) == [] && (a == [] || (|a| == 1 && a[0].kind != 15))
    ensures Messages(u + r + a) == Messages(u)
  {
    MessagesConcat(u + r, a);
    MessagesConcat(u, r);
    NoMessages(a);
  }

  /** A burst says what was waiting, and nothing else. */
  lemma BurstSays(cb: Cb)
    requires Queues(cb)
    ensures Messages(Burst(cb)) == Waiting(cb.unrel)
  {
    UnreliableSays(cb);
    ReliableSays(cb);
    var a := if cb.ackReq && cb.unrel == [] && Slots(cb) == 0
      then [Frame(false, 0, cb.rxseqTxack, cb.useCrc, H5_ACK_PKT, [])] else [];
    MessagesThree(UnreliableFrames(cb), ReliableFrames(cb), a);
  }

  // ----- the link, seen from outside

  /** The messages that have gone out and those that wait, the state and settings of the link, and what has been passed
      up. */
  datatype Seen = Seen(said: seq<seq<byte>>, waiting: seq<seq<byte>>, link: LinkState,
                       window: Bits3, oof: bool, dic: bool, useCrc: bool, up: seq<Packet>)

  function See(cb: Cb): Seen {
    Seen(Said(cb), Waiting(cb.unrel), cb.link, cb.window, cb.oof, cb.dic, cb.useCrc, cb.recvData)
  }

  /** Everything that waits goes out, and then these messages. */
  function Says(a: Seen, ms: seq<seq<byte>>): Seen {
    a.(said := a.said + a.waiting + ms, waiting := [])
  }

  /** The link works as the configuration field says, and the upper layer is told that it is up. */
  function Established(a: Seen, cfg: byte): Seen {
    a.(link := Active, window := cfg % 8, oof := cfg / 8 % 2 == 1, dic := cfg / 16 % 2 == 1,
       useCrc := a.useCrc || cfg / 16 % 2 == 1, up := a.up + [Packet(4, [0x0e, 0x04, 0x03, 0xee, 0xfc, 0x00])])
  }

  /** How a message that starts with x and y and bears cfg as its third byte is taken, by the state of the link. Before
      anything, a synchronisation request is answered, and the answer to one's own leads to the configuration; once
      synchronised, requests of both kinds are answered, and the answer to one's own makes the link active; then, a
      synchronisation request says that the peer starts afresh, and so does this side. */
  function Reply(a: Seen, x: byte, y: byte, cfg: byte): Seen {
    match a.link
    case Uninitialized =>
      if x == 0x01 && y == 0x7E then Says(a, [[0x02, 0x7D]])
      else if x == 0x02 && y == 0x7D then Says(a, [[0x03, 0xFC, 0x14]]).(link := Initialized)
      else a
    case Initialized =>
      if x == 0x01 && y == 0x7E then Says(a, [[0x02, 0x7D]])
      else if x == 0x03 && y == 0xFC then Says(a, [[0x04, 0x7B]])
      else if x == 0x04 && y == 0x7B then Established(a, cfg)
      else a
    case Active =>
      if x == 0x01 && y == 0x7E then Says(a, [[0x02, 0x7D], [0x01, 0x7E]]).(link := Uninitialized)
      else if x == 0x03 && y == 0xFC then Says(a, [[0x04, 0x7B]])
      else a
  }

  // ----- a wake-up

  ghost predicate SameLink(c: Cb, d: Cb) {
    && d.link == c.link && d.window == c.window && d.oof == c.oof && d.dic == c.dic && d.useCrc == c.useCrc
    && d.recvData == c.recvData
  }

  lemma {:induction false} WakeUpSameLink(cb: Cb)
    ensures SameLink(cb, WakeUp(cb))
    decreases Work(cb)
  {
    DequeueSameLink(cb);
    var (c, f) := Dequeue(cb);
    if f.Some? { WakeUpSameLink(Transmit(c, f.value)); }
  }

  lemma AckSameLink(cb: Cb)
    ensures SameLink(cb, DequeueAck(cb).0)
  {
  }

  lemma DequeueSameLink(cb: Cb)
    ensures SameLink(cb, Dequeue(cb).0)
  {
    UnreliableSameLink(cb);
    ReliableSameLink(cb);
    AckSameLink(cb);
  }

  lemma UnreliableSameLink(cb: Cb)
    ensures SameLink(cb, DequeueUnreliable(cb).0)
  {
  }

  lemma ReliableSameLink(cb: Cb)
    ensures SameLink(cb, DequeueReliable(cb).0)
  {
  }

  lemma WakeUpSays(cb: Cb)
    requires Queues(cb)
    ensures Said(WakeUp(cb)) == Said(cb) + Waiting(cb.unrel) && Waiting(WakeUp(cb).unrel) == []
  {
    WakeUpDrains(cb);
    BurstSays(cb);
    MessagesConcat(Frames(cb.hist.sent), Burst(cb));
  }

  lemma QueuedMessage(cb: Cb, m: seq<byte>)
    requires Queues(cb) && |m| <= 4095
    ensures var e := Enqueue(cb, Packet(15, m));
      && e == cb.(unrel := cb.unrel + [Packet(15, m)]) && Queues(e)
      && Said(e) == Said(cb) && Waiting(e.unrel) == Waiting(cb.unrel) + [m]
  {
    assert (cb.unrel + [Packet(15, m)])[..|cb.unrel|] == cb.unrel;
  }

  /** Sending a message sends those that wait before it, and changes nothing about the link. */
  lemma SendControlSays(cb: Cb, m: seq<byte>)
    requires Queues(cb) && |m| <= 4095
    ensures See(SendControl(cb, m)) == Says(See(cb), [m]) && Queues(SendControl(cb, m))
  {
    var e := Enqueue(cb, Packet(15, m));
    QueuedMessage(cb, m);
    WakeUpSays(e);
    WakeUpQueues(e);
    WakeUpSameLink(e);
    assert Said(cb) + (Waiting(cb.unrel) + [m]) == Said(cb) + Waiting(cb.unrel) + [m];
  }

  lemma SetLinkSeen(c: Cb, link: LinkState)
    ensures See(SetLink(c, link)) == See(c).(link := link)
  {
  }

  lemma StartConfigSays(c: Cb)
    requires Queues(c)
    ensures See(SendControl(SetLink(c, Initialized), CONF)) == Says(See(c), [[0x03, 0xFC, 0x14]]).(link := Initialized)
  {
    SetLinkSeen(c, Initialized);
    SendControlSays(SetLink(c, Initialized), CONF);
  }

  lemma ResyncSays(c: Cb)
    requires Queues(c)
    ensures See(SendControl(SetLink(SendControl(c, SYNC_RESP), Uninitialized), SYNC)) ==
      Says(See(c), [[0x02, 0x7D], [0x01, 0x7E]]).(link := Uninitialized)
  {
    var d := SendControl(c, SYNC_RESP);
    SendControlSays(c, SYNC_RESP);
    SetLinkSeen(d, Uninitialized);
    SendControlSays(SetLink(d, Uninitialized), SYNC);
    assert Said(c) + Waiting(c.unrel) + [[0x02, 0x7D]] + [] + [[0x01, 0x7E]] ==
      Said(c) + Waiting(c.unrel) + [[0x02, 0x7D], [0x01, 0x7E]];
  }

  lemma ConfigureSeen(c: Cb, cfg: byte)
    ensures See(Configure(c, cfg)) == Established(See(c), cfg)
  {
  }

  // ----- what a message does

  lemma AtUninitialized(c: Cb, v: seq<byte>)
    requires Queues(c) && |v| == 3 && c.link == Uninitialized
    ensures See(ControlUninitialized(c, v)) == Reply(See(c), v[0], v[1], v[2])
  {
    if Same2(v, SYNC) {
      SendControlSays(c, SYNC_RESP);
    } else if Same2(v, SYNC_RESP) {
      StartConfigSays(c);
    }
  }

  lemma AtInitialized(c: Cb, v: seq<byte>)
    requires Queues(c) && |v| == 3 && c.link == Initialized
    ensures See(ControlInitialized(c, v)) == Reply(See(c), v[0], v[1], v[2])
  {
    if Same2(v, SYNC) {
      SendControlSays(c, SYNC_RESP);
    } else if Same2(v, CONF) {
      SendControlSays(c, CONF_RESP);
    } else if Same2(v, CONF_RESP) {
      ConfigureSeen(c, v[2]);
    }
  }

  lemma AtActive(c: Cb, v: seq<byte>)
    requires Queues(c) && |v| == 3 && c.link == Active
    ensures See(ControlActive(c, v)) == Reply(See(c), v[0], v[1], v[2])
  {
    if Same2(v, SYNC) {
      ResyncSays(c);
    } else if Same2(v, CONF) {
      SendControlSays(c, CONF_RESP);
    }
  }

  lemma ProcessReplies(c: Cb, v: seq<byte>)
    requires Queues(c) && |v| == 3
    ensures See(ProcessControl(c, v)) == Reply(See(c), v[0], v[1], v[2])
  {
    match c.link
    case Uninitialized => AtUninitialized(c, v);
    case Initialized => AtInitialized(c, v);
    case Active => AtActive(c, v);
  }

  // ----- a message arrives

  /** A link control packet that is not reliable. */
  predicate Message(f: Frame) {
    f.Valid() && !f.rel && f.kind == 15
  }

  /** What the code finds i bytes behind the header: the payload, the check if there is one, or what the allocation
      left. */
  function At(f: Frame, stale: Stale, i: nat): byte
    requires f.Valid() && i < 3
  {
    if i < |f.data| then f.data[i]
    else if f.crc && i < |f.data| + 2 then Check(f)[i - |f.data|]
    else stale[i]
  }

  lemma ControlBytesAt(f: Frame, stale: Stale, i: nat)
    requires f.Valid() && i < 3
    ensures ControlBytes(f.data + Check(f), stale)[i] == At(f, stale, i)
  {
  }

  /** The acknowledgement that comes with a packet is looked at first, and is no part of the conversation. */
  lemma AcknowledgedUnseen(c: Cb, stale: Stale, ack: Bits3)
    requires Queues(c)
    ensures var r := RemoveAcked(SetRxack(c.(stale := stale), ack)); Queues(r) && See(r) == See(c)
  {
    RemoveAckedQueues(SetRxack(c.(stale := stale), ack));
  }

  /** Every message is taken by its first bytes, wherever they come from, as the state of the link has it. */
  lemma MessageAnswered(c: Cb, s: Sent, stale: Stale)
    requires Queues(c) && Message(s.frame)
    ensures See(Arrive(c, s, stale)) ==
      Reply(See(c), At(s.frame, stale, 0), At(s.frame, stale, 1), At(s.frame, stale, 2))
  {
    var f := s.frame;
    var r, v := RemoveAcked(SetRxack(c.(stale := stale), f.ackNo)), ControlBytes(f.data + Check(f), stale);
    AcknowledgedUnseen(c, stale, f.ackNo);
    ControlBytesAt(f, stale, 0);
    ControlBytesAt(f, stale, 1);
    ControlBytesAt(f, stale, 2);
    MessageIs(c, s, stale);
    ProcessReplies(r, v);
  }

  lemma MessageIs(c: Cb, s: Sent, stale: Stale)
    requires Message(s.frame)
    ensures Arrive(c, s, stale) ==
      ProcessControl(RemoveAcked(SetRxack(c.(stale := stale), s.frame.ackNo)),
                     ControlBytes(s.frame.data + Check(s.frame), stale))
  {
  }

  lemma WakeUpSeen(c: Cb)
    requires Queues(c)
    ensures See(WakeUp(c)) == Says(See(c), []) && Queues(WakeUp(c))
  {
    WakeUpSays(c);
    WakeUpQueues(c);
    WakeUpSameLink(c);
    assert Said(c) + Waiting(c.unrel) + [] == Said(c) + Waiting(c.unrel);
  }

  /** A message in a reliable packet: what waits goes out with the acknowledgement first; and it is not looked at unless
      the packet is the one expected. */
  lemma ReliableMessageAnswered(c: Cb, s: Sent, stale: Stale)
    requires Queues(c) && s.frame.Valid() && s.frame.rel && s.frame.kind == 15
    ensures See(Arrive(c, s, stale)) ==
      if s.frame.seqNo != c.rxseqTxack then Says(See(c), [])
      else Reply(Says(See(c), []), At(s.frame, stale, 0), At(s.frame, stale, 1), At(s.frame, stale, 2))
  {
    var f, d := s.frame, c.(stale := stale);
    if f.seqNo != c.rxseqTxack {
      WakeUpSeen(OweAck(d));
    } else {
      var a := WakeUp(Accept(d, f));
      var r, v := RemoveAcked(SetRxack(a, f.ackNo)), ControlBytes(f.data + Check(f), stale);
      WakeUpSeen(Accept(d, f));
      AcknowledgedUnseen(a, a.stale, f.ackNo);
      assert a.(stale := a.stale) == a;
      ControlBytesAt(f, stale, 0);
      ControlBytesAt(f, stale, 1);
      ControlBytesAt(f, stale, 2);
      ProcessReplies(r, v);
      assert Arrive(c, s, stale) == ProcessControl(r, v);
    }
  }

  // ----- conversations

  /** Messages arrive, one after the other. */
  function Hear(c: Cb, ss: seq<Sent>, stale: Stale): Cb {
    if ss == [] then c else Arrive(Hear(c, ss[..|ss| - 1], stale), ss[|ss| - 1], stale)
  }

  function Replies(a: Seen, ss: seq<Sent>, stale: Stale): Seen
    requires forall i :: 0 <= i < |ss| ==> Message(ss[i].frame)
  {
    if ss == [] then a
    else
      var f := ss[|ss| - 1].frame;
      assert Message(f);
      Reply(Replies(a, ss[..|ss| - 1], stale), At(f, stale, 0), At(f, stale, 1), At(f, stale, 2))
  }

  lemma {:induction false} ConversationAnswered(c: Cb, ss: seq<Sent>, stale: Stale)
    requires Valid(c) && forall i :: 0 <= i < |ss| ==> Message(ss[i].frame)
    ensures Valid(Hear(c, ss, stale)) && See(Hear(c, ss, stale)) == Replies(See(c), ss, stale)
    decreases |ss|
  {
    if ss != [] {
      var d := Hear(c, ss[..|ss| - 1], stale);
      ConversationAnswered(c, ss[..|ss| - 1], stale);
      MessageAnswered(d, ss[|ss| - 1], stale);
      ArriveValid(d, ss[|ss| - 1], stale);
    }
  }

  lemma ArriveValid(c: Cb, s: Sent, stale: Stale)
    requires Valid(c)
    ensures Valid(Arrive(c, s, stale))
  {
    var f := s.frame;
    assert Valid(c.(stale := stale));
    ReceiveValid(c.(stale := stale), f, if f.Valid() then f.data + Check(f) else f.data);
  }

  /** From reset, the two answers establish the link as the second one says. */
  lemma Establishes(before: Stale, s: Sent, t: Sent, x: Stale, y: Stale)
    requires Message(s.frame) && |s.frame.data| >= 2 && s.frame.data[..2] == [0x02, 0x7D]
    requires Message(t.frame) && |t.frame.data| >= 3 && t.frame.data[..2] == [0x04, 0x7B]
    ensures var d, cfg := Arrive(Arrive(Init(before), s, x), t, y), t.frame.data[2];
      && Said(d) == [[0x03, 0xFC, 0x14]] && d.link == Active
      && d.window == cfg % 8 && (d.oof <==> cfg / 8 % 2 == 1) && (d.useCrc <==> cfg / 16 % 2 == 1)
      && d.recvData == [Packet(4, [0x0e, 0x04, 0x03, 0xee, 0xfc, 0x00])]
  {
    var c := Init(before);
    var d := Arrive(c, s, x);
    InitValid(before);
    MessageAnswered(c, s, x);
    ArriveValid(c, s, x);
    assert s.frame.data[0] == s.frame.data[..2][0] && s.frame.data[1] == s.frame.data[..2][1];
    assert t.frame.data[0] == t.frame.data[..2][0] && t.frame.data[1] == t.frame.data[..2][1];
    MessageAnswered(d, t, y);
  }
}
