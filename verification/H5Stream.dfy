/** A byte stream into an endpoint: h5_recv over any chunks, against the packets h5_prepare_pkt encoded. */
module H5Stream {
  import opened Bytes
  import opened Crc
  import opened H5Frame
  import opened H5Control
  import opened H5Receiver

  datatype Endpoint = Endpoint(cb: Cb, rx: Rx)

  function Handle(cb: Cb, e: Event): Cb {
    match e
    case Silent => cb
    case OutOfSequence => OutOfOrder(cb)
    case Completed(f, rest) => Complete(cb, f, rest)
  }

  function Step1(p: Endpoint): Endpoint
    requires Valid(p.rx) && Pending(p.rx)
  {
    var (r, e) := Settle1(p.rx, p.cb.rxseqTxack);
    Endpoint(Handle(p.cb, e), r)
  }

  function SettleAll(p: Endpoint): (q: Endpoint)
    requires Valid(p.rx)
    ensures Valid(q.rx) && !Pending(q.rx)
  {
    var (r, e) := Settle(p.rx, p.cb.rxseqTxack);
    SettleValid(p.rx, p.cb.rxseqTxack);
    Endpoint(Handle(p.cb, e), r)
  }

  /** h5_recv on one byte. */
  function Feed(p: Endpoint, b: byte): (q: Endpoint)
    requires Valid(p.rx)
    ensures Valid(q.rx)
  {
    var s := SettleAll(p);
    ConsumeValid(s.rx, b);
    Endpoint(s.cb, Consume(s.rx, b))
  }

  /** h5_recv on a chunk. */
  function Recv(p: Endpoint, data: seq<byte>): (q: Endpoint)
    requires Valid(p.rx)
    ensures Valid(q.rx)
  {
    if data == [] then p else Feed(Recv(p, data[..|data| - 1]), data[|data| - 1])
  }

  /** The check that precedes the next byte completes a packet. */
  predicate Reports(p: Endpoint)
    requires Valid(p.rx)
  {
    Settle(p.rx, p.cb.rxseqTxack).1.Completed?
  }

  /** h5_recv's result: some packet was completed during the call. */
  predicate Completes(p: Endpoint, data: seq<byte>)
    requires Valid(p.rx)
  {
    data != [] && (Completes(p, data[..|data| - 1]) || Reports(Recv(p, data[..|data| - 1])))
  }

  lemma {:induction false} CompletesSome(p: Endpoint, data: seq<byte>)
    requires Valid(p.rx)
    ensures Completes(p, data) <==> exists k :: 0 <= k < |data| && Reports(Recv(p, data[..k]))
    decreases |data|
  {
    if data != [] {
      var init := data[..|data| - 1];
      CompletesSome(p, init);
      assert forall k :: 0 <= k < |data| ==> data[..k] == if k < |init| then init[..k] else init;
      assert Reports(Recv(p, init)) <==> Reports(Recv(p, data[..|init|]));
    }
  }

  /** However the stream is cut into chunks, the endpoint ends in the same state; and a packet is reported for the whole
      exactly when one is reported for a part. */
  lemma ChunkIndependence(p: Endpoint, a: seq<byte>, b: seq<byte>)
    requires Valid(p.rx)
    ensures Recv(p, a + b) == Recv(Recv(p, a), b)
    ensures Completes(p, a + b) == (Completes(p, a) || Completes(Recv(p, a), b))
  {
    RecvConcat(p, a, b);
    CompletesConcat(p, a, b);
  }

  lemma {:induction false} CompletesConcat(p: Endpoint, a: seq<byte>, b: seq<byte>)
    requires Valid(p.rx)
    ensures Completes(p, a + b) == (Completes(p, a) || Completes(Recv(p, a), b))
  {
    if b == [] {
      assert a + b == a;
    } else {
      var init := b[..|b| - 1];
      assert (a + b)[..|a + b| - 1] == a + init;
      CompletesConcat(p, a, init);
      RecvConcat(p, a, init);
    }
  }

  lemma {:induction false} RecvConcat(p: Endpoint, a: seq<byte>, b: seq<byte>)
    requires Valid(p.rx)
    ensures Recv(p, a + b) == Recv(Recv(p, a), b)
  {
    if b == [] {
      assert a + b == a;
    } else {
      var init, last := b[..|b| - 1], b[|b| - 1];
      assert (a + b)[..|a + b| - 1] == a + init && (a + b)[|a + b| - 1] == last;
      calc {
        Recv(p, a + b);
        Feed(Recv(p, a + init), last);
        { RecvConcat(p, a, init); }
        Feed(Recv(Recv(p, a), init), last);
      }
    }
  }

  lemma RecvOne(p: Endpoint, b: byte)
    requires Valid(p.rx)
    ensures Recv(p, [b]) == Feed(p, b)
  {
    assert [b][..0] == [];
  }

  /** From any state at all, one delimiter leaves the decoder ready for a packet. */
  lemma DelimiterResynchronises(p: Endpoint)
    requires Valid(p.rx)
    ensures Feed(p, DELIM).rx.state == W4Start
  {
  }

  // ----- one check at a time

  lemma Step1Header(p: Endpoint)
    requires Valid(p.rx) && p.rx.state == W4Hdr && p.rx.count == 0
    ensures var m := p.rx.skb.value;
      Step1(p) ==
        if !ChecksumOk(m) then Endpoint(p.cb, Drop(p.rx))
        else if HdrReliable(m) && HdrSeq(m) != p.cb.rxseqTxack then Endpoint(OutOfOrder(p.cb), Drop(p.rx))
        else Endpoint(p.cb, StartData(p.rx))
    ensures Valid(Step1(p).rx) && !Settle1(p.rx, p.cb.rxseqTxack).1.Completed?
  {
    Settle1Valid(p.rx, p.cb.rxseqTxack);
  }

  lemma Step1Data(p: Endpoint)
    requires Valid(p.rx) && p.rx.state == W4Data && p.rx.count == 0
    ensures var m := p.rx.skb.value;
      Step1(p) ==
        if HdrCrc(m) then Endpoint(p.cb, StartCheck(p.rx))
        else Endpoint(Complete(p.cb, Parse(m, 0), m[4..]), Drop(p.rx))
    ensures Valid(Step1(p).rx) && Settle1(p.rx, p.cb.rxseqTxack).1.Completed? == !HdrCrc(p.rx.skb.value)
  {
    Settle1Valid(p.rx, p.cb.rxseqTxack);
  }

  predicate CheckGood(rx: Rx)
    requires rx.skb.Some? && |rx.skb.value| >= 6
  {
    var m := rx.skb.value;
    BitRev16(rx.crc) as int == m[|m| - 1] as int + m[|m| - 2] as int * 256
  }

  lemma Step1Check(p: Endpoint)
    requires Valid(p.rx) && p.rx.state == W4Crc && p.rx.count == 0
    ensures var m := p.rx.skb.value;
      Step1(p) ==
        if !CheckGood(p.rx) then Endpoint(p.cb, Drop(p.rx))
        else Endpoint(Complete(p.cb, Parse(m, 2), m[4..]), Drop(p.rx))
    ensures Valid(Step1(p).rx) && Settle1(p.rx, p.cb.rxseqTxack).1.Completed? == CheckGood(p.rx)
  {
    Settle1Valid(p.rx, p.cb.rxseqTxack);
  }

  // ----- the next byte does not see how far the checks have got

  lemma Step1Settles(p: Endpoint)
    requires Valid(p.rx) && Pending(p.rx)
    ensures Valid(Step1(p).rx) && SettleAll(Step1(p)) == SettleAll(p)
  {
    Settle1Valid(p.rx, p.cb.rxseqTxack);
  }

  lemma Step1Reports(p: Endpoint)
    requires Valid(p.rx) && Pending(p.rx)
    ensures Valid(Step1(p).rx)
    ensures Reports(p) == (Settle1(p.rx, p.cb.rxseqTxack).1.Completed? || Reports(Step1(p)))
    ensures Settle1(p.rx, p.cb.rxseqTxack).1.Completed? ==> !Pending(Step1(p).rx)
  {
    Settle1Valid(p.rx, p.cb.rxseqTxack);
  }

  /** What a check leaves to the loop of h5_recv. */
  function Progress(rx: Rx): nat {
    if rx.state == W4Start then 4 else if Pending(rx) then Rank(rx) else 0
  }

  lemma Step1Turn(p: Endpoint, b: byte)
    requires Valid(p.rx) && Pending(p.rx)
    ensures Valid(Step1(p).rx) && Feed(Step1(p), b) == Feed(p, b)
    ensures var done := Settle1(p.rx, p.cb.rxseqTxack).1.Completed?;
      Reports(p) == (done || Reports(Step1(p))) && (done ==> !Reports(Step1(p)))
    ensures Progress(Step1(p).rx) < Progress(p.rx)
  {
    Step1Settles(p);
    Step1Reports(p);
    Settle1Valid(p.rx, p.cb.rxseqTxack);
  }

  lemma FeedConsumes(p: Endpoint, b: byte)
    requires Valid(p.rx) && !Pending(p.rx)
    ensures Feed(p, b) == Endpoint(p.cb, Consume(p.rx, b)) && !Reports(p)
  {
  }

  /** h5_recv in mid-loop: q has made some of the checks that p owes before byte b, `seen` if one reported. */
  ghost predicate InStep(p: Endpoint, q: Endpoint, b: byte, seen: bool)
    requires Valid(p.rx) && Valid(q.rx)
  {
    && Feed(q, b) == Feed(p, b)
    && Reports(p) == (seen || Reports(q))
    && (seen ==> !Reports(q))
  }

  lemma RecvNext(p: Endpoint, data: seq<byte>, i: nat)
    requires Valid(p.rx) && i < |data|
    ensures Recv(p, data[..i + 1]) == Feed(Recv(p, data[..i]), data[i])
    ensures Completes(p, data[..i + 1]) == (Completes(p, data[..i]) || Reports(Recv(p, data[..i])))
  {
    assert data[..i + 1][..i] == data[..i];
  }

  /** A new packet may be opened before the byte that opens it is looked at again. */
  lemma OpenFeeds(p: Endpoint, b: byte)
    requires Valid(p.rx) && p.rx.state == W4Start && b != DELIM
    ensures var o := p.(rx := Open(p.rx));
      Valid(o.rx) && Feed(o, b) == Feed(p, b) && !Reports(o) && !Reports(p) && Progress(o.rx) < Progress(p.rx)
  {
  }

  lemma RecvFront(p: Endpoint, xs: seq<byte>)
    requires Valid(p.rx) && xs != []
    ensures Recv(p, xs) == Recv(Feed(p, xs[0]), xs[1..])
  {
    RecvOne(p, xs[0]);
    ChunkIndependence(p, [xs[0]], xs[1..]);
    assert [xs[0]] + xs[1..] == xs;
  }

  lemma Step1First(p: Endpoint, xs: seq<byte>)
    requires Valid(p.rx) && Pending(p.rx) && xs != []
    ensures Valid(Step1(p).rx) && Recv(p, xs) == Recv(Step1(p), xs)
  {
    Step1Settles(p);
    RecvFront(p, xs);
    RecvFront(Step1(p), xs);
  }

  lemma OpenFirst(p: Endpoint, xs: seq<byte>)
    requires Valid(p.rx) && p.rx.state == W4Start && xs != [] && xs[0] != DELIM
    ensures Valid(Open(p.rx)) && Recv(p, xs) == Recv(p.(rx := Open(p.rx)), xs)
  {
    RecvFront(p, xs);
    RecvFront(p.(rx := Open(p.rx)), xs);
  }

  // ----- inside a packet

  /** The decoder has m in its buffer and expects k more bytes of this part. */
  ghost predicate At(rx: Rx, state: RxState, m: seq<byte>, k: nat) {
    Valid(rx) && rx.state == state && rx.skb == Some(m) && rx.count == k && !rx.esc
  }

  /** p has gone on to q inside the packet, without a word to the control block. */
  ghost predicate Fed(p: Endpoint, q: Endpoint, state: RxState, m: seq<byte>, k: nat) {
    q.cb == p.cb && At(q.rx, state, m, k)
  }

  lemma FeedPlain(p: Endpoint, state: RxState, m: seq<byte>, k: nat, b: byte)
    requires At(p.rx, state, m, k + 1) && b != DELIM && b != ESC
    ensures Fed(p, Feed(p, b), state, m + [b], k)
  {
  }

  lemma FeedEscape(p: Endpoint, state: RxState, m: seq<byte>, k: nat, code: byte, b: byte)
    requires At(p.rx, state, m, k + 1)
    requires
      || (code, b) == (0xdc, 0xc0) || (code, b) == (0xdd, 0xdb)
      || (code, b) == (0xde, 0x11) || (code, b) == (0xdf, 0x13)
    ensures Fed(p, Feed(Feed(p, ESC), code), state, m + [b], k)
  {
    var e := Feed(p, ESC);
    assert e == p.(rx := p.rx.(esc := true));
    assert Feed(e, code) == Endpoint(p.cb, PutByte(e.rx, b));
  }

  lemma FeedSlipByte(p: Endpoint, state: RxState, m: seq<byte>, k: nat, b: byte, oof: bool)
    requires At(p.rx, state, m, k + 1)
    ensures Fed(p, Recv(p, SlipByte(b, oof)), state, m + [b], k)
  {
    var s := SlipByte(b, oof);
    if |s| == 1 {
      FeedPlain(p, state, m, k, b);
      RecvOne(p, b);
    } else {
      FeedEscape(p, state, m, k, s[1], b);
      RecvFront(p, s);
      RecvOne(Feed(p, ESC), s[1]);
      assert s[1..] == [s[1]];
    }
  }

  lemma SlipLast(p: Endpoint, msg: seq<byte>, oof: bool)
    requires Valid(p.rx) && msg != []
    ensures Recv(p, Slip(msg, oof)) ==
      Recv(Recv(p, Slip(msg[..|msg| - 1], oof)), SlipByte(msg[|msg| - 1], oof))
  {
    ChunkIndependence(p, Slip(msg[..|msg| - 1], oof), SlipByte(msg[|msg| - 1], oof));
  }

  lemma FedThen(p: Endpoint, q: Endpoint, r: Endpoint, state: RxState, m: seq<byte>, k: nat, b: byte, oof: bool)
    requires Fed(p, q, state, m, k + 1) && r == Recv(q, SlipByte(b, oof))
    ensures Fed(p, r, state, m + [b], k)
  {
    FeedSlipByte(q, state, m, k, b, oof);
  }

  lemma Snoc(m: seq<byte>, msg: seq<byte>)
    requires msg != []
    ensures (m + msg[..|msg| - 1]) + [msg[|msg| - 1]] == m + msg
  {
  }

  lemma {:induction false} FeedSlip(p: Endpoint, state: RxState, m: seq<byte>, k: nat, msg: seq<byte>, oof: bool)
    requires At(p.rx, state, m, |msg| + k)
    ensures Fed(p, Recv(p, Slip(msg, oof)), state, m + msg, k)
    decreases |msg|
  {
    if msg == [] {
      assert m + msg == m;
    } else {
      var init, last := msg[..|msg| - 1], msg[|msg| - 1];
      FeedSlip(p, state, m, k + 1, init, oof);
      SlipLast(p, msg, oof);
      FedThen(p, Recv(p, Slip(init, oof)), Recv(p, Slip(msg, oof)), state, m + init, k, last, oof);
      Snoc(m, msg);
    }
  }

  /** Between packets everything but a delimiter is ignored. */
  lemma {:induction false} Ignored(p: Endpoint, xs: seq<byte>)
    requires Valid(p.rx) && p.rx.state == W4Delimiter && DELIM !in xs
    ensures Recv(p, xs) == p
  {
    if xs != [] {
      Ignored(p, xs[..|xs| - 1]);
    }
  }

  // ----- one packet

  /** p is between packets and has handled f. */
  ghost predicate Handled(p: Endpoint, cb: Cb) {
    Valid(p.rx) && p.rx.state == W4Start && p.cb == cb
  }

  /** Bytes after a finished packet up to the closing delimiter. */
  lemma Tail(p: Endpoint, xs: seq<byte>)
    requires Valid(p.rx) && p.rx.state == W4Delimiter && DELIM !in xs
    ensures Handled(Recv(p, xs + [DELIM]), p.cb)
  {
    Ignored(p, xs);
    ChunkIndependence(p, xs, [DELIM]);
    RecvOne(p, DELIM);
  }

  /** A complete buffer parses back to the packet it came from, and its check is the one computed on the way. */
  lemma ParsesBack(f: Frame)
    requires f.Valid()
    ensures var m := Content(f);
      && m[4..] == f.data + Check(f)
      && Parse(m, |Check(f)|) == f
      && HdrLen(m) == |f.data| && HdrCrc(m) == f.crc
      && m[..4 + |f.data|] == Header(f) + f.data
  {
    var h, m := Header(f), Content(f);
    HeaderRoundTrip(f);
    assert m[0] == h[0] && m[1] == h[1] && m[2] == h[2];
    assert m[4..|m| - |Check(f)|] == f.data;
  }

  lemma CheckAccepted(f: Frame, crc: bv16)
    requires f.Valid() && f.crc && crc == MessageCrc(Header(f) + f.data)
    ensures var m := Content(f);
      BitRev16(crc) as int == m[|m| - 1] as int + m[|m| - 2] as int * 256
  {
    var m := Content(f);
    assert m[|m| - 2] == Check(f)[0] && m[|m| - 1] == Check(f)[1];
  }

  lemma CheckPasses(q: Endpoint, f: Frame)
    requires f.Valid() && f.crc && At(q.rx, W4Crc, Content(f), 0)
    ensures Handled(Recv(q, [DELIM]), Complete(q.cb, f, f.data + Check(f)))
  {
    Step1First(q, [DELIM]);
    ParsesBack(f);
    CheckAccepted(f, q.rx.crc);
    assert Step1(q) == Endpoint(Complete(q.cb, f, f.data + Check(f)), Drop(q.rx));
    Tail(Step1(q), []);
    assert [] + [DELIM] == [DELIM];
  }

  lemma CheckedPart(p: Endpoint, f: Frame, oof: bool)
    requires f.Valid() && f.crc && At(p.rx, W4Crc, Header(f) + f.data, 2)
    ensures Handled(Recv(p, Slip(Check(f), oof) + [DELIM]), Complete(p.cb, f, f.data + Check(f)))
  {
    FeedSlip(p, W4Crc, Header(f) + f.data, 0, Check(f), oof);
    ChunkIndependence(p, Slip(Check(f), oof), [DELIM]);
    CheckPasses(Recv(p, Slip(Check(f), oof)), f);
  }

  lemma UncheckedPart(q: Endpoint, f: Frame)
    requires f.Valid() && !f.crc && At(q.rx, W4Data, Header(f) + f.data, 0)
    ensures Handled(Recv(q, [DELIM]), Complete(q.cb, f, f.data + Check(f)))
  {
    Step1First(q, [DELIM]);
    ParsesBack(f);
    assert Content(f) == Header(f) + f.data;
    assert Step1(q) == Endpoint(Complete(q.cb, f, f.data + Check(f)), Drop(q.rx));
    Tail(Step1(q), []);
    assert [] + [DELIM] == [DELIM];
  }

  lemma DataPart(p: Endpoint, f: Frame, oof: bool)
    requires f.Valid() && At(p.rx, W4Data, Header(f), |f.data|)
    ensures Handled(Recv(p, Slip(f.data, oof) + (Slip(Check(f), oof) + [DELIM])), Complete(p.cb, f, f.data + Check(f)))
  {
    var rest := Slip(Check(f), oof) + [DELIM];
    FeedSlip(p, W4Data, Header(f), 0, f.data, oof);
    var q := Recv(p, Slip(f.data, oof));
    ChunkIndependence(p, Slip(f.data, oof), rest);
    HeaderRoundTrip(f);
    if f.crc {
      Step1First(q, rest);
      CheckedPart(Step1(q), f, oof);
    } else {
      assert rest == [DELIM];
      UncheckedPart(q, f);
    }
  }

  lemma HeaderPart(p: Endpoint, f: Frame, oof: bool)
    requires f.Valid() && At(p.rx, W4Hdr, [], 4)
    ensures Handled(Recv(p, Slip(Header(f), oof) + (Slip(f.data, oof) + (Slip(Check(f), oof) + [DELIM]))),
                    Receive(p.cb, f, f.data + Check(f)))
  {
    FeedSlip(p, W4Hdr, [], 0, Header(f), oof);
    assert [] + Header(f) == Header(f);
    ChunkIndependence(p, Slip(Header(f), oof), Slip(f.data, oof) + (Slip(Check(f), oof) + [DELIM]));
    AfterHeader(Recv(p, Slip(Header(f), oof)), f, oof);
  }

  /** The rest of a packet out of sequence is skipped. */
  lemma AfterHeader(q: Endpoint, f: Frame, oof: bool)
    requires f.Valid() && At(q.rx, W4Hdr, Header(f), 0)
    ensures Handled(Recv(q, Slip(f.data, oof) + (Slip(Check(f), oof) + [DELIM])), Receive(q.cb, f, f.data + Check(f)))
  {
    var rest := Slip(f.data, oof) + (Slip(Check(f), oof) + [DELIM]);
    HeaderRoundTrip(f);
    Step1First(q, rest);
    if f.rel && f.seqNo != q.cb.rxseqTxack {
      assert rest == (Slip(f.data, oof) + Slip(Check(f), oof)) + [DELIM];
      Tail(Step1(q), Slip(f.data, oof) + Slip(Check(f), oof));
    } else {
      DataPart(Step1(q), f, oof);
    }
  }

  lemma Regroup(d: seq<byte>, h: seq<byte>, x: seq<byte>, c: seq<byte>)
    ensures d + ((h + x) + c) + d == d + (h + (x + (c + d)))
  {
  }

  lemma EncodeParts(f: Frame, oof: bool)
    requires f.Valid()
    ensures Encode(f, oof) ==
      [DELIM] + (Slip(Header(f), oof) + (Slip(f.data, oof) + (Slip(Check(f), oof) + [DELIM])))
  {
    SlipConcat(Header(f) + f.data, Check(f), oof);
    SlipConcat(Header(f), f.data, oof);
    Regroup([DELIM], Slip(Header(f), oof), Slip(f.data, oof), Slip(Check(f), oof));
  }

  /** Between packets: as the receiver is created, after a packet, after a drop, or after a delimiter. */
  ghost predicate Between(rx: Rx) {
    Valid(rx) && (rx.state == W4Delimiter || rx.state == W4Start)
  }

  lemma DelimiterOpens(p: Endpoint)
    requires Between(p.rx)
    ensures Handled(Recv(p, [DELIM]), p.cb)
  {
    RecvOne(p, DELIM);
  }

  lemma PacketBody(p: Endpoint, f: Frame, oof: bool)
    requires Valid(p.rx) && p.rx.state == W4Start && f.Valid()
    ensures var body := Slip(Header(f), oof) + (Slip(f.data, oof) + (Slip(Check(f), oof) + [DELIM]));
      Handled(Recv(p, body), Receive(p.cb, f, f.data + Check(f)))
  {
    var h := Slip(Header(f), oof);
    var body := h + (Slip(f.data, oof) + (Slip(Check(f), oof) + [DELIM]));
    assert body[0] == h[0] && h[0] in h;
    OpenFirst(p, body);
    HeaderPart(p.(rx := Open(p.rx)), f, oof);
  }

  /** An encoded packet, fed to an endpoint that is between packets, does exactly what the packet says. */
  lemma PacketRoundTrip(p: Endpoint, f: Frame, oof: bool)
    requires Between(p.rx) && f.Valid()
    ensures Handled(Recv(p, Encode(f, oof)), Receive(p.cb, f, f.data + Check(f)))
  {
    EncodeParts(f, oof);
    var body := Slip(Header(f), oof) + (Slip(f.data, oof) + (Slip(Check(f), oof) + [DELIM]));
    ChunkIndependence(p, [DELIM], body);
    DelimiterOpens(p);
    PacketBody(Recv(p, [DELIM]), f, oof);
  }

  // ----- whole streams

  /** The packets of one sender on the line, one after the other. */
  function EncodeAll(fs: seq<Frame>, oof: bool): seq<byte>
    requires forall f :: f in fs ==> f.Valid()
  {
    if fs == [] then [] else EncodeAll(fs[..|fs| - 1], oof) + Encode(fs[|fs| - 1], oof)
  }

  function ReceiveAll(cb: Cb, fs: seq<Frame>): Cb
    requires forall f :: f in fs ==> f.Valid()
  {
    if fs == [] then cb
    else
      var f := fs[|fs| - 1];
      Receive(ReceiveAll(cb, fs[..|fs| - 1]), f, f.data + Check(f))
  }

  /** A stream of packets decodes to exactly those packets, in order. */
  lemma {:induction false} StreamRoundTrip(p: Endpoint, fs: seq<Frame>, oof: bool)
    requires Between(p.rx)
    requires forall f :: f in fs ==> f.Valid()
    ensures var q := Recv(p, EncodeAll(fs, oof));
      && Between(q.rx) && (fs != [] ==> q.rx.state == W4Start)
      && q.cb == ReceiveAll(p.cb, fs)
  {
    if fs != [] {
      var init, last := fs[..|fs| - 1], fs[|fs| - 1];
      StreamRoundTrip(p, init, oof);
      ChunkIndependence(p, EncodeAll(init, oof), Encode(last, oof));
      PacketRoundTrip(Recv(p, EncodeAll(init, oof)), last, oof);
    }
  }

  /** Whatever came before, a packet that follows a delimiter is decoded intact. */
  lemma GarbageThenPacket(p: Endpoint, garbage: seq<byte>, f: Frame, oof: bool)
    requires Valid(p.rx) && f.Valid()
    ensures var q := Recv(p, garbage + [DELIM]);
      Handled(Recv(p, garbage + [DELIM] + Encode(f, oof)), Receive(q.cb, f, f.data + Check(f)))
  {
    ChunkIndependence(p, garbage, [DELIM]);
    RecvOne(Recv(p, garbage), DELIM);
    DelimiterResynchronises(Recv(p, garbage));
    ChunkIndependence(p, garbage + [DELIM], Encode(f, oof));
    PacketRoundTrip(Recv(p, garbage + [DELIM]), f, oof);
  }
}
