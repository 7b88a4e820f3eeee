/**
 What the decoder of h5_recv makes of the bytes between two delimiters, told without its states: the message they spell,
 and whether that is a whole packet.
 */
module H5Decoder {
  import opened Bytes
  import opened Crc
  import opened H5Frame
  import opened H5Receiver
  import S = H5Stream
  import C = H5Control

  // ----- what bytes without a delimiter spell

  /** Escaping may stop short: Halfway is after the escape byte. */
  datatype Spelling = Text(msg: seq<byte>) | Halfway(msg: seq<byte>) | Nonsense

  /** One more byte. */
  function Next(s: Spelling, b: byte): Spelling {
    match s
    case Text(m) => if b == 0xDB then Halfway(m) else if b == 0xC0 then Nonsense else Text(m + [b])
    case Halfway(m) =>
      if b == 0xDC then Text(m + [0xC0]) else if b == 0xDD then Text(m + [0xDB])
      else if b == 0xDE then Text(m + [0x11]) else if b == 0xDF then Text(m + [0x13])
      else Nonsense
    case Nonsense => Nonsense
  }

  function Spell(xs: seq<byte>): Spelling {
    if xs == [] then Text([]) else Next(Spell(xs[..|xs| - 1]), xs[|xs| - 1])
  }

  // ----- what a whole packet is

  /** The four bytes of a header sum to 255, and a reliable packet bears the expected number. */
  predicate GoodHeader(m: seq<byte>, expected: Bits3)
    requires |m| >= 4
  {
    (m[0] as int + m[1] as int + m[2] as int + m[3] as int) % 256 == 255 && (m[0] >= 128 ==> m[0] % 8 == expected)
  }

  function PayloadLength(m: seq<byte>): nat
    requires |m| >= 4
  {
    m[1] as int / 16 + 16 * m[2] as int
  }

  predicate Checked(m: seq<byte>)
    requires |m| >= 4
  {
    m[0] / 64 % 2 == 1
  }

  function TotalLength(m: seq<byte>): nat
    requires |m| >= 4
  {
    4 + PayloadLength(m) + if Checked(m) then 2 else 0
  }

  /** The last two bytes are the CCITT-CRC of the others, its bits reversed, high byte first. */
  predicate GoodCheck(m: seq<byte>)
    requires |m| >= 2
  {
    m[|m| - 2] as int * 256 + m[|m| - 1] as int == BitRev16(SerialCrc(m[..|m| - 2])) as int
  }

  predicate Whole(m: seq<byte>, expected: Bits3) {
    |m| >= 4 && GoodHeader(m, expected) && |m| == TotalLength(m) && (Checked(m) ==> GoodCheck(m))
  }

  /** The packet that the message stands for. */
  function Meaning(m: seq<byte>): Frame
    requires |m| >= 4 && |m| >= TotalLength(m)
  {
    Frame(m[0] >= 128, m[0] % 8, m[0] / 8 % 8, Checked(m), m[1] % 16, m[4..4 + PayloadLength(m)])
  }

  // ----- the decoder follows the spelling

  /** The decoder has the message in its buffer, and has found nothing wrong with it. */
  ghost predicate Follows(s: Spelling, r: Rx, expected: Bits3) {
    Valid(r) && !s.Nonsense? &&
    if r.state == W4Start then s == Text([])
    else
      && r.skb == Some(s.msg) && r.esc == s.Halfway? && (r.esc ==> r.count > 0)
      && (r.state != W4Hdr ==> HdrReliable(s.msg) ==> HdrSeq(s.msg) == expected)
  }

  /** Nothing that starts like this is ever going to be a whole packet. */
  predicate Hopeless(s: Spelling, expected: Bits3) {
    s.Nonsense? || (
      |s.msg| >= 4 &&
      (GoodHeader(s.msg, expected) ==> |s.msg| > TotalLength(s.msg) || (s.Halfway? && |s.msg| == TotalLength(s.msg))))
  }

  /** It is one, or it is hopeless. */
  predicate Settled(s: Spelling, expected: Bits3) {
    Hopeless(s, expected) || (|s.msg| >= 4 && |s.msg| == TotalLength(s.msg))
  }

  lemma SettledHopeless(s: Spelling, expected: Bits3, b: byte)
    requires Settled(s, expected)
    ensures Hopeless(Next(s, b), expected)
  {
  }

  lemma HeaderAgrees(m: seq<byte>, expected: Bits3)
    requires |m| >= 4
    ensures GoodHeader(m, expected) <==> ChecksumOk(m) && (HdrReliable(m) ==> HdrSeq(m) == expected)
    ensures PayloadLength(m) == HdrLen(m) && Checked(m) == HdrCrc(m)
  {
  }

  /** A check between bytes goes on with the packet, or ends it for good; it completes a packet when that is whole. */
  ghost predicate Decides(s: Spelling, p: S.Endpoint, expected: Bits3)
    requires Valid(p.rx) && Pending(p.rx) && !s.Nonsense?
  {
    var q, e := S.Step1(p), Settle1(p.rx, expected).1;
    Valid(q.rx) &&
    if q.rx.state == W4Delimiter then
      && Settled(s, expected) && (e.Completed? <==> Whole(s.msg, expected))
      && (e.Completed? ==> e == Completed(Meaning(s.msg), s.msg[4..]))
    else
      Follows(s, q.rx, expected) && q.cb == p.cb && !e.Completed?
  }

  lemma HeaderDecides(s: Spelling, p: S.Endpoint, expected: Bits3)
    requires Follows(s, p.rx, expected) && p.rx.state == W4Hdr && p.rx.count == 0 && p.cb.rxseqTxack == expected
    ensures Decides(s, p, expected)
  {
    HeaderAgrees(s.msg, expected);
    S.Step1Header(p);
  }

  /** When all bytes are in, the check decides. */
  lemma CompleteIsWhole(m: seq<byte>, expected: Bits3)
    requires |m| >= 4 && ChecksumOk(m) && (HdrReliable(m) ==> HdrSeq(m) == expected)
    requires |m| == 4 + HdrLen(m) + if HdrCrc(m) then 2 else 0
    ensures Whole(m, expected) <==> HdrCrc(m) ==> GoodCheck(m)
    ensures TotalLength(m) == |m| && Parse(m, if HdrCrc(m) then 2 else 0) == Meaning(m)
  {
    HeaderAgrees(m, expected);
  }

  lemma DataDecides(s: Spelling, p: S.Endpoint, expected: Bits3)
    requires Follows(s, p.rx, expected) && p.rx.state == W4Data && p.rx.count == 0 && p.cb.rxseqTxack == expected
    ensures Decides(s, p, expected)
  {
    if !HdrCrc(s.msg) { CompleteIsWhole(s.msg, expected); }
    S.Step1Data(p);
  }

  /** The register that came with the bytes is the CRC of all but the last two. */
  lemma CheckIsCrc(r: Rx)
    requires Valid(r) && r.state == W4Crc && r.count == 0
    ensures |r.skb.value| >= 6 && (S.CheckGood(r) <==> GoodCheck(r.skb.value))
  {
    var m := r.skb.value;
    assert m[..|m| - 2] == m[..4 + HdrLen(m)];
    TableCrcIsSerialCrc(m[..|m| - 2]);
  }

  lemma CheckDecides(s: Spelling, p: S.Endpoint, expected: Bits3)
    requires Follows(s, p.rx, expected) && p.rx.state == W4Crc && p.rx.count == 0 && p.cb.rxseqTxack == expected
    ensures Decides(s, p, expected)
  {
    CompleteIsWhole(s.msg, expected);
    CheckIsCrc(p.rx);
    S.Step1Check(p);
  }

  lemma CheckFollows(s: Spelling, p: S.Endpoint, expected: Bits3)
    requires Follows(s, p.rx, expected) && Pending(p.rx) && p.cb.rxseqTxack == expected
    ensures Decides(s, p, expected)
  {
    if p.rx.state == W4Hdr {
      HeaderDecides(s, p, expected);
    } else if p.rx.state == W4Data {
      DataDecides(s, p, expected);
    } else {
      CheckDecides(s, p, expected);
    }
  }

  /** Between bytes, a packet is reported exactly when the message is a whole one. */
  lemma {:induction false} ReportsWhole(s: Spelling, p: S.Endpoint, expected: Bits3)
    requires Follows(s, p.rx, expected) && p.cb.rxseqTxack == expected
    ensures S.Reports(p) <==> s.Text? && Whole(s.msg, expected)
    ensures S.Reports(p) ==> Settle(p.rx, expected).1 == Completed(Meaning(s.msg), s.msg[4..])
    decreases Rank(p.rx)
  {
    if Pending(p.rx) {
      CheckFollows(s, p, expected);
      S.Step1Turn(p, 0);
      Settle1Valid(p.rx, expected);
      if S.Step1(p).rx.state != W4Delimiter { ReportsWhole(s, S.Step1(p), expected); }
    } else {
      S.FeedConsumes(p, 0);
      NotYetWhole(s, p.rx, expected);
    }
  }

  lemma NotYetWhole(s: Spelling, r: Rx, expected: Bits3)
    requires Follows(s, r, expected) && !Pending(r)
    ensures !Whole(s.msg, expected)
  {
    if |s.msg| >= 4 { HeaderAgrees(s.msg, expected); }
  }

  // ----- the next byte

  lemma PutFollows(s: Spelling, r: Rx, expected: Bits3, b: byte)
    requires Follows(s, r, expected) && r.skb.Some? && r.count > 0
    ensures Follows(Text(s.msg + [b]), PutByte(r, b), expected)
  {
    PutByteValid(r, b);
  }

  lemma UnslipFollows(s: Spelling, r: Rx, expected: Bits3, b: byte)
    requires Follows(s, r, expected) && r.skb.Some? && r.count > 0 && b != 0xC0
    ensures var u := Unslip(r, b);
      if u.state == W4Delimiter then Next(s, b) == Nonsense else Follows(Next(s, b), u, expected)
  {
    if s.Text? && b == 0xDB {
      assert Unslip(r, b) == Escape(r);
    } else if s.Text? {
      PutFollows(s, r, expected, b);
    } else if 0xDC <= b <= 0xDF {
      var c: byte := if b == 0xDC then 0xC0 else if b == 0xDD then 0xDB else if b == 0xDE then 0x11 else 0x13;
      PutFollows(s, r, expected, c);
      assert Unslip(r, b) == PutByte(r, c) && Next(s, b) == Text(s.msg + [c]);
    }
  }

  lemma ConsumeFollows(s: Spelling, r: Rx, expected: Bits3, b: byte)
    requires Follows(s, r, expected) && !Pending(r) && b != 0xC0
    ensures var c := Consume(r, b);
      if c.state == W4Delimiter then Next(s, b) == Nonsense else Follows(Next(s, b), c, expected)
  {
    if r.state == W4Start {
      UnslipFollows(Text([]), Open(r), expected, b);
    } else {
      UnslipFollows(s, r, expected, b);
    }
  }

  /** The decoder waits for the next delimiter, and rightly so. */
  ghost predicate GaveUp(s: Spelling, r: Rx, expected: Bits3) {
    Valid(r) && r.state == W4Delimiter && Hopeless(s, expected)
  }

  lemma {:induction false} FeedFollows(s: Spelling, p: S.Endpoint, expected: Bits3, b: byte)
    requires Follows(s, p.rx, expected) && p.cb.rxseqTxack == expected && b != 0xC0
    ensures var q := S.Feed(p, b);
      || (Follows(Next(s, b), q.rx, expected) && q.cb == p.cb)
      || GaveUp(Next(s, b), q.rx, expected)
    decreases Rank(p.rx)
  {
    if Pending(p.rx) {
      CheckFollows(s, p, expected);
      S.Step1Turn(p, b);
      Settle1Valid(p.rx, expected);
      if S.Step1(p).rx.state == W4Delimiter {
        SettledHopeless(s, expected, b);
        S.FeedConsumes(S.Step1(p), b);
      } else {
        FeedFollows(s, S.Step1(p), expected, b);
      }
    } else {
      S.FeedConsumes(p, b);
      ConsumeFollows(s, p.rx, expected, b);
      ConsumeValid(p.rx, b);
    }
  }

  lemma StillHopeless(s: Spelling, expected: Bits3, b: byte)
    requires Hopeless(s, expected)
    ensures Hopeless(Next(s, b), expected)
  {
  }

  lemma {:induction false} RecvFollows(p: S.Endpoint, xs: seq<byte>)
    requires Valid(p.rx) && p.rx.state == W4Start && 0xC0 !in xs
    ensures var q, expected := S.Recv(p, xs), p.cb.rxseqTxack;
      (Follows(Spell(xs), q.rx, expected) && q.cb == p.cb) || GaveUp(Spell(xs), q.rx, expected)
    decreases |xs|
  {
    if xs != [] {
      var init, b, expected := xs[..|xs| - 1], xs[|xs| - 1], p.cb.rxseqTxack;
      var q := S.Recv(p, init);
      RecvFollows(p, init);
      if Follows(Spell(init), q.rx, expected) && q.cb == p.cb {
        FeedFollows(Spell(init), q, expected, b);
      } else {
        S.FeedConsumes(q, b);
        StillHopeless(Spell(init), expected, b);
      }
    }
  }

  // ----- main results

  /** Whatever has come before: after a delimiter and bytes without one, a packet is reported exactly when these bytes
      spell a whole one, and it is the one that they stand for. */
  lemma DecodesExactly(p: S.Endpoint, before: seq<byte>, xs: seq<byte>)
    requires Valid(p.rx) && 0xC0 !in xs
    ensures var q, s, expected := S.Recv(p, before + [0xC0] + xs), Spell(xs), S.Recv(p, before + [0xC0]).cb.rxseqTxack;
      && (S.Reports(q) <==> s.Text? && Whole(s.msg, expected))
      && (S.Reports(q) ==> Settle(q.rx, q.cb.rxseqTxack).1 == Completed(Meaning(s.msg), s.msg[4..]))
  {
    AfterDelimiter(p, before);
    S.ChunkIndependence(p, before + [0xC0], xs);
    FromStart(S.Recv(p, before + [0xC0]), xs);
  }

  lemma AfterDelimiter(p: S.Endpoint, before: seq<byte>)
    requires Valid(p.rx)
    ensures S.Recv(p, before + [0xC0]).rx.state == W4Start
  {
    S.ChunkIndependence(p, before, [0xC0]);
    S.RecvOne(S.Recv(p, before), 0xC0);
    S.DelimiterResynchronises(S.Recv(p, before));
  }

  lemma FromStart(r: S.Endpoint, xs: seq<byte>)
    requires Valid(r.rx) && r.rx.state == W4Start && 0xC0 !in xs
    ensures var q, s, expected := S.Recv(r, xs), Spell(xs), r.cb.rxseqTxack;
      && (S.Reports(q) <==> s.Text? && Whole(s.msg, expected))
      && (S.Reports(q) ==> Settle(q.rx, q.cb.rxseqTxack).1 == Completed(Meaning(s.msg), s.msg[4..]))
  {
    RecvFollows(r, xs);
    var q, expected := S.Recv(r, xs), r.cb.rxseqTxack;
    if Follows(Spell(xs), q.rx, expected) && q.cb == r.cb {
      ReportsWhole(Spell(xs), q, expected);
    } else {
      S.FeedConsumes(q, 0);
    }
  }

  // ----- and the encoder

  lemma {:induction false} SpellConcat(xs: seq<byte>, ys: seq<byte>, m: seq<byte>, n: seq<byte>)
    requires Spell(xs) == Text(m) && Spell(ys) == Text(n)
    ensures Spell(xs + ys) == Text(m + n)
    decreases |ys|
  {
    SpellMore(xs, ys, m);
  }

  /** What has been spelled goes before what is spelled next. */
  function Prefixed(m: seq<byte>, s: Spelling): Spelling {
    match s
    case Text(n) => Text(m + n)
    case Halfway(n) => Halfway(m + n)
    case Nonsense => Nonsense
  }

  lemma NextPrefixed(m: seq<byte>, s: Spelling, b: byte)
    ensures Next(Prefixed(m, s), b) == Prefixed(m, Next(s, b))
  {
    if !s.Nonsense? {
      assert forall c: byte :: (m + s.msg) + [c] == m + (s.msg + [c]);
    }
  }

  lemma {:induction false} SpellMore(xs: seq<byte>, ys: seq<byte>, m: seq<byte>)
    requires Spell(xs) == Text(m)
    ensures Spell(xs + ys) == Prefixed(m, Spell(ys))
    decreases |ys|
  {
    if ys == [] {
      assert xs + ys == xs && m + [] == m;
    } else {
      assert (xs + ys)[..|xs + ys| - 1] == xs + ys[..|ys| - 1];
      SpellMore(xs, ys[..|ys| - 1], m);
      NextPrefixed(m, Spell(ys[..|ys| - 1]), ys[|ys| - 1]);
    }
  }

  lemma SpellOne(a: byte)
    ensures Spell([a]) == Next(Text([]), a)
  {
    assert [a][..0] == [];
  }

  lemma SpellTwo(a: byte, b: byte)
    ensures Spell([a, b]) == Next(Next(Text([]), a), b)
  {
    assert [a, b][..1] == [a];
    SpellOne(a);
  }

  lemma SlipByteSpells(b: byte, oof: bool)
    ensures Spell(SlipByte(b, oof)) == Text([b])
  {
    var s := SlipByte(b, oof);
    assert [] + [b] == [b];
    if |s| == 1 { SpellOne(s[0]); } else { SpellTwo(s[0], s[1]); }
  }

  lemma Snoc(msg: seq<byte>)
    requires msg != []
    ensures msg[..|msg| - 1] + [msg[|msg| - 1]] == msg
  {
  }

  /** Escaped bytes spell the message that was escaped. */
  lemma {:induction false} SlipSpells(msg: seq<byte>, oof: bool)
    ensures Spell(Slip(msg, oof)) == Text(msg)
    decreases |msg|
  {
    if msg != [] {
      var init, last := msg[..|msg| - 1], msg[|msg| - 1];
      SlipSpells(init, oof);
      SlipByteSpells(last, oof);
      SpellConcat(Slip(init, oof), SlipByte(last, oof), init, [last]);
      Snoc(msg);
    }
  }

  /** What is sent for a packet is, between two delimiters, a whole message that stands for the packet. */
  lemma EncodesWhole(f: Frame, oof: bool) returns (xs: seq<byte>)
    requires f.Valid()
    ensures Encode(f, oof) == [0xC0] + xs + [0xC0] && 0xC0 !in xs
    ensures Spell(xs).Text? && Whole(Spell(xs).msg, f.seqNo) && Meaning(Spell(xs).msg) == f
  {
    xs := Slip(Content(f), oof);
    SlipSpells(Content(f), oof);
    ContentWhole(f);
  }

  lemma ContentWhole(f: Frame)
    requires f.Valid()
    ensures Whole(Content(f), f.seqNo) && Meaning(Content(f)) == f
  {
    var m := Content(f);
    HeaderRoundTrip(f);
    S.ParsesBack(f);
    assert m[0] == Header(f)[0] && m[1] == Header(f)[1] && m[2] == Header(f)[2] && m[3] == Header(f)[3];
    CompleteIsWhole(m, f.seqNo);
    if f.crc {
      S.CheckAccepted(f, MessageCrc(Header(f) + f.data));
      assert m[..|m| - 2] == Header(f) + f.data;
      TableCrcIsSerialCrc(m[..|m| - 2]);
    }
  }
}
