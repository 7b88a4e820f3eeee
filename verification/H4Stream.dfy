/** H4 framing (Core Specification, Volume 4, Part A): a byte stream as the packets it holds, and the checks that
    hci_hal_h4.c applies to a packet. */
module H4Stream {
  import opened Bytes

  const DATA_TYPE_NONE: byte := 0
  const DATA_TYPE_ACL: byte := 2
  const DATA_TYPE_EVENT: byte := 4
  const HCI_BLE_EVENT: byte := 0x3E

  predicate Known(kind: byte) {
    kind == DATA_TYPE_ACL || kind == DATA_TYPE_EVENT
  }

  /** sizeof of the header */
  function HdrLen(kind: byte): nat {
    if kind == DATA_TYPE_ACL then 4 else 2
  }

  /** The payload length that a header announces. */
  function Announced(kind: byte, hdr: seq<byte>): nat
    requires |hdr| >= HdrLen(kind)
  {
    if kind == DATA_TYPE_ACL then hdr[2] as int + 256 * hdr[3] as int else hdr[1] as int
  }

  /** The length of the packet that s starts with, once its header is there. */
  function Total(s: seq<byte>): nat
    requires s != [] && |s| >= 1 + HdrLen(s[0])
  {
    1 + HdrLen(s[0]) + Announced(s[0], s[1..])
  }

  /** `fits`: no packet met so far is longer than 16 bits can tell. */
  datatype Parsed = Parsed(packets: seq<seq<byte>>, rest: seq<byte>, fits: bool)

  /** The stream as packets, each with its type octet; octets that are no known type are skipped between packets. */
  function Parse(s: seq<byte>): Parsed
    decreases |s|
  {
    if s == [] then Parsed([], [], true)
    else if !Known(s[0]) then Parse(s[1..])
    else if |s| < 1 + HdrLen(s[0]) then Parsed([], s, true)
    else if Total(s) >= 0x10000 then Parsed([], s, false)
    else if |s| < Total(s) then Parsed([], s, true)
    else
      var p := Parse(s[Total(s)..]);
      Parsed([s[..Total(s)]] + p.packets, p.rest, p.fits)
  }

  /** What is parsed is settled: more octets only continue from what was left over. */
  lemma {:induction false} ParseAppend(s: seq<byte>, t: seq<byte>)
    ensures Parse(s + t).fits ==> Parse(s).fits
    ensures Parse(s).fits ==>
      var p, q := Parse(s), Parse(Parse(s).rest + t);
      Parse(s + t) == Parsed(p.packets + q.packets, q.rest, q.fits)
    decreases |s|
  {
    if s == [] {
      assert s + t == t;
    } else if !Known(s[0]) {
      assert (s + t)[1..] == s[1..] + t;
      ParseAppend(s[1..], t);
    } else if |s| >= 1 + HdrLen(s[0]) {
      SameTotal(s, t);
      if Total(s) < 0x10000 && Total(s) <= |s| {
        ParseAppend(s[Total(s)..], t);
        Cut(s, t, Total(s));
        Regroup(s[..Total(s)], Parse(s[Total(s)..]).packets, Parse(Parse(s).rest + t).packets);
      }
    }
  }

  lemma SameTotal(s: seq<byte>, t: seq<byte>)
    requires s != [] && |s| >= 1 + HdrLen(s[0])
    ensures Total(s + t) == Total(s)
  {
    assert (s + t)[1..] == s[1..] + t;
  }

  lemma Cut(s: seq<byte>, t: seq<byte>, k: nat)
    requires k <= |s|
    ensures (s + t)[..k] == s[..k] && (s + t)[k..] == s[k..] + t
  {
  }

  lemma Regroup(a: seq<byte>, b: seq<seq<byte>>, c: seq<seq<byte>>)
    ensures ([a] + b) + c == [a] + (b + c)
  {
  }

  /** A packet exactly as long as its header says. */
  ghost predicate Whole(p: seq<byte>) {
    p != [] && Known(p[0]) && |p| >= 1 + HdrLen(p[0]) && |p| == Total(p) < 0x10000
  }

  /** A packet that ends with its header. */
  predicate Bare(p: seq<byte>) {
    p != [] && |p| == 1 + HdrLen(p[0])
  }

  lemma {:induction false} ParsedAreWhole(s: seq<byte>)
    ensures forall p :: p in Parse(s).packets ==> Whole(p)
    decreases |s|
  {
    if s != [] {
      if !Known(s[0]) {
        ParsedAreWhole(s[1..]);
      } else if |s| >= 1 + HdrLen(s[0]) && Total(s) < 0x10000 && |s| >= Total(s) {
        ParsedAreWhole(s[Total(s)..]);
        SameTotal(s[..Total(s)], s[Total(s)..]);
        assert s[..Total(s)] + s[Total(s)..] == s;
      }
    }
  }

  /** Whole packets sent back to back come out as they went in. */
  function Concat(ps: seq<seq<byte>>): seq<byte> {
    if ps == [] then [] else ps[0] + Concat(ps[1..])
  }

  lemma {:induction false} ParseConcat(ps: seq<seq<byte>>)
    requires forall p :: p in ps ==> Whole(p)
    ensures Parse(Concat(ps)) == Parsed(ps, [], true)
    decreases |ps|
  {
    if ps != [] {
      var p, t := ps[0], Concat(ps[1..]);
      assert Whole(p);
      ParseConcat(ps[1..]);
      PacketFirst(p, t);
      assert [p] + ps[1..] == ps;
    }
  }

  // ----- streams as they are made

  /** A data packet: type 2, handle, length in two octets, and that many. */
  predicate DataFrame(p: seq<byte>) {
    |p| >= 5 && p[0] == 2 && |p| == 5 + p[3] as int + 256 * p[4] as int
  }

  /** An event: type 4, code, length in one octet, and that many. */
  predicate EventFrame(p: seq<byte>) {
    |p| >= 3 && p[0] == 4 && |p| == 3 + p[2] as int
  }

  lemma WholeIs(p: seq<byte>)
    ensures Whole(p) <==> (DataFrame(p) || EventFrame(p)) && |p| < 0x10000
  {
  }

  /** What may come down the line: a packet, or an octet that begins none. */
  datatype Piece = Noise(x: byte) | Frame(p: seq<byte>)

  predicate Proper(piece: Piece) {
    match piece
    case Noise(x) => x != 2 && x != 4
    case Frame(p) => (DataFrame(p) || EventFrame(p)) && |p| < 0x10000
  }

  function Line(pieces: seq<Piece>): seq<byte> {
    if pieces == [] then []
    else (match pieces[0] case Noise(x) => [x] case Frame(p) => p) + Line(pieces[1..])
  }

  function Carried(pieces: seq<Piece>): seq<seq<byte>> {
    if pieces == [] then []
    else (match pieces[0] case Noise(_) => [] case Frame(p) => [p]) + Carried(pieces[1..])
  }

  /** A packet of which octets are missing, or nothing. */
  predicate Unfinished(r: seq<byte>) {
    || r == []
    || (r[0] == 2 && (|r| < 5 || |r| < 5 + r[3] as int + 256 * r[4] as int < 0x10000))
    || (r[0] == 4 && (|r| < 3 || |r| < 3 + r[2] as int))
  }

  lemma ParseUnfinished(r: seq<byte>)
    requires Unfinished(r)
    ensures Parse(r) == Parsed([], r, true)
  {
  }

  lemma NoiseFirst(x: byte, t: seq<byte>)
    requires !Known(x)
    ensures Parse([x] + t) == Parse(t)
  {
    assert ([x] + t)[1..] == t;
  }

  lemma PacketFirst(p: seq<byte>, t: seq<byte>)
    requires Whole(p)
    ensures var q := Parse(t); Parse(p + t) == Parsed([p] + q.packets, q.rest, q.fits)
  {
    SameTotal(p, t);
    assert (p + t)[..|p|] == p && (p + t)[|p|..] == t;
  }

  lemma Associative(a: seq<byte>, b: seq<byte>, c: seq<byte>)
    ensures (a + b) + c == a + (b + c)
  {
  }

  /** Exactly the packets come out, whatever lies between them, and what is unfinished is left. */
  lemma {:induction false} ParsesAsMade(pieces: seq<Piece>, r: seq<byte>)
    requires (forall i :: 0 <= i < |pieces| ==> Proper(pieces[i])) && Unfinished(r)
    ensures Parse(Line(pieces) + r) == Parsed(Carried(pieces), r, true)
    decreases |pieces|
  {
    if pieces == [] {
      assert [] + r == r;
      ParseUnfinished(r);
    } else {
      assert Proper(pieces[0]);
      ParsesAsMade(pieces[1..], r);
      match pieces[0]
      case Noise(x) =>
        Associative([x], Line(pieces[1..]), r);
        NoiseFirst(x, Line(pieces[1..]) + r);
      case Frame(p) =>
        Associative(p, Line(pieces[1..]), r);
        WholeIs(p);
        PacketFirst(p, Line(pieces[1..]) + r);
    }
  }

  // ----- hci_hal_h4_hdl_rx_packet

  /** preamble_sizes */
  function Preamble(kind: byte): nat
    requires 1 <= kind <= 4
  {
    if kind == 1 then 3 else if kind == 2 then 4 else if kind == 3 then 3 else 2
  }

  /** outbound_event_types */
  function Outbound(kind: byte): nat
    requires 1 <= kind <= 4
  {
    if kind == 1 then 0x1300 else if kind == 2 then 0x1100 else if kind == 3 then 0x1200 else 0x1000
  }

  /** A packet of a kind that is received, as long as its preamble says. */
  predicate Checked(p: seq<byte>) {
    && p != [] && 2 <= p[0] <= 4
    && |p| - 1 >= Preamble(p[0])
    && |p| - 1 == Preamble(p[0]) +
         if p[0] == DATA_TYPE_ACL then p[3] as int + 256 * p[4] as int else p[Preamble(p[0])] as int
  }

  /** Every packet that framing produces passes. */
  lemma WholeIsChecked(p: seq<byte>)
    requires Whole(p)
    ensures Checked(p)
  {
  }

  /** What is handed up of a packet: its kind of message and its octets without the type. */
  function Up(p: seq<byte>): (nat, seq<byte>)
    requires p != [] && 1 <= p[0] <= 4
  {
    (Outbound(p[0]), p[1..])
  }

  /** Data packets and events go up under their own numbers. */
  lemma UpIs(p: seq<byte>)
    requires Whole(p)
    ensures Up(p) == (if p[0] == 2 then 0x1100 else 0x1000, p[1..])
  {
  }

  function Ups(ps: seq<seq<byte>>): seq<(nat, seq<byte>)>
    requires forall i :: 0 <= i < |ps| ==> ps[i] != [] && 1 <= ps[i][0] <= 4
  {
    seq(|ps|, i requires 0 <= i < |ps| => Up(ps[i]))
  }

  lemma UpsAppend(ps: seq<seq<byte>>, p: seq<byte>)
    requires forall i :: 0 <= i < |ps| ==> ps[i] != [] && 1 <= ps[i][0] <= 4
    requires p != [] && 1 <= p[0] <= 4
    ensures Ups(ps + [p]) == Ups(ps) + [Up(p)]
  {
  }

  // ----- a packet that is coming in

  /** The beginning of a packet, one octet short of whole at most. */
  ghost predicate Begun(r: seq<byte>) {
    && r != [] && Known(r[0])
    && (|r| >= 1 + HdrLen(r[0]) ==> |r| < Total(r) < 0x10000)
  }

  lemma ParseBegun(r: seq<byte>)
    requires Begun(r)
    ensures Parse(r) == Parsed([], r, true)
  {
  }

  lemma ParseWhole(p: seq<byte>)
    requires Whole(p)
    ensures Parse(p) == Parsed([p], [], true)
  {
    assert p[..|p|] == p && p[|p|..] == [];
  }

  /** The stream so far, when d more octets leave the packet unfinished, or finish it. */
  lemma ParseMore(s: seq<byte>, d: seq<byte>)
    requires Parse(s).fits
    ensures var r := Parse(s).rest + d;
      && (Begun(r) ==> Parse(s + d) == Parsed(Parse(s).packets, r, true))
      && (Whole(r) ==> Parse(s + d) == Parsed(Parse(s).packets + [r], [], true))
  {
    ParseAppend(s, d);
    var r := Parse(s).rest + d;
    if Begun(r) {
      ParseBegun(r);
      assert Parse(s).packets + [] == Parse(s).packets;
    }
    if Whole(r) { ParseWhole(r); }
  }

  /** Octets that are no type are skipped. */
  lemma ParseSkip(s: seq<byte>, x: byte)
    requires Parse(s).fits && Parse(s).rest == [] && !Known(x)
    ensures Parse(s + [x]) == Parse(s)
  {
    ParseAppend(s, [x]);
    assert [] + [x] == [x] && [x][1..] == [];
    assert Parse(s).packets + [] == Parse(s).packets;
  }

  /** Reading moves octets from what is to come to what has come. */
  lemma Read(c: seq<byte>, i: seq<byte>, d: seq<byte>, j: seq<byte>)
    requires i == d + j && Parse(c + i).fits
    ensures (c + d) + j == c + i && Parse(c).fits && Parse(c + d).fits && Parse(Parse(c).rest + d).fits
    ensures d == [] ==> c + d == c
  {
    assert (c + d) + j == c + i;
    ParseAppend(c, i);
    ParseAppend(c + d, j);
    ParseAppend(c, d);
  }

  /** A receiver that has read c with i still to come has handed up ps; it holds the octets r of a packet, which is
      `owed` when it is whole. */
  ghost predicate InSync(c: seq<byte>, i: seq<byte>, ps: seq<seq<byte>>, up: seq<(nat, seq<byte>)>,
                         owed: bool, r: seq<byte>)
  {
    && Parse(c + i).fits
    && (forall k :: 0 <= k < |ps| ==> Whole(ps[k]))
    && up == Ups(ps)
    && Parse(c) == if owed then Parsed(ps + [r], [], true) else Parsed(ps, r, true)
  }

  lemma SyncRead(c: seq<byte>, i: seq<byte>, ps: seq<seq<byte>>, up: seq<(nat, seq<byte>)>, r: seq<byte>,
                 d: seq<byte>, j: seq<byte>)
    requires InSync(c, i, ps, up, false, r) && i == d + j
    ensures c + i == (c + d) + j && Parse(r + d).fits
    ensures d == [] ==> InSync(c + d, j, ps, up, false, r)
    ensures Begun(r + d) ==> InSync(c + d, j, ps, up, false, r + d)
    ensures Whole(r + d) ==> InSync(c + d, j, ps, up, true, r + d)
  {
    Read(c, i, d, j);
    ParseMore(c, d);
  }

  lemma SyncSkip(c: seq<byte>, i: seq<byte>, ps: seq<seq<byte>>, up: seq<(nat, seq<byte>)>, x: byte, j: seq<byte>)
    requires InSync(c, i, ps, up, false, []) && i == [x] + j && !Known(x)
    ensures c + i == (c + [x]) + j && InSync(c + [x], j, ps, up, false, [])
  {
    Read(c, i, [x], j);
    ParseSkip(c, x);
  }

  lemma SyncUp(c: seq<byte>, i: seq<byte>, ps: seq<seq<byte>>, up: seq<(nat, seq<byte>)>, r: seq<byte>)
    requires InSync(c, i, ps, up, true, r) && Whole(r)
    ensures InSync(c, i, ps + [r], up + [Up(r)], false, [])
  {
    UpsAppend(ps, r);
  }
}
