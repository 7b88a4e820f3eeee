/**
 ACL packets (Core Specification, Volume 2, Part E, section 5.4.2): how packet_fragmenter.c cuts one up and puts it
 together again, as functions on bytes, and the round trip for any interleaving of connection handles.
 */
module AclFragments {
  import opened Bytes

  const PREAMBLE := 4       // HCI_ACL_PREAMBLE_SIZE: handle and data length
  const L2CAP_HEADER := 4   // L2CAP_HEADER_SIZE

  function U16(lo: byte, hi: byte): nat {
    lo as int + 256 * hi as int
  }

  function Le16(x: nat): (r: seq<byte>)
    requires x < 0x10000
    ensures |r| == 2 && U16(r[0], r[1]) == x
  {
    [x % 256, x / 256]
  }

  function Handle(v: seq<byte>): nat requires |v| >= 4 { U16(v[0], v[1]) }
  function AclLength(v: seq<byte>): nat requires |v| >= 4 { U16(v[2], v[3]) }
  function L2capLength(v: seq<byte>): nat requires |v| >= 6 { U16(v[4], v[5]) }

  /** GET_BOUNDARY_FLAG, HANDLE_MASK and APPLY_CONTINUATION_FLAG. */
  function Flag(handle: nat): nat { handle / 0x1000 % 4 }
  function Connection(handle: nat): nat { handle % 0x1000 }
  function Continuation(handle: nat): (r: nat)
    requires handle < 0x10000
    ensures r < 0x10000 && Flag(r) == CONTINUATION && Connection(r) == Connection(handle)
  {
    handle / 0x4000 * 0x4000 + 0x1000 + handle % 0x1000
  }

  const START := 2
  const CONTINUATION := 1

  lemma ContinuationTwice(handle: nat)
    requires handle < 0x10000
    ensures Continuation(Continuation(handle)) == Continuation(handle)
  {
  }

  /** The masks of the source, on the 16 bits they work on. */
  lemma MasksAgree(handle: bv16)
    ensures (handle & 0xCFFF) | 0x1000 == handle / 0x4000 * 0x4000 + 0x1000 + handle % 0x1000
    ensures (handle >> 12) & 0x0003 == handle / 0x1000 % 4
    ensures handle & 0x0FFF == handle % 0x1000
  {
  }

  // ----- fragmentation

  /** The fragment sent when a packet is too long: its own handle, the maximal length, and as much data. */
  function First(v: seq<byte>, max: nat): (f: seq<byte>)
    requires |v| > max + PREAMBLE && max < 0x10000
    ensures |f| == max + PREAMBLE && AclLength(f) == max && f[4..] == v[4..4 + max]
    ensures Handle(f) == Handle(v)
  {
    v[..2] + Le16(max) + v[4..4 + max]
  }

  /** What is left to send: a packet of its own, flagged as a continuation. */
  function Rest(v: seq<byte>, max: nat): (r: seq<byte>)
    requires |v| > max + PREAMBLE && |v| < 0x10000
    ensures |r| == |v| - max && AclLength(r) == |r| - PREAMBLE && r[4..] == v[4 + max..]
    ensures Handle(r) == Continuation(Handle(v))
  {
    Le16(Continuation(Handle(v))) + Le16(|v| - max - PREAMBLE) + v[4 + max..]
  }

  /** A packet whose length field tells its length. */
  ghost predicate WellFormed(v: seq<byte>) {
    PREAMBLE <= |v| < 0x10000 && AclLength(v) == |v| - PREAMBLE
  }

  /** fragment_and_dispatch, repeated until there is nothing left or the budget `segments` (0: none) is used up.
      The result is what was sent, and what is handed back unsent. */
  function Fragments(v: seq<byte>, max: nat, segments: nat): (r: (seq<seq<byte>>, Option<seq<byte>>))
    requires 1 <= max < 0x10000 && |v| < 0x10000
    decreases |v|
  {
    if |v| <= max + PREAMBLE then ([v], None)
    else if segments == 1 then ([First(v, max)], Some(Rest(v, max)))
    else
      var (fs, back) := Fragments(Rest(v, max), max, if segments == 0 then 0 else segments - 1);
      ([First(v, max)] + fs, back)
  }

  /** The data of the fragments, in order. */
  function Payload(fs: seq<seq<byte>>): seq<byte>
    requires forall f :: f in fs ==> |f| >= PREAMBLE
  {
    if fs == [] then [] else fs[0][4..] + Payload(fs[1..])
  }

  ghost predicate Fragment(f: seq<byte>, max: nat) {
    WellFormed(f) && |f| <= max + PREAMBLE
  }

  function Data(back: Option<seq<byte>>): seq<byte>
    requires back.Some? ==> |back.value| >= PREAMBLE
  {
    if back.Some? then back.value[4..] else []
  }

  /** Nothing is lost or repeated: what is sent and what is handed back make up the packet's data; every fragment is a
      well-formed packet that fits; all but the first continue; and no more are sent than the budget allows. */
  ghost predicate Conserved(v: seq<byte>, max: nat, segments: nat, fs: seq<seq<byte>>, back: Option<seq<byte>>)
    requires |v| >= PREAMBLE && |v| < 0x10000
  {
    && (forall f :: f in fs ==> Fragment(f, max))
    && (back.Some? ==> WellFormed(back.value) && Handle(back.value) == Continuation(Handle(v)))
    && Payload(fs) + Data(back) == v[4..]
    && |fs| >= 1 && Handle(fs[0]) == Handle(v)
    && (forall i :: 1 <= i < |fs| ==> Handle(fs[i]) == Continuation(Handle(v)))
    && (segments > 0 ==> |fs| <= segments && (back.Some? ==> |fs| == segments))
    && (segments == 0 ==> back.None?)
  }

  lemma PayloadOne(f: seq<byte>)
    requires |f| >= PREAMBLE
    ensures Payload([f]) == f[4..]
  {
    assert Payload([f]) == f[4..] + Payload([]);
  }

  lemma PayloadMore(f: seq<byte>, fs: seq<seq<byte>>)
    requires |f| >= PREAMBLE && forall g :: g in fs ==> |g| >= PREAMBLE
    ensures Payload([f] + fs) == f[4..] + Payload(fs)
  {
    assert ([f] + fs)[1..] == fs;
  }

  /** A fragment in front of those of the rest. */
  lemma ConserveMore(v: seq<byte>, max: nat, segments: nat, fs: seq<seq<byte>>, back: Option<seq<byte>>)
    requires WellFormed(v) && 1 <= max && max + PREAMBLE < |v| && segments != 1
    requires Conserved(Rest(v, max), max, if segments == 0 then 0 else segments - 1, fs, back)
    ensures Conserved(v, max, segments, [First(v, max)] + fs, back)
  {
    var f, r, all := First(v, max), Rest(v, max), [First(v, max)] + fs;
    ContinuationTwice(Handle(v));
    PayloadMore(f, fs);
    Regroup(f[4..], Payload(fs), Data(back));
    DataSplit(v, max);
    forall i | 1 <= i < |all| ensures Handle(all[i]) == Continuation(Handle(v)) {
      assert all[i] == fs[i - 1];
    }
  }

  lemma DataSplit(v: seq<byte>, max: nat)
    requires max + PREAMBLE < |v| < 0x10000
    ensures First(v, max)[4..] + Rest(v, max)[4..] == v[4..]
  {
    assert v[4..4 + max] + v[4 + max..] == v[4..];
  }

  lemma {:induction false} FragmentsConserve(v: seq<byte>, max: nat, segments: nat)
    requires WellFormed(v) && 1 <= max && max + PREAMBLE < 0x10000
    ensures Conserved(v, max, segments, Fragments(v, max, segments).0, Fragments(v, max, segments).1)
    decreases |v|
  {
    if |v| <= max + PREAMBLE {
      PayloadOne(v);
      assert v[4..] + [] == v[4..];
    } else if segments == 1 {
      PayloadOne(First(v, max));
      DataSplit(v, max);
    } else {
      var left := if segments == 0 then 0 else segments - 1;
      FragmentsConserve(Rest(v, max), max, left);
      ConserveMore(v, max, segments, Fragments(Rest(v, max), max, left).0, Fragments(Rest(v, max), max, left).1);
    }
  }

  lemma Regroup(a: seq<byte>, b: seq<byte>, c: seq<byte>)
    ensures (a + b) + c == a + (b + c)
  {
  }

  /** Byte by byte: the fragment keeps the handle and its flags; what is left continues it, as the boundary flag says,
      for the same connection and with the same broadcast flag. */
  lemma FragmentBytes(v: seq<byte>, max: nat)
    requires max + 4 < |v| < 0x10000
    ensures First(v, max) == [v[0], v[1], max % 256, max / 256] + v[4..4 + max]
    ensures var n := |v| - max - 4;
      Rest(v, max) == [v[0], v[1] / 64 * 64 + 16 + v[1] % 16, n % 256, n / 256] + v[4 + max..]
  {
    ContinuationBytes(v[0], v[1]);
    var h, n := Continuation(Handle(v)), |v| - max - 4;
    assert Le16(h) == [v[0], v[1] / 64 * 64 + 16 + v[1] % 16];
    assert v[..2] == [v[0], v[1]];
    assert Rest(v, max) == Le16(h) + Le16(n) + v[4 + max..];
  }

  /** A handle by its fields: broadcast flag, boundary flag and the two parts of the connection. */
  lemma HandleFields(a: nat, f: nat, g: nat, lo: nat)
    requires a < 4 && f < 4 && g < 16 && lo < 256
    ensures var h := 0x4000 * a + 0x1000 * f + 256 * g + lo;
      && h / 0x4000 == a && h / 0x1000 % 4 == f && h % 0x1000 == 256 * g + lo
      && h / 256 == 64 * a + 16 * f + g && h % 256 == lo
  {
  }

  lemma ByteFields(hi: byte)
    ensures hi == 64 * (hi / 64) + 16 * (hi / 16 % 4) + hi % 16
  {
  }

  /** Only the boundary flag becomes another. */
  lemma ContinuationFields(a: nat, f: nat, g: nat, lo: nat)
    requires a < 4 && f < 4 && g < 16 && lo < 256
    ensures Continuation(0x4000 * a + 0x1000 * f + 256 * g + lo) == 0x4000 * a + 0x1000 + 256 * g + lo
  {
    HandleFields(a, f, g, lo);
  }

  lemma ContinuationBytes(lo: byte, hi: byte)
    ensures var h := Continuation(U16(lo, hi)); h % 256 == lo && h / 256 == hi / 64 * 64 + 16 + hi % 16
  {
    var a: nat, f: nat, g: nat := hi / 64, hi / 16 % 4, hi % 16;
    ByteFields(hi);
    assert U16(lo, hi) == 0x4000 * a + 0x1000 * f + 256 * g + lo as int;
    ContinuationFields(a, f, g, lo);
    HandleFields(a, 1, g, lo);
  }

  // ----- reassembly

  /** A packet under construction: its full length, and what has come in, with the length field already corrected. */
  datatype Partial = Partial(len: nat, got: seq<byte>) {
    function Plus(x: seq<byte>): Partial {
      Partial(len, got + x)
    }
  }

  type Partials = map<nat, Partial>

  /** The expected length of a packet that starts with v, in the 16 bits the source keeps. */
  function FullLength(v: seq<byte>): nat
    requires |v| >= 6
  {
    (L2capLength(v) + L2CAP_HEADER + PREAMBLE) % 0x10000
  }

  /** The header of a first fragment, with the length of the whole packet. */
  function Corrected(v: seq<byte>, full: nat): (r: seq<byte>)
    requires |v| >= 4 && full >= PREAMBLE && full < 0x10000
    ensures |r| == |v|
  {
    v[..2] + Le16(full - PREAMBLE) + v[4..]
  }

  /** The headers the source looks at are there: a start must hold the L2CAP length. */
  predicate Readable(v: seq<byte>) {
    PREAMBLE <= |v| && (Flag(Handle(v)) == START ==> 6 <= |v|)
  }

  /** The data of a continuation, cut to what the packet under construction still lacks. */
  function Fitting(p: Partial, v: seq<byte>): (r: seq<byte>)
    requires |v| >= PREAMBLE
  {
    if |p.got| + |v| - PREAMBLE > p.len && p.len >= |p.got| then v[4..4 + p.len - |p.got|] else v[4..]
  }

  /** reassemble_and_dispatch on an ACL packet: the partial packets afterwards, and what is passed on. */
  function Reassemble(m: Partials, v: seq<byte>): (Partials, Option<seq<byte>>)
    requires Readable(v)
  {
    var c := Connection(Handle(v));
    if Flag(Handle(v)) == START then
      var full := FullLength(v);
      if full <= |v| then (m - {c}, Some(v))
      else (m[c := Partial(full, Corrected(v, full))], None)
    else if c !in m then (m, None)
    else
      var p := m[c];
      var q := p.Plus(Fitting(p, v));
      if |q.got| == q.len then (m - {c}, Some(q.got)) else (m[c := q], None)
  }

  // ----- the round trip

  /** An L2CAP packet for connection c in one ACL packet, as the host hands it down. */
  ghost predicate Whole(v: seq<byte>, c: nat) {
    && WellFormed(v) && |v| >= PREAMBLE + L2CAP_HEADER
    && L2capLength(v) + L2CAP_HEADER + PREAMBLE == |v|
    && Flag(Handle(v)) == START && Connection(Handle(v)) == c
  }

  /** Byte by byte: both length fields are right, the boundary flag says that it starts, and the rest of the first two
      bytes but the broadcast flag is the connection. */
  lemma WholeBytes(v: seq<byte>, c: nat)
    ensures Whole(v, c) <==>
      && 8 <= |v| < 0x10000
      && v[2] as int + 256 * v[3] as int == |v| - 4 && v[4] as int + 256 * v[5] as int == |v| - 8
      && v[1] / 16 % 4 == 2 && v[0] as int + 256 * (v[1] as int % 16) == c
  {
    if |v| >= 4 { HandleBytes(v[0], v[1]); }
  }

  lemma HandleBytes(lo: byte, hi: byte)
    ensures Flag(U16(lo, hi)) == hi / 16 % 4 && Connection(U16(lo, hi)) == lo as int + 256 * (hi as int % 16)
  {
    ByteFields(hi);
    HandleFields(hi / 64, hi / 16 % 4, hi % 16, lo);
  }

  /** A packet of which only `rest` is still to be sent. */
  datatype Sending = Sending(whole: seq<byte>, rest: seq<byte>)

  datatype Sender = Sender(cur: Option<Sending>, todo: seq<seq<byte>>)

  predicate Done(s: Sender) {
    s.cur == None && s.todo == []
  }

  /** Everything to be sent has a 16-bit length. */
  predicate Sized(s: Sender) {
    (s.cur.Some? ==> |s.cur.value.rest| < 0x10000) && forall i :: 0 <= i < |s.todo| ==> |s.todo[i]| < 0x10000
  }

  /** The sender's next fragment. */
  function Emit(s: Sender, max: nat): (Sender, seq<byte>)
    requires !Done(s) && max < 0x10000 && Sized(s)
  {
    var now := if s.cur.Some? then s.cur.value else Sending(s.todo[0], s.todo[0]);
    var todo := if s.cur.Some? then s.todo else s.todo[1..];
    if |now.rest| <= max + PREAMBLE then (Sender(None, todo), now.rest)
    else (Sender(Some(Sending(now.whole, Rest(now.rest, max))), todo), First(now.rest, max))
  }

  /** Every connection has a sender; the receiver has its partial packets and what it has passed on. */
  datatype System = System(senders: map<nat, Sender>, partials: Partials, out: seq<(nat, seq<byte>)>)

  /** The packets passed on for connection c, in order. */
  function Delivered(out: seq<(nat, seq<byte>)>, c: nat): seq<seq<byte>> {
    if out == [] then []
    else Delivered(out[..|out| - 1], c) + if out[|out| - 1].0 == c then [out[|out| - 1].1] else []
  }

  /** What connection c still has to see delivered. */
  function Remaining(s: Sender): seq<seq<byte>> {
    (if s.cur.Some? then [s.cur.value.whole] else []) + s.todo
  }

  ghost predicate SenderOk(s: Sender, c: nat, m: Partials) {
    && (forall i :: 0 <= i < |s.todo| ==> Whole(s.todo[i], c))
    && if s.cur.None? then c !in m
       else c in m && InProgress(s.cur.value, c, m[c])
  }

  /** What has been reassembled and what is still to be sent make up the packet. */
  ghost predicate InProgress(x: Sending, c: nat, p: Partial) {
    && Whole(x.whole, c)
    && WellFormed(x.rest) && PREAMBLE < |x.rest| < |x.whole|
    && Handle(x.rest) == Continuation(Handle(x.whole))
    && p.len == |x.whole|
    && 0 < |p.got| < p.len && |p.got| >= 6
    && p.got + x.rest[4..] == x.whole
  }

  ghost predicate SystemOk(y: System, orig: map<nat, seq<seq<byte>>>) {
    && y.senders.Keys == orig.Keys && y.partials.Keys <= orig.Keys
    && (forall c :: c in orig ==> SenderOk(y.senders[c], c, y.partials))
    && (forall c :: c in orig ==> Delivered(y.out, c) + Remaining(y.senders[c]) == orig[c])
  }

  /** The sender of connection c sends its next fragment, and the receiver takes it. */
  function Step(y: System, c: nat, max: nat): System
    requires max < 0x10000
  {
    if c !in y.senders || Done(y.senders[c]) || !Sized(y.senders[c]) then y
    else
      var (s', f) := Emit(y.senders[c], max);
      if !Readable(f) then y
      else
        var (m, d) := Reassemble(y.partials, f);
        System(y.senders[c := s'], m, if d.Some? then y.out + [(Connection(Handle(f)), d.value)] else y.out)
  }

  function Run(y: System, schedule: seq<nat>, max: nat): System
    requires max < 0x10000
    decreases |schedule|
  {
    if schedule == [] then y else Run(Step(y, schedule[0], max), schedule[1..], max)
  }

  // ----- one fragment at a time

  lemma Split(v: seq<byte>, k: nat)
    requires 4 <= k <= |v|
    ensures v[..k] + v[k..] == v
  {
  }

  /** The first fragment tells the length of the packet, and with its length field corrected it is how that begins. */
  lemma CorrectedFirst(c: nat, v: seq<byte>, max: nat)
    requires Whole(v, c) && 2 <= max && max + PREAMBLE < |v|
    ensures var f := First(v, max); FullLength(f) == |v| && Corrected(f, |v|) == v[..4 + max]
  {
    FirstLength(c, v, max);
    LengthBytes(v);
    Uncut(v, Le16(max), Le16(|v| - PREAMBLE), 4 + max);
  }

  lemma FirstLength(c: nat, v: seq<byte>, max: nat)
    requires Whole(v, c) && 2 <= max && max + PREAMBLE < |v|
    ensures FullLength(First(v, max)) == |v|
  {
    var f := First(v, max);
    assert f[4] == f[4..][0] == v[4] && f[5] == f[4..][1] == v[5];
  }

  /** The length field, byte by byte. */
  lemma LengthBytes(v: seq<byte>)
    requires WellFormed(v)
    ensures Le16(|v| - PREAMBLE) == v[2..4]
  {
    var x, lo, hi := |v| - PREAMBLE, v[2] as int, v[3] as int;
    assert x % 256 == lo && x / 256 == hi;
  }

  lemma Uncut(v: seq<byte>, len: seq<byte>, right: seq<byte>, k: nat)
    requires 4 <= k <= |v| && |len| == 2 && right == v[2..4]
    ensures var f := v[..2] + len + v[4..k]; f[..2] + right + f[4..] == v[..k]
  {
    var f := v[..2] + len + v[4..k];
    assert f[..2] == v[..2] && f[4..] == v[4..k];
  }

  /** The first fragment of a long packet opens a partial packet. */
  lemma TakeFirst(m: Partials, c: nat, v: seq<byte>, max: nat)
    requires Whole(v, c) && 2 <= max && max + PREAMBLE < |v|
    ensures var f, r := First(v, max), Rest(v, max);
      && Readable(f)
      && Reassemble(m, f) == (m[c := Partial(|v|, v[..4 + max])], None)
      && InProgress(Sending(v, r), c, Partial(|v|, v[..4 + max]))
  {
    CorrectedFirst(c, v, max);
    Split(v, 4 + max);
  }

  /** A packet that fits passes straight through. */
  lemma TakeWhole(m: Partials, c: nat, v: seq<byte>)
    requires Whole(v, c)
    ensures Readable(v) && Reassemble(m, v) == (m - {c}, Some(v))
  {
  }

  /** A continuation that leaves the packet unfinished extends it. */
  lemma Extend(m: Partials, c: nat, f: seq<byte>)
    requires |f| >= PREAMBLE && Flag(Handle(f)) == CONTINUATION && Connection(Handle(f)) == c
    requires c in m && |m[c].got| + |f| - PREAMBLE < m[c].len
    ensures Reassemble(m, f) == (m[c := Partial(m[c].len, m[c].got + f[4..])], None)
  {
  }

  /** A further fragment that is not the last extends the partial packet. */
  lemma TakeMiddle(m: Partials, c: nat, x: Sending, max: nat)
    requires c in m && InProgress(x, c, m[c]) && 2 <= max && max + PREAMBLE < |x.rest|
    ensures var f, r, p := First(x.rest, max), Rest(x.rest, max), Partial(m[c].len, m[c].got + x.rest[4..4 + max]);
      && Readable(f) && Connection(Handle(f)) == c
      && Reassemble(m, f) == (m[c := p], None)
      && InProgress(Sending(x.whole, r), c, p)
  {
    var f, r := First(x.rest, max), Rest(x.rest, max);
    Extend(m, c, f);
    ContinuationTwice(Handle(x.whole));
    Thirds(m[c].got, x.rest, 4 + max);
  }

  lemma Thirds(got: seq<byte>, v: seq<byte>, k: nat)
    requires 4 <= k <= |v|
    ensures (got + v[4..k]) + v[k..] == got + v[4..]
  {
  }

  /** The last fragment completes the packet. */
  lemma TakeLast(m: Partials, c: nat, x: Sending)
    requires c in m && InProgress(x, c, m[c])
    ensures Readable(x.rest) && Reassemble(m, x.rest) == (m - {c}, Some(x.whole))
  {
  }

  /** One fragment of connection c moves its sender and its partial packet on, and changes no other. */
  ghost predicate Moved(s: Sender, c: nat, m: Partials, max: nat)
    requires !Done(s) && max < 0x10000
  {
    Sized(s) &&
    var (s', f) := Emit(s, max);
    && Readable(f) && Connection(Handle(f)) == c
    && var (m', d) := Reassemble(m, f);
    && SenderOk(s', c, m')
    && m' - {c} == m - {c} && m'.Keys <= m.Keys + {c}
    && (if d.Some? then [d.value] else []) + Remaining(s') == Remaining(s)
  }

  lemma HeadTail(s: seq<seq<byte>>)
    requires s != []
    ensures [s[0]] + s[1..] == s
  {
  }

  lemma StartOne(s: Sender, c: nat, m: Partials, max: nat)
    requires SenderOk(s, c, m) && s.cur.None? && s.todo != [] && 2 <= max && max + PREAMBLE < 0x10000
    ensures Moved(s, c, m, max)
  {
    var v := s.todo[0];
    assert Whole(v, c);
    if |v| <= max + PREAMBLE {
      TakeWhole(m, c, v);
      Absent(m, c);
      StartShort(s, c, m, max);
    } else {
      TakeFirst(m, c, v, max);
      StartLong(s, c, m, max, v[..4 + max]);
    }
  }

  lemma Absent(m: Partials, c: nat)
    requires c !in m
    ensures m - {c} == m
  {
  }

  lemma StartShort(s: Sender, c: nat, m: Partials, max: nat)
    requires SenderOk(s, c, m) && s.cur.None? && s.todo != [] && 2 <= max && max + PREAMBLE < 0x10000
    requires Whole(s.todo[0], c) && |s.todo[0]| <= max + PREAMBLE && Readable(s.todo[0])
    requires Reassemble(m, s.todo[0]) == (m, Some(s.todo[0]))
    ensures Moved(s, c, m, max)
  {
    var s' := Sender(None, s.todo[1..]);
    assert Emit(s, max) == (s', s.todo[0]);
    Join([], s.todo[1..], []);
    HeadTail(s.todo);
    assert Remaining(s') == s.todo[1..] && Remaining(s) == s.todo;
  }

  lemma StartLong(s: Sender, c: nat, m: Partials, max: nat, got: seq<byte>)
    requires SenderOk(s, c, m) && s.cur.None? && s.todo != [] && 2 <= max && max + PREAMBLE < 0x10000
    requires Whole(s.todo[0], c) && |s.todo[0]| > max + PREAMBLE && Readable(First(s.todo[0], max))
    requires var v, p := s.todo[0], Partial(|s.todo[0]|, got);
      Reassemble(m, First(v, max)) == (m[c := p], None) && InProgress(Sending(v, Rest(v, max)), c, p)
    ensures Moved(s, c, m, max)
  {
    var v, p := s.todo[0], Partial(|s.todo[0]|, got);
    var s' := Sender(Some(Sending(v, Rest(v, max))), s.todo[1..]);
    assert Emit(s, max) == (s', First(v, max));
    assert Remaining(s') == s.todo by { HeadTail(s.todo); }
    assert m[c := p] - {c} == m - {c};
  }

  lemma ContinueOne(s: Sender, c: nat, m: Partials, max: nat)
    requires SenderOk(s, c, m) && s.cur.Some? && 2 <= max && max + PREAMBLE < 0x10000
    ensures Moved(s, c, m, max)
  {
    var x := s.cur.value;
    if |x.rest| <= max + PREAMBLE {
      TakeLast(m, c, x);
      ContinueLast(s, c, m, max);
    } else {
      TakeMiddle(m, c, x, max);
      ContinueMore(s, c, m, max, m[c].got + x.rest[4..4 + max]);
    }
  }

  lemma ContinueLast(s: Sender, c: nat, m: Partials, max: nat)
    requires SenderOk(s, c, m) && s.cur.Some? && 2 <= max && max + PREAMBLE < 0x10000
    requires |s.cur.value.rest| <= max + PREAMBLE && Readable(s.cur.value.rest)
    requires Reassemble(m, s.cur.value.rest) == (m - {c}, Some(s.cur.value.whole))
    ensures Moved(s, c, m, max)
  {
    var s' := Sender(None, s.todo);
    assert Emit(s, max) == (s', s.cur.value.rest);
    assert Remaining(s') == s.todo && Remaining(s) == [s.cur.value.whole] + s.todo;
    assert m - {c} - {c} == m - {c};
  }

  lemma ContinueMore(s: Sender, c: nat, m: Partials, max: nat, got: seq<byte>)
    requires SenderOk(s, c, m) && s.cur.Some? && 2 <= max && max + PREAMBLE < 0x10000
    requires |s.cur.value.rest| > max + PREAMBLE && Readable(First(s.cur.value.rest, max))
    requires Connection(Handle(First(s.cur.value.rest, max))) == c
    requires var x, p := s.cur.value, Partial(m[c].len, got);
      Reassemble(m, First(x.rest, max)) == (m[c := p], None) && InProgress(Sending(x.whole, Rest(x.rest, max)), c, p)
    ensures Moved(s, c, m, max)
  {
    var x, p := s.cur.value, Partial(m[c].len, got);
    var s' := Sender(Some(Sending(x.whole, Rest(x.rest, max))), s.todo);
    assert Emit(s, max) == (s', First(x.rest, max));
    assert Remaining(s') == Remaining(s);
    assert m[c := p] - {c} == m - {c};
  }

  lemma StepOne(s: Sender, c: nat, m: Partials, max: nat)
    requires SenderOk(s, c, m) && !Done(s) && 2 <= max && max + PREAMBLE < 0x10000
    ensures Moved(s, c, m, max)
  {
    if s.cur.None? { StartOne(s, c, m, max); } else { ContinueOne(s, c, m, max); }
  }

  /** Another connection's sender does not notice. */
  lemma SenderKeeps(s: Sender, k: nat, m: Partials, c: nat, m': Partials)
    requires SenderOk(s, k, m) && k != c && m' - {c} == m - {c}
    ensures SenderOk(s, k, m')
  {
    assert (k in m') == (k in m' - {c}) == (k in m - {c}) == (k in m);
    if k in m {
      assert m'[k] == (m' - {c})[k] == (m - {c})[k] == m[k];
    }
  }

  lemma DeliveredAppend(out: seq<(nat, seq<byte>)>, c: nat, v: seq<byte>, k: nat)
    ensures Delivered(out + [(c, v)], k) == Delivered(out, k) + if k == c then [v] else []
  {
    assert (out + [(c, v)])[..|out|] == out;
  }

  lemma FragmentReads(s: Sender, c: nat, m: Partials, max: nat)
    requires SenderOk(s, c, m) && !Done(s) && 2 <= max && max + PREAMBLE < 0x10000
    ensures Sized(s) && var f := Emit(s, max).1; Readable(f) && Connection(Handle(f)) == c
  {
    StepOne(s, c, m, max);
    OkIsSized(s, c, m);
  }

  /** What a step is, when its sender has something to send. */
  lemma StepIs(y: System, orig: map<nat, seq<seq<byte>>>, c: nat, max: nat)
    requires SystemOk(y, orig) && 2 <= max && max + PREAMBLE < 0x10000
    requires c in y.senders && !Done(y.senders[c])
    ensures SenderOk(y.senders[c], c, y.partials) && Sized(y.senders[c]) && Readable(Emit(y.senders[c], max).1)
    ensures var (s', f) := Emit(y.senders[c], max);
      var (m, d) := Reassemble(y.partials, f);
      Step(y, c, max) == System(y.senders[c := s'], m, if d.Some? then y.out + [(c, d.value)] else y.out)
  {
    assert SenderOk(y.senders[c], c, y.partials);
    FragmentReads(y.senders[c], c, y.partials, max);
  }

  lemma StepOther(y: System, orig: map<nat, seq<seq<byte>>>, c: nat, max: nat, k: nat)
    requires SystemOk(y, orig) && 2 <= max && max + PREAMBLE < 0x10000
    requires c in y.senders && !Done(y.senders[c]) && k in orig && k != c
    ensures var z := Step(y, c, max);
      SenderOk(z.senders[k], k, z.partials) && Delivered(z.out, k) + Remaining(z.senders[k]) == orig[k]
  {
    StepIs(y, orig, c, max);
    var (m, d) := Reassemble(y.partials, Emit(y.senders[c], max).1);
    if d.Some? { DeliveredAppend(y.out, c, d.value, k); }
    OthersStay(y.senders[c], c, y.partials, max);
    SenderKeeps(y.senders[k], k, y.partials, c, m);
    Join(Delivered(y.out, k), [], []);
  }

  lemma OthersStay(s: Sender, c: nat, m: Partials, max: nat)
    requires SenderOk(s, c, m) && !Done(s) && 2 <= max && max + PREAMBLE < 0x10000
    requires Sized(s) && Readable(Emit(s, max).1)
    ensures Reassemble(m, Emit(s, max).1).0 - {c} == m - {c}
  {
    StepOne(s, c, m, max);
  }

  lemma StepSelf(y: System, orig: map<nat, seq<seq<byte>>>, c: nat, max: nat)
    requires SystemOk(y, orig) && 2 <= max && max + PREAMBLE < 0x10000
    requires c in y.senders && !Done(y.senders[c])
    ensures var z := Step(y, c, max);
      && SenderOk(z.senders[c], c, z.partials) && Delivered(z.out, c) + Remaining(z.senders[c]) == orig[c]
      && z.senders.Keys == y.senders.Keys && z.partials.Keys <= y.partials.Keys + {c}
  {
    StepIs(y, orig, c, max);
    StepOne(y.senders[c], c, y.partials, max);
    var (s', f) := Emit(y.senders[c], max);
    var (m, d) := Reassemble(y.partials, f);
    if d.Some? { DeliveredAppend(y.out, c, d.value, c); }
    Join(Delivered(y.out, c), if d.Some? then [d.value] else [], Remaining(s'));
  }

  lemma StepOk(y: System, orig: map<nat, seq<seq<byte>>>, c: nat, max: nat)
    requires SystemOk(y, orig) && 2 <= max && max + PREAMBLE < 0x10000
    ensures SystemOk(Step(y, c, max), orig)
  {
    if c in y.senders && !Done(y.senders[c]) {
      var z := Step(y, c, max);
      StepSelf(y, orig, c, max);
      forall k | k in orig
        ensures SenderOk(z.senders[k], k, z.partials)
        ensures Delivered(z.out, k) + Remaining(z.senders[k]) == orig[k]
      {
        if k != c { StepOther(y, orig, c, max, k); }
      }
    }
  }

  lemma Join(a: seq<seq<byte>>, b: seq<seq<byte>>, c: seq<seq<byte>>)
    ensures (a + b) + c == a + (b + c) && a + [] == a
  {
  }

  lemma {:induction false} RunOk(y: System, orig: map<nat, seq<seq<byte>>>, schedule: seq<nat>, max: nat)
    requires SystemOk(y, orig) && 2 <= max && max + PREAMBLE < 0x10000
    ensures SystemOk(Run(y, schedule, max), orig)
    decreases |schedule|
  {
    if schedule != [] {
      StepOk(y, orig, schedule[0], max);
      RunOk(Step(y, schedule[0], max), orig, schedule[1..], max);
    }
  }

  function Begin(orig: map<nat, seq<seq<byte>>>): System {
    System(map c | c in orig :: Sender(None, orig[c]), map[], [])
  }

  // ----- progress

  /** The fragments a sender still has to send. */
  ghost function Queue(s: Sender, max: nat): seq<seq<byte>>
    requires 1 <= max < 0x10000 && Sized(s)
    decreases |s.todo|, s.cur.Some?
  {
    if s.cur.Some? then Fragments(s.cur.value.rest, max, 0).0 + Queue(s.(cur := None), max)
    else if s.todo == [] then []
    else Fragments(s.todo[0], max, 0).0 + Queue(s.(todo := s.todo[1..]), max)
  }

  /** What senders emit here is what fragment_and_dispatch makes of their packets, one packet after the other. */
  lemma EmitsFragments(s: Sender, max: nat)
    requires !Done(s) && 1 <= max < 0x10000 && Sized(s)
    ensures var (s', f) := Emit(s, max);
      && Sized(s')
      && Queue(s, max) == [f] + Queue(s', max)
  {
    var now := if s.cur.Some? then s.cur.value.rest else s.todo[0];
    var (s', f) := Emit(s, max);
    var after := Sender(None, s'.todo);
    assert Queue(s, max) == Fragments(now, max, 0).0 + Queue(after, max);
    if |now| > max + PREAMBLE {
      assert Queue(s', max) == Fragments(Rest(now, max), max, 0).0 + Queue(after, max);
      Prepend(f, Fragments(Rest(now, max), max, 0).0, Queue(after, max));
    } else {
      assert s' == after;
    }
  }

  lemma Prepend(f: seq<byte>, a: seq<seq<byte>>, b: seq<seq<byte>>)
    ensures ([f] + a) + b == [f] + (a + b)
  {
  }

  /** How often c gets its turn. */
  function Turns(schedule: seq<nat>, c: nat): nat {
    if schedule == [] then 0 else (if schedule[0] == c then 1 else 0) + Turns(schedule[1..], c)
  }

  lemma OkIsSized(s: Sender, c: nat, m: Partials)
    requires SenderOk(s, c, m)
    ensures Sized(s)
  {
    forall i | 0 <= i < |s.todo| ensures |s.todo[i]| < 0x10000 {
      assert Whole(s.todo[i], c);
    }
  }

  lemma NothingQueued(s: Sender, max: nat)
    requires 1 <= max < 0x10000 && Sized(s) && Queue(s, max) == []
    ensures Done(s)
  {
    if !Done(s) { EmitsFragments(s, max); }
  }

  /** A turn of connection c sends one fragment of it, and none of another. */
  lemma StepProgress(y: System, orig: map<nat, seq<seq<byte>>>, c: nat, max: nat, k: nat)
    requires SystemOk(y, orig) && 2 <= max && max + PREAMBLE < 0x10000 && k in orig
    ensures var s, z := y.senders[k], Step(y, c, max);
      && k in z.senders && Sized(s) && Sized(z.senders[k])
      && |Queue(z.senders[k], max)| == if c == k && !Done(s) then |Queue(s, max)| - 1 else |Queue(s, max)|
  {
    var s := y.senders[k];
    OkIsSized(s, k, y.partials);
    if c in y.senders && !Done(y.senders[c]) {
      StepIs(y, orig, c, max);
      if c == k { EmitsFragments(s, max); }
    }
  }

  lemma {:induction false} RunProgress(y: System, orig: map<nat, seq<seq<byte>>>, schedule: seq<nat>, max: nat, c: nat)
    requires SystemOk(y, orig) && 2 <= max && max + PREAMBLE < 0x10000 && c in orig
    ensures var z := Run(y, schedule, max);
      && c in z.senders && Sized(y.senders[c]) && Sized(z.senders[c])
      && var n, k := |Queue(y.senders[c], max)|, Turns(schedule, c);
      |Queue(z.senders[c], max)| == if k <= n then n - k else 0
    decreases |schedule|
  {
    OkIsSized(y.senders[c], c, y.partials);
    if schedule != [] {
      var z := Step(y, schedule[0], max);
      StepProgress(y, orig, schedule[0], max, c);
      StepOk(y, orig, schedule[0], max);
      RunProgress(z, orig, schedule[1..], max, c);
      if Queue(y.senders[c], max) != [] {
        QueuedIsNotDone(y.senders[c], max);
      } else {
        NothingQueued(y.senders[c], max);
      }
    }
  }

  lemma QueuedIsNotDone(s: Sender, max: nat)
    requires 1 <= max < 0x10000 && Sized(s) && Queue(s, max) != []
    ensures !Done(s)
  {
  }

  // ----- the round trip over whole runs

  /** For any packets, any fragment size and any interleaving of the connections' fragments: every connection's
      packets come out whole, once and in order, all of them once it has had as many turns as it has fragments; and
      every packet kept is strictly between begun and finished. */
  lemma InterleavedRoundTrip(orig: map<nat, seq<seq<byte>>>, schedule: seq<nat>, max: nat, c: nat)
    requires forall k, i :: k in orig && 0 <= i < |orig[k]| ==> Whole(orig[k][i], k)
    requires 2 <= max && max + PREAMBLE < 0x10000
    requires c in orig
    ensures var y := Run(Begin(orig), schedule, max);
      && c in y.senders
      && Delivered(y.out, c) <= orig[c]
      && (Done(y.senders[c]) ==> Delivered(y.out, c) == orig[c] && c !in y.partials)
      && Sized(Sender(None, orig[c]))
      && (Turns(schedule, c) >= |Queue(Sender(None, orig[c]), max)| ==> Done(y.senders[c]))
      && (c in y.partials ==> 0 < |y.partials[c].got| < y.partials[c].len)
  {
    var b, y := Begin(orig), Run(Begin(orig), schedule, max);
    forall k | k in orig
      ensures SenderOk(b.senders[k], k, b.partials)
      ensures Delivered(b.out, k) + Remaining(b.senders[k]) == orig[k]
    {
    }
    RunOk(b, orig, schedule, max);
    RunProgress(b, orig, schedule, max, c);
    if Queue(y.senders[c], max) == [] { NothingQueued(y.senders[c], max); }
    assert SenderOk(y.senders[c], c, y.partials);
    assert Delivered(y.out, c) + Remaining(y.senders[c]) == orig[c];
  }
}
