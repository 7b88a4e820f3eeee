/** packet_fragmenter.c: headers rewritten in place over bytes already sent, and one partial packet per connection. */
module PacketFragmenter {
  import opened Bytes
  import opened AclFragments

  const MSG_STACK_TO_HC_HCI_ACL := 0x2100
  const MSG_HC_TO_STACK_HCI_ACL := 0x1100
  const MSG_HC_TO_STACK_L2C_SEG_XMIT := 0x1900

  /** event & MSG_EVT_MASK, and SUB_EVENT(event) */
  function EventOf(event: nat): nat { event / 0x100 * 0x100 }
  function SubEvent(event: nat): nat { event % 0x100 }

  /** BT_HDR */
  class BtHdr {
    var event: nat
    var len: nat
    var offset: nat
    var layerSpecific: nat
    const data: array<byte>

    constructor (event: nat, len: nat, offset: nat, size: nat)
      ensures this.event == event && this.len == len && this.offset == offset && layerSpecific == 0
      ensures fresh(data) && data.Length == size
    {
      this.event, this.len, this.offset, layerSpecific := event, len, offset, 0;
      data := new byte[size](i => 0);
    }

    ghost predicate Valid()
      reads this
    {
      offset + len <= data.Length && offset + len < 0x10000
    }

    /** The packet as one under construction: offset bytes of len are there. */
    ghost function Part(): Partial
      reads this, data
      requires offset <= len <= data.Length
    {
      Partial(len, data[..offset])
    }

    ghost function View(): (v: seq<byte>)
      reads this, data
      requires Valid()
      ensures |v| == len
    {
      data[offset..offset + len]
    }
  }

  /** The bytes with x written at `at`, low byte first. */
  function Put16(s: seq<byte>, at: nat, x: nat): (r: seq<byte>)
    requires at + 2 <= |s| && x < 0x10000
    ensures |r| == |s|
  {
    s[at := x % 256][at + 1 := x / 256]
  }

  /** UINT16_TO_STREAM */
  method WriteU16(data: array<byte>, at: nat, x: nat)
    requires at + 2 <= data.Length && x < 0x10000
    modifies data
    ensures data[..] == Put16(old(data[..]), at, x)
  {
    data[at] := x % 256;
    data[at + 1] := x / 256;
  }

  /** memcpy */
  method Copy(dst: array<byte>, to: nat, src: array<byte>, from: nat, n: nat)
    requires dst != src && to + n <= dst.Length && from + n <= src.Length
    modifies dst
    ensures dst[..] == Overwritten(old(dst[..]), to, src[from..from + n])
  {
    forall i | 0 <= i < n {
      dst[to + i] := src[from + i];
    }
  }

  /** The bytes with x in place from `to` on. */
  function Overwritten(s: seq<byte>, to: nat, x: seq<byte>): (r: seq<byte>)
    requires to + |x| <= |s|
    ensures |r| == |s|
  {
    s[..to] + x + s[to + |x|..]
  }

  /** What the budget of segments becomes with one more fragment sent. */
  function Spend(segments: nat): nat {
    if segments == 0 then 0 else segments - 1
  }

  class Fragmenter {
    const classicSize: nat    // get_acl_data_size_classic
    const bleSize: nat        // get_acl_data_size_ble
    var current: BtHdr?       // current_fragment_packet
    var partials: map<nat, BtHdr>
    var sent: seq<(seq<byte>, bool)>   // callbacks->fragmented: the bytes, and whether they are the last
    var returned: seq<BtHdr>           // callbacks->transmit_finished
    var up: seq<seq<byte>>             // callbacks->reassembled
    ghost var parts: Partials          // the partial packets as values
    ghost var repr: set<object>        // the partial packets and their buffers

    constructor (classicSize: nat, bleSize: nat)
      ensures Valid() && parts == map[] && repr == {}
      ensures current == null && partials == map[] && sent == [] && returned == [] && up == []
      ensures this.classicSize == classicSize && this.bleSize == bleSize
    {
      this.classicSize, this.bleSize := classicSize, bleSize;
      current, partials, sent, returned, up := null, map[], [], [], [];
      parts, repr := map[], {};
    }

    /** The data size of the controller an event addresses. */
    function MaxData(event: nat): nat
    {
      if SubEvent(event) == 0 then classicSize else bleSize
    }

    /** One segment less may be sent; after the last the packet goes back to its layer. */
    method SpendSegment(packet: BtHdr)
      requires current == packet
      modifies this`current, this`returned, packet`layerSpecific, packet`event
      ensures packet.layerSpecific == Spend(old(packet.layerSpecific))
      ensures if old(packet.layerSpecific) == 1 then
          current == null && returned == old(returned) + [packet] && packet.event == 0x1900
        else
          current == packet && returned == old(returned) && packet.event == old(packet.event)
    {
      if packet.layerSpecific != 0 {
        packet.layerSpecific := packet.layerSpecific - 1;
        if packet.layerSpecific == 0 {
          packet.event := MSG_HC_TO_STACK_L2C_SEG_XMIT;
          current := null;
          returned := returned + [packet];
        }
      }
    }

    /** fragment_and_dispatch: a data packet, of event 0x21, is cut to the data size of the controller that the low byte
        of the event names, 0 being the BR/EDR one. */
    method FragmentAndDispatch(packet: BtHdr)
      requires packet.Valid() && (EventOf(packet.event) == MSG_STACK_TO_HC_HCI_ACL ==> packet.len >= PREAMBLE)
      requires MaxData(packet.event) + PREAMBLE < 0x10000
      modifies this`current, this`sent, this`returned, packet, packet.data
      ensures packet.Valid()
      ensures var v, max := old(packet.View()), if old(packet.event) % 0x100 == 0 then classicSize else bleSize;
        if old(packet.event) / 0x100 != 0x21 then
          && sent == old(sent) + [(v, true)] && current == old(current) && returned == old(returned)
          && packet.View() == v && packet.event == old(packet.event)
        else if |v| <= max + 4 then
          && sent == old(sent) + [(v, true)] && current == null && returned == old(returned)
          && packet.View() == v && packet.event == old(packet.event)
        else
          && sent == old(sent) + [(First(v, max), false)] && |First(v, max)| == max + 4
          && packet.View() == Rest(v, max)
          && packet.layerSpecific == Spend(old(packet.layerSpecific))
          && if old(packet.layerSpecific) == 1 then
               current == null && returned == old(returned) + [packet] && packet.event == 0x1900
             else
               current == packet && returned == old(returned) && packet.event == old(packet.event)
    {
      if EventOf(packet.event) != MSG_STACK_TO_HC_HCI_ACL {
        sent := sent + [(packet.data[packet.offset..packet.offset + packet.len], true)];
        return;
      }
      var max := MaxData(packet.event);
      if packet.len > max + PREAMBLE {
        current := packet;
        SendFirst(packet, max);
        SpendSegment(packet);
      } else {
        current := null;
        sent := sent + [(packet.data[packet.offset..packet.offset + packet.len], true)];
      }
    }

    /** fragment_and_dispatch on a packet that is too long: the length field is lowered for the fragment, then the
        header of the rest is written over the end of what was sent. */
    method SendFirst(packet: BtHdr, max: nat)
      requires packet.Valid() && max + PREAMBLE < packet.len
      modifies this`sent, packet`offset, packet`len, packet.data
      ensures packet.Valid()
      ensures sent == old(sent) + [(First(old(packet.View()), max), false)]
      ensures packet.View() == Rest(old(packet.View()), max)
    {
      ghost var all, v := packet.data[..], packet.View();
      ViewIs(packet, packet.offset, packet.offset + packet.len);
      var handle := U16(packet.data[packet.offset], packet.data[packet.offset + 1]);
      var remaining := packet.len;
      CutFirst(packet, max);
      Advance(packet, max, remaining, handle, all, v);
    }

    /** The rest becomes the packet. */
    method Advance(packet: BtHdr, max: nat, len: nat, handle: nat, ghost all: seq<byte>, ghost v: seq<byte>)
      requires packet.offset + len <= |all| && packet.offset + len < 0x10000 && max + PREAMBLE < len
      requires v == all[packet.offset..packet.offset + len] && handle == Handle(v)
      requires packet.data[..] == Put16(all, packet.offset + 2, max)
      modifies packet`offset, packet`len, packet.data
      ensures packet.Valid() && packet.View() == Rest(v, max)
    {
      ghost var at, one := packet.offset, packet.data[..];
      packet.offset := packet.offset + max;
      packet.len := len - max;
      WriteHeader(packet, Continuation(handle));
      RestInPlace(all, one, packet.data[..], at, v, max);
      ViewIs(packet, at + max, at + |v|);
    }

    method CutFirst(packet: BtHdr, max: nat)
      requires packet.Valid() && max + PREAMBLE < packet.len
      modifies this`sent, packet`len, packet.data
      ensures packet.len == max + PREAMBLE
      ensures packet.data[..] == Put16(old(packet.data[..]), packet.offset + 2, max)
      ensures sent == old(sent) + [(First(old(packet.View()), max), false)]
    {
      FirstInPlace(packet.data[..], packet.offset, packet.len, max);
      WriteU16(packet.data, packet.offset + 2, max);
      packet.len := max + PREAMBLE;
      sent := sent + [(packet.data[packet.offset..packet.offset + packet.len], false)];
    }

    /** The ACL header of the packet, written over what is there. */
    method WriteHeader(packet: BtHdr, handle: nat)
      requires packet.Valid() && packet.len >= PREAMBLE && handle < 0x10000
      modifies packet.data
      ensures packet.data[..] ==
        Put16(Put16(old(packet.data[..]), packet.offset, handle), packet.offset + 2, packet.len - PREAMBLE)
    {
      WriteU16(packet.data, packet.offset, handle);
      WriteU16(packet.data, packet.offset + 2, packet.len - PREAMBLE);
    }

    /** The host thread's part (hci_layer.c): as long as a packet is current, it is dispatched again. What goes out fits
        the controller that the event names, and fills it but for the last. */
    method DispatchAll(packet: BtHdr)
      requires packet.Valid() && packet.len >= PREAMBLE && EventOf(packet.event) == MSG_STACK_TO_HC_HCI_ACL
      requires 1 <= MaxData(packet.event) && MaxData(packet.event) + PREAMBLE < 0x10000
      modifies this`current, this`sent, this`returned, packet, packet.data
      ensures packet.Valid() && current == null
      ensures var max := if old(packet.event) % 0x100 == 0 then classicSize else bleSize;
        var r := Fragments(old(packet.View()), max, old(packet.layerSpecific));
        && Sent(sent) == Sent(old(sent)) + r.0
        && returned == old(returned) + HandedBack(packet, r.1)
        && (r.1.Some? ==> packet.View() == r.1.value && packet.event == 0x1900)
      ensures var max := if old(packet.event) % 0x100 == 0 then classicSize else bleSize;
        && |old(sent)| <= |sent|
        && forall i :: |old(sent)| <= i < |sent| ==>
          |sent[i].0| <= max + 4 && (!sent[i].1 ==> |sent[i].0| == max + 4) && (sent[i].1 ==> i == |sent| - 1)
    {
      ghost var max, before, done := MaxData(packet.event), Sent(sent), [];
      ghost var whole := Fragments(packet.View(), max, packet.layerSpecific);
      Nothing(before, whole.0);
      var more := true;
      while more
        invariant packet.Valid() && max == MaxData(old(packet.event)) && Sent(sent) == before + done
        invariant more ==> packet.len >= PREAMBLE && packet.event == old(packet.event) && returned == old(returned)
        invariant more ==> Ahead(whole, done, Fragments(packet.View(), max, packet.layerSpecific))
        invariant !more ==>
          current == null && done == whole.0 && returned == old(returned) + HandedBack(packet, whole.1)
        invariant !more && whole.1.Some? ==> packet.View() == whole.1.value && packet.event == 0x1900
        invariant |old(sent)| <= |sent| && Fitted(sent, |old(sent)|, max, more)
        decreases more, packet.len
      {
        ghost var v, segments, sofar := packet.View(), packet.layerSpecific, sent;
        FragmentAndDispatch(packet);
        ghost var f := sent[|sofar|];
        SentAppend(sofar, f);
        Further(before, done, f.0, Fragments(v, max, segments).0);
        done := done + [f.0];
        more := current != null;
      }
    }

    /** At most one partial packet per connection, each in a buffer of its own. */
    ghost predicate Valid()
      reads this`partials, this`parts, this`repr, repr
    {
      && this !in repr && parts.Keys == partials.Keys && Separate(partials)
      && (forall c :: c in partials ==> partials[c] in repr && partials[c].data in repr)
      && (forall c :: c in partials ==> Holds(partials[c], parts[c]))
    }

    /** reassemble_and_dispatch */
    method ReassembleAndDispatch(packet: BtHdr)
      requires Valid() && packet.Valid()
      requires packet !in repr && packet.data !in repr
      requires EventOf(packet.event) == MSG_HC_TO_STACK_HCI_ACL ==> WellFormed(packet.View()) && Readable(packet.View())
      requires EventOf(packet.event) == MSG_HC_TO_STACK_HCI_ACL && Flag(Handle(packet.View())) != START ==>
        var c := Connection(Handle(packet.View()));
        c in partials ==> partials[c].offset + packet.len - PREAMBLE < 0x10000
      modifies this`partials, this`parts, this`repr, this`up, packet`offset, packet`len, repr
      ensures Valid() && fresh(repr - old(repr))
      ensures var v := old(packet.View());
        if old(packet.event) / 0x100 != 0x11 then
          parts == old(parts) && up == old(up) + [v]
        else
          var (m, d) := Reassemble(old(parts), v);
          parts == m && up == old(up) + if d.Some? then [d.value] else []
    {
      if EventOf(packet.event) != MSG_HC_TO_STACK_HCI_ACL {
        up := up + [packet.data[packet.offset..packet.offset + packet.len]];
        return;
      }
      var at := packet.offset;
      var handle := U16(packet.data[at], packet.data[at + 1]);
      if Flag(handle) == START {
        TakeStart(packet, Connection(handle));
      } else if Connection(handle) in partials {
        TakeContinuation(packet, Connection(handle), partials[Connection(handle)]);
      }
    }

    method TakeStart(packet: BtHdr, c: nat)
      requires Valid() && packet.Valid()
      requires Readable(packet.View()) && Flag(Handle(packet.View())) == START && Connection(Handle(packet.View())) == c
      modifies this`partials, this`parts, this`repr, this`up
      ensures Valid() && fresh(repr - old(repr))
      ensures var (m, d) := Reassemble(old(parts), old(packet.View()));
        parts == m && up == old(up) + if d.Some? then [d.value] else []
    {
      ghost var before, v := parts, packet.View();
      var at, len := packet.offset, packet.len;
      var full := (U16(packet.data[at + 4], packet.data[at + 5]) + L2CAP_HEADER + PREAMBLE) % 0x10000;
      assert full == FullLength(v);
      Forget(c);
      if full <= len {
        up := up + [packet.data[at..at + len]];
        StartWhole(before, v);
      } else {
        StartPartial(before, v, Partial(full, Corrected(v, full)));
        Open(packet, c, full);
      }
    }

    /** A first fragment opens a partial packet. */
    method Open(packet: BtHdr, c: nat, full: nat)
      requires Valid() && packet.Valid() && c !in partials && 6 <= packet.len < full < 0x10000
      modifies this`partials, this`parts, this`repr
      ensures Valid() && fresh(repr - old(repr))
      ensures parts == old(parts)[c := Partial(full, Corrected(old(packet.View()), full))]
    {
      var p := Begun(packet, full);
      Keep(c, p);
    }

    /** hash_map_erase */
    method Forget(c: nat)
      requires Valid()
      modifies this`partials, this`parts
      ensures Valid() && partials == old(partials) - {c} && parts == old(parts) - {c}
    {
      partials, parts := partials - {c}, parts - {c};
    }

    /** hash_map_set, for a connection without a partial packet */
    method Keep(c: nat, p: BtHdr)
      requires Valid() && c !in partials && p.offset <= p.len <= p.data.Length && p.len < 0x10000
      requires p !in repr && p.data !in repr
      modifies this`partials, this`parts, this`repr
      ensures Valid() && repr == old(repr) + {p, p.data} && parts == old(parts)[c := p.Part()]
    {
      assert Separate(partials[c := p]) by { SeparateWith(partials, c, p); }
      partials, parts, repr := partials[c := p], parts[c := p.Part()], repr + {p, p.data};
      forall d | d in partials ensures Holds(partials[d], parts[d]) {
        if d != c { assert old(Holds(partials[d], parts[d])); }
      }
    }

    /** The buffer for a packet of which the first fragment has come. */
    method Begun(packet: BtHdr, full: nat) returns (p: BtHdr)
      requires packet.Valid() && 6 <= packet.len < full < 0x10000
      ensures fresh(p) && fresh(p.data) && p.offset <= p.len == p.data.Length && p.len < 0x10000
      ensures p.Part() == Partial(full, Corrected(packet.View(), full))
    {
      p := new BtHdr(packet.event, full, packet.len, full);
      ghost var blank := p.data[..];
      Copy(p.data, 0, packet.data, packet.offset, packet.len);
      WriteU16(p.data, 2, full - PREAMBLE);
      CorrectedInPlace(packet.View(), full, blank);
    }

    method TakeContinuation(packet: BtHdr, c: nat, p: BtHdr)
      requires Valid() && packet.Valid() && c in partials && partials[c] == p && packet.len >= PREAMBLE
      requires packet !in repr && packet.data !in repr
      requires Flag(Handle(packet.View())) != START && Connection(Handle(packet.View())) == c
      requires p.offset + packet.len - PREAMBLE < 0x10000
      modifies this`partials, this`parts, this`up, packet`offset, packet`len, p`offset, p.data
      ensures Valid()
      ensures var (m, d) := Reassemble(old(parts), old(packet.View()));
        parts == m && up == old(up) + if d.Some? then [d.value] else []
    {
      ghost var before, v, q := parts, packet.View(), p.Part();
      assert before[c] == q;
      Trim(packet, p);
      Grow(c, p, packet);
      assert p.Part().got == q.got + Fitting(q, v) && p.Part().len == q.len;
      if p.offset == p.len {
        ContinuationLast(before, v);
        Finish(c, p);
      } else {
        ContinuationMore(before, v);
      }
    }

    /** The preamble is skipped, and what the partial packet has no room for is cut off. */
    method Trim(packet: BtHdr, p: BtHdr)
      requires packet.Valid() && packet.len >= PREAMBLE && p != packet
      requires p.offset <= p.len <= p.data.Length && p.len < 0x10000 && p.offset + packet.len - PREAMBLE < 0x10000
      modifies packet`offset, packet`len
      ensures packet.Valid() && packet.View() == Fitting(p.Part(), old(packet.View()))
      ensures p.offset + packet.len <= p.len
    {
      packet.offset := packet.offset + PREAMBLE;
      packet.len := packet.len - PREAMBLE;
      CopyStaysInside(p.offset, packet.len, p.len);
      packet.len := Copied(p.offset, packet.len, p.len);
    }

    /** A complete packet is passed on. */
    method Finish(c: nat, p: BtHdr)
      requires Valid() && c in partials && partials[c] == p && p.offset == p.len
      modifies this`partials, this`parts, this`up, p`offset
      ensures Valid() && parts == old(parts) - {c} && up == old(up) + [old(p.Part().got)]
    {
      up := up + [p.data[..p.len]];
      partials, parts := partials - {c}, parts - {c};
      p.offset := 0;
      forall d | d in partials ensures Holds(partials[d], parts[d]) {
        assert old(Holds(partials[d], parts[d]));
      }
    }

    /** The packet's data at the end of the partial packet. */
    method Grow(c: nat, p: BtHdr, packet: BtHdr)
      requires Valid() && packet.Valid() && c in partials && partials[c] == p
      requires p != packet && p.data != packet.data && p.offset + packet.len <= p.len
      modifies this`parts, p`offset, p.data
      ensures Valid()
      ensures p.Part() == old(p.Part()).Plus(old(packet.View())) && parts == old(parts)[c := p.Part()]
    {
      Append(p, packet);
      parts := parts[c := p.Part()];
    }
  }

  /** The packet's data, copied to where the other one ends. */
  method Append(p: BtHdr, packet: BtHdr)
    requires packet.Valid() && p.offset + packet.len <= p.len <= p.data.Length
    requires p != packet && p.data != packet.data
    modifies p`offset, p.data
    ensures p.offset <= p.len && p.Part() == old(p.Part()).Plus(old(packet.View()))
  {
    ghost var data := p.data[..];
    Copy(p.data, p.offset, packet.data, packet.offset, packet.len);
    p.offset := p.offset + packet.len;
    Extended(data, p.offset - packet.len, packet.View());
  }

  /** No two connections share a packet or a buffer. */
  ghost predicate Separate(m: map<nat, BtHdr>) {
    forall c, d :: c in m && d in m && c != d ==> m[c] != m[d] && m[c].data != m[d].data
  }

  lemma SeparateWith(m: map<nat, BtHdr>, c: nat, p: BtHdr)
    requires Separate(m) && forall d :: d in m ==> m[d] != p && m[d].data != p.data
    ensures Separate(m[c := p])
  {
  }

  /** The packet under construction is what it should be, in a buffer that is large enough. */
  ghost predicate Holds(p: BtHdr, q: Partial)
    reads p, p.data
  {
    p.offset <= p.len <= p.data.Length && p.len < 0x10000 && q == p.Part()
  }

  lemma ViewIs(p: BtHdr, from: nat, to: nat)
    requires p.Valid() && p.offset == from && p.offset + p.len == to
    ensures p.View() == p.data[..][from..to]
  {
  }

  /** Lowering the length field in place gives the fragment. */
  lemma FirstInPlace(all: seq<byte>, at: nat, len: nat, max: nat)
    requires at + len <= |all| && max + PREAMBLE < len < 0x10000
    ensures Put16(all, at + 2, max)[at..at + max + PREAMBLE] == First(all[at..at + len], max)
  {
    var one, f := Put16(all, at + 2, max)[at..at + max + PREAMBLE], First(all[at..at + len], max);
    forall i | 0 <= i < |f| ensures one[i] == f[i] {
      if i >= 4 {
        assert f[i] == f[4..][i - 4] == all[at..at + len][i] == all[at + i];
      } else if i >= 2 {
        assert f[i] == Le16(max)[i - 2];
      }
    }
  }

  lemma Put16Byte(s: seq<byte>, at: nat, x: nat, k: nat)
    requires at + 2 <= |s| && x < 0x10000 && k < |s|
    ensures Put16(s, at, x)[k] == if k == at then x % 256 else if k == at + 1 then x / 256 else s[k]
  {
  }

  /** A header written over s at on, and what follows it up to `end`. */
  lemma HeaderBytes(s: seq<byte>, on: nat, x: nat, y: nat, end: nat, i: nat)
    requires on + 4 <= end <= |s| && x < 0x10000 && y < 0x10000 && i < end - on
    ensures Put16(Put16(s, on, x), on + 2, y)[on + i] == (Le16(x) + Le16(y) + s[on + 4..end])[i]
  {
    Put16Byte(Put16(s, on, x), on + 2, y, on + i);
    Put16Byte(s, on, x, on + i);
  }

  lemma HeaderInPlace(s: seq<byte>, on: nat, x: nat, y: nat, end: nat)
    requires on + 4 <= end <= |s| && x < 0x10000 && y < 0x10000
    ensures Put16(Put16(s, on, x), on + 2, y)[on..end] == Le16(x) + Le16(y) + s[on + 4..end]
  {
    var a, b := Put16(Put16(s, on, x), on + 2, y)[on..end], Le16(x) + Le16(y) + s[on + 4..end];
    forall i | 0 <= i < |b| ensures a[i] == b[i] {
      HeaderBytes(s, on, x, y, end, i);
    }
  }

  /** Lowering the length field leaves the data beyond the fragment alone. */
  lemma Beyond(all: seq<byte>, at: nat, v: seq<byte>, max: nat)
    requires max + PREAMBLE < |v| < 0x10000 && at + |v| <= |all| && v == all[at..at + |v|]
    ensures Put16(all, at + 2, max)[at + max + 4..at + |v|] == v[4 + max..]
  {
    var a, b := Put16(all, at + 2, max)[at + max + 4..at + |v|], v[4 + max..];
    forall i | 0 <= i < |b| ensures a[i] == b[i] {
      Put16Byte(all, at + 2, max, at + max + 4 + i);
    }
  }

  /** Lowering the length field and writing the next header over the end of the fragment gives the rest: no byte of it
      has been touched before. */
  lemma RestInPlace(all: seq<byte>, one: seq<byte>, two: seq<byte>, at: nat, v: seq<byte>, max: nat)
    requires max + PREAMBLE < |v| < 0x10000 && at + |v| <= |all| && v == all[at..at + |v|]
    requires one == Put16(all, at + 2, max)
    requires two == Put16(Put16(one, at + max, Continuation(Handle(v))), at + max + 2, |v| - max - PREAMBLE)
    ensures two[at + max..at + |v|] == Rest(v, max)
  {
    HeaderInPlace(one, at + max, Continuation(Handle(v)), |v| - max - PREAMBLE, at + |v|);
    Beyond(all, at, v, max);
  }

  // ----- reassembly in place

  /** The first fragment, copied and with its length field raised. */
  lemma CorrectedInPlace(v: seq<byte>, full: nat, blank: seq<byte>)
    requires 6 <= |v| <= full < 0x10000 && |blank| == full
    ensures Put16(Overwritten(blank, 0, v), 2, full - PREAMBLE)[..|v|] == Corrected(v, full)
  {
  }

  /** How much of n bytes is copied to a partial packet that has `offset` bytes of len: the offset projected for them,
      of 16 bits, is compared with the length. */
  function Copied(offset: nat, n: nat, len: nat): int {
    if (offset + n) % 0x10000 > len then len - offset else n
  }

  /** The copy stays inside the packet exactly when the projected offset does not wrap. */
  lemma CopyStaysInside(offset: nat, n: nat, len: nat)
    requires offset <= len < 0x10000 && n <= 0xFFFF - PREAMBLE
    ensures offset + Copied(offset, n, len) <= len <==> offset + n < 0x10000
    ensures offset + n < 0x10000 ==> 0 <= Copied(offset, n, len) <= n
  {
  }

  /** It does wrap for a partial packet of 65008 bytes that has 40000, and a continuation of 40004. */
  lemma CopyLeavesThePacket()
    ensures Copied(40000, 40004 - PREAMBLE, 65008) == 40000 && 40000 + 40000 > 65008
  {
  }

  /** Data copied to the end of what is there. */
  lemma Extended(data: seq<byte>, to: nat, x: seq<byte>)
    requires to + |x| <= |data|
    ensures Overwritten(data, to, x)[..to + |x|] == data[..to] + x
  {
  }

  lemma StartWhole(m: Partials, v: seq<byte>)
    requires Readable(v) && Flag(Handle(v)) == START && FullLength(v) <= |v|
    ensures Reassemble(m, v) == (m - {Connection(Handle(v))}, Some(v))
  {
  }

  lemma StartPartial(m: Partials, v: seq<byte>, p: Partial)
    requires Readable(v) && Flag(Handle(v)) == START && FullLength(v) > |v|
    requires p == Partial(FullLength(v), Corrected(v, FullLength(v)))
    ensures Reassemble(m, v) == ((m - {Connection(Handle(v))})[Connection(Handle(v)) := p], None)
  {
    var c := Connection(Handle(v));
    assert (m - {c})[c := p] == m[c := p];
  }

  lemma ContinuationLast(m: Partials, v: seq<byte>)
    requires Readable(v) && Flag(Handle(v)) != START && Connection(Handle(v)) in m
    requires var p := m[Connection(Handle(v))]; |p.got| + |Fitting(p, v)| == p.len
    ensures var c := Connection(Handle(v));
      var p := m[c].Plus(Fitting(m[c], v));
      Reassemble(m, v) == (m[c := p] - {c}, Some(p.got))
  {
    var c := Connection(Handle(v));
    var p := m[c].Plus(Fitting(m[c], v));
    assert m[c := p] - {c} == m - {c};
  }

  lemma ContinuationMore(m: Partials, v: seq<byte>)
    requires Readable(v) && Flag(Handle(v)) != START && Connection(Handle(v)) in m
    requires var p := m[Connection(Handle(v))]; |p.got| + |Fitting(p, v)| != p.len
    ensures var c := Connection(Handle(v));
      Reassemble(m, v) == (m[c := m[c].Plus(Fitting(m[c], v))], None)
  {
  }

  // ----- several dispatches in a row

  /** The bytes handed to the transport. */
  function Sent(sent: seq<(seq<byte>, bool)>): seq<seq<byte>> {
    seq(|sent|, i requires 0 <= i < |sent| => sent[i].0)
  }

  lemma SentAppend(sent: seq<(seq<byte>, bool)>, x: (seq<byte>, bool))
    ensures Sent(sent + [x]) == Sent(sent) + [x.0]
  {
  }

  /** What has been sent since `from` fits; all of it but a last one is as long as may be. */
  ghost predicate Fitted(sent: seq<(seq<byte>, bool)>, from: nat, max: nat, more: bool) {
    forall i :: from <= i < |sent| ==>
      && |sent[i].0| <= max + 4 && (!sent[i].1 ==> |sent[i].0| == max + 4)
      && (sent[i].1 ==> !more && i == |sent| - 1)
  }

  function HandedBack(packet: BtHdr, back: Option<seq<byte>>): seq<BtHdr> {
    if back.Some? then [packet] else []
  }

  /** `done` has been sent, `rest` is to come. */
  ghost predicate Ahead(whole: (seq<seq<byte>>, Option<seq<byte>>), done: seq<seq<byte>>,
                        rest: (seq<seq<byte>>, Option<seq<byte>>)) {
    whole.0 == done + rest.0 && whole.1 == rest.1
  }

  lemma Nothing(before: seq<seq<byte>>, fs: seq<seq<byte>>)
    ensures before + [] == before && [] + fs == fs
  {
  }

  lemma Further(before: seq<seq<byte>>, done: seq<seq<byte>>, f: seq<byte>, fs: seq<seq<byte>>)
    ensures (before + done) + [f] == before + (done + [f])
    ensures fs != [] && fs[0] == f ==> (done + [f]) + fs[1..] == done + fs
    ensures fs == [f] ==> done + fs == done + [f]
  {
  }
}
