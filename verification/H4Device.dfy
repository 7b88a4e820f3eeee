/** hci_hal_h4.c: the receiver, reading the UART in whatever pieces it gets. */
module H4Device {
  import opened Bytes
  import opened H4Stream

  /** h4_dev and the UART behind it; octets that have been read are kept in `consumed`. An allocation may fail, and the
      next ones too, but not forever: `failures` counts those that are to come. */
  class H4 {
    var buf: array?<byte>
    var curLen: nat
    var remaining: nat
    var haveHdr: bool
    var hdrLen: nat
    var kind: byte
    const hdr: array<byte>
    var ongoing: bool
    var input: seq<byte>
    var up: seq<(nat, seq<byte>)>   // callbacks->packet_ready
    var failures: nat
    ghost var consumed: seq<byte>
    ghost var packets: seq<seq<byte>>
    ghost var rest: seq<byte>

    constructor (input: seq<byte>, failures: nat)
      requires Parse(input).fits
      ensures Valid() && consumed == [] && this.input == input && up == [] && packets == [] && !Owed()
      ensures fresh(hdr)
    {
      buf, curLen, remaining, haveHdr, hdrLen, kind := null, 0, 0, false, 0, DATA_TYPE_NONE;
      hdr := new byte[4](i => 0);
      ongoing, this.input, up, consumed, packets, rest := false, input, [], [], [], [];
      this.failures := failures;
      new;
      assert [] + input == input;
    }

    /** Where the octets of the packet under way are. */
    ghost predicate Shape()
      reads this, hdr, buf
    {
      && hdr.Length == 4 && buf != hdr
      && (kind == DATA_TYPE_NONE ==> !haveHdr && buf == null && rest == [])
      && (kind != DATA_TYPE_NONE ==> Known(kind) && hdrLen == HdrLen(kind))
      && (kind != DATA_TYPE_NONE && !haveHdr ==>
            buf == null && 0 < remaining <= hdrLen && rest == [kind] + hdr[..hdrLen - remaining])
      && (haveHdr && buf == null ==>
            && rest == [kind] + hdr[..hdrLen]
            && remaining == Announced(kind, hdr[..hdrLen]) && 1 + hdrLen + remaining < 0x10000)
      && (buf != null ==> Buffer() && remaining > 0)
    }

    /** What a buffer holds while the payload is coming in. */
    ghost predicate Buffer()
      reads this, hdr, buf
    {
      && hdr.Length == 4 && buf != hdr && buf != null && Known(kind) && hdrLen == HdrLen(kind) && haveHdr
      && curLen + remaining == buf.Length < 0x10000 && rest == buf[..curLen]
      && 1 + hdrLen <= curLen && rest[..1 + hdrLen] == [kind] + hdr[..hdrLen]
      && buf.Length == 1 + hdrLen + Announced(kind, hdr[..hdrLen])
    }

    /** A packet of which everything has come in but nothing has been done with it. */
    ghost predicate Owed()
      reads this
    {
      haveHdr && remaining == 0
    }

    /** What has been handed up, and what is under way, is the parse of what has been read. */
    ghost predicate Valid()
      reads this, hdr, buf
    {
      Shape() && InSync(consumed, input, packets, up, Owed(), rest)
    }

    /** A read for at least one octet: something is read exactly when something is there, and else the loop ends. */
    ghost predicate Took(input': seq<byte>, consumed': seq<byte>, ongoing': bool)
      reads this`input, this`consumed, this`ongoing
    {
      && consumed + input == consumed' + input'
      && (if input' == [] then input == [] else |input| < |input'|)
      && ongoing == (ongoing' && input' != [])
    }

    /** Nothing is read, and the loop ends: the read was for no octet. */
    ghost predicate TookNothing(input': seq<byte>, consumed': seq<byte>)
      reads this`input, this`consumed, this`ongoing
    {
      consumed == consumed' && input == input' && !ongoing
    }

    /** read_byte: uart_recv gives at least one of the octets asked for, if there is one. */
    method ReadByte(len: nat) returns (d: seq<byte>)
      modifies this`input, this`consumed, this`ongoing
      ensures |d| <= len && d + input == old(input) && consumed == old(consumed) + d
      ensures if len > 0 then Took(old(input), old(consumed), old(ongoing)) && (d == [] <==> old(input) == [])
              else TookNothing(old(input), old(consumed))
    {
      var n: nat :| n <= len && n <= |input| && (n == 0 ==> len == 0 || input == []);
      d := input[..n];
      assert consumed + input == (consumed + d) + input[n..];
      input := input[n..];
      consumed := consumed + d;
      if n == 0 {
        ongoing := false;
      }
    }

    /** hci_hal_h4_hdl_rx_packet */
    method HdlRxPacket(data: seq<byte>)
      requires 1 <= |data| < 0x10000
      modifies this`up
      ensures up == old(up) + if Checked(data) then [Up(data)] else []
      ensures up == old(up) +
        if data[0] == 2 && |data| >= 5 && |data| == 5 + data[3] as int + 256 * data[4] as int then [(0x1100, data[1..])]
        else if data[0] == 3 && |data| >= 4 && |data| == 4 + data[3] as int then [(0x1200, data[1..])]
        else if data[0] == 4 && |data| >= 3 && |data| == 3 + data[2] as int then [(0x1000, data[1..])]
        else []
    {
      var kind, len := data[0], |data| - 1;
      if kind == HCI_BLE_EVENT {
        return;
      }
      if kind < DATA_TYPE_ACL || kind > DATA_TYPE_EVENT {
        return;
      }
      var hdrSize := Preamble(kind);
      if len < hdrSize {
        return;
      }
      var length: nat;
      if kind == DATA_TYPE_ACL {
        length := data[hdrSize - 1] as int + 256 * data[hdrSize] as int;
      } else {
        length := data[hdrSize] as int;
      }
      if length + hdrSize != len {
        return;
      }
      up := up + [(Outbound(kind), data[1..])];
    }

    /** h4_get_type: one octet, if there is one, which is the type or nothing. */
    method GetType()
      requires Valid() && kind == DATA_TYPE_NONE
      modifies this`input, this`consumed, this`ongoing, this`kind, this`remaining, this`hdrLen, this`rest
      ensures Valid() && Took(old(input), old(consumed), old(ongoing))
      ensures if old(input) == [] then kind == DATA_TYPE_NONE else
        && input == old(input)[1..]
        && kind == if Known(old(input)[0]) then old(input)[0] else DATA_TYPE_NONE
    {
      ghost var before, i := consumed, input;
      var d := ReadByte(1);
      if |d| != 1 {
        NoType(before, i, d);
        return;
      }
      assert d[0] == i[0] && input == i[1..];
      SetType(before, i, d);
    }

    method NoType(ghost before: seq<byte>, ghost i: seq<byte>, d: seq<byte>)
      requires Shape() && kind == DATA_TYPE_NONE && d == []
      requires InSync(before, i, packets, up, false, []) && i == d + input && consumed == before + d
      modifies this`kind
      ensures Valid() && kind == DATA_TYPE_NONE
    {
      SyncRead(before, i, packets, up, [], d, input);
      kind := DATA_TYPE_NONE;
    }

    method SetType(ghost before: seq<byte>, ghost i: seq<byte>, d: seq<byte>)
      requires Shape() && kind == DATA_TYPE_NONE && |d| == 1
      requires InSync(before, i, packets, up, false, []) && i == d + input && consumed == before + d
      modifies this`kind, this`remaining, this`hdrLen, this`rest
      ensures Valid() && kind == if Known(d[0]) then d[0] else DATA_TYPE_NONE
    {
      var x := d[0];
      assert d == [x];
      SyncRead(before, i, packets, up, [], [x], input);
      kind := x;
      if kind == DATA_TYPE_EVENT || kind == DATA_TYPE_ACL {
        remaining := if kind == DATA_TYPE_EVENT then 2 else 4;
        hdrLen := remaining;
        rest := [] + [x];
      } else {
        SyncSkip(before, i, packets, up, x, input);
        kind := DATA_TYPE_NONE;
      }
    }

    /** get_acl_hdr and get_evt_hdr: some of the header, if there is some, and all of it makes the payload due. */
    method GetHdr()
      requires Valid() && kind != DATA_TYPE_NONE && !haveHdr
      modifies this`input, this`consumed, this`ongoing, this`remaining, this`haveHdr, this`rest, hdr
      ensures Valid() && Took(old(input), old(consumed), old(ongoing))
      ensures haveHdr <==> |old(input)| - |input| == old(remaining)
    {
      ghost var before, i, r := consumed, input, rest;
      var d := ReadByte(remaining);
      TakeHdr(d);
      SyncHdr(before, i, packets, up, r, d, input, kind, hdr[..hdrLen - remaining]);
      if remaining == 0 {
        remaining := Announced(kind, hdr[..]);
        haveHdr := true;
      }
    }

    method TakeHdr(d: seq<byte>)
      requires Shape() && kind != DATA_TYPE_NONE && !haveHdr && |d| <= remaining
      modifies this`remaining, this`rest, hdr
      ensures remaining == old(remaining) - |d| && rest == old(rest) + d == [kind] + hdr[..hdrLen - remaining]
    {
      HeaderGrows(kind, hdr[..hdrLen - remaining], d);
      Store(hdr, hdrLen - remaining, d);
      remaining := remaining - |d|;
      rest := rest + d;
    }

    /** The buffer for the payload is needed and cannot be had now. */
    predicate Starved()
      reads this
    {
      haveHdr && buf == null && failures > 0
    }

    /** read_payload: some of the payload, if there is some; a packet that is complete is handed up. One without payload
        is so after a read for no octet, which ends the loop. Without a buffer everything waits. */
    method ReadPayload()
      requires Valid() && haveHdr
      modifies this`input, this`consumed, this`ongoing, this`rest, this`buf, this`curLen, this`remaining, this`haveHdr,
               this`hdrLen, this`kind, this`up, this`packets, this`failures, buf
      ensures Valid() && (buf == old(buf) || buf == null || fresh(buf))
      ensures old(Starved()) ==> Waits(old(input), old(consumed), old(ongoing), old(packets), old(failures))
      ensures !old(Starved()) ==> failures == old(failures) && !Owed()
      ensures !old(Starved()) && old(Owed()) ==>
        TookNothing(old(input), old(consumed)) && packets == old(packets) + [old(rest)] && Bare(old(rest)) && rest == []
      ensures !old(Starved()) && !old(Owed()) ==>
        Took(old(input), old(consumed), old(ongoing)) && OneMore(old(packets))
    {
      if buf == null {
        if failures > 0 {
          failures := failures - 1;
          return;
        }
        Allocate();
      }
      FillBuffer();
    }

    method FillBuffer()
      requires Buffer() && InSync(consumed, input, packets, up, remaining == 0, rest)
      modifies this`input, this`consumed, this`ongoing, this`rest, this`buf, this`curLen, this`remaining, this`haveHdr,
               this`hdrLen, this`kind, this`up, this`packets, buf
      ensures Valid() && (buf == old(buf) || buf == null) && !Owed()
      ensures if old(remaining) == 0 then
          && TookNothing(old(input), old(consumed))
          && packets == old(packets) + [old(rest)] && (|old(rest)| == 1 + old(hdrLen) ==> Bare(old(rest))) && rest == []
        else
          Took(old(input), old(consumed), old(ongoing)) && OneMore(old(packets))
    {
      ReceivePayload();
      if remaining == 0 {
        Deliver();
      }
    }

    /** Nothing has happened but the failure of an allocation. */
    ghost predicate Waits(input': seq<byte>, consumed': seq<byte>, ongoing': bool, packets': seq<seq<byte>>,
                          failures': nat)
      reads this
    {
      && input == input' && consumed == consumed' && ongoing == ongoing' && packets == packets'
      && failures == failures' - 1
    }

    /** At most one packet has been completed, and one with payload. */
    ghost predicate OneMore(packets': seq<seq<byte>>)
      reads this`packets
    {
      packets == packets' || (|packets| == |packets'| + 1 && packets' <= packets && !Bare(packets[|packets'|]))
    }

    /** host_recv_pkt_cb, and the state as for the next packet (reset_rx) */
    method Deliver()
      requires Buffer() && remaining == 0 && InSync(consumed, input, packets, up, true, rest)
      modifies this`rest, this`buf, this`curLen, this`haveHdr, this`hdrLen, this`kind, this`up, this`packets,
               this`remaining
      ensures Valid() && !Owed() && buf == null && rest == [] && packets == old(packets) + [old(rest)]
    {
      SyncDeliver(consumed, input, packets, up, rest, kind, hdr[..hdrLen]);
      HdlRxPacket(buf[..curLen]);
      packets := packets + [rest];
      ResetRx();
    }

    /** reset_rx */
    method ResetRx()
      requires hdr.Length == 4
      modifies this`rest, this`buf, this`curLen, this`haveHdr, this`hdrLen, this`kind, this`remaining
      ensures Shape() && !Owed() && buf == null && rest == []
    {
      kind, remaining, haveHdr, hdrLen, curLen := DATA_TYPE_NONE, 0, false, 0, 0;
      buf := null;
      rest := [];
    }

    /** The buffer for the packet, with type and header in place. */
    method Allocate()
      requires Shape() && haveHdr && buf == null
      modifies this`buf, this`curLen
      ensures Buffer() && fresh(buf) && curLen == 1 + hdrLen
    {
      var b := new byte[remaining + hdrLen + 1](i => 0);
      b[0] := kind;
      Store(b, 1, hdr[..hdrLen]);
      curLen := hdrLen + 1;
      buf := b;
    }

    method ReceivePayload()
      requires Buffer() && InSync(consumed, input, packets, up, remaining == 0, rest)
      modifies this`input, this`consumed, this`ongoing, this`curLen, this`remaining, this`rest, buf
      ensures Buffer() && InSync(consumed, input, packets, up, remaining == 0, rest)
      ensures if old(remaining) > 0 then Took(old(input), old(consumed), old(ongoing))
              else TookNothing(old(input), old(consumed)) && remaining == 0 && rest == old(rest)
      ensures |rest| >= |old(rest)| && rest[0] == kind && (Bare(rest) <==> |rest| == 1 + hdrLen)
    {
      ghost var before, i, r, owed := consumed, input, rest, remaining == 0;
      var d := ReadByte(remaining);
      TakePayload(d);
      SyncPayload(before, i, packets, up, r, owed, d, input, kind, hdr[..hdrLen], remaining);
    }

    method TakePayload(d: seq<byte>)
      requires Buffer() && |d| <= remaining
      modifies this`curLen, this`remaining, this`rest, buf
      ensures Buffer() && remaining == old(remaining) - |d| && rest == old(rest) + d
    {
      Store(buf, curLen, d);
      curLen := (curLen + |d|) % 0x10000;
      remaining := remaining - |d|;
      rest := rest + d;
    }

    /** process_rx */
    method ProcessRx()
      requires Valid()
      modifies this, buf, hdr
      ensures Valid() && (buf == old(buf) || buf == null || fresh(buf))
      ensures old(Starved()) ==> Waits(old(input), old(consumed), old(ongoing), old(packets), old(failures))
      ensures !old(Starved()) ==> failures == old(failures)
      ensures !old(Starved()) && old(Owed()) ==>
        && !Owed() && TookNothing(old(input), old(consumed))
        && packets == old(packets) + [old(rest)] && Bare(old(rest)) && rest == []
      ensures !old(Starved()) && !old(Owed()) ==>
        Took(old(input), old(consumed), old(ongoing)) && OneMore(old(packets)) && (Owed() ==> old(input) != [])
    {
      if haveHdr {
        ReadPayload();
      } else if kind == DATA_TYPE_NONE {
        GetType();
      } else {
        GetHdr();
      }
    }

    /** All packets from the n-th on have payload. */
    ghost predicate NoneBare(n: nat)
      reads this`packets
    {
      forall i :: n <= i < |packets| ==> !Bare(packets[i])
    }

    /** Why recv_data returns: all octets have been read, or the last one read ended a packet without payload. */
    ghost predicate Done(n: nat)
      reads this
    {
      if input == [] && NoneBare(n) then true
      else
        && n < |packets| && Bare(packets[|packets| - 1]) && rest == []
        && forall i :: n <= i < |packets| - 1 ==> !Bare(packets[i])
    }

    /** recv_data: whatever pieces the octets come in, what has been handed up is the packets of the octets read, and
        what is left is the beginning of a packet. It reads up to the first packet without payload, or else to the
        end. */
    method RecvData()
      requires Valid()
      modifies this, buf, hdr
      ensures Valid() && !Owed() && consumed + input == old(consumed + input)
      ensures up == Ups(packets) && Parse(consumed) == Parsed(packets, rest, true)
      ensures |up| == |packets| && forall k :: 0 <= k < |up| ==>
        Whole(packets[k]) && up[k] == (if packets[k][0] == 2 then 0x1100 else 0x1000, packets[k][1..])
      ensures old(packets) <= packets && Done(|old(packets)|)
    {
      ghost var all, n := consumed + input, |packets|;
      var more := true;
      while more
        invariant Valid() && consumed + input == all
        invariant buf == old(buf) || buf == null || fresh(buf)
        invariant old(packets) <= packets
        invariant more ==> NoneBare(n)
        invariant !more ==> !Owed() && Done(n)
        decreases more, |input|, failures
      {
        more := Turn(n);
      }
    }

    method Turn(ghost n: nat) returns (more: bool)
      requires Valid() && n <= |packets| && NoneBare(n)
      modifies this, buf, hdr
      ensures Valid() && consumed + input == old(consumed + input) && old(packets) <= packets
      ensures buf == old(buf) || buf == null || fresh(buf)
      ensures more ==> NoneBare(n) && (|input| < |old(input)| || (input == old(input) && failures < old(failures)))
      ensures !more ==> !Owed() && Done(n)
    {
      ongoing := true;
      ProcessRx();
      more := ongoing;
    }
  }

  /** The octets that came in, where they belong. */
  method Store(a: array<byte>, at: nat, d: seq<byte>)
    requires at + |d| <= a.Length
    modifies a
    ensures a[..at + |d|] == old(a[..at]) + d
    ensures a[at + |d|..] == old(a[at + |d|..])
  {
    forall i | 0 <= i < |d| {
      a[at + i] := d[i];
    }
  }

  lemma HeaderGrows(kind: byte, hdr: seq<byte>, d: seq<byte>)
    ensures [kind] + (hdr + d) == ([kind] + hdr) + d
  {
  }

  /** A header that is complete is the beginning of a packet, or all of it. */
  lemma HeaderFits(kind: byte, hdr: seq<byte>)
    requires Known(kind) && |hdr| == HdrLen(kind) && Parse([kind] + hdr).fits
    ensures 1 + |hdr| + Announced(kind, hdr) < 0x10000
    ensures if Announced(kind, hdr) == 0 then Whole([kind] + hdr) else Begun([kind] + hdr)
  {
    assert ([kind] + hdr)[1..] == hdr;
  }

  lemma SyncHdr(c: seq<byte>, i: seq<byte>, ps: seq<seq<byte>>, up: seq<(nat, seq<byte>)>, r: seq<byte>,
                d: seq<byte>, j: seq<byte>, kind: byte, hdr: seq<byte>)
    requires InSync(c, i, ps, up, false, r) && i == d + j
    requires Known(kind) && |hdr| <= HdrLen(kind) && r + d == [kind] + hdr
    ensures InSync(c + d, j, ps, up, |hdr| == HdrLen(kind) && Announced(kind, hdr) == 0, r + d)
    ensures |hdr| == HdrLen(kind) ==> 1 + |hdr| + Announced(kind, hdr) < 0x10000
  {
    SyncRead(c, i, ps, up, r, d, j);
    if |hdr| == HdrLen(kind) { HeaderFits(kind, hdr); }
  }

  lemma PayloadShape(kind: byte, hdr: seq<byte>, r: seq<byte>)
    requires Known(kind) && |hdr| == HdrLen(kind) && |hdr| + 1 <= |r| && r[..1 + |hdr|] == [kind] + hdr
    requires |r| <= 1 + |hdr| + Announced(kind, hdr) < 0x10000
    ensures if |r| == 1 + |hdr| + Announced(kind, hdr) then Whole(r) else Begun(r)
  {
    var t := r[1 + |hdr|..];
    assert r == [kind] + hdr + t;
    assert r[1..] == hdr + t;
  }

  lemma SyncDeliver(c: seq<byte>, i: seq<byte>, ps: seq<seq<byte>>, up: seq<(nat, seq<byte>)>, r: seq<byte>,
                    kind: byte, hdr: seq<byte>)
    requires InSync(c, i, ps, up, true, r)
    requires Known(kind) && |hdr| == HdrLen(kind) && |hdr| + 1 <= |r| && r[..1 + |hdr|] == [kind] + hdr
    requires |r| == 1 + |hdr| + Announced(kind, hdr) < 0x10000
    ensures Checked(r) && InSync(c, i, ps + [r], up + [Up(r)], false, [])
  {
    PayloadShape(kind, hdr, r);
    WholeIsChecked(r);
    SyncUp(c, i, ps, up, r);
  }

  lemma SyncPayload(c: seq<byte>, i: seq<byte>, ps: seq<seq<byte>>, up: seq<(nat, seq<byte>)>, r: seq<byte>, owed: bool,
                    d: seq<byte>, j: seq<byte>, kind: byte, hdr: seq<byte>, left: nat)
    requires InSync(c, i, ps, up, owed, r) && i == d + j && (owed ==> d == [])
    requires Known(kind) && |hdr| == HdrLen(kind) && |hdr| + 1 <= |r| && (r + d)[..1 + |hdr|] == [kind] + hdr
    requires |r + d| + left == 1 + |hdr| + Announced(kind, hdr) < 0x10000
    requires owed ==> left == 0
    ensures c + i == (c + d) + j
    ensures InSync(c + d, j, ps, up, left == 0, r + d)
  {
    PayloadShape(kind, hdr, r + d);
    if owed {
      assert c + d == c && r + d == r && i == j;
    } else {
      SyncRead(c, i, ps, up, r, d, j);
    }
  }
}
