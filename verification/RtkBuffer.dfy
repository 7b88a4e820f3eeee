/** RTK_BUFFER (bt_skbuff.c): a fixed allocation with head room, in which data grows and shrinks at both ends. */
module RtkBuffers {
  import opened Bytes

  // L2CAP header (8) and HCI ACL header (4)
  const DEFAULT_HEADER_SIZE := 12

  class RtkBuffer {
    const head: array<byte>
    var data: nat       // index of the first byte in use
    var end: nat        // index after the last byte in use
    const tail: nat     // index after the last byte that may be used
    var length: nat
    var headRoom: nat

    ghost predicate Valid()
      reads this
    {
      headRoom == data && data + length == end <= tail <= head.Length
    }

    ghost function Contents(): (c: seq<byte>)
      reads this, head
      requires Valid()
      ensures |c| == length
    {
      head[data..end]
    }

    /** How much RtbAddTail can still hand out. */
    ghost function Room(): nat
      reads this
      requires Valid()
    {
      tail - end
    }

    /** RtbAllocate; malloc leaves the bytes `junk` gives. */
    constructor (len: nat, room: nat, junk: nat -> byte)
      ensures Valid() && fresh(head)
      ensures Contents() == [] && Room() == len
      ensures data == if room == 0 then DEFAULT_HEADER_SIZE else room
      ensures forall i :: 0 <= i < head.Length ==> head[i] == junk(i)
    {
      var used := if room == 0 then DEFAULT_HEADER_SIZE else room;
      var memory := new byte[(len + used + 3) / 4 * 4](i requires i >= 0 => junk(i));
      assert forall i :: 0 <= i < memory.Length ==> memory[i] == junk(i);
      head := memory;
      headRoom, data, end, length := used, used, used, 0;
      tail := used + len;
    }

    /** RtbAddHead: len more bytes at the front, whose values are whatever the head room holds. */
    method AddHead(len: nat) returns (ok: bool)
      requires Valid()
      modifies this
      ensures Valid() && ok == (len <= old(data))
      ensures ok ==> data == old(data) - len && Contents() == head[data..old(data)] + old(Contents())
      ensures !ok ==> Contents() == old(Contents()) && data == old(data)
      ensures Room() == old(Room())
    {
      ok := data >= len;
      if ok {
        data, length, headRoom := data - len, length + len, headRoom - len;
      }
    }

    /** RtbRemoveHead */
    method RemoveHead(len: nat) returns (ok: bool)
      requires Valid()
      modifies this
      ensures Valid() && ok == (len <= old(length))
      ensures Contents() == if ok then old(Contents())[len..] else old(Contents())
      ensures data == if ok then old(data) + len else old(data)
      ensures Room() == old(Room())
    {
      ok := length >= len;
      if ok {
        data, length, headRoom := data + len, length - len, headRoom + len;
      }
    }

    /** RtbAddTail: the index of len more bytes at the end, or None (NULL) when they do not fit. */
    method AddTail(len: nat) returns (at: Option<nat>)
      requires Valid()
      modifies this
      ensures Valid() && data == old(data)
      ensures at == if len <= old(Room()) then Some(old(end)) else None
      ensures at.Some? ==> Room() == old(Room()) - len && Contents() == old(Contents()) + head[old(end)..end]
      ensures at.None? ==> Room() == old(Room()) && Contents() == old(Contents())
    {
      if tail - end >= len {
        at := Some(end);
        end, length := end + len, length + len;
      } else {
        at := None;
      }
    }

    /** RtbRemoveTail */
    method RemoveTail(len: nat) returns (ok: bool)
      requires Valid()
      modifies this
      ensures Valid() && ok == (len <= old(length)) && data == old(data)
      ensures Contents() == if ok then old(Contents())[..old(length) - len] else old(Contents())
      ensures Room() == if ok then old(Room()) + len else old(Room())
    {
      ok := end - data >= len;
      if ok {
        end, length := end - len, length - len;
      }
    }

    /** skb_put of one byte and the memcpy into it: the caller sees to it that there is room. */
    method Put(b: byte)
      requires Valid() && Room() >= 1
      modifies this, head
      ensures Valid() && data == old(data)
      ensures Contents() == old(Contents()) + [b] && Room() == old(Room()) - 1
      ensures forall i :: 0 <= i < head.Length && i != old(end) ==> head[i] == old(head[i])
    {
      var at := AddTail(1);
      head[at.value] := b;
    }
  }
}
