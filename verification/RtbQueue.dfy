/**
 bt_list.c and the queues of bt_skbuff.c: a circular doubly linked list through a header, kept in step with a length.
 Each operation acts on the sequence of entries it stands for.
 */
module RtbQueue {
  /** RT_LIST_ENTRY: the links of a buffer, or of the header of a list */
  class Entry {
    var next: Entry
    var prev: Entry

    /** ListInitializeHeader */
    constructor ()
      ensures next == this && prev == this
    {
      next := this;
      prev := this;
    }
  }

  /** ListAdd */
  method ListAdd(fresh': Entry, prev: Entry, next: Entry)
    requires fresh' != prev && fresh' != next
    modifies next`prev, fresh'`next, fresh'`prev, prev`next
    ensures next.prev == fresh' && fresh'.next == next && fresh'.prev == prev && prev.next == fresh'
  {
    next.prev := fresh';
    fresh'.next := next;
    fresh'.prev := prev;
    prev.next := fresh';
  }

  /** ListDeleteNode */
  method ListDeleteNode(e: Entry)
    requires e.next != e && e.prev != e
    modifies e.next`prev, e.prev`next, e`next, e`prev
    ensures old(e.next).prev == old(e.prev) && old(e.prev).next == old(e.next)
    ensures e.next == e && e.prev == e
  {
    e.next.prev := e.prev;
    e.prev.next := e.next;
    e.prev := e;
    e.next := e;
  }

  // ----- the ring

  /** Neighbours point to each other. */
  ghost predicate Linked(ring: seq<Entry>)
    reads ring
  {
    forall i :: 0 <= i < |ring| - 1 ==> ring[i].next == ring[i + 1] && ring[i + 1].prev == ring[i]
  }

  ghost predicate Distinct(s: seq<Entry>) {
    forall i, j :: 0 <= i < j < |s| ==> s[i] != s[j]
  }

  /** From the header all the way round. */
  function Ring(head: Entry, nodes: seq<Entry>): (r: seq<Entry>)
    ensures |r| == |nodes| + 2 && r[0] == head && r[|nodes| + 1] == head
    ensures forall i :: 0 <= i < |nodes| ==> r[i + 1] == nodes[i]
  {
    [head] + nodes + [head]
  }

  function Inserted(s: seq<Entry>, k: nat, e: Entry): (r: seq<Entry>)
    requires k <= |s|
    ensures |r| == |s| + 1 && r[k] == e
    ensures forall i :: 0 <= i < k ==> r[i] == s[i]
    ensures forall i :: k <= i < |s| ==> r[i + 1] == s[i]
  {
    s[..k] + [e] + s[k..]
  }

  function Deleted(s: seq<Entry>, k: nat): (r: seq<Entry>)
    requires k < |s|
    ensures |r| == |s| - 1
    ensures forall i :: 0 <= i < k ==> r[i] == s[i]
    ensures forall i :: k <= i < |r| ==> r[i] == s[i + 1]
  {
    s[..k] + s[k + 1..]
  }

  /** The header closes the ring; no other entry is met twice. */
  lemma RingDistinct(head: Entry, nodes: seq<Entry>)
    requires Distinct(nodes) && head !in nodes
    ensures forall i, j :: 0 <= i < j < |nodes| + 2 && (i > 0 || j <= |nodes|) ==>
      Ring(head, nodes)[i] != Ring(head, nodes)[j]
  {
  }

  lemma InsertedDistinct(head: Entry, s: seq<Entry>, k: nat, e: Entry)
    requires Distinct(s) && head !in s && k <= |s| && e !in s && e != head
    ensures Distinct(Inserted(s, k, e)) && head !in Inserted(s, k, e)
    ensures var r, t := Ring(head, Inserted(s, k, e)), Ring(head, s);
      && r[k + 1] == e
      && (forall i :: 0 <= i <= k ==> r[i] == t[i])
      && (forall i :: k + 2 <= i < |r| ==> r[i] == t[i - 1])
  {
  }

  /** RTB_QUEUE_HEAD */
  class Queue {
    const list: Entry
    var queueLen: int
    ghost var nodes: seq<Entry>

    ghost predicate Valid()
      reads this, list, nodes
    {
      && Linked(Ring(list, nodes)) && Distinct(nodes) && list !in nodes
      && queueLen == |nodes|
    }

    /** RtbQueueInit */
    constructor ()
      ensures Valid() && nodes == [] && fresh(list)
    {
      list := new Entry();
      queueLen, nodes := 0, [];
    }

    /** RtbQueueIsEmpty, which goes by the length */
    method IsEmpty() returns (empty: bool)
      requires Valid()
      ensures empty <==> nodes == []
    {
      empty := !(queueLen > 0);
    }

    /** ListIsEmpty, which goes by the links, says the same. */
    method ListIsEmpty() returns (empty: bool)
      requires Valid()
      ensures empty <==> nodes == []
    {
      empty := list.next == list;
      assert Ring(list, nodes)[1] == list.next;
    }

    /** RtbGetQueueLen */
    method GetQueueLen() returns (n: int)
      requires Valid()
      ensures n == |nodes|
    {
      n := queueLen;
    }

    /** Between two neighbours, the k-th and the next of the ring. */
    method Insert(e: Entry, ghost k: nat, prev: Entry, next: Entry)
      requires Valid() && k <= |nodes| && e !in nodes && e != list
      requires prev == Ring(list, nodes)[k] && next == Ring(list, nodes)[k + 1]
      modifies this`queueLen, this`nodes, e, prev`next, next`prev
      ensures Valid() && nodes == Inserted(old(nodes), k, e)
    {
      ghost var ring := Ring(list, nodes);
      RingDistinct(list, nodes);
      InsertedDistinct(list, nodes, k, e);
      ListAdd(e, prev, next);
      queueLen := queueLen + 1;
      nodes := Inserted(nodes, k, e);
      ghost var now := Ring(list, nodes);
      forall i | 0 <= i < |now| - 1 ensures now[i].next == now[i + 1] && now[i + 1].prev == now[i] {
        if i < k {
          assert now[i] == ring[i] != prev && now[i + 1] == ring[i + 1] != next;
        } else if i > k + 1 {
          assert now[i] == ring[i - 1] != prev && now[i + 1] == ring[i] != next;
        } else if i == k {
          assert now[i] == prev && now[i + 1] == e;
        } else {
          assert now[i] == e && now[i + 1] == next;
        }
      }
    }

    /** RtbQueueTail */
    method QueueTail(e: Entry)
      requires Valid() && e !in nodes && e != list
      modifies this`queueLen, this`nodes, e, list, nodes
      ensures Valid() && nodes == old(nodes) + [e]
    {
      assert Ring(list, nodes)[|nodes|].next == list;
      Insert(e, |nodes|, list.prev, list);
      assert nodes == old(nodes) + [e];
    }

    /** RtbQueueHead */
    method QueueHead(e: Entry)
      requires Valid() && e !in nodes && e != list
      modifies this`queueLen, this`nodes, e, list, nodes
      ensures Valid() && nodes == [e] + old(nodes)
    {
      assert Ring(list, nodes)[1] == list.next;
      Insert(e, 0, list, list.next);
      assert nodes == [e] + old(nodes);
    }

    /** RtbInsertBefore */
    method InsertBefore(at: Entry, e: Entry, ghost k: nat)
      requires Valid() && e !in nodes && e != list && k < |nodes| && nodes[k] == at
      modifies this`queueLen, this`nodes, e, list, nodes
      ensures Valid() && nodes == Inserted(old(nodes), k, e)
    {
      assert Ring(list, nodes)[k].next == at;
      Insert(e, k, at.prev, at);
    }

    /** RtbRemoveNode */
    method RemoveNode(e: Entry, ghost k: nat)
      requires Valid() && k < |nodes| && nodes[k] == e
      modifies this`queueLen, this`nodes, list, nodes
      ensures Valid() && nodes == Deleted(old(nodes), k)
    {
      ghost var ring := Ring(list, nodes);
      assert ring[k + 1] == e && e.prev == ring[k] && e.next == ring[k + 2];
      queueLen := queueLen - 1;
      ListDeleteNode(e);
      nodes := Deleted(nodes, k);
      ghost var now := Ring(list, nodes);
      forall i | 0 <= i < |now| - 1 ensures now[i].next == now[i + 1] && now[i + 1].prev == now[i] {
        if i < k {
          assert now[i] == ring[i] && now[i + 1] == ring[i + 1];
        } else if i > k {
          assert now[i] == ring[i + 1] && now[i + 1] == ring[i + 2];
        }
      }
    }

    /** RtbTopQueue */
    method TopQueue() returns (e: Entry?)
      requires Valid()
      ensures e == if nodes == [] then null else nodes[0]
    {
      var empty := IsEmpty();
      if empty {
        return null;
      }
      assert Ring(list, nodes)[1] == list.next;
      e := list.next;
    }

    /** RtbDequeueHead */
    method DequeueHead() returns (e: Entry?)
      requires Valid()
      modifies this`queueLen, this`nodes, list, nodes
      ensures Valid() && nodes == if old(nodes) == [] then [] else old(nodes)[1..]
      ensures e == if old(nodes) == [] then null else old(nodes)[0]
    {
      var empty := IsEmpty();
      if empty {
        return null;
      }
      assert Ring(list, nodes)[1] == list.next;
      var first := list.next;
      RemoveNode(first, 0);
      e := first;
      assert nodes == old(nodes)[1..];
    }

    /** RtbDequeueTail */
    method DequeueTail() returns (e: Entry?)
      requires Valid()
      modifies this`queueLen, this`nodes, list, nodes
      ensures Valid() && nodes == if old(nodes) == [] then [] else old(nodes)[..|old(nodes)| - 1]
      ensures e == if old(nodes) == [] then null else old(nodes)[|old(nodes)| - 1]
    {
      var empty := IsEmpty();
      if empty {
        return null;
      }
      assert Ring(list, nodes)[|nodes|].next == list;
      var last := list.prev;
      RemoveNode(last, |nodes| - 1);
      e := last;
      assert nodes == old(nodes)[..|old(nodes)| - 1];
    }

    /** RtbNodeIsLast */
    method NodeIsLast(e: Entry, ghost k: nat) returns (last: bool)
      requires Valid() && k < |nodes| && nodes[k] == e
      ensures last <==> k == |nodes| - 1
    {
      assert Ring(list, nodes)[|nodes|].next == list;
      last := list.prev == e;
    }

    /** RtbQueueNextNode */
    method NextNode(e: Entry, ghost k: nat) returns (n: Entry?)
      requires Valid() && k < |nodes| && nodes[k] == e
      ensures n == if k == |nodes| - 1 then null else nodes[k + 1]
    {
      var last := NodeIsLast(e, k);
      if last {
        return null;
      }
      assert Ring(list, nodes)[k + 1].next == nodes[k + 1];
      n := e.next;
    }

    /** RtbEmptyQueue: every buffer is taken off once, in order. */
    method EmptyQueue() returns (freed: seq<Entry>)
      requires Valid()
      modifies this`queueLen, this`nodes, list, nodes
      ensures Valid() && nodes == [] && freed == old(nodes)
    {
      ghost var all := nodes;
      freed := [];
      assert freed + nodes == all;
      var empty := IsEmpty();
      while !empty
        invariant Valid() && freed + nodes == all && Among(nodes, all)
        invariant empty <==> nodes == []
        decreases |nodes|
      {
        Shift(freed, nodes, all);
        var e := RemoveFirst(all);
        freed := freed + [e];
        empty := IsEmpty();
      }
    }

    /** One turn of RtbEmptyQueue; `all` is what the queue held at first. */
    method RemoveFirst(ghost all: seq<Entry>) returns (e: Entry)
      requires Valid() && nodes != [] && Among(nodes, all)
      modifies this`queueLen, this`nodes, list, all
      ensures Valid() && e == old(nodes)[0] && nodes == old(nodes)[1..]
    {
      assert Ring(list, nodes)[1] == list.next;
      e := list.next;
      RemoveNode(e, 0);
      assert nodes == old(nodes)[1..];
    }
  }

  ghost predicate Among(s: seq<Entry>, all: seq<Entry>) {
    forall i :: 0 <= i < |s| ==> s[i] in all
  }

  /** The first of the one goes to the end of the other. */
  lemma Shift(done: seq<Entry>, rest: seq<Entry>, all: seq<Entry>)
    requires rest != [] && done + rest == all && Among(rest, all)
    ensures (done + [rest[0]]) + rest[1..] == all && Among(rest[1..], all)
    ensures rest[1..] == [] ==> done + [rest[0]] == all
  {
  }

  /** What retransmission does (hci_h5.c): the tail of one queue goes to the head of another until there is none left.
      The other then starts with the one, in order. */
  method TakeBack(unack: Queue, rel: Queue)
    requires unack != rel && unack.Valid() && rel.Valid() && Apart(unack, rel)
    modifies unack`queueLen, unack`nodes, rel`queueLen, rel`nodes
    modifies unack.list, unack.nodes, rel.list, rel.nodes
    ensures unack.Valid() && rel.Valid() && Apart(unack, rel)
    ensures unack.nodes == [] && rel.nodes == old(unack.nodes) + old(rel.nodes)
  {
    ghost var us, rs, k := unack.nodes, rel.nodes, |unack.nodes|;
    var more := true;
    Moved(us, rs, k);
    while more
      invariant unack.Valid() && rel.Valid() && Apart(unack, rel) && 0 <= k <= |us|
      invariant unack.nodes == us[..k] && rel.nodes == us[k..] + rs
      invariant !more ==> k == 0
      decreases more, k
    {
      Moved(us, rs, k);
      more := MoveTail(unack, rel, us, rs, k);
      k := if more then k - 1 else k;
    }
    Moved(us, rs, 0);
  }

  lemma Moved(us: seq<Entry>, rs: seq<Entry>, k: nat)
    requires k <= |us|
    ensures us[..|us|] == us && us[|us|..] + rs == rs && us[..0] == [] && us[0..] == us
    ensures k > 0 ==> us[..k][..k - 1] == us[..k - 1] && [us[k - 1]] + (us[k..] + rs) == us[k - 1..] + rs
    ensures forall i :: 0 <= i < k ==> us[..k][i] in us
    ensures forall i :: 0 <= i < |us[k..] + rs| ==> (us[k..] + rs)[i] in us || (us[k..] + rs)[i] in rs
  {
  }

  /** One turn of it; `us` and `rs` are what the queues held at first. */
  method MoveTail(unack: Queue, rel: Queue, ghost us: seq<Entry>, ghost rs: seq<Entry>, ghost k: nat)
    returns (more: bool)
    requires unack != rel && unack.Valid() && rel.Valid() && Apart(unack, rel)
    requires k <= |us| && unack.nodes == us[..k] && rel.nodes == us[k..] + rs
    modifies unack`queueLen, unack`nodes, rel`queueLen, rel`nodes, unack.list, rel.list, us, rs
    ensures unack.Valid() && rel.Valid() && Apart(unack, rel) && more == (k > 0)
    ensures k > 0 ==> unack.nodes == us[..k - 1] && rel.nodes == us[k - 1..] + rs
    ensures k == 0 ==> unack.nodes == us[..k] && rel.nodes == us[k..] + rs
  {
    Moved(us, rs, k);
    var e := TakeTail(unack, rel);
    if e == null {
      return false;
    }
    PutHead(unack, rel, e);
    more := true;
  }

  method TakeTail(a: Queue, b: Queue) returns (e: Entry?)
    requires a != b && a.Valid() && b.Valid() && Apart(a, b)
    modifies a`queueLen, a`nodes, a.list, a.nodes
    ensures a.Valid() && b.Valid() && Apart(a, b) && b.nodes == old(b.nodes)
    ensures a.nodes == if old(a.nodes) == [] then [] else old(a.nodes)[..|old(a.nodes)| - 1]
    ensures e == if old(a.nodes) == [] then null else old(a.nodes)[|old(a.nodes)| - 1]
    ensures e != null ==> e !in a.nodes && e !in b.nodes && e != a.list && e != b.list
  {
    ghost var r := Ring(b.list, b.nodes);
    RingApart(a, b);
    e := a.DequeueTail();
    assert Linked(r) by {
      forall i | 0 <= i < |r| - 1 ensures r[i].next == r[i + 1] && r[i + 1].prev == r[i] {
        assert r[i].next == old(r[i].next) && r[i + 1].prev == old(r[i + 1].prev);
      }
    }
  }

  /** No entry of one queue's ring is in the other's. */
  lemma RingApart(a: Queue, b: Queue)
    requires Apart(a, b)
    ensures forall i :: 0 <= i < |b.nodes| + 2 ==>
      Ring(b.list, b.nodes)[i] != a.list && Ring(b.list, b.nodes)[i] !in a.nodes
  {
    var r := Ring(b.list, b.nodes);
    forall i | 0 <= i < |r| ensures r[i] != a.list && r[i] !in a.nodes {
      if 0 < i <= |b.nodes| { assert r[i] == b.nodes[i - 1]; }
    }
  }

  method PutHead(a: Queue, b: Queue, e: Entry)
    requires a != b && a.Valid() && b.Valid() && Apart(a, b)
    requires e !in a.nodes && e !in b.nodes && e != a.list && e != b.list
    modifies b`queueLen, b`nodes, b.list, b.nodes, e
    ensures a.Valid() && b.Valid() && Apart(a, b) && a.nodes == old(a.nodes) && b.nodes == [e] + old(b.nodes)
  {
    ghost var r := Ring(a.list, a.nodes);
    RingApart(b, a);
    b.QueueHead(e);
    assert Linked(r) by {
      forall i | 0 <= i < |r| - 1 ensures r[i].next == r[i + 1] && r[i + 1].prev == r[i] {
        assert r[i].next == old(r[i].next) && r[i + 1].prev == old(r[i + 1].prev);
      }
    }
  }

  ghost predicate Apart(a: Queue, b: Queue)
    reads a, b
  {
    && a.list != b.list && a.list !in b.nodes && b.list !in a.nodes
    && forall e :: e in a.nodes ==> e !in b.nodes
  }
}
