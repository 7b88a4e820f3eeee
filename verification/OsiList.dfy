/** list.c: a singly linked list with its head, its tail and its length. */
module OsiList {
  import opened Sequences

  class Node<T> {
    var next: Node?<T>
    const data: T

    constructor (data: T)
      ensures this.data == data && next == null
    {
      this.data := data;
      next := null;
    }
  }

  function Insert<T>(s: seq<T>, k: nat, x: T): (r: seq<T>)
    requires k <= |s|
    ensures |r| == |s| + 1 && r[k] == x
    ensures forall i :: 0 <= i < k ==> r[i] == s[i]
    ensures forall i :: k < i < |r| ==> r[i] == s[i - 1]
  {
    s[..k] + [x] + s[k..]
  }

  /** What the i-th node points to. */
  ghost function After<T>(nodes: seq<Node<T>>, i: int): Node?<T> {
    if 0 <= i + 1 < |nodes| then nodes[i + 1] else null
  }

  /** The nodes are different from each other, and hold the items. */
  ghost predicate Placed<T>(nodes: seq<Node<T>>, items: seq<T>, repr: set<object>) {
    && |nodes| == |items|
    && (forall i :: 0 <= i < |nodes| ==> nodes[i] in repr && nodes[i].data == items[i])
    && (forall i, j :: 0 <= i < j < |nodes| ==> nodes[i] != nodes[j])
  }

  /** Each node but `except` points to the one after it. */
  ghost predicate Chained<T>(nodes: seq<Node<T>>, except: int)
    reads nodes
  {
    forall i {:trigger nodes[i].next} :: 0 <= i < |nodes| && i != except ==> nodes[i].next == After(nodes, i)
  }

  lemma PlacedInsert<T>(s: seq<Node<T>>, items: seq<T>, repr: set<object>, k: nat, x: Node<T>)
    requires Placed(s, items, repr) && k <= |s| && x !in repr
    ensures Placed(Insert(s, k, x), Insert(items, k, x.data), repr + {x})
  {
    var r, t := Insert(s, k, x), Insert(items, k, x.data);
    forall i | 0 <= i < |r| ensures r[i] in repr + {x} && r[i].data == t[i] && (i != k ==> r[i] in repr) {
      if i < k {
        assert r[i] == s[i];
      } else if i > k {
        assert r[i] == s[i - 1];
      }
    }
    forall i, j | 0 <= i < j < |r| ensures r[i] != r[j] {
      if i != k && j != k {
        assert r[i] == s[if i < k then i else i - 1] && r[j] == s[if j < k then j else j - 1];
      }
    }
  }

  /** With x linked in, the chain runs through it. */
  lemma ChainedInsert<T>(s: seq<Node<T>>, k: nat, x: Node<T>)
    requires k <= |s| && x !in s && Chained(s, k - 1)
    requires k > 0 ==> s[k - 1].next == x
    requires x.next == After(s, k - 1)
    ensures Chained(Insert(s, k, x), -1)
  {
    var r := Insert(s, k, x);
    forall i | 0 <= i < |r| ensures r[i].next == After(r, i) {
      if i > k {
        assert r[i] == s[i - 1] && After(r, i) == After(s, i - 1);
      } else if i < k - 1 {
        assert r[i] == s[i] && After(r, i) == After(s, i);
      } else if i == k - 1 {
        assert r[i] == s[i] && After(r, i) == x;
      } else {
        assert r[i] == x && After(r, i) == After(s, i - 1);
      }
    }
  }

  lemma PlacedWithout<T>(s: seq<Node<T>>, items: seq<T>, repr: set<object>, k: nat)
    requires Placed(s, items, repr) && k < |s|
    ensures Placed(Without(s, k), Without(items, k), repr)
  {
    var r := Without(s, k);
    forall i, j | 0 <= i < j < |r| ensures r[i] != r[j] {
      assert r[i] == s[if i < k then i else i + 1] && r[j] == s[if j < k then j else j + 1];
    }
  }

  /** With the k-th node bypassed, the chain is that of the others. */
  lemma ChainedWithout<T>(s: seq<Node<T>>, k: nat)
    requires k < |s| && Chained(s, k - 1) && (k > 0 ==> s[k - 1].next == After(s, k))
    ensures Chained(Without(s, k), -1)
  {
    var r := Without(s, k);
    forall i | 0 <= i < |r| ensures r[i].next == After(r, i) {
      if i >= k {
        assert r[i] == s[i + 1] && After(r, i) == After(s, i + 1);
      } else if i < k - 1 {
        assert r[i] == s[i] && After(r, i) == After(s, i);
      } else {
        assert r[i] == s[i] && After(r, i) == After(s, k);
      }
    }
  }

  class List<T(==)> {
    var head: Node?<T>
    var tail: Node?<T>
    var length: nat
    ghost var nodes: seq<Node<T>>
    ghost var items: seq<T>
    ghost var repr: set<object>

    ghost predicate Valid()
      reads this, repr
    {
      && this in repr && length == |nodes|
      && Placed(nodes, items, repr) && Chained(nodes, -1)
      && head == (if nodes == [] then null else nodes[0])
      && tail == (if nodes == [] then null else nodes[|nodes| - 1])
    }

    /** list_new */
    constructor ()
      ensures Valid() && items == [] && fresh(repr)
    {
      head, tail, length := null, null, 0;
      nodes, items, repr := [], [], {this};
    }

    /** list_front; the list must not be empty */
    method Front() returns (x: T)
      requires Valid() && items != []
      ensures x == items[0]
    {
      x := head.data;
    }

    /** list_back; the list must not be empty */
    method Back() returns (x: T)
      requires Valid() && items != []
      ensures x == items[|items| - 1]
    {
      x := tail.data;
    }

    /** list_contains */
    method Contains(x: T) returns (found: bool)
      requires Valid()
      ensures found <==> x in items
    {
      var node := head;
      ghost var i := 0;
      while node != null
        invariant 0 <= i <= |nodes| && node == if i < |nodes| then nodes[i] else null
        invariant forall j :: 0 <= j < i ==> items[j] != x
        decreases |nodes| - i
      {
        if node.data == x {
          return true;
        }
        node := node.next;
        i := i + 1;
      }
      found := false;
    }

    /** list_append */
    method Append(x: T)
      requires Valid()
      modifies repr
      ensures Valid() && items == old(items) + [x] && fresh(repr - old(repr))
    {
      var node := new Node(x);
      if tail == null {
        head := node;
        tail := node;
      } else {
        tail.next := node;
        tail := node;
      }
      length := length + 1;
      Enter(node, |nodes|);
      assert items == old(items) + [x];
    }

    /** list_prepend */
    method Prepend(x: T)
      requires Valid()
      modifies repr
      ensures Valid() && items == [x] + old(items) && fresh(repr - old(repr))
    {
      var node := new Node(x);
      node.next := head;
      head := node;
      if tail == null {
        tail := head;
      }
      length := length + 1;
      Enter(node, 0);
      assert items == [x] + old(items);
    }

    /** list_insert_after the node in place k */
    method InsertAfter(prev: Node<T>, x: T, ghost k: nat)
      requires Valid() && k < |nodes| && nodes[k] == prev
      modifies repr
      ensures Valid() && items == Insert(old(items), k + 1, x) && fresh(repr - old(repr))
    {
      var node := new Node(x);
      assert prev.next == After(nodes, k);
      node.next := prev.next;
      prev.next := node;
      if tail == prev {
        tail := node;
      }
      length := length + 1;
      Enter(node, k + 1);
    }

    /** A node that has been linked in, in place k, is one of the list's. */
    ghost method Enter(node: Node<T>, k: nat)
      requires this in repr && length == |nodes| + 1 && k <= |nodes| && node !in repr
      requires Placed(nodes, items, repr) && Chained(nodes, k - 1)
      requires (k > 0 ==> nodes[k - 1].next == node) && node.next == After(nodes, k - 1)
      requires head == (if k == 0 then node else nodes[0])
      requires tail == (if k == |nodes| then node else nodes[|nodes| - 1])
      modifies this`nodes, this`items, this`repr
      ensures Valid() && items == Insert(old(items), k, node.data) && repr == old(repr) + {node}
    {
      PlacedInsert(nodes, items, repr, k, node);
      ChainedInsert(nodes, k, node);
      nodes, items, repr := Insert(nodes, k, node), Insert(items, k, node.data), repr + {node};
    }

    /** list_remove: the first one goes. */
    method Remove(x: T) returns (removed: bool)
      requires Valid()
      modifies repr
      ensures Valid() && repr <= old(repr)
      ensures removed <==> x in old(items)
      ensures items == if removed then Without(old(items), Find(old(items), x)) else old(items)
    {
      if length == 0 {
        return false;
      }
      if head.data == x {
        FindIs(items, x, 0);
        RemoveHead();
        return true;
      }
      var prev := head;
      var node := head.next;
      assert node == After(nodes, 0);
      ghost var i := 1;
      while node != null
        invariant unchanged(repr) && Valid() && repr == old(repr) && items == old(items)
        invariant 1 <= i <= |nodes| && prev == nodes[i - 1] && node == if i < |nodes| then nodes[i] else null
        invariant forall j :: 0 <= j < i ==> items[j] != x
        decreases |nodes| - i
      {
        if node.data == x {
          FindIs(items, x, i);
          RemoveAfter(prev, node, i);
          return true;
        }
        prev := node;
        node := node.next;
        i := i + 1;
      }
      removed := false;
    }

    method RemoveHead()
      requires Valid() && items != []
      modifies repr
      ensures Valid() && items == Without(old(items), 0) && repr <= old(repr)
    {
      var next := head.next;
      assert next == After(nodes, 0);
      length := length - 1;
      if tail == head {
        tail := next;
      }
      head := next;
      Leave(0);
    }

    method RemoveAfter(prev: Node<T>, node: Node<T>, ghost i: nat)
      requires Valid() && 1 <= i < |nodes| && prev == nodes[i - 1] && node == nodes[i]
      modifies repr
      ensures Valid() && items == Without(old(items), i) && repr <= old(repr)
    {
      assert node.next == After(nodes, i);
      prev.next := node.next;
      length := length - 1;
      if tail == node {
        tail := prev;
      }
      Leave(i);
    }

    /** A node that has been bypassed, in place k, is no longer one of the list's. */
    ghost method Leave(k: nat)
      requires this in repr && k < |nodes| && length == |nodes| - 1
      requires Placed(nodes, items, repr) && Chained(nodes, k - 1)
      requires k > 0 ==> nodes[k - 1].next == After(nodes, k)
      requires head == (if k > 0 then nodes[0] else After(nodes, 0))
      requires tail == (if k < |nodes| - 1 then nodes[|nodes| - 1] else if k > 0 then nodes[k - 1] else null)
      modifies this`nodes, this`items
      ensures Valid() && items == Without(old(items), k)
    {
      PlacedWithout(nodes, items, repr, k);
      ChainedWithout(nodes, k);
      nodes, items := Without(nodes, k), Without(items, k);
    }

    /** list_clear: every element is freed once, in order. */
    method Clear() returns (freed: seq<T>)
      requires Valid()
      modifies this
      ensures Valid() && items == [] && freed == old(items) && repr == {this}
    {
      freed := [];
      var node := head;
      ghost var i := 0;
      while node != null
        invariant 0 <= i <= |nodes| && node == if i < |nodes| then nodes[i] else null
        invariant Valid() && nodes == old(nodes) && items == old(items) && freed == items[..i]
        decreases |nodes| - i
      {
        freed := freed + [node.data];
        node := node.next;
        i := i + 1;
      }
      head := null;
      tail := null;
      length := 0;
      nodes, items, repr := [], [], {this};
    }
  }
}
