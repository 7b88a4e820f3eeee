/**
 fixed_queue.c: the bounded blocking queue, as a state machine. A state holds the list, the two semaphores, the mutex
 and one program counter for each of any number of threads; a move is one semaphore, lock or list operation of one
 thread, so a run is any interleaving whatsoever.
 */
module FixedQueue {
  import opened Bytes
  import opened Sequences

  /** An element of the list: the pointer, and (to tell equal pointers apart) which append brought it in. */
  datatype Item = Item(data: nat, ticket: nat)

  datatype Ret = Void | Bool(b: bool) | Pointer(p: Option<nat>)

  /** What a thread does next. */
  datatype Pc =
    | Idle(ret: Ret)
    | EnqTake(data: nat, wait: bool) | EnqLock(data: nat, wait: bool) | EnqAppend(data: nat, wait: bool)
    | EnqUnlock(wait: bool) | EnqGive(wait: bool)
    | DeqTake(wait: bool) | DeqLock | DeqFront | DeqRemove(found: nat) | DeqUnlock(found: nat) | DeqGive(found: nat)
    | RemLock(data: nat) | RemContains(data: nat) | RemTake(data: nat) | RemRemove(data: nat)
    | RemUnlock(data: nat, removed: bool) | RemGive(data: nat)
    | PeekLock(last: bool) | PeekRead(last: bool) | PeekUnlock(last: bool, seen: Option<nat>)

  /** What the threads share; `fault` says that an assertion of the list or of the queue failed, and appended, taken and
      removed are histories. */
  datatype Shared = Shared(list: seq<Item>, enqueueSem: nat, dequeueSem: nat, lock: Option<nat>, fault: bool,
                           appended: seq<Item>, taken: seq<Item>, removed: seq<Item>)

  datatype Queue = Queue(capacity: nat, shared: Shared, threads: seq<Pc>)

  /** fixed_queue_new, for n threads */
  function New(capacity: nat, n: nat): Queue {
    Queue(capacity, Shared([], capacity, 0, None, false, [], [], []), seq(n, i => Idle(Void)))
  }

  /** The public operations. */
  datatype Op = Enqueue(data: nat) | TryEnqueue(data: nat) | Dequeue | TryDequeue | TryRemove(data: nat)
              | TryPeekFirst | TryPeekLast

  function Entry(op: Op): Pc {
    match op
    case Enqueue(d) => EnqTake(d, true)
    case TryEnqueue(d) => EnqTake(d, false)
    case Dequeue => DeqTake(true)
    case TryDequeue => DeqTake(false)
    case TryRemove(d) => RemLock(d)
    case TryPeekFirst => PeekLock(false)
    case TryPeekLast => PeekLock(true)
  }

  datatype Move = Call(thread: nat, op: Op) | Go(thread: nat)

  // ----- the list

  /** The list as list.c has it. */
  function Pointers(list: seq<Item>): (r: seq<nat>)
    ensures |r| == |list| && forall i :: 0 <= i < |r| ==> r[i] == list[i].data
  {
    seq(|list|, i requires 0 <= i < |list| => list[i].data)
  }

  // ----- one operation of one thread

  function TryLock(s: Shared, t: nat, here: Pc, inside: Pc): (Shared, Pc) {
    if s.lock.None? then (s.(lock := Some(t)), inside) else (s, here)
  }

  function Unlock(s: Shared): Shared {
    s.(lock := None)
  }

  function Append(s: Shared, data: nat): Shared {
    var x := Item(data, |s.appended|);
    s.(list := s.list + [x], appended := s.appended + [x])
  }

  /** list_remove on behalf of a dequeue */
  function Take(s: Shared, data: nat): Shared {
    var i := Find(Pointers(s.list), data);
    if i == |s.list| then s else s.(list := Without(s.list, i), taken := s.taken + [s.list[i]])
  }

  /** list_remove on behalf of fixed_queue_try_remove_from_queue, which asserts that it succeeds */
  function Remove(s: Shared, data: nat): Shared {
    var i := Find(Pointers(s.list), data);
    if i == |s.list| then s.(fault := true)
    else s.(list := Without(s.list, i), removed := s.removed + [s.list[i]])
  }

  /** What peeking sees; list_front and list_back are behind a test here. */
  function Seen(list: seq<Item>, last: bool): Option<nat> {
    if list == [] then None else Some(if last then list[|list| - 1].data else list[0].data)
  }

  /** The next operation of thread t, which is at pc; a thread that has to wait stays there. */
  function Turn(s: Shared, t: nat, pc: Pc): (Shared, Pc) {
    match pc
    case Idle(_) => (s, pc)
    case EnqTake(d, wait) =>
      if s.enqueueSem > 0 then (s.(enqueueSem := s.enqueueSem - 1), EnqLock(d, wait))
      else (s, if wait then pc else Idle(Bool(false)))
    case EnqLock(d, wait) => TryLock(s, t, pc, EnqAppend(d, wait))
    case EnqAppend(d, wait) => (Append(s, d), EnqUnlock(wait))
    case EnqUnlock(wait) => (Unlock(s), EnqGive(wait))
    case EnqGive(wait) => (s.(dequeueSem := s.dequeueSem + 1), Idle(if wait then Void else Bool(true)))
    case DeqTake(wait) =>
      if s.dequeueSem > 0 then (s.(dequeueSem := s.dequeueSem - 1), DeqLock)
      else (s, if wait then pc else Idle(Pointer(None)))
    case DeqLock => TryLock(s, t, pc, DeqFront)
    case DeqFront => if s.list == [] then (s.(fault := true), pc) else (s, DeqRemove(s.list[0].data))
    case DeqRemove(x) => (Take(s, x), DeqUnlock(x))
    case DeqUnlock(x) => (Unlock(s), DeqGive(x))
    case DeqGive(x) => (s.(enqueueSem := s.enqueueSem + 1), Idle(Pointer(Some(x))))
    case RemLock(d) => TryLock(s, t, pc, RemContains(d))
    case RemContains(d) => (s, if Find(Pointers(s.list), d) < |s.list| then RemTake(d) else RemUnlock(d, false))
    case RemTake(d) =>
      if s.dequeueSem > 0 then (s.(dequeueSem := s.dequeueSem - 1), RemRemove(d)) else (s, RemUnlock(d, false))
    case RemRemove(d) => (Remove(s, d), RemUnlock(d, true))
    case RemUnlock(d, removed) => (Unlock(s), if removed then RemGive(d) else Idle(Pointer(None)))
    case RemGive(d) => (s.(enqueueSem := s.enqueueSem + 1), Idle(Pointer(Some(d))))
    case PeekLock(last) => TryLock(s, t, pc, PeekRead(last))
    case PeekRead(last) => (s, PeekUnlock(last, Seen(s.list, last)))
    case PeekUnlock(_, seen) => (Unlock(s), Idle(Pointer(seen)))
  }

  function Apply(q: Queue, m: Move): Queue {
    if m.thread >= |q.threads| then q
    else match m
      case Call(t, op) => if q.threads[t].Idle? then q.(threads := q.threads[t := Entry(op)]) else q
      case Go(t) =>
        var (s, pc) := Turn(q.shared, t, q.threads[t]);
        q.(shared := s, threads := q.threads[t := pc])
  }

  function Run(q: Queue, moves: seq<Move>): Queue
    decreases |moves|
  {
    if moves == [] then q else Run(Apply(q, moves[0]), moves[1..])
  }

  // ----- the invariant

  /** Slots a thread holds: one that it has reserved and not filled, or emptied and not given back. */
  function Slots(pc: Pc): nat {
    if pc.EnqLock? || pc.EnqAppend? || pc.DeqUnlock? || pc.DeqGive? || (pc.RemUnlock? && pc.removed) || pc.RemGive?
    then 1
    else 0
  }

  /** Elements a thread answers for: one that it has appended and not announced, or claimed and not yet removed. */
  function Claims(pc: Pc): nat {
    if pc.EnqUnlock? || pc.EnqGive? || pc.DeqLock? || pc.DeqFront? || pc.DeqRemove? || pc.RemRemove? then 1 else 0
  }

  function Sum(threads: seq<Pc>, weight: Pc -> nat): nat {
    if threads == [] then 0 else weight(threads[0]) + Sum(threads[1..], weight)
  }

  /** The mutex is held. */
  predicate Inside(pc: Pc) {
    || pc.EnqAppend? || pc.EnqUnlock? || pc.DeqFront? || pc.DeqRemove? || pc.DeqUnlock?
    || pc.RemContains? || pc.RemTake? || pc.RemRemove? || pc.RemUnlock? || pc.PeekRead? || pc.PeekUnlock?
  }

  /** What the thread that holds the mutex has seen is still so. */
  ghost predicate Current(list: seq<Item>, pc: Pc) {
    && (pc.DeqRemove? ==> list != [] && list[0].data == pc.found)
    && (pc.RemTake? || pc.RemRemove? ==> Find(Pointers(list), pc.data) < |list|)
    && (pc.PeekUnlock? ==> pc.seen == Seen(list, pc.last))
  }

  /** Semaphores: every slot and every element is accounted for. */
  ghost predicate Counts(q: Queue) {
    && q.shared.enqueueSem + |q.shared.list| + Sum(q.threads, Slots) == q.capacity
    && q.shared.dequeueSem + Sum(q.threads, Claims) == |q.shared.list|
  }

  ghost predicate ThreadOk(s: Shared, t: nat, pc: Pc) {
    (Inside(pc) <==> s.lock == Some(t)) && Current(s.list, pc)
  }

  ghost predicate Exclusive(q: Queue) {
    && (forall t :: 0 <= t < |q.threads| ==> ThreadOk(q.shared, t, q.threads[t]))
    && (q.shared.lock.Some? ==> q.shared.lock.value < |q.threads|)
  }

  ghost predicate Ordered(s: seq<Item>, bound: nat) {
    && (forall i, j :: 0 <= i < j < |s| ==> s[i].ticket < s[j].ticket)
    && (forall i :: 0 <= i < |s| ==> s[i].ticket < bound)
  }

  /** First in, first out: what dequeues have taken, followed by what is still there, is in the order of the appends;
      and every append is still in the list, taken or explicitly removed, once. */
  ghost predicate Fifo(s: Shared) {
    && Ordered(s.taken + s.list, |s.appended|)
    && multiset(s.appended) == multiset(s.taken) + multiset(s.list) + multiset(s.removed)
  }

  ghost predicate Valid(q: Queue) {
    Counts(q) && Exclusive(q) && Fifo(q.shared) && !q.shared.fault
  }

  // ----- sums

  lemma {:induction false} SumUpdate(s: seq<Pc>, weight: Pc -> nat, t: nat, pc: Pc)
    requires t < |s|
    ensures Sum(s[t := pc], weight) + weight(s[t]) == Sum(s, weight) + weight(pc)
  {
    if t == 0 {
      assert s[0 := pc][1..] == s[1..];
    } else {
      assert s[t := pc][1..] == s[1..][t - 1 := pc];
      SumUpdate(s[1..], weight, t - 1, pc);
    }
  }

  lemma {:induction false} SumAtLeast(s: seq<Pc>, weight: Pc -> nat, t: nat)
    requires t < |s|
    ensures weight(s[t]) <= Sum(s, weight)
  {
    if t > 0 { SumAtLeast(s[1..], weight, t - 1); }
  }

  lemma {:induction false} SumZero(s: seq<Pc>, weight: Pc -> nat)
    requires forall t :: 0 <= t < |s| ==> weight(s[t]) == 0
    ensures Sum(s, weight) == 0
  {
    if s != [] { SumZero(s[1..], weight); }
  }

  // ----- every step keeps the invariant

  /** A thread that is about to remove an element finds one. */
  lemma ListFrontIsSafe(q: Queue, t: nat)
    requires Valid(q) && t < |q.threads|
    requires q.threads[t].DeqFront? || q.threads[t].DeqRemove? || q.threads[t].RemRemove?
    ensures q.shared.list != [] && !Turn(q.shared, t, q.threads[t]).0.fault
  {
    SumAtLeast(q.threads, Claims, t);
    assert ThreadOk(q.shared, t, q.threads[t]);
  }

  /** No operation creates or loses a slot or an element. */
  lemma TurnCounts(s: Shared, t: nat, pc: Pc)
    requires ThreadOk(s, t, pc) && !s.fault && (pc.DeqFront? ==> s.list != [])
    ensures var (s', pc') := Turn(s, t, pc);
      && !s'.fault
      && s'.enqueueSem + |s'.list| + Slots(pc') == s.enqueueSem + |s.list| + Slots(pc)
      && s'.dequeueSem + Claims(pc') + |s.list| == s.dequeueSem + Claims(pc) + |s'.list|
  {
  }

  lemma TurnThread(s: Shared, t: nat, pc: Pc)
    requires ThreadOk(s, t, pc) && (pc.DeqFront? ==> s.list != [])
    ensures ThreadOk(Turn(s, t, pc).0, t, Turn(s, t, pc).1)
  {
  }

  /** Another thread keeps the mutex if it has it, and then nothing changes behind its back. */
  lemma TurnOther(s: Shared, t: nat, pc: Pc, u: nat, other: Pc)
    requires ThreadOk(s, t, pc) && ThreadOk(s, u, other) && t != u
    ensures ThreadOk(Turn(s, t, pc).0, u, other)
  {
    if !Inside(pc) { assert Turn(s, t, pc).0.list == s.list; }
  }

  lemma TurnLock(s: Shared, t: nat, pc: Pc)
    ensures var l := Turn(s, t, pc).0.lock; l == s.lock || l == None || l == Some(t)
  {
  }

  lemma GoCounts(q: Queue, t: nat)
    requires Valid(q) && t < |q.threads|
    ensures Counts(Apply(q, Go(t))) && !Apply(q, Go(t)).shared.fault
  {
    var pc := q.threads[t];
    assert ThreadOk(q.shared, t, pc);
    if pc.DeqFront? { ListFrontIsSafe(q, t); }
    TurnCounts(q.shared, t, pc);
    SumUpdate(q.threads, Slots, t, Turn(q.shared, t, pc).1);
    SumUpdate(q.threads, Claims, t, Turn(q.shared, t, pc).1);
  }

  lemma GoExclusive(q: Queue, t: nat)
    requires Valid(q) && t < |q.threads|
    ensures Exclusive(Apply(q, Go(t)))
  {
    var pc, r := q.threads[t], Apply(q, Go(t));
    assert ThreadOk(q.shared, t, pc);
    if pc.DeqFront? { ListFrontIsSafe(q, t); }
    TurnThread(q.shared, t, pc);
    TurnLock(q.shared, t, pc);
    forall u | 0 <= u < |r.threads| ensures ThreadOk(r.shared, u, r.threads[u]) {
      if u != t { TurnOther(q.shared, t, pc, u, q.threads[u]); }
    }
  }

  lemma AppendKeeps(taken: seq<Item>, list: seq<Item>, removed: seq<Item>, appended: seq<Item>, x: Item)
    requires Ordered(taken + list, |appended|) && x.ticket == |appended|
    requires multiset(appended) == multiset(taken) + multiset(list) + multiset(removed)
    ensures Ordered(taken + (list + [x]), |appended + [x]|)
    ensures multiset(appended + [x]) == multiset(taken) + multiset(list + [x]) + multiset(removed)
  {
    assert taken + (list + [x]) == (taken + list) + [x];
  }

  lemma Extract(list: seq<Item>, i: nat)
    requires i < |list|
    ensures multiset(list) == multiset(Without(list, i)) + multiset{list[i]}
  {
    assert list == list[..i] + [list[i]] + list[i + 1..];
  }

  lemma TakeKeeps(taken: seq<Item>, list: seq<Item>, bound: nat)
    requires Ordered(taken + list, bound) && list != []
    ensures Ordered((taken + [list[0]]) + Without(list, 0), bound)
    ensures multiset(taken) + multiset(list) == multiset(taken + [list[0]]) + multiset(Without(list, 0))
  {
    Extract(list, 0);
    assert (taken + [list[0]]) + Without(list, 0) == taken + list;
  }

  lemma RemoveKeeps(taken: seq<Item>, list: seq<Item>, removed: seq<Item>, bound: nat, i: nat)
    requires Ordered(taken + list, bound) && i < |list|
    ensures Ordered(taken + Without(list, i), bound)
    ensures multiset(list) + multiset(removed) == multiset(Without(list, i)) + multiset(removed + [list[i]])
  {
    Extract(list, i);
    var s, r, k := taken + list, taken + Without(list, i), |taken| + i;
    forall a | 0 <= a < |r| ensures r[a] == s[if a < k then a else a + 1] {
    }
  }

  /** Only three operations touch the list. */
  lemma TurnQuiet(s: Shared, t: nat, pc: Pc)
    requires !pc.EnqAppend? && !pc.DeqRemove? && !pc.RemRemove?
    ensures var r := Turn(s, t, pc).0;
      r.list == s.list && r.appended == s.appended && r.taken == s.taken && r.removed == s.removed
  {
  }

  /** The three operations that do. */
  lemma TurnTouches(s: Shared, t: nat, pc: Pc)
    ensures pc.EnqAppend? ==> Turn(s, t, pc).0 == Append(s, pc.data)
    ensures pc.DeqRemove? ==> Turn(s, t, pc).0 == Take(s, pc.found)
    ensures pc.RemRemove? ==> Turn(s, t, pc).0 == Remove(s, pc.data)
  {
  }

  lemma QuietFifo(s: Shared, r: Shared)
    requires Fifo(s)
    requires r.list == s.list && r.appended == s.appended && r.taken == s.taken && r.removed == s.removed
    ensures Fifo(r)
  {
  }

  lemma AppendFifo(s: Shared, data: nat)
    requires Fifo(s)
    ensures Fifo(Append(s, data))
  {
    AppendKeeps(s.taken, s.list, s.removed, s.appended, Item(data, |s.appended|));
  }

  lemma TurnFifo(s: Shared, t: nat, pc: Pc)
    requires Fifo(s) && Current(s.list, pc)
    ensures Fifo(Turn(s, t, pc).0)
  {
    TurnTouches(s, t, pc);
    if pc.EnqAppend? {
      AppendFifo(s, pc.data);
    } else if pc.DeqRemove? {
      TakeFifo(s, pc.found);
    } else if pc.RemRemove? {
      RemoveFifo(s, pc.data);
    } else {
      TurnQuiet(s, t, pc);
      QuietFifo(s, Turn(s, t, pc).0);
    }
  }

  lemma TakeFifo(s: Shared, data: nat)
    requires Fifo(s) && s.list != [] && s.list[0].data == data
    ensures Fifo(Take(s, data))
  {
    TakeKeeps(s.taken, s.list, |s.appended|);
    Balance(multiset(s.taken) + multiset(s.list), multiset(s.taken + [s.list[0]]) + multiset(Without(s.list, 0)),
            multiset(s.removed));
  }

  lemma RemoveFifo(s: Shared, data: nat)
    requires Fifo(s) && Find(Pointers(s.list), data) < |s.list|
    ensures Fifo(Remove(s, data))
  {
    var i := Find(Pointers(s.list), data);
    RemoveKeeps(s.taken, s.list, s.removed, |s.appended|, i);
    Rebalance(multiset(s.taken), multiset(s.list), multiset(s.removed),
              multiset(Without(s.list, i)), multiset(s.removed + [s.list[i]]));
  }

  lemma Balance(a: multiset<Item>, b: multiset<Item>, c: multiset<Item>)
    requires a == b
    ensures a + c == b + c
  {
  }

  lemma Rebalance(a: multiset<Item>, b: multiset<Item>, c: multiset<Item>, d: multiset<Item>, e: multiset<Item>)
    requires b + c == d + e
    ensures a + b + c == a + d + e
  {
    assert a + (b + c) == a + b + c && a + (d + e) == a + d + e;
  }

  lemma CallValid(q: Queue, t: nat, op: Op)
    requires Valid(q) && t < |q.threads| && q.threads[t].Idle?
    ensures Valid(Apply(q, Call(t, op)))
  {
    var r := Apply(q, Call(t, op));
    SumUpdate(q.threads, Slots, t, Entry(op));
    SumUpdate(q.threads, Claims, t, Entry(op));
    forall u | 0 <= u < |r.threads| ensures ThreadOk(r.shared, u, r.threads[u]) {
      assert ThreadOk(q.shared, u, q.threads[u]);
    }
  }

  lemma ApplyValid(q: Queue, m: Move)
    requires Valid(q)
    ensures Valid(Apply(q, m)) && Apply(q, m).capacity == q.capacity
  {
    if m.thread < |q.threads| {
      match m
      case Call(t, op) => if q.threads[t].Idle? { CallValid(q, t, op); }
      case Go(t) =>
        GoCounts(q, t);
        GoExclusive(q, t);
        assert ThreadOk(q.shared, t, q.threads[t]);
        TurnFifo(q.shared, t, q.threads[t]);
    }
  }

  lemma {:induction false} RunValid(q: Queue, moves: seq<Move>)
    requires Valid(q)
    ensures Valid(Run(q, moves)) && Run(q, moves).capacity == q.capacity
    decreases |moves|
  {
    if moves != [] {
      ApplyValid(q, moves[0]);
      RunValid(Apply(q, moves[0]), moves[1..]);
    }
  }

  // ----- what that means

  lemma NewValid(capacity: nat, n: nat)
    ensures Valid(New(capacity, n))
  {
    SumZero(New(capacity, n).threads, Slots);
    SumZero(New(capacity, n).threads, Claims);
  }

  /** Whatever any number of threads do, in whatever order: the list and both semaphores stay within the capacity
      (which the semaphores themselves do not enforce), no assertion fails, at most one thread is inside the mutex,
      and dequeues take elements in the order in which they were appended. */
  lemma QueueSafety(capacity: nat, n: nat, moves: seq<Move>)
    ensures var q := Run(New(capacity, n), moves);
      && |q.shared.list| <= capacity && q.shared.enqueueSem <= capacity && q.shared.dequeueSem <= |q.shared.list|
      && !q.shared.fault
      && (forall t, u ::
            0 <= t < |q.threads| && 0 <= u < |q.threads| && Inside(q.threads[t]) && Inside(q.threads[u]) ==> t == u)
      && Fifo(q.shared)
  {
    NewValid(capacity, n);
    RunValid(New(capacity, n), moves);
    var q := Run(New(capacity, n), moves);
    forall t | 0 <= t < |q.threads| && Inside(q.threads[t]) ensures q.shared.lock == Some(t) {
      assert ThreadOk(q.shared, t, q.threads[t]);
    }
  }

  /** In every reachable state, a thread that dequeues takes the front of the list as it is now, and returns it. */
  lemma DequeueTakesFront(capacity: nat, n: nat, moves: seq<Move>, t: nat)
    requires var q := Run(New(capacity, n), moves); t < |q.threads| && q.threads[t].DeqRemove?
    ensures var q := Run(New(capacity, n), moves);
      var (s, pc) := Turn(q.shared, t, q.threads[t]);
      && q.shared.list != [] && s.list == q.shared.list[1..]
      && s.taken == q.shared.taken + [q.shared.list[0]]
      && pc == DeqUnlock(q.shared.list[0].data)
  {
    NewValid(capacity, n);
    RunValid(New(capacity, n), moves);
    var q := Run(New(capacity, n), moves);
    assert ThreadOk(q.shared, t, q.threads[t]);
    assert Find(Pointers(q.shared.list), q.threads[t].found) == 0;
    assert Without(q.shared.list, 0) == q.shared.list[1..];
  }

  /** An explicit removal, once it has its token, takes the first element with its pointer: there still is one. */
  lemma RemoveTakesFirst(capacity: nat, n: nat, moves: seq<Move>, t: nat) returns (i: nat)
    requires var q := Run(New(capacity, n), moves); t < |q.threads| && q.threads[t].RemRemove?
    ensures var q := Run(New(capacity, n), moves);
      var l, s, d := q.shared.list, Turn(q.shared, t, q.threads[t]).0, q.threads[t].data;
      && i < |l| && l[i].data == d && (forall j :: 0 <= j < i ==> l[j].data != d)
      && s.list == l[..i] + l[i + 1..] && s.removed == q.shared.removed + [l[i]]
  {
    NewValid(capacity, n);
    RunValid(New(capacity, n), moves);
    var q := Run(New(capacity, n), moves);
    assert ThreadOk(q.shared, t, q.threads[t]);
    i := Find(Pointers(q.shared.list), q.threads[t].data);
  }

  /** In every reachable state, what a peeking thread is about to return is still an end of the list as it is now:
      nothing just when the list is empty, and otherwise the next element to be dequeued, or the one appended last. */
  lemma PeekIsCurrent(capacity: nat, n: nat, moves: seq<Move>, t: nat)
    requires var q := Run(New(capacity, n), moves); t < |q.threads| && q.threads[t].PeekUnlock?
    ensures var q := Run(New(capacity, n), moves);
      var l, pc := q.shared.list, q.threads[t];
      && (pc.seen.None? <==> l == [])
      && (l != [] && !pc.last ==> pc.seen == Some(l[0].data) && forall i :: 0 < i < |l| ==> l[0].ticket < l[i].ticket)
      && (l != [] && pc.last ==>
            pc.seen == Some(l[|l| - 1].data) && forall i :: 0 <= i < |l| - 1 ==> l[i].ticket < l[|l| - 1].ticket)
  {
    NewValid(capacity, n);
    RunValid(New(capacity, n), moves);
    var q := Run(New(capacity, n), moves);
    assert ThreadOk(q.shared, t, q.threads[t]);
    ListOrdered(q.shared);
  }

  lemma ListOrdered(s: Shared)
    requires Fifo(s)
    ensures Ordered(s.list, |s.appended|)
  {
    var all, k := s.taken + s.list, |s.taken|;
    forall i, j | 0 <= i < j < |s.list| ensures s.list[i].ticket < s.list[j].ticket {
      assert s.list[i] == all[k + i] && s.list[j] == all[k + j];
    }
    forall i | 0 <= i < |s.list| ensures s.list[i].ticket < |s.appended| {
      assert s.list[i] == all[k + i];
    }
  }

  /** A thread has something to do and cannot do it. */
  predicate Blocked(q: Queue, t: nat)
    requires t < |q.threads|
  {
    !q.threads[t].Idle? && Turn(q.shared, t, q.threads[t]) == (q.shared, q.threads[t])
  }

  predicate Waits(pc: Pc) {
    (pc.EnqTake? && pc.wait) || (pc.DeqTake? && pc.wait)
  }

  /** No deadlock and no lost wake-up: when no thread can move, those that are not idle wait either for room in a list
      that is full, or for an element in a list that is empty. */
  lemma OnlyFullOrEmptyBlocks(capacity: nat, n: nat, moves: seq<Move>, t: nat)
    requires var q := Run(New(capacity, n), moves);
      t < |q.threads| && Blocked(q, t) && forall u :: 0 <= u < |q.threads| ==> q.threads[u].Idle? || Blocked(q, u)
    ensures var q := Run(New(capacity, n), moves);
      && Waits(q.threads[t])
      && (q.threads[t].EnqTake? ==> |q.shared.list| == capacity)
      && (q.threads[t].DeqTake? ==> q.shared.list == [])
  {
    NewValid(capacity, n);
    RunValid(New(capacity, n), moves);
    StuckOnlyWhenFullOrEmpty(Run(New(capacity, n), moves), t);
  }

  lemma StuckOnlyWhenFullOrEmpty(q: Queue, t: nat)
    requires Valid(q) && t < |q.threads| && Blocked(q, t)
    requires forall u :: 0 <= u < |q.threads| ==> q.threads[u].Idle? || Blocked(q, u)
    ensures Waits(q.threads[t])
    ensures q.threads[t].EnqTake? ==> |q.shared.list| == q.capacity
    ensures q.threads[t].DeqTake? ==> q.shared.list == []
  {
    if q.shared.lock.Some? {
      var h := q.shared.lock.value;
      assert ThreadOk(q.shared, h, q.threads[h]);
      assert q.threads[h].Idle? || Blocked(q, h);
      HolderMoves(q, h);
    }
    forall u | 0 <= u < |q.threads| ensures q.threads[u].Idle? || Waits(q.threads[u]) {
      if !q.threads[u].Idle? { BlockedWaits(q, u); }
    }
    SumZero(q.threads, Slots);
    SumZero(q.threads, Claims);
    BlockedWaits(q, t);
  }

  /** The thread inside the mutex never waits. */
  lemma HolderMoves(q: Queue, t: nat)
    requires Valid(q) && t < |q.threads| && Inside(q.threads[t])
    ensures !Blocked(q, t)
  {
    if q.threads[t].DeqFront? { ListFrontIsSafe(q, t); }
    assert Turn(q.shared, t, q.threads[t]).1 != q.threads[t];
  }

  /** With the mutex free, a thread waits only for a semaphore that is at zero. */
  lemma BlockedWaits(q: Queue, t: nat)
    requires Valid(q) && t < |q.threads| && Blocked(q, t) && q.shared.lock.None?
    ensures Waits(q.threads[t])
    ensures q.threads[t].EnqTake? ==> q.shared.enqueueSem == 0
    ensures q.threads[t].DeqTake? ==> q.shared.dequeueSem == 0
  {
    assert ThreadOk(q.shared, t, q.threads[t]);
    assert Turn(q.shared, t, q.threads[t]).1 == q.threads[t];
  }
}
