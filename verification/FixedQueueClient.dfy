/**
 fixed_queue.c as its callers see it: which call of which operation returned what. Every run of the queue, whatever the
 interleaving, is judged by calls and results alone.
 */
module FixedQueueClient {
  import opened Bytes
  import opened Sequences
  import opened FixedQueue

  /** The queue, the last call of each thread, and the calls that have returned, with their results. */
  datatype Trace = Trace(q: Queue, ops: seq<Op>, done: seq<(Op, Ret)>)

  function Begin(capacity: nat, n: nat): Trace {
    Trace(New(capacity, n), seq(n, i => Dequeue), [])
  }

  /** A call returns when its thread, busy before, is idle afterwards. */
  function Next(t: Trace, m: Move): Trace
    requires |t.ops| == |t.q.threads|
  {
    var r := Apply(t.q, m);
    if m.thread >= |t.q.threads| then t
    else match m
      case Call(i, op) => if t.q.threads[i].Idle? then t.(q := r, ops := t.ops[i := op]) else t
      case Go(i) =>
        if !t.q.threads[i].Idle? && r.threads[i].Idle? then t.(q := r, done := t.done + [(t.ops[i], r.threads[i].ret)])
        else t.(q := r)
  }

  function Trail(t: Trace, moves: seq<Move>): (r: Trace)
    requires |t.ops| == |t.q.threads|
    ensures |r.ops| == |r.q.threads|
    decreases |moves|
  {
    if moves == [] then t else Trail(Next(t, moves[0]), moves[1..])
  }

  // ----- what calls and results say of a pointer x

  function One(b: bool): nat {
    if b then 1 else 0
  }

  /** This call brought x in: an enqueue that said so. */
  predicate Puts(op: Op, ret: Ret, x: nat) {
    (op == Enqueue(x) && ret == Void) || (op == TryEnqueue(x) && ret == Bool(true))
  }

  /** This call gave x out, being a dequeue. */
  predicate Gets(op: Op, ret: Ret, x: nat) {
    (op.Dequeue? || op.TryDequeue?) && ret == Pointer(Some(x))
  }

  /** This call gave x out, being a removal. */
  predicate Pulls(op: Op, ret: Ret, x: nat) {
    op.TryRemove? && ret == Pointer(Some(x))
  }

  /** How many of the calls that have returned are such calls. */
  function HowMany(done: seq<(Op, Ret)>, such: (Op, Ret) -> bool): nat {
    if done == [] then 0
    else HowMany(done[..|done| - 1], such) + One(such(done[|done| - 1].0, done[|done| - 1].1))
  }

  lemma HowManyMore(done: seq<(Op, Ret)>, op: Op, ret: Ret, such: (Op, Ret) -> bool)
    ensures HowMany(done + [(op, ret)], such) == HowMany(done, such) + One(such(op, ret))
  {
    assert (done + [(op, ret)])[..|done|] == done;
  }

  /** What an operation may return: a dequeue that waits always returns an element, an enqueue that waits nothing, and a
      removal only what it was asked for. */
  predicate Proper(op: Op, ret: Ret) {
    match op
    case Enqueue(_) => ret == Void
    case TryEnqueue(_) => ret.Bool?
    case Dequeue => ret.Pointer? && ret.p.Some?
    case TryRemove(d) => ret == Pointer(None) || ret == Pointer(Some(d))
    case _ => ret.Pointer?
  }

  // ----- calls under way

  /** Where a thread may be in the call it has made. */
  predicate Fits(op: Op, pc: Pc) {
    match pc
    case Idle(_) => true
    case EnqTake(d, wait) => op == if wait then Enqueue(d) else TryEnqueue(d)
    case EnqLock(d, wait) => op == if wait then Enqueue(d) else TryEnqueue(d)
    case EnqAppend(d, wait) => op == if wait then Enqueue(d) else TryEnqueue(d)
    case EnqUnlock(wait) => if wait then op.Enqueue? else op.TryEnqueue?
    case EnqGive(wait) => if wait then op.Enqueue? else op.TryEnqueue?
    case DeqTake(wait) => op == if wait then Dequeue else TryDequeue
    case DeqLock => op.Dequeue? || op.TryDequeue?
    case DeqFront => op.Dequeue? || op.TryDequeue?
    case DeqRemove(_) => op.Dequeue? || op.TryDequeue?
    case DeqUnlock(_) => op.Dequeue? || op.TryDequeue?
    case DeqGive(_) => op.Dequeue? || op.TryDequeue?
    case RemLock(d) => op == TryRemove(d)
    case RemContains(d) => op == TryRemove(d)
    case RemTake(d) => op == TryRemove(d)
    case RemRemove(d) => op == TryRemove(d)
    case RemUnlock(d, _) => op == TryRemove(d)
    case RemGive(d) => op == TryRemove(d)
    case PeekLock(last) => op == if last then TryPeekLast else TryPeekFirst
    case PeekRead(last) => op == if last then TryPeekLast else TryPeekFirst
    case PeekUnlock(last, _) => op == if last then TryPeekLast else TryPeekFirst
  }

  /** The call has brought x in, or got or removed it, and has not returned. */
  predicate Putting(op: Op, pc: Pc, x: nat) {
    (pc.EnqUnlock? || pc.EnqGive?) && (op == Enqueue(x) || op == TryEnqueue(x))
  }

  predicate Getting(op: Op, pc: Pc, x: nat) {
    (pc.DeqUnlock? || pc.DeqGive?) && pc.found == x
  }

  predicate Pulling(op: Op, pc: Pc, x: nat) {
    ((pc.RemUnlock? && pc.removed) || pc.RemGive?) && pc.data == x
  }

  /** How many threads are so. */
  function Under(ops: seq<Op>, threads: seq<Pc>, so: (Op, Pc) -> bool): nat
    requires |ops| == |threads|
  {
    if threads == [] then 0 else One(so(ops[0], threads[0])) + Under(ops[1..], threads[1..], so)
  }

  lemma {:induction false} UnderUpdate(ops: seq<Op>, threads: seq<Pc>, so: (Op, Pc) -> bool, t: nat, op: Op, pc: Pc)
    requires |ops| == |threads| && t < |threads|
    ensures Under(ops[t := op], threads[t := pc], so) + One(so(ops[t], threads[t])) ==
      Under(ops, threads, so) + One(so(op, pc))
  {
    var ops', threads' := ops[t := op], threads[t := pc];
    if t == 0 {
      assert ops'[1..] == ops[1..] && threads'[1..] == threads[1..];
    } else {
      assert ops'[1..] == ops[1..][t - 1 := op] && threads'[1..] == threads[1..][t - 1 := pc];
      UnderUpdate(ops[1..], threads[1..], so, t - 1, op, pc);
    }
  }

  lemma {:induction false} UnderNone(ops: seq<Op>, threads: seq<Pc>, so: (Op, Pc) -> bool)
    requires |ops| == |threads| && forall t :: 0 <= t < |threads| ==> !so(ops[t], threads[t])
    ensures Under(ops, threads, so) == 0
  {
    if threads != [] { UnderNone(ops[1..], threads[1..], so); }
  }

  /** How often the pointer x is there. */
  function Times(s: seq<Item>, x: nat): nat {
    if s == [] then 0 else Times(s[..|s| - 1], x) + One(s[|s| - 1].data == x)
  }

  lemma TimesAppend(s: seq<Item>, i: Item, x: nat)
    ensures Times(s + [i], x) == Times(s, x) + One(i.data == x)
  {
    assert (s + [i])[..|s|] == s;
  }

  lemma {:induction false} TimesWithout(s: seq<Item>, i: nat, x: nat)
    requires i < |s|
    ensures Times(s, x) == Times(Without(s, i), x) + One(s[i].data == x)
    decreases |s|
  {
    var r := Without(s, i);
    if i == |s| - 1 {
      assert r == s[..|s| - 1];
    } else {
      assert r[..|r| - 1] == Without(s[..|s| - 1], i);
      TimesWithout(s[..|s| - 1], i, x);
    }
  }

  // ----- the invariant

  ghost predicate ToldPuts(t: Trace, x: nat)
    requires |t.ops| == |t.q.threads|
  {
    Times(t.q.shared.appended, x) ==
      HowMany(t.done, (op, ret) => Puts(op, ret, x)) + Under(t.ops, t.q.threads, (op, pc) => Putting(op, pc, x))
  }

  ghost predicate ToldGets(t: Trace, x: nat)
    requires |t.ops| == |t.q.threads|
  {
    Times(t.q.shared.taken, x) ==
      HowMany(t.done, (op, ret) => Gets(op, ret, x)) + Under(t.ops, t.q.threads, (op, pc) => Getting(op, pc, x))
  }

  ghost predicate ToldPulls(t: Trace, x: nat)
    requires |t.ops| == |t.q.threads|
  {
    Times(t.q.shared.removed, x) ==
      HowMany(t.done, (op, ret) => Pulls(op, ret, x)) + Under(t.ops, t.q.threads, (op, pc) => Pulling(op, pc, x))
  }

  ghost predicate AllThere(s: Shared, x: nat) {
    Times(s.appended, x) == Times(s.list, x) + Times(s.taken, x) + Times(s.removed, x)
  }

  /** What has been appended, taken and removed of x is what calls have brought in, got and removed, returned or not;
      and all of it is in the list, taken or removed. */
  ghost predicate Told(t: Trace, x: nat)
    requires |t.ops| == |t.q.threads|
  {
    ToldPuts(t, x) && ToldGets(t, x) && ToldPulls(t, x) && AllThere(t.q.shared, x)
  }

  ghost predicate Ok(t: Trace) {
    && |t.ops| == |t.q.threads| && Valid(t.q)
    && (forall i :: 0 <= i < |t.ops| ==> Fits(t.ops[i], t.q.threads[i]))
    && (forall i :: 0 <= i < |t.done| ==> Proper(t.done[i].0, t.done[i].1))
  }

  lemma BeginOk(capacity: nat, n: nat, x: nat)
    ensures Ok(Begin(capacity, n)) && Told(Begin(capacity, n), x)
  {
    var t := Begin(capacity, n);
    NewValid(capacity, n);
    UnderNone(t.ops, t.q.threads, (op, pc) => Putting(op, pc, x));
    UnderNone(t.ops, t.q.threads, (op, pc) => Getting(op, pc, x));
    UnderNone(t.ops, t.q.threads, (op, pc) => Pulling(op, pc, x));
  }

  /** One operation of a thread, and what it adds to the histories. */
  lemma TurnFits(s: Shared, t: nat, pc: Pc, op: Op)
    requires Fits(op, pc)
    ensures Fits(op, Turn(s, t, pc).1)
    ensures !pc.Idle? && Turn(s, t, pc).1.Idle? ==> Proper(op, Turn(s, t, pc).1.ret)
  {
  }

  lemma TurnPuts(s: Shared, t: nat, pc: Pc, op: Op, x: nat)
    requires Fits(op, pc) && !pc.Idle?
    ensures var (s', pc') := Turn(s, t, pc);
      Times(s'.appended, x) + One(Putting(op, pc, x)) ==
        Times(s.appended, x) + One(Putting(op, pc', x)) + One(pc'.Idle? && Puts(op, pc'.ret, x))
  {
    if pc.EnqAppend? { TimesAppend(s.appended, Item(pc.data, |s.appended|), x); }
  }

  /** One operation brings a call at most one step further in its account. */
  lemma TurnGetsElsewhere(s: Shared, t: nat, pc: Pc, op: Op, x: nat)
    requires Fits(op, pc) && !pc.Idle? && !pc.DeqRemove?
    ensures var (s', pc') := Turn(s, t, pc);
      && s'.taken == s.taken
      && One(Getting(op, pc, x)) == One(Getting(op, pc', x)) + One(pc'.Idle? && Gets(op, pc'.ret, x))
  {
  }

  lemma TurnGets(s: Shared, t: nat, pc: Pc, op: Op, x: nat)
    requires Fits(op, pc) && !pc.Idle? && Current(s.list, pc)
    ensures var (s', pc') := Turn(s, t, pc);
      Times(s'.taken, x) + One(Getting(op, pc, x)) ==
        Times(s.taken, x) + One(Getting(op, pc', x)) + One(pc'.Idle? && Gets(op, pc'.ret, x))
  {
    if pc.DeqRemove? {
      TimesAppend(s.taken, s.list[Find(Pointers(s.list), pc.found)], x);
    } else {
      TurnGetsElsewhere(s, t, pc, op, x);
    }
  }

  lemma TurnPullsElsewhere(s: Shared, t: nat, pc: Pc, op: Op, x: nat)
    requires Fits(op, pc) && !pc.Idle? && !pc.RemRemove?
    ensures var (s', pc') := Turn(s, t, pc);
      && s'.removed == s.removed
      && One(Pulling(op, pc, x)) == One(Pulling(op, pc', x)) + One(pc'.Idle? && Pulls(op, pc'.ret, x))
  {
  }

  lemma TurnPulls(s: Shared, t: nat, pc: Pc, op: Op, x: nat)
    requires Fits(op, pc) && !pc.Idle? && Current(s.list, pc)
    ensures var (s', pc') := Turn(s, t, pc);
      Times(s'.removed, x) + One(Pulling(op, pc, x)) ==
        Times(s.removed, x) + One(Pulling(op, pc', x)) + One(pc'.Idle? && Pulls(op, pc'.ret, x))
  {
    if pc.RemRemove? {
      TimesAppend(s.removed, s.list[Find(Pointers(s.list), pc.data)], x);
    } else {
      TurnPullsElsewhere(s, t, pc, op, x);
    }
  }

  lemma TurnKeeps(s: Shared, t: nat, pc: Pc, x: nat)
    requires Current(s.list, pc) && AllThere(s, x)
    ensures AllThere(Turn(s, t, pc).0, x)
  {
    if pc.EnqAppend? {
      TimesAppend(s.appended, Item(pc.data, |s.appended|), x);
      TimesAppend(s.list, Item(pc.data, |s.appended|), x);
    } else if pc.DeqRemove? {
      var i := Find(Pointers(s.list), pc.found);
      TimesWithout(s.list, i, x);
      TimesAppend(s.taken, s.list[i], x);
    } else if pc.RemRemove? {
      var i := Find(Pointers(s.list), pc.data);
      TimesWithout(s.list, i, x);
      TimesAppend(s.removed, s.list[i], x);
    } else {
      TurnQuiet(s, t, pc);
    }
  }

  lemma CallUnder(t: Trace, i: nat, op: Op, so: (Op, Pc) -> bool)
    requires |t.ops| == |t.q.threads| && i < |t.ops| && t.q.threads[i].Idle?
    requires !so(t.ops[i], t.q.threads[i]) && !so(op, Entry(op))
    ensures var r := Next(t, Call(i, op)); Under(r.ops, r.q.threads, so) == Under(t.ops, t.q.threads, so)
  {
    UnderUpdate(t.ops, t.q.threads, so, i, op, Entry(op));
  }

  lemma CallPuts(t: Trace, i: nat, op: Op, x: nat)
    requires |t.ops| == |t.q.threads| && ToldPuts(t, x) && i < |t.ops| && t.q.threads[i].Idle?
    ensures ToldPuts(Next(t, Call(i, op)), x)
  {
    CallUnder(t, i, op, (op, pc) => Putting(op, pc, x));
  }

  lemma CallGets(t: Trace, i: nat, op: Op, x: nat)
    requires |t.ops| == |t.q.threads| && ToldGets(t, x) && i < |t.ops| && t.q.threads[i].Idle?
    ensures ToldGets(Next(t, Call(i, op)), x)
  {
    CallUnder(t, i, op, (op, pc) => Getting(op, pc, x));
  }

  lemma CallPulls(t: Trace, i: nat, op: Op, x: nat)
    requires |t.ops| == |t.q.threads| && ToldPulls(t, x) && i < |t.ops| && t.q.threads[i].Idle?
    ensures ToldPulls(Next(t, Call(i, op)), x)
  {
    CallUnder(t, i, op, (op, pc) => Pulling(op, pc, x));
  }

  /** A new call has not done anything. */
  lemma CallTold(t: Trace, i: nat, op: Op, x: nat)
    requires |t.ops| == |t.q.threads| && Told(t, x) && i < |t.ops| && t.q.threads[i].Idle?
    ensures Told(Next(t, Call(i, op)), x)
  {
    CallPuts(t, i, op, x);
    CallGets(t, i, op, x);
    CallPulls(t, i, op, x);
  }

  lemma GoPuts(t: Trace, i: nat, x: nat)
    requires Ok(t) && ToldPuts(t, x) && i < |t.ops| && !t.q.threads[i].Idle?
    ensures ToldPuts(Next(t, Go(i)), x)
  {
    var op, pc, pc' := t.ops[i], t.q.threads[i], Turn(t.q.shared, i, t.q.threads[i]).1;
    assert t.ops[i := op] == t.ops;
    UnderUpdate(t.ops, t.q.threads, (op, pc) => Putting(op, pc, x), i, op, pc');
    TurnPuts(t.q.shared, i, pc, op, x);
    if pc'.Idle? { HowManyMore(t.done, op, pc'.ret, (op, ret) => Puts(op, ret, x)); }
  }

  lemma GoGets(t: Trace, i: nat, x: nat)
    requires Ok(t) && ToldGets(t, x) && i < |t.ops| && !t.q.threads[i].Idle?
    ensures ToldGets(Next(t, Go(i)), x)
  {
    var op, pc, pc' := t.ops[i], t.q.threads[i], Turn(t.q.shared, i, t.q.threads[i]).1;
    assert t.ops[i := op] == t.ops;
    assert ThreadOk(t.q.shared, i, pc);
    UnderUpdate(t.ops, t.q.threads, (op, pc) => Getting(op, pc, x), i, op, pc');
    TurnGets(t.q.shared, i, pc, op, x);
    if pc'.Idle? { HowManyMore(t.done, op, pc'.ret, (op, ret) => Gets(op, ret, x)); }
  }

  lemma GoPulls(t: Trace, i: nat, x: nat)
    requires Ok(t) && ToldPulls(t, x) && i < |t.ops| && !t.q.threads[i].Idle?
    ensures ToldPulls(Next(t, Go(i)), x)
  {
    var op, pc, pc' := t.ops[i], t.q.threads[i], Turn(t.q.shared, i, t.q.threads[i]).1;
    assert t.ops[i := op] == t.ops;
    assert ThreadOk(t.q.shared, i, pc);
    UnderUpdate(t.ops, t.q.threads, (op, pc) => Pulling(op, pc, x), i, op, pc');
    TurnPulls(t.q.shared, i, pc, op, x);
    if pc'.Idle? { HowManyMore(t.done, op, pc'.ret, (op, ret) => Pulls(op, ret, x)); }
  }

  lemma GoKeeps(t: Trace, i: nat, x: nat)
    requires Ok(t) && AllThere(t.q.shared, x) && i < |t.ops| && !t.q.threads[i].Idle?
    ensures AllThere(Next(t, Go(i)).q.shared, x)
  {
    assert ThreadOk(t.q.shared, i, t.q.threads[i]);
    TurnKeeps(t.q.shared, i, t.q.threads[i], x);
  }

  lemma GoTold(t: Trace, i: nat, x: nat)
    requires Ok(t) && Told(t, x) && i < |t.ops| && !t.q.threads[i].Idle?
    ensures Told(Next(t, Go(i)), x)
  {
    GoPuts(t, i, x);
    GoGets(t, i, x);
    GoPulls(t, i, x);
    GoKeeps(t, i, x);
  }

  lemma CallOk(t: Trace, i: nat, op: Op)
    requires Ok(t) && i < |t.ops| && t.q.threads[i].Idle?
    ensures Ok(Next(t, Call(i, op)))
  {
    CallValid(t.q, i, op);
  }

  lemma GoValid(t: Trace, i: nat)
    requires Ok(t) && i < |t.ops| && !t.q.threads[i].Idle?
    ensures Valid(Next(t, Go(i)).q)
  {
    ApplyValid(t.q, Go(i));
  }

  lemma GoOk(t: Trace, i: nat)
    requires Ok(t) && i < |t.ops| && !t.q.threads[i].Idle?
    ensures Ok(Next(t, Go(i)))
  {
    GoValid(t, i);
    TurnFits(t.q.shared, i, t.q.threads[i], t.ops[i]);
  }

  lemma NextOk(t: Trace, m: Move, x: nat)
    requires Ok(t) && Told(t, x)
    ensures Ok(Next(t, m)) && Told(Next(t, m), x)
  {
    if m.thread < |t.ops| {
      var i, pc := m.thread, t.q.threads[m.thread];
      if m.Call? && pc.Idle? {
        CallOk(t, i, m.op);
        CallTold(t, i, m.op, x);
      } else if m.Go? && !pc.Idle? {
        GoOk(t, i);
        GoTold(t, i, x);
      } else {
        NextIdle(t, m);
      }
    }
  }

  lemma NextIdle(t: Trace, m: Move)
    requires |t.ops| == |t.q.threads| && m.thread < |t.ops|
    requires m.Call? <==> !t.q.threads[m.thread].Idle?
    ensures Next(t, m) == t
  {
    if m.Go? { assert t.q.threads[m.thread := t.q.threads[m.thread]] == t.q.threads; }
  }

  lemma NextApplies(t: Trace, m: Move)
    requires |t.ops| == |t.q.threads|
    ensures Next(t, m).q == Apply(t.q, m)
  {
  }

  lemma {:induction false} TrailOk(t: Trace, moves: seq<Move>, x: nat)
    requires Ok(t) && Told(t, x)
    ensures Ok(Trail(t, moves)) && Told(Trail(t, moves), x) && Trail(t, moves).q == Run(t.q, moves)
    decreases |moves|
  {
    if moves != [] {
      NextApplies(t, moves[0]);
      NextOk(t, moves[0], x);
      TrailOk(Next(t, moves[0]), moves[1..], x);
    }
  }

  // ----- over whole runs

  /** Whatever any number of callers do: every call returns what its operation may return, and for every pointer x, what
      calls have brought in is what calls have given out and what is still in the list, but for calls that have not
      returned. */
  lemma ResultsAccountFor(capacity: nat, n: nat, moves: seq<Move>, x: nat)
    ensures var t := Trail(Begin(capacity, n), moves);
      && t.q == Run(New(capacity, n), moves)
      && (forall i :: 0 <= i < |t.done| ==> Proper(t.done[i].0, t.done[i].1))
      && HowMany(t.done, (op, ret) => Puts(op, ret, x)) + Under(t.ops, t.q.threads, (op, pc) => Putting(op, pc, x)) ==
           HowMany(t.done, (op, ret) => Gets(op, ret, x)) + Under(t.ops, t.q.threads, (op, pc) => Getting(op, pc, x))
           + HowMany(t.done, (op, ret) => Pulls(op, ret, x)) + Under(t.ops, t.q.threads, (op, pc) => Pulling(op, pc, x))
           + Times(t.q.shared.list, x)
  {
    BeginOk(capacity, n, x);
    TrailOk(Begin(capacity, n), moves, x);
  }

  /** When all calls have returned, nothing is missing and nothing has come from nowhere. */
  lemma NothingLost(capacity: nat, n: nat, moves: seq<Move>, x: nat)
    requires var q := Run(New(capacity, n), moves); forall i :: 0 <= i < |q.threads| ==> q.threads[i].Idle?
    ensures var t := Trail(Begin(capacity, n), moves);
      HowMany(t.done, (op, ret) => Puts(op, ret, x)) ==
        HowMany(t.done, (op, ret) => Gets(op, ret, x)) + HowMany(t.done, (op, ret) => Pulls(op, ret, x))
        + Times(Run(New(capacity, n), moves).shared.list, x)
  {
    var t := Trail(Begin(capacity, n), moves);
    ResultsAccountFor(capacity, n, moves, x);
    UnderNone(t.ops, t.q.threads, (op, pc) => Putting(op, pc, x));
    UnderNone(t.ops, t.q.threads, (op, pc) => Getting(op, pc, x));
    UnderNone(t.ops, t.q.threads, (op, pc) => Pulling(op, pc, x));
  }

  /** The call of thread i returns ret with its next operation. */
  predicate Returns(t: Trace, i: nat, ret: Ret)
    requires |t.ops| == |t.q.threads| && i < |t.ops|
  {
    !t.q.threads[i].Idle? && Next(t, Go(i)).done == t.done + [(t.ops[i], ret)]
  }

  /** A call that does not wait is refused only when its semaphore is at zero, and then has done nothing; and peeking
      returns the end of the list that was asked for, as it is at that moment. */
  lemma RefusalsAndPeeks(capacity: nat, n: nat, moves: seq<Move>, i: nat, ret: Ret)
    requires var t := Trail(Begin(capacity, n), moves); i < |t.ops| && Returns(t, i, ret)
    ensures var t := Trail(Begin(capacity, n), moves);
      var op, l, s := t.ops[i], t.q.shared.list, t.q.shared;
      && (op.TryEnqueue? && ret == Bool(false) ==> s.enqueueSem == 0 && Next(t, Go(i)).q.shared == s)
      && (op.TryDequeue? && ret == Pointer(None) ==> s.dequeueSem == 0 && Next(t, Go(i)).q.shared == s)
      && (op.TryPeekFirst? ==> ret == Pointer(if l == [] then None else Some(l[0].data)))
      && (op.TryPeekLast? ==> ret == Pointer(if l == [] then None else Some(l[|l| - 1].data)))
  {
    var t := Trail(Begin(capacity, n), moves);
    BeginOk(capacity, n, 0);
    TrailOk(Begin(capacity, n), moves, 0);
    var pc, op, r := t.q.threads[i], t.ops[i], Next(t, Go(i));
    assert ThreadOk(t.q.shared, i, pc) && Fits(op, pc);
    assert r.done[|t.done|] == (op, ret);
  }

  /** A removal that is about to return nothing. */
  predicate GivesUp(pc: Pc) {
    pc.RemUnlock? && !pc.removed
  }

  lemma TurnGivesUp(s: Shared, t: nat, pc: Pc, d: nat)
    requires Fits(TryRemove(d), pc)
    ensures GivesUp(Turn(s, t, pc).1) ==> pc.RemContains? || pc.RemTake?
    ensures pc.RemContains? ==> (GivesUp(Turn(s, t, pc).1) <==> forall j :: 0 <= j < |s.list| ==> s.list[j].data != d)
    ensures pc.RemTake? ==> (GivesUp(Turn(s, t, pc).1) <==> s.dequeueSem == 0)
  {
  }

  /** A removal gives up exactly when the list does not hold its pointer, or every element is promised to a dequeue. */
  lemma RemovalGivesUp(capacity: nat, n: nat, moves: seq<Move>, i: nat, d: nat)
    requires var t := Trail(Begin(capacity, n), moves); i < |t.ops| && t.ops[i] == TryRemove(d)
    ensures var t := Trail(Begin(capacity, n), moves);
      var s, pc, next := t.q.shared, t.q.threads[i], Turn(t.q.shared, i, t.q.threads[i]).1;
      && (GivesUp(next) ==> pc.RemContains? || pc.RemTake?)
      && (pc.RemContains? ==> (GivesUp(next) <==> forall j :: 0 <= j < |s.list| ==> s.list[j].data != d))
      && (pc.RemTake? ==> (GivesUp(next) <==> s.dequeueSem == 0))
  {
    BeginOk(capacity, n, 0);
    TrailOk(Begin(capacity, n), moves, 0);
    var t := Trail(Begin(capacity, n), moves);
    TurnGivesUp(t.q.shared, i, t.q.threads[i], d);
  }

  /** When no call can go on, those that have not returned are enqueues into a full list or dequeues from an empty one,
      and of the kind that waits. */
  lemma OnlyWaitingCallsWait(capacity: nat, n: nat, moves: seq<Move>, i: nat)
    requires var q := Run(New(capacity, n), moves);
      i < |q.threads| && Blocked(q, i) && forall u :: 0 <= u < |q.threads| ==> q.threads[u].Idle? || Blocked(q, u)
    ensures var t := Trail(Begin(capacity, n), moves);
      && i < |t.ops|
      && ((t.ops[i].Enqueue? && |t.q.shared.list| == capacity) || (t.ops[i] == Dequeue && t.q.shared.list == []))
  {
    BeginOk(capacity, n, 0);
    TrailOk(Begin(capacity, n), moves, 0);
    OnlyFullOrEmptyBlocks(capacity, n, moves, i);
    var t := Trail(Begin(capacity, n), moves);
    assert Fits(t.ops[i], t.q.threads[i]);
  }
}
