/**
 hci_layer.c: HCI command flow control (Core Specification, Volume 2, Part E, section 4.4). The host sends no more
 commands than the controller has given credits for, and every command is answered for once.
 */
module HciFlow {
  import opened Bytes
  import opened Sequences

  /** HCI_GRP_HOST_CONT_BASEBAND_CMDS | 0x0035: tells about buffers, costs no credit and is not answered. */
  const HCI_HOST_NUM_PACKETS_DONE := 0x0C35

  /** waiting_command_t: the opcode, the command buffer, and who waits for the answer. */
  datatype Waiting = Waiting(opcode: nat, command: nat, onComplete: bool, onStatus: bool, future: bool)

  /** Where a command buffer ends up: freed here, or left to the status callback. */
  datatype Fate = Freed(command: nat) | Given(command: nat)

  /** hci_host_env, and what has happened: commands accepted, sent, answered and disposed of; the last credit report,
      and the commands sent for a credit since then. */
  datatype Env = Env(credits: int, queue: seq<Waiting>, pending: seq<Waiting>,
                     accepted: seq<Waiting>, sent: seq<Waiting>, answered: seq<Waiting>, fates: seq<Fate>,
                     report: nat, since: nat)

  /** hci_layer_init_env: one command may be sent at first. */
  function Init(): Env {
    Env(1, [], [], [], [], [], [], 1, 0)
  }

  /** transmit_command and transmit_command_futured */
  function Transmit(e: Env, w: Waiting): Env {
    e.(queue := e.queue + [w], accepted := e.accepted + [w])
  }

  predicate Free(w: Waiting) {
    w.opcode == HCI_HOST_NUM_PACKETS_DONE
  }

  /** event_command_ready */
  function CommandReady(e: Env): Env
    requires e.queue != []
  {
    var w := e.queue[0];
    var d := e.(queue := e.queue[1..], sent := e.sent + [w]);
    if Free(w) then d.(fates := e.fates + [Freed(w.command)])
    else d.(credits := e.credits - 1, pending := e.pending + [w], since := e.since + 1)
  }

  /** hci_host_thread_handler on SIG_HCI_HOST_SEND_AVAILABLE, when no packet is half sent */
  function SendAvailable(e: Env): Env {
    if e.queue != [] && e.credits > 0 then CommandReady(e) else e
  }

  /** What get_waiting_command compares */
  function Opcodes(pending: seq<Waiting>): (r: seq<nat>)
    ensures |r| == |pending| && forall i :: 0 <= i < |r| ==> r[i] == pending[i].opcode
  {
    seq(|pending|, i requires 0 <= i < |pending| => pending[i].opcode)
  }

  datatype Answer = Complete(credits: byte, opcode: nat) | Status(status: byte, credits: byte, opcode: nat)

  /** The credits that an answer brings. */
  function Reported(e: Env, credits: byte): Env {
    e.(credits := credits, report := credits, since := 0)
  }

  /** filter_incoming_event on Command Complete or Command Status */
  function Incoming(e: Env, a: Answer): Env {
    var r := Reported(e, a.credits);
    var i := Find(Opcodes(e.pending), a.opcode);
    if i == |e.pending| then r
    else
      var w := e.pending[i];
      r.(pending := Without(e.pending, i), answered := e.answered + [w],
         fates := e.fates + [if a.Complete? || !w.onStatus then Freed(w.command) else Given(w.command)])
  }

  datatype Event = Accept(w: Waiting) | Send | Receive(a: Answer)

  function Step(e: Env, x: Event): Env {
    match x
    case Accept(w) => Transmit(e, w)
    case Send => SendAvailable(e)
    case Receive(a) => Incoming(e, a)
  }

  function Run(e: Env, xs: seq<Event>): Env
    decreases |xs|
  {
    if xs == [] then e else Run(Step(e, xs[0]), xs[1..])
  }

  // ----- the invariant

  function Commands(s: seq<Waiting>): seq<nat> {
    seq(|s|, i requires 0 <= i < |s| => s[i].command)
  }

  function Buffers(s: seq<Fate>): seq<nat> {
    seq(|s|, i requires 0 <= i < |s| => s[i].command)
  }

  /** The entries with an opcode, in order. */
  function Only(s: seq<Waiting>, opcode: nat): seq<Waiting> {
    if s == [] then []
    else (if s[0].opcode == opcode then [s[0]] else []) + Only(s[1..], opcode)
  }

  /** Credits are never negative, and what has been sent since the last report has been paid for. */
  ghost predicate Credits(e: Env) {
    0 <= e.credits && e.since + e.credits == e.report < 256
  }

  /** Commands are sent in the order in which they were accepted. */
  ghost predicate InOrder(e: Env) {
    e.accepted == e.sent + e.queue
  }

  /** Every command is queued, pending or disposed of: as often as it was accepted. */
  ghost predicate Conserved(e: Env) {
    multiset(Commands(e.accepted)) ==
      multiset(Commands(e.queue)) + multiset(Commands(e.pending)) + multiset(Buffers(e.fates))
  }

  /** Answers with one opcode go to the commands with that opcode in the order in which those were sent. */
  ghost predicate Matched(e: Env, opcode: nat) {
    opcode != HCI_HOST_NUM_PACKETS_DONE ==> Only(e.answered, opcode) + Only(e.pending, opcode) == Only(e.sent, opcode)
  }

  ghost predicate Valid(e: Env) {
    && Credits(e) && InOrder(e) && Conserved(e)
    && (forall i :: 0 <= i < |e.pending| ==> !Free(e.pending[i]))
  }

  // ----- steps

  lemma {:induction false} OnlyAppend(a: seq<Waiting>, b: seq<Waiting>, opcode: nat)
    ensures Only(a + b, opcode) == Only(a, opcode) + Only(b, opcode)
  {
    if a == [] {
      assert a + b == b;
    } else {
      assert (a + b)[1..] == a[1..] + b && (a + b)[0] == a[0];
      OnlyAppend(a[1..], b, opcode);
      Regroup(if a[0].opcode == opcode then [a[0]] else [], Only(a[1..], opcode), Only(b, opcode));
    }
  }

  lemma {:induction false} OnlyNone(s: seq<Waiting>, opcode: nat)
    requires forall i :: 0 <= i < |s| ==> s[i].opcode != opcode
    ensures Only(s, opcode) == []
  {
    if s != [] { OnlyNone(s[1..], opcode); }
  }

  /** The oldest with the opcode comes first among those with the opcode; for the others nothing changes. */
  lemma OnlyWithout(s: seq<Waiting>, i: nat, opcode: nat)
    requires i < |s| && i == Find(Opcodes(s), s[i].opcode)
    ensures Only(s, opcode) == Only([s[i]], opcode) + Only(Without(s, i), opcode)
  {
    var before, after := s[..i], s[i + 1..];
    assert s == before + ([s[i]] + after);
    OnlyAppend(before, [s[i]] + after, opcode);
    OnlyAppend([s[i]], after, opcode);
    OnlyAppend(before, after, opcode);
    if opcode == s[i].opcode {
      OldestIsFirst(s, i);
    } else {
      OnlyOne(s[i], opcode);
    }
    Swap(Only(before, opcode), Only([s[i]], opcode), Only(after, opcode));
  }

  lemma Swap(a: seq<Waiting>, b: seq<Waiting>, c: seq<Waiting>)
    requires a == [] || b == []
    ensures a + (b + c) == b + (a + c)
  {
  }

  lemma OldestIsFirst(s: seq<Waiting>, i: nat)
    requires i < |s| && i == Find(Opcodes(s), s[i].opcode)
    ensures Only(s[..i], s[i].opcode) == []
  {
    forall j | 0 <= j < i ensures s[..i][j].opcode != s[i].opcode {
      assert Opcodes(s)[j] != s[i].opcode;
    }
    OnlyNone(s[..i], s[i].opcode);
  }

  lemma CommandsAppend(a: seq<Waiting>, b: seq<Waiting>)
    ensures Commands(a + b) == Commands(a) + Commands(b)
  {
  }

  lemma BuffersAppend(a: seq<Fate>, f: Fate)
    ensures multiset(Buffers(a + [f])) == multiset(Buffers(a)) + multiset{f.command}
  {
    assert Buffers(a + [f]) == Buffers(a) + [f.command];
  }

  lemma CommandsWithout(s: seq<Waiting>, i: nat)
    requires i < |s|
    ensures multiset(Commands(s)) == multiset(Commands(Without(s, i))) + multiset{s[i].command}
  {
    assert Commands(s) == Commands(s)[..i] + [s[i].command] + Commands(s)[i + 1..];
    assert Commands(Without(s, i)) == Commands(s)[..i] + Commands(s)[i + 1..];
  }

  lemma CommandsPlus(s: seq<Waiting>, w: Waiting)
    ensures multiset(Commands(s + [w])) == multiset(Commands(s)) + multiset{w.command}
  {
    CommandsAppend(s, [w]);
    assert Commands([w]) == [w.command];
  }

  lemma CommandsFirst(s: seq<Waiting>)
    requires s != []
    ensures multiset(Commands(s)) == multiset(Commands(s[1..])) + multiset{s[0].command}
  {
    CommandsWithout(s, 0);
    assert Without(s, 0) == s[1..];
  }

  lemma TransmitValid(e: Env, w: Waiting, opcode: nat)
    requires Valid(e) && Matched(e, opcode)
    ensures Valid(Transmit(e, w)) && Matched(Transmit(e, w), opcode)
  {
    CommandsPlus(e.accepted, w);
    CommandsPlus(e.queue, w);
    assert e.sent + (e.queue + [w]) == (e.sent + e.queue) + [w];
  }

  lemma ReadyValid(e: Env, opcode: nat)
    requires Valid(e) && Matched(e, opcode) && e.queue != [] && e.credits > 0
    ensures Valid(CommandReady(e)) && Matched(CommandReady(e), opcode)
  {
    var w := e.queue[0];
    assert (e.sent + [w]) + e.queue[1..] == e.sent + e.queue;
    ReadyConserved(e);
    ReadyMatched(e, opcode);
  }

  lemma ReadyConserved(e: Env)
    requires Conserved(e) && e.queue != []
    ensures Conserved(CommandReady(e))
  {
    var w := e.queue[0];
    CommandsFirst(e.queue);
    if Free(w) {
      BuffersAppend(e.fates, Freed(w.command));
    } else {
      CommandsPlus(e.pending, w);
    }
  }

  lemma ReadyMatched(e: Env, opcode: nat)
    requires Matched(e, opcode) && e.queue != []
    ensures Matched(CommandReady(e), opcode)
  {
    var w := e.queue[0];
    OnlyAppend(e.sent, [w], opcode);
    if Free(w) {
      OnlyOne(w, opcode);
    } else {
      OnlyAppend(e.pending, [w], opcode);
      Regroup(Only(e.answered, opcode), Only(e.pending, opcode), Only([w], opcode));
    }
  }

  lemma OnlyOne(w: Waiting, opcode: nat)
    ensures Only([w], opcode) == if w.opcode == opcode then [w] else []
    ensures forall s: seq<Waiting> :: s + [] == s
  {
    assert Only([w], opcode) == (if w.opcode == opcode then [w] else []) + Only([], opcode);
  }

  lemma Regroup(a: seq<Waiting>, b: seq<Waiting>, c: seq<Waiting>)
    ensures (a + b) + c == a + (b + c)
  {
  }

  lemma IncomingValid(e: Env, a: Answer, opcode: nat)
    requires Valid(e) && Matched(e, opcode)
    ensures Valid(Incoming(e, a)) && Matched(Incoming(e, a), opcode)
  {
    var i := Find(Opcodes(e.pending), a.opcode);
    if i < |e.pending| {
      IncomingConserved(e, a, i);
      IncomingMatched(e, a, i, opcode);
    }
  }

  lemma IncomingConserved(e: Env, a: Answer, i: nat)
    requires Conserved(e) && i == Find(Opcodes(e.pending), a.opcode) < |e.pending|
    ensures Conserved(Incoming(e, a))
  {
    CommandsWithout(e.pending, i);
    BuffersAppend(e.fates, Incoming(e, a).fates[|e.fates|]);
  }

  lemma IncomingMatched(e: Env, a: Answer, i: nat, opcode: nat)
    requires Matched(e, opcode) && i == Find(Opcodes(e.pending), a.opcode) < |e.pending|
    ensures Matched(Incoming(e, a), opcode)
  {
    var w := e.pending[i];
    OnlyWithout(e.pending, i, opcode);
    OnlyAppend(e.answered, [w], opcode);
    Regroup(Only(e.answered, opcode), Only([w], opcode), Only(Without(e.pending, i), opcode));
  }

  lemma StepValid(e: Env, x: Event, opcode: nat)
    requires Valid(e) && Matched(e, opcode)
    ensures Valid(Step(e, x)) && Matched(Step(e, x), opcode)
  {
    match x
    case Accept(w) => TransmitValid(e, w, opcode);
    case Send => if e.queue != [] && e.credits > 0 { ReadyValid(e, opcode); }
    case Receive(a) => IncomingValid(e, a, opcode);
  }

  lemma {:induction false} RunValid(e: Env, xs: seq<Event>, opcode: nat)
    requires Valid(e) && Matched(e, opcode)
    ensures Valid(Run(e, xs)) && Matched(Run(e, xs), opcode)
    decreases |xs|
  {
    if xs != [] {
      StepValid(e, xs[0], opcode);
      RunValid(Step(e, xs[0]), xs[1..], opcode);
    }
  }

  lemma InitValid(opcode: nat)
    ensures Valid(Init()) && Matched(Init(), opcode)
  {
    assert Commands([]) == [] && Buffers([]) == [];
    assert Only([], opcode) == [];
  }

  // ----- over whole runs

  /** In every reachable state: credits are not negative; no more commands have gone out since the last report than
      that allowed; commands go out in the order accepted; every one is queued, pending or disposed of, once; and
      answers with an opcode have gone to the commands with that opcode in the order sent. */
  lemma FlowSafety(xs: seq<Event>, opcode: nat)
    ensures 0 <= Run(Init(), xs).credits && Run(Init(), xs).since <= Run(Init(), xs).report <= 255
    ensures InOrder(Run(Init(), xs)) && Conserved(Run(Init(), xs)) && Matched(Run(Init(), xs), opcode)
  {
    InitValid(opcode);
    RunFlow(Init(), xs, opcode);
  }

  lemma RunFlow(e: Env, xs: seq<Event>, opcode: nat)
    requires Valid(e) && Matched(e, opcode)
    ensures 0 <= Run(e, xs).credits && Run(e, xs).since <= Run(e, xs).report <= 255
    ensures InOrder(Run(e, xs)) && Conserved(Run(e, xs)) && Matched(Run(e, xs), opcode)
  {
    RunValid(e, xs, opcode);
  }

  ghost predicate Distinct(s: seq<nat>) {
    forall i, j :: 0 <= i < j < |s| ==> s[i] != s[j]
  }

  /** How often the buffer c is queued, pending or disposed of. */
  function Copies(e: Env, c: nat): nat {
    multiset(Commands(e.queue))[c] + multiset(Commands(e.pending))[c] + multiset(Buffers(e.fates))[c]
  }

  lemma CopiesAccepted(e: Env, c: nat)
    requires Conserved(e)
    ensures Copies(e, c) == multiset(Commands(e.accepted))[c]
  {
  }

  /** In every reachable state: if no buffer has been handed in twice, none has been disposed of twice, and none that is
      still queued or pending. */
  lemma DisposedOnce(xs: seq<Event>, e: Env, c: nat)
    requires e == Run(Init(), xs) && Distinct(Commands(e.accepted))
    ensures Copies(e, c) == if c in Commands(e.accepted) then 1 else 0
  {
    InitValid(0);
    RunFlow(Init(), xs, 0);
    CopiesOnce(e, c);
  }

  lemma CopiesOnce(e: Env, c: nat)
    requires Conserved(e) && Distinct(Commands(e.accepted))
    ensures Copies(e, c) == if c in Commands(e.accepted) then 1 else 0
  {
    CopiesAccepted(e, c);
    DistinctCounts(Commands(e.accepted), c);
  }

  lemma {:induction false} DistinctCounts(s: seq<nat>, c: nat)
    requires Distinct(s)
    ensures multiset(s)[c] == if c in s then 1 else 0
    decreases |s|
  {
    if s != [] {
      DistinctCounts(s[1..], c);
      assert s == [s[0]] + s[1..];
      assert forall i :: 1 <= i < |s| ==> s[i] == s[1..][i - 1];
    }
  }

  // ----- what the events alone say

  /** The commands handed in, in order. */
  function Handed(xs: seq<Event>): seq<Waiting> {
    if xs == [] then []
    else Handed(xs[..|xs| - 1]) + if xs[|xs| - 1].Accept? then [xs[|xs| - 1].w] else []
  }

  /** The number that the controller gave last; one before it has given any. */
  function LastReport(xs: seq<Event>): nat {
    if xs == [] then 1
    else if xs[|xs| - 1].Receive? then xs[|xs| - 1].a.credits
    else LastReport(xs[..|xs| - 1])
  }

  /** How many events there were up to that. */
  function ReportedAt(xs: seq<Event>): (n: nat)
    ensures n <= |xs|
  {
    if xs == [] then 0 else if xs[|xs| - 1].Receive? then |xs| else ReportedAt(xs[..|xs| - 1])
  }

  /** How many of these commands cost a credit. */
  function Costly(s: seq<Waiting>): nat {
    if s == [] then 0 else Costly(s[..|s| - 1]) + if s[|s| - 1].opcode == 0x0C35 then 0 else 1
  }

  /** How many commands that cost a credit have gone out since the controller gave its last number. */
  ghost function Spent(xs: seq<Event>): nat {
    SentGrows(Init(), xs, ReportedAt(xs));
    Costly(Run(Init(), xs).sent[|Run(Init(), xs[..ReportedAt(xs)]).sent|..])
  }

  lemma {:induction false} RunLast(e: Env, xs: seq<Event>)
    requires xs != []
    ensures Run(e, xs) == Step(Run(e, xs[..|xs| - 1]), xs[|xs| - 1])
    decreases |xs|
  {
    if |xs| > 1 {
      RunLast(Step(e, xs[0]), xs[1..]);
      assert xs[1..][..|xs| - 2] == xs[..|xs| - 1][1..];
    }
  }

  lemma {:induction false} SentGrows(e: Env, xs: seq<Event>, k: nat)
    requires k <= |xs|
    ensures Run(e, xs[..k]).sent <= Run(e, xs).sent
    decreases |xs|
  {
    if k < |xs| {
      RunLast(e, xs);
      SentGrows(e, xs[..|xs| - 1], k);
      assert xs[..|xs| - 1][..k] == xs[..k];
    } else {
      assert xs[..k] == xs;
    }
  }

  lemma CostlyMore(s: seq<Waiting>, k: nat, w: Waiting)
    requires k <= |s|
    ensures Costly((s + [w])[k..]) == Costly(s[k..]) + if w.opcode == 0x0C35 then 0 else 1
  {
    assert (s + [w])[k..] == s[k..] + [w] && (s[k..] + [w])[..|s[k..]|] == s[k..];
  }

  /** What is accepted is exactly what was handed in. */
  lemma {:induction false} AcceptedIsHanded(xs: seq<Event>)
    ensures Run(Init(), xs).accepted == Handed(xs)
    decreases |xs|
  {
    if xs != [] {
      RunLast(Init(), xs);
      AcceptedIsHanded(xs[..|xs| - 1]);
    }
  }

  /** The credits that are left and those that have been spent since are what the controller gave; so no more commands
      go out after a report than it allows. */
  lemma {:induction false} CreditsAreReported(xs: seq<Event>)
    ensures Run(Init(), xs).credits + Spent(xs) == LastReport(xs)
    ensures Spent(xs) <= LastReport(xs)
    decreases |xs|
  {
    NeverNegative(xs);
    if xs == [] {
    } else {
      var init, x := xs[..|xs| - 1], xs[|xs| - 1];
      RunLast(Init(), xs);
      if x.Receive? {
        assert xs[..|xs|] == xs;
      } else {
        CreditsAreReported(init);
        SpentLater(xs, init, x);
      }
    }
  }

  lemma NeverNegative(xs: seq<Event>)
    ensures Run(Init(), xs).credits >= 0
  {
    InitValid(0);
    RunFlow(Init(), xs, 0);
  }

  lemma AlwaysMatched(xs: seq<Event>, opcode: nat)
    ensures Matched(Run(Init(), xs), opcode)
  {
    InitValid(opcode);
    RunFlow(Init(), xs, opcode);
  }

  lemma SpentLater(xs: seq<Event>, init: seq<Event>, x: Event)
    requires xs != [] && init == xs[..|xs| - 1] && x == xs[|xs| - 1] && !x.Receive?
    requires Run(Init(), xs) == Step(Run(Init(), init), x)
    ensures Run(Init(), xs).credits + Spent(xs) == Run(Init(), init).credits + Spent(init)
  {
    var e, at := Run(Init(), init), ReportedAt(init);
    assert xs[..at] == init[..at];
    SentGrows(Init(), init, at);
    if x.Send? && e.queue != [] && e.credits > 0 {
      CostlyMore(e.sent, |Run(Init(), init[..at]).sent|, e.queue[0]);
    }
  }

  /** How many answers with the opcode have found a command: each that came when one was still unanswered. */
  ghost function Answers(xs: seq<Event>, opcode: nat): nat {
    if xs == [] then 0
    else
      var n, x := Answers(xs[..|xs| - 1], opcode), xs[|xs| - 1];
      if x.Receive? && x.a.opcode == opcode && n < |Only(Run(Init(), xs[..|xs| - 1]).sent, opcode)| then n + 1 else n
  }

  /** The commands with an opcode that have been answered are the first of those sent with it, one for each answer that
      came when one was waiting. */
  lemma AnsweredInOrder(xs: seq<Event>, opcode: nat)
    requires opcode != 0x0C35
    ensures var sent, n := Only(Run(Init(), xs).sent, opcode), Answers(xs, opcode);
      n <= |sent| && Only(Run(Init(), xs).answered, opcode) == sent[..n]
  {
    AlwaysMatched(xs, opcode);
    AnswersCounted(xs, opcode);
    FrontOf(Only(Run(Init(), xs).answered, opcode), Only(Run(Init(), xs).pending, opcode));
  }

  lemma FrontOf(a: seq<Waiting>, b: seq<Waiting>)
    ensures (a + b)[..|a|] == a
  {
  }

  lemma {:induction false} AnswersCounted(xs: seq<Event>, opcode: nat)
    requires opcode != 0x0C35
    ensures |Only(Run(Init(), xs).answered, opcode)| == Answers(xs, opcode)
    decreases |xs|
  {
    if xs == [] {
      assert Only([], opcode) == [];
    } else {
      var init := xs[..|xs| - 1];
      RunLast(Init(), xs);
      AnswersCounted(init, opcode);
      AlwaysMatched(init, opcode);
      StepAnswers(Run(Init(), init), xs[|xs| - 1], opcode);
    }
  }

  lemma StepAnswers(e: Env, x: Event, opcode: nat)
    requires opcode != 0x0C35 && Matched(e, opcode)
    ensures |Only(Step(e, x).answered, opcode)| == |Only(e.answered, opcode)| +
      if x.Receive? && x.a.opcode == opcode && |Only(e.answered, opcode)| < |Only(e.sent, opcode)| then 1 else 0
  {
    if x.Receive? {
      var i := Find(Opcodes(e.pending), x.a.opcode);
      if i < |e.pending| {
        OnlyAppend(e.answered, [e.pending[i]], opcode);
        OnlyOne(e.pending[i], opcode);
        assert Opcodes(e.pending)[i] == e.pending[i].opcode;
        if x.a.opcode == opcode { OnlySome(e.pending, i); }
      } else if x.a.opcode == opcode {
        forall j | 0 <= j < |e.pending| ensures e.pending[j].opcode != opcode {
          assert Opcodes(e.pending)[j] != opcode;
        }
        OnlyNone(e.pending, opcode);
      }
    }
  }

  lemma {:induction false} OnlySome(s: seq<Waiting>, i: nat)
    requires i < |s|
    ensures Only(s, s[i].opcode) != []
  {
    if i > 0 { OnlySome(s[1..], i - 1); }
  }
}
