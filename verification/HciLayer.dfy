/** hci_layer.c: hci_host_env, updated in place by the host thread and by incoming events. */
module HciLayer {
  import opened Bytes
  import opened HciFlow
  import opened Sequences

  /** What the host thread hands to the fragmenter. */
  datatype Dispatched = Nothing | Fragment(packet: nat) | Command(w: Waiting) | Packet(packet: nat)

  /** What the upper layers send down. */
  datatype Downward = DownCommand(opcode: nat, command: nat) | DownPacket(packet: nat)

  /** A command for whose answer nobody waits. */
  function Unanswered(d: Downward): Waiting
    requires d.DownCommand?
  {
    Waiting(d.opcode, d.command, false, false, false)
  }

  /** Where the event that carries an answer goes. */
  datatype EventFate = EventFreed | ToCallback | ToFuture

  class Host {
    var commandCredits: int
    var commandQueue: seq<Waiting>                // fixed_queue_t
    var commandsPendingResponse: seq<Waiting>     // list_t
    var packetQueue: seq<nat>                     // fixed_queue_t of data packets
    var current: Option<nat>                      // the fragmenter's packet that is half sent
    var timerIsSet: bool
    var posts: nat                                // hci_host_task_post(SIG_HCI_HOST_SEND_AVAILABLE)
    ghost var env: Env                            // this state, with what has happened

    ghost predicate Valid()
      reads this
    {
      commandCredits == env.credits && commandQueue == env.queue && commandsPendingResponse == env.pending
    }

    /** hci_layer_init_env */
    constructor ()
      ensures Valid() && env == Init() && packetQueue == [] && current == None && !timerIsSet && posts == 0
    {
      commandCredits, commandQueue, commandsPendingResponse, timerIsSet := 1, [], [], false;
      packetQueue, current, posts := [], None, 0;
      env := Init();
    }

    /** transmit_command */
    method TransmitCommand(w: Waiting)
      requires Valid()
      modifies this`commandQueue, this`env, this`posts
      ensures Valid() && env == Transmit(old(env), w) && posts == old(posts) + 1
    {
      commandQueue := commandQueue + [w];
      env := Transmit(env, w);
      posts := posts + 1;
    }

    /** transmit_downward: a command goes the way of all commands, without callbacks; anything else is a data packet. */
    method TransmitDownward(d: Downward)
      requires Valid()
      modifies this`commandQueue, this`env, this`packetQueue, this`posts
      ensures Valid() && posts == old(posts) + if d.DownCommand? then 2 else 1
      ensures env == if d.DownCommand? then Transmit(old(env), Unanswered(d)) else old(env)
      ensures packetQueue == if d.DownPacket? then old(packetQueue) + [d.packet] else old(packetQueue)
    {
      if d.DownCommand? {
        TransmitCommand(Unanswered(d));
      } else {
        packetQueue := packetQueue + [d.packet];
      }
      posts := posts + 1;
    }

    /** hci_host_thread_handler on SIG_HCI_HOST_SEND_AVAILABLE: a packet that is half sent goes on first, then a
        command if there is a credit for it, then a data packet. `more` is what the fragmenter says: the packet is not
        all sent. */
    method SendAvailable(more: bool) returns (out: Dispatched)
      requires Valid()
      modifies this`commandQueue, this`commandCredits, this`commandsPendingResponse, this`timerIsSet, this`env,
               this`packetQueue, this`current
      ensures Valid() && env == if old(current).Some? then old(env) else HciFlow.SendAvailable(old(env))
      ensures out ==
        if old(current).Some? then Fragment(old(current).value)
        else if old(commandQueue) != [] && old(commandCredits) > 0 then Command(old(commandQueue)[0])
        else if old(packetQueue) != [] then Packet(old(packetQueue)[0]) else Nothing
      ensures env.sent == old(env).sent + if out.Command? then [out.w] else []
      ensures if out.Command? then out.w.opcode == 0x0C35 || timerIsSet else timerIsSet == old(timerIsSet)
      ensures packetQueue == if out.Packet? then old(packetQueue)[1..] else old(packetQueue)
      ensures current ==
        if out.Fragment? || out.Packet? then (if more then Some(out.packet) else None) else old(current)
    {
      if current.Some? {
        out := Fragment(current.value);
        current := if more then current else None;
      } else if commandQueue != [] && commandCredits > 0 {
        var w := EventCommandReady();
        out := Command(w);
      } else if packetQueue != [] {
        out := Packet(packetQueue[0]);
        current := if more then Some(packetQueue[0]) else None;
        packetQueue := packetQueue[1..];
      } else {
        out := Nothing;
      }
    }

    /** event_command_ready */
    method EventCommandReady() returns (w: Waiting)
      requires Valid() && commandQueue != []
      modifies this`commandQueue, this`commandCredits, this`commandsPendingResponse, this`timerIsSet, this`env
      ensures Valid() && env == CommandReady(old(env)) && w == old(commandQueue)[0]
      ensures commandQueue == old(commandQueue)[1..] && (w.opcode != 0x0C35 ==> timerIsSet)
      ensures commandCredits == old(commandCredits) - if w.opcode == 0x0C35 then 0 else 1
      ensures commandsPendingResponse == old(commandsPendingResponse) + if w.opcode == 0x0C35 then [] else [w]
    {
      w := commandQueue[0];
      commandQueue := commandQueue[1..];
      env := CommandReady(env);
      if w.opcode == HCI_HOST_NUM_PACKETS_DONE {
        return;
      }
      commandCredits := commandCredits - 1;
      commandsPendingResponse := commandsPendingResponse + [w];
      RestartTimer();
    }

    /** restart_command_waiting_response_timer */
    method RestartTimer()
      modifies this`timerIsSet
      ensures timerIsSet == (commandsPendingResponse != [])
    {
      timerIsSet := false;
      if commandsPendingResponse != [] {
        timerIsSet := true;
      }
    }

    /** get_waiting_command: the oldest command with the opcode is taken off the list. */
    method GetWaitingCommand(opcode: nat) returns (w: Option<Waiting>)
      modifies this`commandsPendingResponse
      ensures var i := Find(Opcodes(old(commandsPendingResponse)), opcode);
        if i == |old(commandsPendingResponse)| then
          w == None && commandsPendingResponse == old(commandsPendingResponse)
        else
          && w == Some(old(commandsPendingResponse)[i])
          && commandsPendingResponse == Without(old(commandsPendingResponse), i)
    {
      var i := 0;
      while i < |commandsPendingResponse|
        invariant i <= |commandsPendingResponse|
        invariant forall j :: 0 <= j < i ==> commandsPendingResponse[j].opcode != opcode
      {
        if commandsPendingResponse[i].opcode == opcode {
          FindIs(Opcodes(commandsPendingResponse), opcode, i);
          w := Some(commandsPendingResponse[i]);
          commandsPendingResponse := Without(commandsPendingResponse, i);
          return;
        }
        i := i + 1;
      }
      FindIs(Opcodes(commandsPendingResponse), opcode, i);
      w := None;
    }

    /** filter_incoming_event on Command Complete and Command Status: whose command was answered, whether its buffer is
        freed here, what becomes of the event, and whether the host thread is told to go on. A future is completed by a
        Command Complete only. */
    method FilterIncomingEvent(a: Answer) returns (w: Option<Waiting>, freed: bool, event: EventFate)
      requires Valid()
      modifies this`commandCredits, this`commandsPendingResponse, this`timerIsSet, this`env, this`posts
      ensures Valid() && env == Incoming(old(env), a) && commandCredits == a.credits
      ensures var i := Find(Opcodes(old(commandsPendingResponse)), a.opcode);
        w == if i < |old(commandsPendingResponse)| then Some(old(commandsPendingResponse)[i]) else None
      ensures freed <==> w.Some? && (a.Complete? || !w.value.onStatus)
      ensures env.answered == old(env).answered + if w.Some? then [w.value] else []
      ensures env.fates == old(env).fates +
        if w.None? then [] else if freed then [Freed(w.value.command)] else [Given(w.value.command)]
      ensures timerIsSet == (commandsPendingResponse != [])
      ensures event == ToCallback <==> w.Some? && a.Complete? && w.value.onComplete
      ensures event == ToFuture <==> w.Some? && a.Complete? && !w.value.onComplete && w.value.future
      ensures posts == old(posts) + if commandCredits > 0 && commandQueue != [] then 1 else 0
    {
      commandCredits := a.credits;
      w := GetWaitingCommand(a.opcode);
      env := Incoming(env, a);
      event := EventFreed;
      if a.Complete? && w.Some? {
        if w.value.onComplete {
          event := ToCallback;
        } else if w.value.future {
          event := ToFuture;
        }
      }
      RestartTimer();
      if commandCredits != 0 && commandQueue != [] {
        posts := posts + 1;
      }
      freed := w.Some? && (a.Complete? || !w.value.onStatus);
    }
  }
}
