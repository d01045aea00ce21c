/** The scheduler of skynet as a transition system. Any number of agents (worker threads, senders, killers,
    launchers, and the operations that a callback makes) take turns; one step is one lock-protected section
    or one atomic operation of skynet_mq.c, skynet_server.c and skynet_handle.c.
    An assertion of the source that fails, or an access to freed memory, is a fault. */
module Scheduler {
  import opened Common

  type Handle = nat
  /** The address of a message queue; addresses are reused after a free. */
  type Queue = nat

  datatype Message = Message(source: Handle, session: int, data: int)

  /** How a message left its queue. */
  datatype Fate = Dispatched(message: Message) | Freed(message: Message) | Dropped(message: Message)

  /** `struct message_queue`, with `messages` for the ring. `accepted`, `gone` and `hand` are its history:
      all messages pushed, those that left it, and the one popped but not yet settled. */
  datatype QueueState = QueueState(
    handle: Handle, messages: seq<Message>, inGlobal: bool, release: bool,
    accepted: seq<Message>, gone: seq<Fate>, hand: Option<Message>)

  /** `struct skynet_context` */
  datatype Context = Context(queue: Queue, ref: int, cb: bool, init: bool)

  /** Where an agent is. A worker holds queue `q` and reference `c`; `i` and `n` are its loop counters. */
  datatype Pc =
    | Idle
    | Sending(dest: Handle, m: Message)
    | Pushing(c: Handle, m: Message)
    | Holding(c: Handle)
    | Releasing(c: Handle, next: Pc)
    | Deleting(c: Handle, next: Pc)
    | Starting(c: Handle, q: Queue)
    | Started(c: Handle, q: Queue)
    | Marking(c: Handle, q: Queue)
    | Publishing(q: Queue)
    | Retiring(c: Handle, q: Queue)
    | Disposing(q: Queue)
    | Dropping(q: Queue)
    | Held(q: Queue)
    | Popping(c: Handle, q: Queue, i: nat, n: int)
    | Measuring(c: Handle, q: Queue, m: Message, weight: nat)
    | Calling(c: Handle, q: Queue, i: nat, n: int, m: Message)
    | Running(c: Handle, q: Queue, i: nat, n: int, m: Message)
    | Yielding(c: Handle, q: Queue)
    | Returning(c: Handle, q: Queue, nq: Queue)

  /** `global` is the linked list of `struct global_queue`, `table` the handles that `skynet_handle_grab`
      finds, and `past` the queues that have been freed. */
  datatype State = State(
    queues: map<Queue, QueueState>, contexts: map<Handle, Context>, table: set<Handle>,
    global: seq<Queue>, agents: seq<Pc>, past: seq<QueueState>)

  /** The choices an agent has. `Go` is the next step where there is no choice. */
  datatype Action =
    | Fork
    | Send(dest: Handle, m: Message)
    | Kill(h: Handle)
    | Launch(h: Handle, q: Queue)
    | Again(m: Message)
    | SetCallback(on: bool)
    | Finish(ok: bool)
    | Go(weight: int)

  datatype Outcome = Next(state: State) | Blocked | Fault

  const Init := State(map[], map[], {}, [], [], [])

  /** Agent `i` moves on to `p`. */
  function At(s: State, i: nat, p: Pc): State
    requires i < |s.agents|
  {
    s.(agents := s.agents[i := p])
  }

  function SetQueue(s: State, q: Queue, d: QueueState): State { s.(queues := s.queues[q := d]) }
  function SetContext(s: State, c: Handle, d: Context): State { s.(contexts := s.contexts[c := d]) }

  /** `skynet_handle_grab` */
  function Grab(s: State, h: Handle): (r: Option<State>)
    ensures r.Some? ==> h in s.table
  {
    if h in s.table && h in s.contexts
    then Some(SetContext(s, h, s.contexts[h].(ref := s.contexts[h].ref + 1)))
    else None
  }

  /** `skynet_globalmq_push`; a queue that is linked already must not be linked again. */
  function GlobalPush(s: State, q: Queue): Outcome {
    if q !in s.queues || q in s.global then Fault else Next(s.(global := s.global + [q]))
  }

  /** `skynet_mq_push` */
  function MqPush(s: State, q: Queue, m: Message): Outcome {
    if q !in s.queues || s.queues[q].release then Fault
    else
      var d := s.queues[q];
      var d' := d.(messages := d.messages + [m], accepted := d.accepted + [m], inGlobal := true);
      if d.inGlobal then Next(SetQueue(s, q, d')) else GlobalPush(SetQueue(s, q, d'), q)
  }

  /** `delete_context`: `skynet_mq_mark_release`, then the context is freed. */
  function Delete(s: State, c: Handle): Outcome {
    if c !in s.contexts || s.contexts[c].queue !in s.queues then Fault
    else
      var q := s.contexts[c].queue;
      var d := s.queues[q];
      if d.release then Fault
      else
        var s' := SetQueue(s, q, d.(release := true)).(contexts := s.contexts - {c});
        if d.inGlobal then Next(s') else GlobalPush(s', q)
  }

  /** `skynet_context_release`: where the agent goes if the context lives on, and if it is to be deleted. */
  function Release(s: State, i: nat, c: Handle, live: Pc, dead: Pc): Outcome
    requires i < |s.agents|
  {
    if c !in s.contexts then Fault
    else
      var ref := s.contexts[c].ref - 1;
      Next(At(SetContext(s, c, s.contexts[c].(ref := ref)), i, if ref == 0 then Deleting(c, dead) else live))
  }

  function Then(o: Outcome, i: nat, p: Pc): Outcome {
    match o
    case Next(s) => if i < |s.agents| then Next(At(s, i, p)) else Blocked
    case Blocked => Blocked
    case Fault => Fault
  }

  /** The message told to the sender of a dropped message. */
  function ErrorFrom(h: Handle): Message { Message(h, 0, 0) }

  /** The state of a queue after `skynet_mq_pop` by a worker. */
  function Popped(d: QueueState): QueueState
    requires d.messages != []
  {
    d.(messages := d.messages[1..], hand := Some(d.messages[0]))
  }

  function Settled(d: QueueState, f: Fate): QueueState {
    d.(gone := d.gone + [f], hand := None)
  }

  /** One round of the loop of `skynet_context_message_dispatch` is over. */
  function NextRound(c: Handle, q: Queue, i: nat, n: int): Pc {
    if i + 1 < n then Popping(c, q, i + 1, n) else Yielding(c, q)
  }

  function IdleStep(s: State, i: nat, a: Action): Outcome
    requires i < |s.agents|
  {
    match a
    case Fork => Blocked
    case Send(dest, m) => Next(At(s, i, Sending(dest, m)))
    case Kill(h) =>
      // skynet_handle_retire
      if h in s.table then Next(At(s.(table := s.table - {h}), i, Releasing(h, Idle))) else Next(s)
    case Launch(h, q) =>
      // skynet_context_new; the handle is not borne by a queue that is still alive
      if h == 0 || q in s.queues || h in s.contexts || exists p <- s.queues :: s.queues[p].handle == h then Blocked
      else
        Next(At(State(s.queues[q := QueueState(h, [], true, false, [], [], None)],
                      s.contexts[h := Context(q, 2, false, false)], s.table + {h}, s.global, s.agents, s.past),
                i, Starting(h, q)))
    case Again(_) => Blocked
    case SetCallback(_) => Blocked
    case Finish(_) => Blocked
    case Go(_) =>
      // skynet_globalmq_pop
      if s.global == [] then Next(s) else Next(At(s.(global := s.global[1..]), i, Held(s.global[0])))
  }

  function PopStep(s: State, i: nat, weight: int): Outcome
    requires i < |s.agents| && s.agents[i].Popping?
  {
    var p := s.agents[i];
    if p.q !in s.queues then Fault
    else if s.queues[p.q].messages == [] then
      Next(At(SetQueue(s, p.q, s.queues[p.q].(inGlobal := false)), i, Releasing(p.c, Idle)))
    else
      var m := s.queues[p.q].messages[0];
      Next(At(SetQueue(s, p.q, Popped(s.queues[p.q])), i,
              if p.i == 0 && weight >= 0 then Measuring(p.c, p.q, m, weight) else Calling(p.c, p.q, p.i, p.n, m)))
  }

  function CallStep(s: State, i: nat): Outcome
    requires i < |s.agents| && s.agents[i].Calling?
  {
    var p := s.agents[i];
    if p.c !in s.contexts || p.q !in s.queues then Fault
    else if !s.contexts[p.c].cb then
      Next(At(SetQueue(s, p.q, Settled(s.queues[p.q], Freed(p.m))), i, NextRound(p.c, p.q, p.i, p.n)))
    else if !s.contexts[p.c].init then Fault
    else Next(At(SetQueue(s, p.q, Settled(s.queues[p.q], Dispatched(p.m))), i, Running(p.c, p.q, p.i, p.n, p.m)))
  }

  function YieldStep(s: State, i: nat): Outcome
    requires i < |s.agents| && s.agents[i].Yielding?
  {
    var p := s.agents[i];
    if p.c !in s.contexts || s.contexts[p.c].queue != p.q then Fault
    else if s.global == [] then Next(At(s, i, Releasing(p.c, Held(p.q))))
    else Next(At(s.(global := s.global[1..]), i, Returning(p.c, p.q, s.global[0])))
  }

  function DropStep(s: State, i: nat): Outcome
    requires i < |s.agents| && s.agents[i].Dropping?
  {
    var q := s.agents[i].q;
    if q !in s.queues then Fault
    else
      var d := s.queues[q];
      if d.messages == [] then
        if q in s.global then Fault
        else Next(At(s.(queues := s.queues - {q}, past := s.past + [d.(inGlobal := false)]), i, Idle))
      else if d.handle == 0 then Fault
      else
        var d' := Settled(d.(messages := d.messages[1..]), Dropped(d.messages[0]));
        Next(SetQueue(s, q, d').(agents := s.agents + [Sending(d.messages[0].source, ErrorFrom(d.handle))]))
  }

  function Step(s: State, i: nat, a: Action): Outcome {
    if a.Fork? then Next(s.(agents := s.agents + [Idle]))
    else if i >= |s.agents| then Blocked
    else
      match s.agents[i]
      case Idle => IdleStep(s, i, a)
      case Sending(dest, m) =>
        var g := Grab(s, dest);
        if g.Some? then Next(At(g.value, i, Pushing(dest, m))) else Next(At(s, i, Idle))
      case Pushing(c, m) =>
        if c !in s.contexts then Fault else Then(MqPush(s, s.contexts[c].queue, m), i, Holding(c))
      case Holding(c) =>
        if a.Again? then Next(At(s, i, Pushing(c, a.m))) else Next(At(s, i, Releasing(c, Idle)))
      case Releasing(c, next) => Release(s, i, c, next, next)
      case Deleting(c, next) => Then(Delete(s, c), i, next)
      case Starting(c, q) =>
        if a.SetCallback? then
          if c !in s.contexts then Fault else Next(SetContext(s, c, s.contexts[c].(cb := a.on)))
        else if a.Finish? then
          Next(At(s, i, if a.ok then Started(c, q) else Releasing(c, Retiring(c, q))))
        else Blocked
      case Started(c, q) => Release(s, i, c, Marking(c, q), Publishing(q))
      case Marking(c, q) =>
        if c !in s.contexts then Fault
        else Next(At(SetContext(s, c, s.contexts[c].(init := true)), i, Publishing(q)))
      case Publishing(q) => Then(GlobalPush(s, q), i, Idle)
      case Retiring(c, q) =>
        if c in s.table then Next(At(s.(table := s.table - {c}), i, Releasing(c, Disposing(q))))
        else Next(At(s, i, Disposing(q)))
      case Disposing(q) =>
        // skynet_mq_release
        if q !in s.queues then Fault
        else if s.queues[q].release then Next(At(s, i, Dropping(q)))
        else Then(GlobalPush(s, q), i, Idle)
      case Dropping(q) => DropStep(s, i)
      case Held(q) =>
        if q !in s.queues then Fault
        else
          var g := Grab(s, s.queues[q].handle);
          if g.Some? then Next(At(g.value, i, Popping(s.queues[q].handle, q, 0, 1))) else Next(At(s, i, Disposing(q)))
      case Popping(c, q, k, n) => if a.Go? then PopStep(s, i, a.weight) else Blocked
      case Measuring(c, q, m, weight) =>
        if q !in s.queues then Fault else Next(At(s, i, Calling(c, q, 0, |s.queues[q].messages| / Pow(2, weight), m)))
      case Calling(c, q, k, n, m) => CallStep(s, i)
      case Running(c, q, k, n, m) =>
        if a.SetCallback? then
          if c !in s.contexts then Fault else Next(SetContext(s, c, s.contexts[c].(cb := a.on)))
        else Next(At(s, i, NextRound(c, q, k, n)))
      case Yielding(c, q) => YieldStep(s, i)
      case Returning(c, q, nq) => Then(GlobalPush(s, q), i, Releasing(c, Held(nq)))
  }
}
