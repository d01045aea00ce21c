/** The scheduler over whole runs. */
module SchedulerSafety {
  import opened Common
  import opened Scheduler
  import opened SchedulerInvariant
  import opened SchedulerSteps

  /** A launcher that notes on a context that it is initialised, after giving back its only reference. */
  predicate Late(s: State, i: nat) {
    i < |s.agents| && s.agents[i].Marking? && s.agents[i].c !in s.contexts
  }

  /** The step keeps the invariant and does not fault, or is the late note. */
  ghost predicate Good(s: State, i: nat, a: Action) {
    match Step(s, i, a)
    case Next(s') => Inv(s')
    case Blocked => true
    case Fault => false
  }

  lemma InvAt(s: State, i: nat)
    requires Inv(s) && i < |s.agents|
    ensures AgentOk(s, s.agents[i])
  {
  }

  lemma IdleGood(s: State, i: nat, a: Action)
    requires Inv(s) && i < |s.agents| && s.agents[i] == Idle && !a.Fork?
    ensures Good(s, i, a)
  {
    hide Inv;
    match a
    case Send(dest, m) =>
      Pass(s, Step(s, i, a).state, i, Sending(dest, m));
    case Kill(h) =>
      if h in s.table { RetireKeeps(s, Step(s, i, a).state, i, h, Releasing(h, Idle)); }
    case Launch(h, q) =>
      if Step(s, i, a).Next? { LaunchKeeps(s, Step(s, i, a).state, i, h, q); }
    case Go(_) =>
      if s.global != [] { Take(s, Step(s, i, a).state, i, Held(s.global[0])); }
    case Again(_) =>
    case SetCallback(_) =>
    case Finish(_) =>
    case Fork =>
  }

  lemma SenderGood(s: State, i: nat, a: Action)
    requires Inv(s) && i < |s.agents| && !a.Fork?
    requires s.agents[i].Sending? || s.agents[i].Pushing? || s.agents[i].Holding?
    ensures Good(s, i, a)
  {
    hide Inv, MqPush, Then;
    var p := s.agents[i];
    if p.Sending? {
      if Grab(s, p.dest).Some? {
        GrabKeeps(s, Step(s, i, a).state, i, p.dest, Pushing(p.dest, p.m));
      } else {
        Pass(s, Step(s, i, a).state, i, Idle);
      }
    } else if p.Pushing? {
      PushSafe(s, i, p.c, p.m, Holding(p.c));
      PushKeeps(s, Step(s, i, a).state, i, p.c, p.m, Holding(p.c));
    } else {
      Pass(s, Step(s, i, a).state, i, if a.Again? then Pushing(p.c, a.m) else Releasing(p.c, Idle));
    }
  }

  lemma ReleaseGood(s: State, i: nat, a: Action)
    requires Inv(s) && i < |s.agents| && !a.Fork?
    requires s.agents[i].Releasing? || s.agents[i].Deleting?
    ensures Good(s, i, a)
  {
    hide Inv, Delete, Then;
    var p := s.agents[i];
    InvAt(s, i);
    if p.Releasing? {
      ReleaseSafe(s, i, p.c, p.next, p.next);
      var s' := Step(s, i, a).state;
      assert forall q :: Stable(s, s', q);
      AgentStays(s, s', p.next);
      ReleaseKeeps(s, s', i, p.c, p.next, p.next);
    } else {
      DeleteSafe(s, i, p.c, p.next);
      DeleteKeeps(s, Step(s, i, a).state, i, p.c, p.next);
    }
  }

  /** An agent that has a reference can reach the context. */
  lemma RefAlive(s: State, i: nat, c: Handle)
    requires Inv(s) && i < |s.agents| && Has(s.agents[i], RefTo(c)) > 0
    ensures c in s.contexts && s.contexts[c].queue in s.queues && s.queues[s.contexts[c].queue].handle == c
  {
    CountOne(s.agents, i, RefTo(c));
    assert ContextOk(s, c);
  }

  /** The last reference is not that of the handle table. */
  lemma LastIsUnlisted(s: State, i: nat, c: Handle)
    requires Inv(s) && i < |s.agents| && Has(s.agents[i], RefTo(c)) > 0
    requires c in s.contexts && s.contexts[c].ref == 1
    ensures c !in s.table
  {
    CountOne(s.agents, i, RefTo(c));
    assert ContextOk(s, c);
  }

  /** What `assert(q == ctx->queue)` says. */
  lemma OwnQueue(s: State, i: nat, c: Handle, q: Queue)
    requires Inv(s) && i < |s.agents| && Has(s.agents[i], RefTo(c)) > 0
    requires q in s.queues && s.queues[q].handle == c
    ensures c in s.contexts && s.contexts[c].queue == q && !s.queues[q].release
  {
    RefAlive(s, i, c);
    assert ContextOk(s, c);
  }

  lemma StartingGood(s: State, i: nat, a: Action)
    requires Inv(s) && i < |s.agents| && !a.Fork? && s.agents[i].Starting?
    ensures Good(s, i, a)
  {
    hide Inv;
    var p := s.agents[i];
    InvAt(s, i);
    RefAlive(s, i, p.c);
    if a.SetCallback? {
      assert s.agents[i := p] == s.agents;
      Pass(s, Step(s, i, a).state, i, p);
    } else if a.Finish? {
      Pass(s, Step(s, i, a).state, i, if a.ok then Started(p.c, p.q) else Releasing(p.c, Retiring(p.c, p.q)));
    }
  }

  lemma StartedGood(s: State, i: nat, a: Action)
    requires Inv(s) && i < |s.agents| && !a.Fork? && s.agents[i].Started?
    ensures Good(s, i, a)
  {
    hide Inv;
    var p := s.agents[i];
    InvAt(s, i);
    RefAlive(s, i, p.c);
    ReleaseSafe(s, i, p.c, Marking(p.c, p.q), Publishing(p.q));
    var s' := Step(s, i, a).state;
    if s'.contexts[p.c].ref == 0 { LastIsUnlisted(s, i, p.c); }
    ReleaseKeeps(s, s', i, p.c, Marking(p.c, p.q), Publishing(p.q));
  }

  lemma MarkGood(s: State, i: nat, a: Action)
    requires Inv(s) && i < |s.agents| && !a.Fork? && !Late(s, i) && s.agents[i].Marking?
    ensures Good(s, i, a)
  {
    hide Inv;
    var p := s.agents[i];
    InvAt(s, i);
    Pass(s, Step(s, i, a).state, i, Publishing(p.q));
  }

  lemma PublishGood(s: State, i: nat, a: Action)
    requires Inv(s) && i < |s.agents| && !a.Fork?
    requires s.agents[i].Publishing? || s.agents[i].Retiring?
    ensures Good(s, i, a)
  {
    hide Inv, GlobalPush, Then;
    var p := s.agents[i];
    InvAt(s, i);
    if p.Publishing? {
      PutSafe(s, i, p.q, Idle);
      Put(s, Step(s, i, a).state, i, p.q, Idle);
    } else if p.c in s.table {
      RetireKeeps(s, Step(s, i, a).state, i, p.c, Releasing(p.c, Disposing(p.q)));
    } else {
      Pass(s, Step(s, i, a).state, i, Disposing(p.q));
    }
  }

  lemma HeldAlive(s: State, i: nat, q: Queue)
    requires Inv(s) && i < |s.agents| && Has(s.agents[i], QueueOf(q)) > 0
    ensures q in s.queues && q !in s.global && s.queues[q].handle != 0 && Conserved(s.queues[q])
    ensures s.queues[q].release ==> s.queues[q].handle !in s.contexts
  {
    CountOne(s.agents, i, QueueOf(q));
    assert QueueOk(s, q);
  }

  lemma ConservedDrop(d: QueueState)
    requires Conserved(d) && d.messages != [] && d.hand == None
    ensures Conserved(Settled(d.(messages := d.messages[1..]), Dropped(d.messages[0])))
  {
    assert d.messages == [d.messages[0]] + d.messages[1..];
    assert Told(d.gone + [Dropped(d.messages[0])]) == Told(d.gone) + [d.messages[0]];
  }

  lemma ConservedPop(d: QueueState)
    requires Conserved(d) && d.messages != [] && d.hand == None
    ensures Conserved(Popped(d))
  {
    assert d.messages == [d.messages[0]] + d.messages[1..];
  }

  lemma ConservedSettle(d: QueueState, f: Fate)
    requires Conserved(d) && d.hand == Some(f.message)
    ensures Conserved(Settled(d, f))
  {
    assert Told(d.gone + [f]) == Told(d.gone) + [f.message];
  }

  lemma DisposeGood(s: State, i: nat, a: Action)
    requires Inv(s) && i < |s.agents| && !a.Fork?
    requires s.agents[i].Disposing? || s.agents[i].Dropping?
    ensures Good(s, i, a)
  {
    hide Inv, GlobalPush, Then, Conserved;
    var p := s.agents[i];
    InvAt(s, i);
    HeldAlive(s, i, p.q);
    if p.Disposing? {
      if s.queues[p.q].release {
        Pass(s, Step(s, i, a).state, i, Dropping(p.q));
      } else {
        PutSafe(s, i, p.q, Idle);
        Put(s, Step(s, i, a).state, i, p.q, Idle);
      }
    } else {
      var d := s.queues[p.q];
      if d.messages == [] {
        FreeKeeps(s, Step(s, i, a).state, i, p.q, Idle);
      } else {
        ConservedDrop(d);
        var s' := SetQueue(s, p.q, Settled(d.(messages := d.messages[1..]), Dropped(d.messages[0])));
        assert s.agents[i := p] == s.agents;
        HeldKeeps(s, s', i, p.q, p);
        SpawnKeeps(s', Step(s, i, a).state, Sending(d.messages[0].source, ErrorFrom(d.handle)));
      }
    }
  }

  lemma HeldGood(s: State, i: nat, a: Action)
    requires Inv(s) && i < |s.agents| && !a.Fork? && s.agents[i].Held?
    ensures Good(s, i, a)
  {
    hide Inv;
    var q := s.agents[i].q;
    InvAt(s, i);
    HeldAlive(s, i, q);
    var h := s.queues[q].handle;
    if Grab(s, h).Some? {
      GrabKeeps(s, Step(s, i, a).state, i, h, Popping(h, q, 0, 1));
    } else {
      Unlisted(s, h);
      Pass(s, Step(s, i, a).state, i, Disposing(q));
    }
  }

  lemma Unlisted(s: State, h: Handle)
    requires Inv(s) && Grab(s, h) == None
    ensures h !in s.table
  {
    assert ContextOk(s, h);
  }

  lemma EmptyGood(s: State, i: nat, weight: int)
    requires Inv(s) && i < |s.agents| && s.agents[i].Popping?
    requires s.agents[i].q in s.queues && s.queues[s.agents[i].q].messages == []
    ensures Good(s, i, Go(weight))
  {
    hide Inv, Conserved;
    var p := s.agents[i];
    InvAt(s, i);
    LeaveKeeps(s, Step(s, i, Go(weight)).state, i, p.c, p.q, Releasing(p.c, Idle));
  }

  lemma MessageGood(s: State, i: nat, weight: int)
    requires Inv(s) && i < |s.agents| && s.agents[i].Popping?
    requires s.agents[i].q in s.queues && s.queues[s.agents[i].q].messages != []
    ensures Good(s, i, Go(weight))
  {
    hide Inv, Conserved;
    var p := s.agents[i];
    InvAt(s, i);
    HeldAlive(s, i, p.q);
    ConservedPop(s.queues[p.q]);
    var s' := Step(s, i, Go(weight)).state;
    HeldKeeps(s, s', i, p.q, s'.agents[i]);
  }

  lemma PopGood(s: State, i: nat, a: Action)
    requires Inv(s) && i < |s.agents| && !a.Fork? && s.agents[i].Popping?
    ensures Good(s, i, a)
  {
    hide Inv, AgentOk;
    HeldAlive(s, i, s.agents[i].q);
    if a.Go? {
      if s.queues[s.agents[i].q].messages == [] { EmptyGood(s, i, a.weight); } else { MessageGood(s, i, a.weight); }
    }
  }

  lemma MeasureGood(s: State, i: nat, a: Action)
    requires Inv(s) && i < |s.agents| && !a.Fork? && s.agents[i].Measuring?
    ensures Good(s, i, a)
  {
    hide Inv, Conserved;
    var p := s.agents[i];
    InvAt(s, i);
    HeldAlive(s, i, p.q);
    Pass(s, Step(s, i, a).state, i, Calling(p.c, p.q, 0, |s.queues[p.q].messages| / Pow(2, p.weight), p.m));
  }

  lemma CallGood(s: State, i: nat, a: Action)
    requires Inv(s) && i < |s.agents| && !a.Fork? && s.agents[i].Calling?
    ensures Good(s, i, a)
  {
    hide Inv, Conserved;
    var p := s.agents[i];
    InvAt(s, i);
    HeldAlive(s, i, p.q);
    RefAlive(s, i, p.c);
    var f := if s.contexts[p.c].cb then Dispatched(p.m) else Freed(p.m);
    ConservedSettle(s.queues[p.q], f);
    HeldKeeps(s, Step(s, i, a).state, i, p.q,
              if s.contexts[p.c].cb then Running(p.c, p.q, p.i, p.n, p.m) else NextRound(p.c, p.q, p.i, p.n));
  }

  lemma RunGood(s: State, i: nat, a: Action)
    requires Inv(s) && i < |s.agents| && !a.Fork? && s.agents[i].Running?
    ensures Good(s, i, a)
  {
    hide Inv;
    var p := s.agents[i];
    InvAt(s, i);
    RefAlive(s, i, p.c);
    if a.SetCallback? {
      assert s.agents[i := p] == s.agents;
      Pass(s, Step(s, i, a).state, i, p);
    } else {
      Pass(s, Step(s, i, a).state, i, NextRound(p.c, p.q, p.i, p.n));
    }
  }

  lemma KeepGood(s: State, i: nat, a: Action)
    requires Inv(s) && i < |s.agents| && !a.Fork? && s.agents[i].Yielding? && s.global == []
    ensures Good(s, i, a)
  {
    hide Inv;
    var p := s.agents[i];
    InvAt(s, i);
    OwnQueue(s, i, p.c, p.q);
    Pass(s, Step(s, i, a).state, i, Releasing(p.c, Held(p.q)));
  }

  lemma SwapGood(s: State, i: nat, a: Action)
    requires Inv(s) && i < |s.agents| && !a.Fork? && s.agents[i].Yielding? && s.global != []
    ensures Good(s, i, a)
  {
    hide Inv;
    var p := s.agents[i];
    InvAt(s, i);
    OwnQueue(s, i, p.c, p.q);
    Take(s, Step(s, i, a).state, i, Returning(p.c, p.q, s.global[0]));
  }

  lemma ReturnGood(s: State, i: nat, a: Action)
    requires Inv(s) && i < |s.agents| && !a.Fork? && s.agents[i].Returning?
    ensures Good(s, i, a)
  {
    hide Inv;
    var p := s.agents[i];
    InvAt(s, i);
    OwnQueue(s, i, p.c, p.q);
    PutSafe(s, i, p.q, Releasing(p.c, Held(p.nq)));
    Put(s, Step(s, i, a).state, i, p.q, Releasing(p.c, Held(p.nq)));
  }

  /** Every step of every agent keeps the invariant, no assertion fails and no freed memory is used,
      except in one place: a launcher that writes to a context which was freed before. */
  lemma StepGood(s: State, i: nat, a: Action)
    requires Inv(s)
    ensures !a.Fork? && Late(s, i) ==> Step(s, i, a) == Fault
    ensures a.Fork? || !Late(s, i) ==> Good(s, i, a)
  {
    hide Inv;
    if a.Fork? {
      SpawnKeeps(s, Step(s, i, a).state, Idle);
    } else if i < |s.agents| && !Late(s, i) {
      hide Step, Good;
      var p := s.agents[i];
      if p.Idle? { IdleGood(s, i, a); }
      else if p.Sending? || p.Pushing? || p.Holding? { SenderGood(s, i, a); }
      else if p.Releasing? || p.Deleting? { ReleaseGood(s, i, a); }
      else if p.Starting? { StartingGood(s, i, a); }
      else if p.Started? { StartedGood(s, i, a); }
      else if p.Marking? { MarkGood(s, i, a); }
      else if p.Publishing? || p.Retiring? { PublishGood(s, i, a); }
      else if p.Disposing? || p.Dropping? { DisposeGood(s, i, a); }
      else if p.Held? { HeldGood(s, i, a); }
      else if p.Popping? { PopGood(s, i, a); }
      else if p.Measuring? { MeasureGood(s, i, a); }
      else if p.Calling? { CallGood(s, i, a); }
      else if p.Running? { RunGood(s, i, a); }
      else if p.Yielding? { if s.global == [] { KeepGood(s, i, a); } else { SwapGood(s, i, a); } }
      else { ReturnGood(s, i, a); }
    }
  }

  /** A choice of agent and action for each step. */
  datatype Choice = Choice(i: nat, a: Action)

  /** A run; a choice that is not possible is passed over. */
  function Run(s: State, choices: seq<Choice>): Outcome
    decreases |choices|
  {
    if choices == [] then Next(s)
    else
      match Step(s, choices[0].i, choices[0].a)
      case Next(s') => Run(s', choices[1..])
      case Blocked => Run(s, choices[1..])
      case Fault => Fault
  }

  lemma InitInv()
    ensures Inv(Init)
  {
  }

  lemma {:induction false} RunInv(s: State, choices: seq<Choice>)
    requires Inv(s) && Run(s, choices).Next?
    ensures Inv(Run(s, choices).state)
    decreases |choices|
  {
    hide Inv, Step;
    if choices != [] {
      var s' := Step(s, choices[0].i, choices[0].a);
      StepGood(s, choices[0].i, choices[0].a);
      if s'.Next? { RunInv(s'.state, choices[1..]); } else { RunInv(s, choices[1..]); }
    }
  }

  /** In every state that any interleaving reaches, the next step faults exactly if it is the late note. */
  lemma Reachable(choices: seq<Choice>, i: nat, a: Action)
    requires Run(Init, choices).Next?
    ensures
      var s := Run(Init, choices).state;
      Inv(s) && (Step(s, i, a) == Fault <==> !a.Fork? && Late(s, i))
  {
    hide Inv, Run, Step;
    InitInv();
    RunInv(Init, choices);
    StepGood(Run(Init, choices).state, i, a);
  }

  lemma OneHolder(s: State, i: nat, j: nat, q: Queue)
    requires Inv(s) && i < j < |s.agents|
    ensures Has(s.agents[i], QueueOf(q)) + Has(s.agents[j], QueueOf(q)) <= 1
  {
    CountTwo(s.agents, i, j, QueueOf(q));
    assert QueueOk(s, q);
  }

  /** Callbacks of one service, the initial one included, never overlap. */
  lemma MutualExclusion(s: State, i: nat, j: nat)
    requires Inv(s) && i < j < |s.agents|
    requires s.agents[i].Running? || s.agents[i].Starting?
    requires s.agents[j].Running? || s.agents[j].Starting?
    ensures s.agents[i].c != s.agents[j].c
  {
    InvAt(s, i);
    InvAt(s, j);
    OneHolder(s, i, j, s.agents[i].q);
  }

  /** A queue is on the global list or with one agent at most once in total; exactly once if it has
      messages or has been released, so that it is never forgotten. */
  lemma Scheduled(s: State, q: Queue)
    requires Inv(s)
    ensures Place(s, q) <= 1
    ensures q in s.queues && (s.queues[q].messages != [] || s.queues[q].release) ==> Place(s, q) == 1
    ensures q in s.queues && !s.queues[q].release ==> (s.queues[q].inGlobal <==> Place(s, q) == 1)
    ensures q !in s.queues ==> Place(s, q) == 0
  {
    assert QueueOk(s, q);
  }

  lemma {:induction false} CountIdle(agents: seq<Pc>, r: Resource)
    requires forall k :: 0 <= k < |agents| ==> agents[k] == Idle
    ensures Count(agents, r) == 0
  {
    if agents != [] { CountIdle(agents[..|agents| - 1], r); }
  }

  /** Once nothing is under way nothing has leaked: the contexts are the registered ones with one
      reference each, every queue is the empty queue of such a context, and of every queue that is or
      was all messages accepted have met their fate in the order they were accepted. */
  lemma Quiescent(s: State)
    requires Inv(s) && s.global == [] && forall k :: 0 <= k < |s.agents| ==> s.agents[k] == Idle
    ensures s.contexts.Keys == s.table
    ensures forall c <- s.contexts :: s.contexts[c].ref == 1
    ensures forall q <- s.queues :: s.queues[q].handle in s.table && s.queues[q].messages == [] && !s.queues[q].release
    ensures forall q <- s.queues :: s.queues[q].accepted == Told(s.queues[q].gone)
    ensures forall k :: 0 <= k < |s.past| ==> s.past[k].accepted == Told(s.past[k].gone)
  {
    forall c: Handle
      ensures c in s.contexts ==> c in s.table && s.contexts[c].ref == 1
      ensures c in s.table ==> c in s.contexts
    {
      CountIdle(s.agents, RefTo(c));
      CountIdle(s.agents, DutyFor(c));
      assert ContextOk(s, c);
    }
    forall q: Queue | q in s.queues
      ensures s.queues[q].handle in s.contexts && s.queues[q].messages == [] && !s.queues[q].release
      ensures s.queues[q].accepted == Told(s.queues[q].gone)
    {
      CountIdle(s.agents, QueueOf(q));
      assert QueueOk(s, q);
    }
  }

  lemma RunNext(s: State, choices: seq<Choice>, i: nat, a: Action, s': State)
    requires choices != [] && choices[0] == Choice(i, a) && Step(s, i, a) == Next(s')
    ensures Run(s, choices) == Run(s', choices[1..])
  {
  }

  const Fresh := QueueState(1, [], true, false, [], [], None)

  /** Service 1 right after its launcher, agent 0, has given back its reference. */
  const Given := State(map[0 := Fresh], map[1 := Context(0, 1, false, false)], {1}, [], [Marking(1, 0)], [])

  lemma GivenReached(rest: seq<Choice>)
    ensures
      Run(Init, [Choice(0, Fork), Choice(0, Launch(1, 0)), Choice(0, Finish(true)), Choice(0, Go(0))] + rest) ==
      Run(Given, rest)
  {
    var cs := [Choice(0, Fork), Choice(0, Launch(1, 0)), Choice(0, Finish(true)), Choice(0, Go(0))] + rest;
    var s1 := Init.(agents := [Idle]);
    var s2 := State(map[0 := Fresh], map[1 := Context(0, 2, false, false)], {1}, [], [Starting(1, 0)], []);
    var s3 := s2.(agents := [Started(1, 0)]);
    assert Step(Init, 0, Fork) == Next(s1);
    assert Step(s1, 0, Launch(1, 0)) == Next(s2);
    assert Step(s2, 0, Finish(true)) == Next(s3);
    assert Step(s3, 0, Go(0)) == Next(Given);
    RunNext(Init, cs, 0, Fork, s1);
    RunNext(s1, cs[1..], 0, Launch(1, 0), s2);
    RunNext(s2, cs[2..], 0, Finish(true), s3);
    RunNext(s3, cs[3..], 0, Go(0), Given);
    assert cs[4..] == rest;
  }

  lemma GivenFaults()
    ensures Run(Given, [Choice(0, Fork), Choice(1, Kill(1)), Choice(1, Go(0)), Choice(1, Go(0)), Choice(0, Go(0))])
      == Fault
  {
    var cs := [Choice(0, Fork), Choice(1, Kill(1)), Choice(1, Go(0)), Choice(1, Go(0)), Choice(0, Go(0))];
    var s1 := Given.(agents := [Marking(1, 0), Idle]);
    var s2 := s1.(agents := [Marking(1, 0), Releasing(1, Idle)], table := {});
    var s3 := s2.(agents := [Marking(1, 0), Deleting(1, Idle)], contexts := map[1 := Context(0, 0, false, false)]);
    var s4 := s3.(agents := [Marking(1, 0), Idle], contexts := map[], queues := map[0 := Fresh.(release := true)]);
    assert Step(Given, 0, Fork) == Next(s1);
    assert Step(s1, 1, Kill(1)) == Next(s2);
    assert Step(s2, 1, Go(0)) == Next(s3);
    assert Step(s3, 1, Go(0)) == Next(s4);
    assert Step(s4, 0, Go(0)) == Fault;
    hide Step;
    RunNext(Given, cs, 0, Fork, s1);
    RunNext(s1, cs[1..], 1, Kill(1), s2);
    RunNext(s2, cs[2..], 1, Go(0), s3);
    RunNext(s3, cs[3..], 1, Go(0), s4);
  }

  /** The late note does happen: a service whose handle got about during its initialisation is killed
      between the release of the launcher's reference and the note. */
  lemma LateHappens()
    ensures exists choices :: Run(Init, choices) == Fault
  {
    var rest := [Choice(0, Fork), Choice(1, Kill(1)), Choice(1, Go(0)), Choice(1, Go(0)), Choice(0, Go(0))];
    GivenReached(rest);
    GivenFaults();
  }

  /** A service under construction: its handle is registered and it is not yet noted as initialised. */
  predicate New(s: State, c: Handle) {
    c in s.table && c in s.contexts && !s.contexts[c].init
  }

  predicate Launching(p: Pc) { p.Starting? || p.Started? || p.Marking? }

  /** Launchers have lost nothing yet. */
  predicate Calm(s: State) {
    forall i :: 0 <= i < |s.agents| && Launching(s.agents[i]) ==> New(s, s.agents[i].c)
  }

  /** Only services that are fully launched are killed from outside. */
  predicate Careful(s: State, a: Action) {
    a.Kill? && a.h in s.contexts ==> s.contexts[a.h].init
  }

  lemma DutyUnlisted(s: State, i: nat)
    requires Inv(s) && i < |s.agents| && s.agents[i].Deleting?
    ensures s.agents[i].c !in s.table
  {
    CountOne(s.agents, i, DutyFor(s.agents[i].c));
    assert ContextOk(s, s.agents[i].c);
  }

  /** Only its own launcher ends the time in which a service is new. */
  lemma NewStays(s: State, i: nat, a: Action, c: Handle)
    requires Inv(s) && New(s, c) && Careful(s, a) && Step(s, i, a).Next?
    requires i < |s.agents| && (s.agents[i].Marking? || s.agents[i].Retiring?) ==> s.agents[i].c != c
    ensures New(Step(s, i, a).state, c)
  {
    hide Inv, MqPush, Delete, Then;
    var s' := Step(s, i, a).state;
    if i < |s.agents| && !a.Fork? {
      var p := s.agents[i];
      if p.Pushing? {
        PushShape(s, s', i, s.contexts[p.c].queue, p.m, Holding(p.c));
      } else if p.Deleting? {
        DutyUnlisted(s, i);
        DeleteShape(s, s', i, p.c, p.next);
      } else if p.Publishing? || p.Disposing? || p.Returning? {
        ThenShape(GlobalPush(s, p.q), i, s');
      }
    }
  }

  lemma ThenShape(o: Outcome, i: nat, s': State)
    ensures forall p {:trigger Then(o, i, p)} :: Then(o, i, p) == Next(s') ==>
      o.Next? && s'.contexts == o.state.contexts && s'.table == o.state.table
  {
  }

  /** Two agents that are about to settle the fate of a new service are one. */
  lemma OneLauncher(s: State, i: nat, j: nat)
    requires Inv(s) && i < |s.agents| && j < |s.agents| && i != j
    requires Launching(s.agents[j]) && (s.agents[i].Marking? || s.agents[i].Retiring?)
    ensures s.agents[i].c != s.agents[j].c
  {
    InvAt(s, i);
    InvAt(s, j);
    OneHolder(s, if i < j then i else j, if i < j then j else i, s.agents[j].q);
  }

  lemma AgentsKept(s: State)
    ensures forall q, m :: MqPush(s, q, m).Next? ==> MqPush(s, q, m).state.agents == s.agents
    ensures forall c :: Delete(s, c).Next? ==> Delete(s, c).state.agents == s.agents
    ensures forall q :: GlobalPush(s, q).Next? ==> GlobalPush(s, q).state.agents == s.agents
  {
  }

  /** What a step does to the agents: the others are kept, new ones have nothing, and the one that
      takes it launches only what it launched before or what is new. */
  predicate AgentsMove(s: State, s': State, i: nat) {
    i < |s.agents| <= |s'.agents| &&
    (forall j :: 0 <= j < |s.agents| && i != j ==> s'.agents[j] == s.agents[j]) &&
    (forall j :: |s.agents| <= j < |s'.agents| ==> !Launching(s'.agents[j])) &&
    var p := s'.agents[i];
    (Launching(p) ==> (Launching(s.agents[i]) && p.c == s.agents[i].c && !s.agents[i].Marking?) || New(s', p.c))
  }

  lemma IdleAgents(s: State, i: nat, a: Action)
    requires i < |s.agents| && s.agents[i].Idle? && !a.Fork? && Step(s, i, a).Next?
    ensures AgentsMove(s, Step(s, i, a).state, i)
  {
  }

  lemma LauncherAgents(s: State, i: nat, a: Action)
    requires i < |s.agents| && Launching(s.agents[i]) && !a.Fork? && Step(s, i, a).Next?
    ensures AgentsMove(s, Step(s, i, a).state, i)
  {
  }

  lemma SenderAgents(s: State, i: nat, a: Action)
    requires i < |s.agents| && !a.Fork? && Step(s, i, a).Next?
    requires s.agents[i].Sending? || s.agents[i].Pushing? || s.agents[i].Holding?
    ensures AgentsMove(s, Step(s, i, a).state, i)
  {
    hide MqPush, New;
    AgentsKept(s);
  }

  lemma ReleaserAgents(s: State, i: nat, a: Action)
    requires i < |s.agents| && !a.Fork? && Step(s, i, a).Next? && AgentOk(s, s.agents[i])
    requires s.agents[i].Releasing? || s.agents[i].Deleting?
    ensures AgentsMove(s, Step(s, i, a).state, i)
  {
    hide Delete, New, AgentOk;
    AgentsKept(s);
    FollowsNot(s, s.agents[i]);
  }

  lemma DisposerAgents(s: State, i: nat, a: Action)
    requires i < |s.agents| && !a.Fork? && Step(s, i, a).Next?
    requires
      var p := s.agents[i];
      p.Publishing? || p.Retiring? || p.Disposing? || p.Dropping?
    ensures AgentsMove(s, Step(s, i, a).state, i)
  {
    hide GlobalPush, Settled, New;
    AgentsKept(s);
  }

  lemma WorkerAgents(s: State, i: nat, a: Action)
    requires i < |s.agents| && !a.Fork? && Step(s, i, a).Next?
    requires
      var p := s.agents[i];
      p.Held? || p.Popping? || p.Measuring? || p.Calling? || p.Running? || p.Yielding? || p.Returning?
    ensures AgentsMove(s, Step(s, i, a).state, i)
  {
    hide GlobalPush, Settled, Popped, New;
    AgentsKept(s);
  }

  lemma AgentsOf(s: State, i: nat, a: Action)
    requires i < |s.agents| && !a.Fork? && Step(s, i, a).Next? && AgentOk(s, s.agents[i])
    ensures AgentsMove(s, Step(s, i, a).state, i)
  {
    hide Step, AgentOk, AgentsMove;
    var p := s.agents[i];
    if p.Idle? { IdleAgents(s, i, a); }
    else if Launching(p) { LauncherAgents(s, i, a); }
    else if p.Held? || p.Popping? || p.Measuring? || p.Calling? || p.Running? || p.Yielding? || p.Returning? {
      WorkerAgents(s, i, a);
    } else if p.Publishing? || p.Retiring? || p.Disposing? || p.Dropping? {
      DisposerAgents(s, i, a);
    } else if p.Releasing? || p.Deleting? {
      ReleaserAgents(s, i, a);
    } else {
      SenderAgents(s, i, a);
    }
  }

  lemma FollowsNot(s: State, p: Pc)
    requires AgentOk(s, p) && (p.Releasing? || p.Deleting?)
    ensures !Launching(p.next)
  {
  }

  /** Which agents launch after a step. */
  lemma LaunchersOf(s: State, i: nat, a: Action, j: nat)
    requires Step(s, i, a).Next? && j < |Step(s, i, a).state.agents| && Launching(Step(s, i, a).state.agents[j])
    requires i < |s.agents| ==> AgentOk(s, s.agents[i])
    ensures
      var s' := Step(s, i, a).state;
      j < |s.agents| &&
      ((Launching(s.agents[j]) && s'.agents[j].c == s.agents[j].c && (i == j && !a.Fork? ==> !s.agents[j].Marking?)) ||
       New(s', s'.agents[j].c))
  {
    if a.Fork? {
      ForkShape(s, i);
    } else {
      if i >= |s.agents| { StepOfNone(s, i, a); }
      hide Step, AgentOk;
      AgentsOf(s, i, a);
    }
  }

  lemma CalmStays(s: State, i: nat, a: Action)
    requires Inv(s) && Calm(s) && Careful(s, a) && Step(s, i, a).Next?
    ensures Calm(Step(s, i, a).state)
  {
    var s' := Step(s, i, a).state;
    forall j | 0 <= j < |s'.agents| && Launching(s'.agents[j])
      ensures New(s', s'.agents[j].c)
    {
      if i < |s.agents| { InvAt(s, i); }
      hide Inv, Step;
      LaunchersOf(s, i, a, j);
      if !New(s', s'.agents[j].c) {
        CalmAt(s, i, a, j);
      }
    }
  }

  lemma CalmAt(s: State, i: nat, a: Action, j: nat)
    requires Inv(s) && Calm(s) && Careful(s, a) && Step(s, i, a).Next?
    requires j < |s.agents| && Launching(s.agents[j]) && (i == j && !a.Fork? ==> !s.agents[j].Marking?)
    ensures New(Step(s, i, a).state, s.agents[j].c)
  {
    hide Inv, Step;
    var c := s.agents[j].c;
    if i < |s.agents| && i != j && (s.agents[i].Marking? || s.agents[i].Retiring?) { OneLauncher(s, i, j); }
    if !a.Fork? || !s.agents[j].Marking? || i != j { NewStays(s, i, a, c); }
    else { ForkShape(s, i); }
  }

  lemma StepOfNone(s: State, i: nat, a: Action)
    requires !a.Fork? && i >= |s.agents|
    ensures Step(s, i, a) == Blocked
  {
  }

  lemma ForkShape(s: State, i: nat)
    ensures Step(s, i, Fork) == Next(s.(agents := s.agents + [Idle]))
  {
  }

  predicate AllCareful(s: State, choices: seq<Choice>)
    decreases |choices|
  {
    choices == [] ||
    (Careful(s, choices[0].a) &&
     match Step(s, choices[0].i, choices[0].a)
     case Next(s') => AllCareful(s', choices[1..])
     case Blocked => AllCareful(s, choices[1..])
     case Fault => true)
  }

  lemma {:induction false} CarefulFrom(s: State, choices: seq<Choice>)
    requires Inv(s) && Calm(s) && AllCareful(s, choices)
    ensures Run(s, choices).Next?
    decreases |choices|
  {
    if choices != [] {
      hide Inv, Calm, Step, Careful;
      var i, a := choices[0].i, choices[0].a;
      StepGood(s, i, a);
      CalmNotLate(s, i);
      var o := Step(s, i, a);
      if o.Next? {
        CalmStays(s, i, a);
        CarefulFrom(o.state, choices[1..]);
      } else {
        CarefulFrom(s, choices[1..]);
      }
    }
  }

  lemma CalmNotLate(s: State, i: nat)
    requires Calm(s)
    ensures !Late(s, i)
  {
  }

  /** As long as services are killed from outside only after they are initialised, no interleaving faults. */
  lemma CarefulRuns(choices: seq<Choice>)
    requires AllCareful(Init, choices)
    ensures Run(Init, choices).Next?
  {
    InitInv();
    CarefulFrom(Init, choices);
  }
}
