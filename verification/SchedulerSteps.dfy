/** The kinds of step the scheduler takes, each shown to keep the invariant. */
module SchedulerSteps {
  import opened Common
  import opened Scheduler
  import opened SchedulerInvariant

  /** The parts of the invariant that a step of agent `i` to `p` must be shown to keep. */
  lemma Assemble(s: State, s': State, i: nat, p: Pc)
    requires Inv(s) && i < |s.agents| && s'.agents == s.agents[i := p] && AgentOk(s', p)
    requires forall q :: Has(s.agents[i], QueueOf(q)) == 0 ==> Stable(s, s', q)
    requires forall q: Queue :: QueueOk(s', q)
    requires forall c: Handle :: ContextOk(s', c)
    requires Distinct(s') && forall k :: 0 <= k < |s'.past| ==> Done(s'.past[k])
    ensures Inv(s')
  {
    hide Has, QueueOk, ContextOk, AgentOk, Stable, Distinct, Done;
    OthersStay(s, s', i, p);
  }

  predicate SameButInit(a: map<Handle, Context>, b: map<Handle, Context>) {
    a.Keys == b.Keys &&
    forall c <- a :: b[c].queue == a[c].queue && b[c].ref == a[c].ref && (a[c].init ==> b[c].init)
  }

  /** The agent moves on with what it has. */
  lemma Pass(s: State, s': State, i: nat, p: Pc)
    requires Inv(s) && i < |s.agents| && s' == At(s, i, p).(contexts := s'.contexts)
    requires SameButInit(s.contexts, s'.contexts) && AgentOk(s', p)
    requires forall r :: Has(p, r) == Has(s.agents[i], r)
    ensures Inv(s')
  {
    hide AgentOk, Has, Conserved, Done;
    Counts(s.agents, i, p);
    forall q: Queue ensures QueueOk(s', q) { assert QueueOk(s, q); }
    forall c: Handle ensures ContextOk(s', c) { assert ContextOk(s, c); }
    Assemble(s, s', i, p);
  }

  /** The agent takes the first queue of the global list. */
  lemma Take(s: State, s': State, i: nat, p: Pc)
    requires Inv(s) && i < |s.agents| && s.global != []
    requires s' == At(s, i, p).(global := s.global[1..])
    requires forall r :: Has(p, r) == Has(s.agents[i], r) + One(r == QueueOf(s.global[0]))
    requires Ready(s, s.global[0]) ==> AgentOk(s', p)
    ensures Inv(s')
  {
    hide AgentOk, Has, Conserved, Done;
    Counts(s.agents, i, p);
    var first := s.global[0];
    assert s.global == [first] + s'.global;
    assert QueueOk(s, first);
    forall q: Queue ensures QueueOk(s', q) { assert QueueOk(s, q); }
    forall c: Handle ensures ContextOk(s', c) { assert ContextOk(s, c); }
    Assemble(s, s', i, p);
  }

  /** The agent appends its queue `q` to the global list. */
  lemma Put(s: State, s': State, i: nat, q: Queue, p: Pc)
    requires Inv(s) && i < |s.agents| && Ready(s, q)
    requires forall r :: Has(s.agents[i], r) == Has(p, r) + One(r == QueueOf(q))
    requires Then(GlobalPush(s, q), i, p) == Next(s')
    requires AgentOk(s', p)
    ensures Inv(s')
  {
    hide AgentOk, Has, Conserved, Done;
    Counts(s.agents, i, p);
    forall q: Queue ensures QueueOk(s', q) { assert QueueOk(s, q); }
    forall c: Handle ensures ContextOk(s', c) { assert ContextOk(s, c); }
    Assemble(s, s', i, p);
  }

  lemma PutSafe(s: State, i: nat, q: Queue, p: Pc)
    requires Inv(s) && i < |s.agents| && Has(s.agents[i], QueueOf(q)) > 0
    ensures Then(GlobalPush(s, q), i, p).Next?
  {
    CountOne(s.agents, i, QueueOf(q));
    assert QueueOk(s, q);
  }

  /** The agent gets a reference to a registered context. */
  lemma GrabKeeps(s: State, s': State, i: nat, h: Handle, p: Pc)
    requires Inv(s) && i < |s.agents| && Grab(s, h).Some? && s' == At(Grab(s, h).value, i, p)
    requires forall r :: Has(p, r) == Has(s.agents[i], r) + One(r == RefTo(h))
    requires AgentOk(s', p)
    ensures Inv(s')
  {
    hide AgentOk, Has, Conserved, Done;
    Counts(s.agents, i, p);
    forall q: Queue ensures QueueOk(s', q) { assert QueueOk(s, q); }
    forall c: Handle ensures ContextOk(s', c) { assert ContextOk(s, c); }
    Assemble(s, s', i, p);
  }

  /** The agent gives a reference back; the last one to do so has to delete the context. */
  lemma ReleaseKeeps(s: State, s': State, i: nat, c: Handle, live: Pc, dead: Pc)
    requires Inv(s) && i < |s.agents| && Release(s, i, c, live, dead) == Next(s')
    requires forall r :: Has(s.agents[i], r) == Has(live, r) + One(r == RefTo(c))
    requires forall r :: Has(s.agents[i], r) == Has(dead, r) + One(r == RefTo(c))
    requires AgentOk(s', s'.agents[i])
    ensures Inv(s')
  {
    hide AgentOk, Has, Conserved, Done;
    var p := s'.agents[i];
    DeletingHas(c, dead);
    Counts(s.agents, i, p);
    CountOne(s.agents, i, RefTo(c));
    assert ContextOk(s, c);
    forall q: Queue ensures QueueOk(s', q) { assert QueueOk(s, q); }
    forall c: Handle ensures ContextOk(s', c) { assert ContextOk(s, c); }
    Assemble(s, s', i, p);
  }

  lemma ReleaseSafe(s: State, i: nat, c: Handle, live: Pc, dead: Pc)
    requires Inv(s) && i < |s.agents| && Has(s.agents[i], RefTo(c)) > 0
    ensures Release(s, i, c, live, dead).Next?
  {
    CountOne(s.agents, i, RefTo(c));
    assert ContextOk(s, c);
  }

  lemma DeleteShape(s: State, s': State, i: nat, c: Handle, p: Pc)
    requires i < |s.agents| && Then(Delete(s, c), i, p) == Next(s')
    ensures c in s.contexts && s'.contexts == s.contexts - {c} && s'.table == s.table && s'.past == s.past
    ensures s'.agents == s.agents[i := p]
    ensures
      var q := s.contexts[c].queue;
      q in s.queues && !s.queues[q].release && s'.queues == s.queues[q := s.queues[q].(release := true)] &&
      s'.global == if s.queues[q].inGlobal then s.global else s.global + [q]
  {
  }

  lemma DeleteQueueOk(s: State, s': State, i: nat, c: Handle, p: Pc, x: Queue)
    requires QueueOk(s, x) && i < |s.agents| && Then(Delete(s, c), i, p) == Next(s')
    requires c in s.contexts ==> QueueOk(s, s.contexts[c].queue)
    requires ContextOk(s, c) && c !in s.table
    requires forall q :: Count(s'.agents, QueueOf(q)) == Count(s.agents, QueueOf(q))
    ensures QueueOk(s', x)
  {
    hide Conserved, Delete, Then;
    DeleteShape(s, s', i, c, p);
    var q := s.contexts[c].queue;
    ConservedSame(s.queues[q], s'.queues[q]);
    assert Place(s', x) == Place(s, x) + One(x == q && !s.queues[q].inGlobal);
  }

  /** The agent deletes a context, whose queue is released and put where a worker finds it. */
  lemma DeleteKeeps(s: State, s': State, i: nat, c: Handle, p: Pc)
    requires Inv(s) && i < |s.agents| && s.agents[i] == Deleting(c, p)
    requires Then(Delete(s, c), i, p) == Next(s')
    ensures Inv(s')
  {
    hide AgentOk, Has, Conserved, Done, QueueOk, Delete, Then;
    DeletingHas(c, p);
    Counts(s.agents, i, p);
    CountOne(s.agents, i, DutyFor(c));
    assert ContextOk(s, c);
    DeleteShape(s, s', i, c, p);
    forall q: Queue ensures QueueOk(s', q) { DeleteQueueOk(s, s', i, c, p, q); }
    forall c: Handle ensures ContextOk(s', c) { assert ContextOk(s, c); }
    DeletingOk(s, c, p);
    AgentStays(s, s', p);
    Assemble(s, s', i, p);
  }

  lemma DeletingOk(s: State, c: Handle, p: Pc)
    ensures AgentOk(s, Deleting(c, p)) <==> AgentOk(s, p) && Follows(p)
  {
  }

  lemma DeletingHas(c: Handle, p: Pc)
    ensures forall r :: Has(Deleting(c, p), r) == One(r == DutyFor(c)) + Has(p, r)
  {
  }

  lemma DeleteSafe(s: State, i: nat, c: Handle, p: Pc)
    requires Inv(s) && i < |s.agents| && s.agents[i] == Deleting(c, p)
    ensures Then(Delete(s, c), i, p).Next?
  {
    CountOne(s.agents, i, DutyFor(c));
    assert ContextOk(s, c);
    assert QueueOk(s, s.contexts[c].queue);
  }

  lemma PushQueueOk(s: State, s': State, i: nat, q: Queue, m: Message, p: Pc, x: Queue)
    requires QueueOk(s, q) && QueueOk(s, x) && i < |s.agents| && q in s.queues && !s.queues[q].release
    requires Then(MqPush(s, q, m), i, p) == Next(s')
    requires forall r :: Count(s'.agents, r) == Count(s.agents, r)
    ensures QueueOk(s', x)
  {
    hide Conserved, MqPush, Then;
    PushShape(s, s', i, q, m, p);
    ConservedPush(s.queues[q], m);
    assert Place(s', x) == Place(s, x) + One(x == q && !s.queues[q].inGlobal);
  }

  lemma PushShape(s: State, s': State, i: nat, q: Queue, m: Message, p: Pc)
    requires i < |s.agents| && Then(MqPush(s, q, m), i, p) == Next(s')
    ensures q in s.queues
    ensures s'.agents == s.agents[i := p] && s'.contexts == s.contexts && s'.table == s.table && s'.past == s.past
    ensures
      var d := s.queues[q];
      s'.queues == s.queues[q := d.(messages := d.messages + [m], accepted := d.accepted + [m], inGlobal := true)]
    ensures s'.global == if s.queues[q].inGlobal then s.global else s.global + [q]
  {
  }

  /** The agent appends a message to the queue of a context it refers to. */
  lemma PushKeeps(s: State, s': State, i: nat, c: Handle, m: Message, p: Pc)
    requires Inv(s) && i < |s.agents| && c in s.contexts && Then(MqPush(s, s.contexts[c].queue, m), i, p) == Next(s')
    requires forall r :: Has(p, r) == Has(s.agents[i], r)
    requires AgentOk(s', p)
    ensures Inv(s')
  {
    hide AgentOk, Has, Conserved, Done, QueueOk, MqPush, Then;
    Counts(s.agents, i, p);
    var x := s.contexts[c].queue;
    PushShape(s, s', i, x, m, p);
    assert ContextOk(s, c);
    forall q: Queue ensures QueueOk(s', q) { PushQueueOk(s, s', i, x, m, p, q); }
    forall c: Handle ensures ContextOk(s', c) { assert ContextOk(s, c); }
    Assemble(s, s', i, p);
  }

  lemma ConservedSame(d: QueueState, d': QueueState)
    requires d'.accepted == d.accepted && d'.gone == d.gone && d'.hand == d.hand && d'.messages == d.messages
    ensures Conserved(d') <==> Conserved(d)
  {
  }

  lemma ConservedPush(d: QueueState, m: Message)
    requires Conserved(d)
    ensures Conserved(d.(messages := d.messages + [m], accepted := d.accepted + [m], inGlobal := true))
  {
  }

  lemma PushSafe(s: State, i: nat, c: Handle, m: Message, p: Pc)
    requires Inv(s) && i < |s.agents| && Has(s.agents[i], RefTo(c)) > 0
    ensures c in s.contexts && Then(MqPush(s, s.contexts[c].queue, m), i, p).Next?
  {
    CountOne(s.agents, i, RefTo(c));
    assert ContextOk(s, c);
    assert QueueOk(s, s.contexts[c].queue);
  }

  lemma HeldQueueOk(s: State, s': State, q: Queue, x: Queue)
    requires QueueOk(s, q) && QueueOk(s, x) && q in s.queues && q in s'.queues
    requires s'.queues == s.queues[q := s'.queues[q]]
    requires s'.contexts == s.contexts && s'.table == s.table && s'.global == s.global
    requires s'.queues[q].handle == s.queues[q].handle && s'.queues[q].inGlobal == s.queues[q].inGlobal
    requires s'.queues[q].release == s.queues[q].release && Conserved(s'.queues[q])
    requires q !in s.global && Place(s, q) == 1
    requires Count(s'.agents, QueueOf(x)) == Count(s.agents, QueueOf(x))
    ensures QueueOk(s', x)
  {
    hide Conserved, Count;
  }

  /** The agent moves messages out of a queue that it holds. */
  lemma HeldKeeps(s: State, s': State, i: nat, q: Queue, p: Pc)
    requires Inv(s) && i < |s.agents| && q in s.queues && q in s'.queues
    requires s' == At(SetQueue(s, q, s'.queues[q]), i, p)
    requires s'.queues[q].handle == s.queues[q].handle && s'.queues[q].inGlobal == s.queues[q].inGlobal
    requires s'.queues[q].release == s.queues[q].release && Conserved(s'.queues[q])
    requires Has(s.agents[i], QueueOf(q)) > 0
    requires forall r :: Has(p, r) == Has(s.agents[i], r)
    requires AgentOk(s', p)
    ensures Inv(s')
  {
    hide AgentOk, Has, Conserved, Done, Count, QueueOk;
    Counts(s.agents, i, p);
    OffList(s, i, q);
    forall x: Queue ensures QueueOk(s', x) { HeldQueueOk(s, s', q, x); }
    forall c: Handle ensures ContextOk(s', c) { assert ContextOk(s, c); }
    Assemble(s, s', i, p);
  }

  lemma OffList(s: State, i: nat, q: Queue)
    requires Inv(s) && i < |s.agents| && Has(s.agents[i], QueueOf(q)) > 0
    ensures q !in s.global && Place(s, q) == 1
  {
    CountOne(s.agents, i, QueueOf(q));
    assert QueueOk(s, q);
  }

  /** The agent finds its queue empty and leaves it unscheduled. */
  lemma LeaveKeeps(s: State, s': State, i: nat, c: Handle, q: Queue, p: Pc)
    requires Inv(s) && i < |s.agents| && q in s.queues && s.queues[q].messages == []
    requires s' == At(SetQueue(s, q, s.queues[q].(inGlobal := false)), i, p)
    requires Bears(s, q, c, None) && Inited(s, c) && Has(s.agents[i], RefTo(c)) > 0
    requires forall r :: Has(s.agents[i], r) == Has(p, r) + One(r == QueueOf(q))
    requires AgentOk(s', p)
    ensures Inv(s')
  {
    hide AgentOk, Has, Conserved, Done;
    Counts(s.agents, i, p);
    CountOne(s.agents, i, QueueOf(q));
    CountOne(s.agents, i, RefTo(c));
    assert QueueOk(s, q) && ContextOk(s, c);
    assert s.contexts[c].queue == q;
    ConservedSame(s.queues[q], s'.queues[q]);
    forall q: Queue ensures QueueOk(s', q) { assert QueueOk(s, q); }
    forall c: Handle ensures ContextOk(s', c) { assert ContextOk(s, c); }
    Assemble(s, s', i, p);
  }

  lemma DoneWhenEmpty(d: QueueState)
    requires Conserved(d) && d.messages == [] && d.hand == None
    ensures Done(d.(inGlobal := false))
  {
  }

  lemma FreeQueueOk(s: State, s': State, q: Queue, x: Queue)
    requires QueueOk(s, q) && QueueOk(s, x) && q in s.queues && s.queues[q].release
    requires s'.queues == s.queues - {q} && s'.contexts == s.contexts && s'.table == s.table && s'.global == s.global
    requires Count(s'.agents, QueueOf(x)) == Count(s.agents, QueueOf(x)) - One(x == q)
    ensures QueueOk(s', x)
  {
    hide Conserved, Count;
    if x in s'.queues { assert s'.queues[x] == s.queues[x]; }
  }

  /** The agent frees a released queue that it has emptied. */
  lemma FreeKeeps(s: State, s': State, i: nat, q: Queue, p: Pc)
    requires Inv(s) && i < |s.agents| && q in s.queues && s.queues[q].messages == []
    requires s' == At(s.(queues := s.queues - {q}, past := s'.past), i, p)
    requires s'.past == s.past + [s.queues[q].(inGlobal := false)]
    requires s.queues[q].release && s.queues[q].hand == None
    requires forall r :: Has(s.agents[i], r) == Has(p, r) + One(r == QueueOf(q))
    requires AgentOk(s', p)
    ensures Inv(s')
  {
    hide AgentOk, Has, Conserved, Done, Count, QueueOk;
    Counts(s.agents, i, p);
    CountOne(s.agents, i, QueueOf(q));
    ReleasedOk(s, q);
    DoneWhenEmpty(s.queues[q]);
    forall q': Queue ensures QueueOk(s', q') { FreeQueueOk(s, s', q, q'); }
    forall c: Handle ensures ContextOk(s', c) { assert ContextOk(s, c); }
    Assemble(s, s', i, p);
  }

  lemma ReleasedOk(s: State, q: Queue)
    requires Inv(s) && q in s.queues
    ensures QueueOk(s, q) && Conserved(s.queues[q])
  {
  }

  /** A handle is taken out of the table, and with it the reference of the table passes to the agent. */
  lemma RetireKeeps(s: State, s': State, i: nat, h: Handle, p: Pc)
    requires Inv(s) && i < |s.agents| && h in s.table && s' == At(s.(table := s.table - {h}), i, p)
    requires forall r :: Has(p, r) == Has(s.agents[i], r) + One(r == RefTo(h))
    requires AgentOk(s', p)
    ensures Inv(s')
  {
    hide AgentOk, Has, Conserved, Done;
    Counts(s.agents, i, p);
    assert ContextOk(s, h);
    forall q: Queue ensures QueueOk(s', q) { assert QueueOk(s, q); }
    forall c: Handle ensures ContextOk(s', c) { assert ContextOk(s, c); }
    Assemble(s, s', i, p);
  }

  lemma LaunchShape(s: State, s': State, i: nat, h: Handle, q: Queue)
    requires i < |s.agents| && s.agents[i] == Idle && Step(s, i, Launch(h, q)) == Next(s')
    ensures h != 0 && q !in s.queues && h !in s.contexts
    ensures forall p <- s.queues :: s.queues[p].handle != h
    ensures s'.agents == s.agents[i := Starting(h, q)]
    ensures s'.queues == s.queues[q := QueueState(h, [], true, false, [], [], None)]
    ensures s'.contexts == s.contexts[h := Context(q, 2, false, false)]
    ensures s'.table == s.table + {h} && s'.global == s.global && s'.past == s.past
    ensures forall r :: Has(Starting(h, q), r) == Has(s.agents[i], r) + One(r == QueueOf(q)) + One(r == RefTo(h))
    ensures AgentOk(s', Starting(h, q)) && Conserved(s'.queues[q])
  {
  }

  /** A new service. */
  lemma LaunchKeeps(s: State, s': State, i: nat, h: Handle, q: Queue)
    requires Inv(s) && i < |s.agents| && s.agents[i] == Idle && Step(s, i, Launch(h, q)) == Next(s')
    ensures Inv(s')
  {
    hide Step, Has, AgentOk, Conserved, Done;
    LaunchShape(s, s', i, h, q);
    var p := Starting(h, q);
    Counts(s.agents, i, p);
    assert QueueOk(s, q) && ContextOk(s, h);
    forall q: Queue ensures QueueOk(s', q) { assert QueueOk(s, q); }
    forall c: Handle ensures ContextOk(s', c) { assert ContextOk(s, c); }
    Assemble(s, s', i, p);
  }

  /** A further agent that has nothing yet. */
  lemma SpawnKeeps(s: State, s': State, p: Pc)
    requires Inv(s) && s' == s.(agents := s.agents + [p]) && (p.Idle? || p.Sending?)
    ensures Inv(s')
  {
    forall r ensures Count(s'.agents, r) == Count(s.agents, r) { CountPush(s.agents, p, r); }
    forall q: Queue ensures QueueOk(s', q) { assert QueueOk(s, q); }
    forall c: Handle ensures ContextOk(s', c) { assert ContextOk(s, c); }
    forall j | 0 <= j < |s'.agents| ensures AgentOk(s', s'.agents[j]) {
      if j < |s.agents| { AgentStays(s, s', s.agents[j]); }
    }
  }
}
