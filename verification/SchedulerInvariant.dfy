/** What every step of the scheduler keeps. */
module SchedulerInvariant {
  import opened Common
  import opened Scheduler

  /** What an agent can have: a queue taken off the global list, a counted reference to a context,
      or the duty to delete a context whose count has reached zero. */
  datatype Resource = QueueOf(q: Queue) | RefTo(c: Handle) | DutyFor(c: Handle)

  function One(b: bool): nat { if b then 1 else 0 }

  function Has(p: Pc, r: Resource): nat {
    match p
    case Idle => 0
    case Sending(_, _) => 0
    case Pushing(c, _) => One(r == RefTo(c))
    case Holding(c) => One(r == RefTo(c))
    case Releasing(c, next) => One(r == RefTo(c)) + Has(next, r)
    case Deleting(c, next) => One(r == DutyFor(c)) + Has(next, r)
    case Starting(c, q) => One(r == RefTo(c)) + One(r == QueueOf(q))
    case Started(c, q) => One(r == RefTo(c)) + One(r == QueueOf(q))
    case Marking(_, q) => One(r == QueueOf(q))
    case Publishing(q) => One(r == QueueOf(q))
    case Retiring(_, q) => One(r == QueueOf(q))
    case Disposing(q) => One(r == QueueOf(q))
    case Dropping(q) => One(r == QueueOf(q))
    case Held(q) => One(r == QueueOf(q))
    case Popping(c, q, _, _) => One(r == RefTo(c)) + One(r == QueueOf(q))
    case Measuring(c, q, _, _) => One(r == RefTo(c)) + One(r == QueueOf(q))
    case Calling(c, q, _, _, _) => One(r == RefTo(c)) + One(r == QueueOf(q))
    case Running(c, q, _, _, _) => One(r == RefTo(c)) + One(r == QueueOf(q))
    case Yielding(c, q) => One(r == RefTo(c)) + One(r == QueueOf(q))
    case Returning(c, q, nq) => One(r == RefTo(c)) + One(r == QueueOf(q)) + One(r == QueueOf(nq))
  }

  function Count(agents: seq<Pc>, r: Resource): nat {
    if agents == [] then 0 else Count(agents[..|agents| - 1], r) + Has(agents[|agents| - 1], r)
  }

  lemma {:induction false} CountSet(agents: seq<Pc>, i: nat, p: Pc, r: Resource)
    requires i < |agents|
    ensures Count(agents[i := p], r) == Count(agents, r) - Has(agents[i], r) + Has(p, r)
  {
    var k := |agents| - 1;
    if i < k {
      assert agents[i := p][..k] == agents[..k][i := p];
      CountSet(agents[..k], i, p, r);
    } else {
      assert agents[i := p][..k] == agents[..k];
    }
  }

  lemma {:induction false} CountTwo(agents: seq<Pc>, i: nat, j: nat, r: Resource)
    requires i < j < |agents|
    ensures Has(agents[i], r) + Has(agents[j], r) <= Count(agents, r)
  {
    var k := |agents| - 1;
    if j < k { CountTwo(agents[..k], i, j, r); } else { CountOne(agents[..k], i, r); }
  }

  lemma {:induction false} CountOne(agents: seq<Pc>, i: nat, r: Resource)
    requires i < |agents|
    ensures Has(agents[i], r) <= Count(agents, r)
  {
    var k := |agents| - 1;
    if i < k { CountOne(agents[..k], i, r); }
  }

  lemma CountPush(agents: seq<Pc>, p: Pc, r: Resource)
    ensures Count(agents + [p], r) == Count(agents, r) + Has(p, r)
  {
    assert (agents + [p])[..|agents|] == agents;
  }

  /** How many agents have `r` after agent `i` moves to `p`. */
  lemma Counts(agents: seq<Pc>, i: nat, p: Pc)
    requires i < |agents|
    ensures forall r :: Count(agents[i := p], r) == Count(agents, r) - Has(agents[i], r) + Has(p, r)
  {
    forall r ensures Count(agents[i := p], r) == Count(agents, r) - Has(agents[i], r) + Has(p, r) {
      CountSet(agents, i, p, r);
    }
  }

  /** How often a queue is on the global list or with an agent. */
  function Place(s: State, q: Queue): nat {
    multiset(s.global)[q] + Count(s.agents, QueueOf(q))
  }

  function Told(gone: seq<Fate>): (ms: seq<Message>)
    ensures |ms| == |gone|
    ensures forall k :: 0 <= k < |ms| ==> ms[k] == gone[k].message
  {
    seq(|gone|, k requires 0 <= k < |gone| => gone[k].message)
  }

  function InHand(d: QueueState): seq<Message> {
    match d.hand
    case None => []
    case Some(m) => [m]
  }

  /** Every message accepted has left, in the order of acceptance, or is in hand, or waits in order. */
  predicate Conserved(d: QueueState) {
    d.accepted == Told(d.gone) + InHand(d) + d.messages
  }

  /** A registered context whose queue has been published is initialised. */
  predicate Ready(s: State, q: Queue) {
    q in s.queues && s.queues[q].hand == None &&
    (s.queues[q].handle in s.table && s.queues[q].handle in s.contexts ==> s.contexts[s.queues[q].handle].init)
  }

  /** What is known of a queue that belongs to a live or dead context. */
  predicate QueueOk(s: State, q: Queue) {
    if q !in s.queues then Place(s, q) == 0
    else
      var d := s.queues[q];
      Place(s, q) <= 1 &&
      (d.release || d.inGlobal <==> Place(s, q) == 1) &&
      (!d.inGlobal && !d.release ==> d.messages == [] && Ready(s, q)) &&
      d.handle != 0 &&
      (if d.release then d.handle !in s.contexts
       else d.handle in s.contexts && s.contexts[d.handle].queue == q) &&
      Conserved(d) &&
      (q in s.global ==> Ready(s, q))
  }

  /** The reference count is the number of references. */
  predicate ContextOk(s: State, c: Handle) {
    if c !in s.contexts
    then c !in s.table && Count(s.agents, RefTo(c)) == 0 && Count(s.agents, DutyFor(c)) == 0
    else
      var d := s.contexts[c];
      d.queue in s.queues && s.queues[d.queue].handle == c && !s.queues[d.queue].release &&
      d.ref == One(c in s.table) + Count(s.agents, RefTo(c)) &&
      Count(s.agents, DutyFor(c)) == One(d.ref == 0)
  }

  predicate Bears(s: State, q: Queue, c: Handle, hand: Option<Message>) {
    q in s.queues && s.queues[q].handle == c && s.queues[q].hand == hand
  }

  predicate Inited(s: State, c: Handle) { c in s.contexts ==> s.contexts[c].init }

  /** What comes after a release. */
  predicate Follows(p: Pc) { p.Idle? || p.Held? || p.Publishing? || p.Retiring? || p.Disposing? }

  predicate AgentOk(s: State, p: Pc) {
    match p
    case Idle => true
    case Sending(_, _) => true
    case Pushing(_, _) => true
    case Holding(_) => true
    case Releasing(_, next) => AgentOk(s, next) && Follows(next)
    case Deleting(_, next) => AgentOk(s, next) && Follows(next)
    case Starting(c, q) => Bears(s, q, c, None)
    case Started(c, q) => Bears(s, q, c, None)
    case Marking(c, q) => Bears(s, q, c, None)
    case Publishing(q) => Ready(s, q)
    case Retiring(c, q) => Bears(s, q, c, None)
    case Disposing(q) => Ready(s, q) && s.queues[q].handle !in s.table
    case Dropping(q) => Ready(s, q) && s.queues[q].release
    case Held(q) => Ready(s, q)
    case Popping(c, q, _, _) => Bears(s, q, c, None) && Inited(s, c)
    case Measuring(c, q, m, _) => Bears(s, q, c, Some(m)) && Inited(s, c)
    case Calling(c, q, _, _, m) => Bears(s, q, c, Some(m)) && Inited(s, c)
    case Running(c, q, _, _, _) => Bears(s, q, c, None) && Inited(s, c)
    case Yielding(c, q) => Bears(s, q, c, None) && Inited(s, c)
    case Returning(c, q, nq) => Bears(s, q, c, None) && Inited(s, c) && Ready(s, nq)
  }

  /** A freed queue holds nothing back. */
  predicate Done(d: QueueState) { d.messages == [] && d.hand == None && d.accepted == Told(d.gone) }

  predicate Distinct(s: State) {
    forall p, q :: p in s.queues && q in s.queues && s.queues[p].handle == s.queues[q].handle ==> p == q
  }

  ghost predicate Inv(s: State) {
    (forall q: Queue :: QueueOk(s, q)) && (forall c: Handle :: ContextOk(s, c)) &&
    (forall i :: 0 <= i < |s.agents| ==> AgentOk(s, s.agents[i])) &&
    Distinct(s) && (forall k :: 0 <= k < |s.past| ==> Done(s.past[k]))
  }

  /** A queue as those who hold it see it. */
  predicate Stable(s: State, s': State, q: Queue) {
    q in s.queues ==>
      q in s'.queues && s'.queues[q].handle == s.queues[q].handle && s'.queues[q].hand == s.queues[q].hand &&
      (s.queues[q].release ==> s'.queues[q].release) &&
      (s.queues[q].handle in s'.table ==> s.queues[q].handle in s.table) &&
      (s.queues[q].handle in s'.contexts ==>
         s.queues[q].handle in s.contexts &&
         (s.contexts[s.queues[q].handle].init ==> s'.contexts[s.queues[q].handle].init))
  }

  lemma {:induction false} AgentStays(s: State, s': State, p: Pc)
    requires AgentOk(s, p)
    requires forall q :: Has(p, QueueOf(q)) > 0 ==> Stable(s, s', q)
    ensures AgentOk(s', p)
  {
    if p.Releasing? || p.Deleting? {
      assert forall q :: Has(p.next, QueueOf(q)) > 0 ==> Has(p, QueueOf(q)) > 0;
      AgentStays(s, s', p.next);
    } else if !p.Idle? && !p.Sending? && !p.Pushing? && !p.Holding? {
      assert Has(p, QueueOf(p.q)) > 0;
      assert p.Returning? ==> Has(p, QueueOf(p.nq)) > 0;
    }
  }

  /** A step of agent `i` that leaves alone the queues that agent does not hold suits the other agents. */
  lemma OthersStay(s: State, s': State, i: nat, p: Pc)
    requires Inv(s) && i < |s.agents| && s'.agents == s.agents[i := p] && AgentOk(s', p)
    requires forall q :: Has(s.agents[i], QueueOf(q)) == 0 ==> Stable(s, s', q)
    ensures forall j :: 0 <= j < |s'.agents| ==> AgentOk(s', s'.agents[j])
  {
    hide AgentOk, Stable, ContextOk, Distinct, Done, Has;
    forall j | 0 <= j < |s'.agents|
      ensures AgentOk(s', s'.agents[j])
    {
      if j != i {
        forall q | Has(s.agents[j], QueueOf(q)) > 0
          ensures Stable(s, s', q)
        {
          CountTwo(s.agents, if i < j then i else j, if i < j then j else i, QueueOf(q));
          assert QueueOk(s, q);
        }
        AgentStays(s, s', s.agents[j]);
      }
    }
  }
}
