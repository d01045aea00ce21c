/** What happens to a queue over its lifetime: messages are accepted at the end of its history and leave
    from the front of it, and no history is ever rewritten. */
module SchedulerHistory {
  import opened Scheduler
  import opened SchedulerInvariant
  import opened SchedulerSteps
  import opened SchedulerSafety

  predicate IsPrefix<T(==)>(a: seq<T>, b: seq<T>) { |a| <= |b| && a == b[..|a|] }

  /** `e` is what becomes of `d`; nothing is accepted once `d` is released. */
  predicate Extends(d: QueueState, e: QueueState) {
    e.handle == d.handle && IsPrefix(d.accepted, e.accepted) && IsPrefix(d.gone, e.gone) &&
    (d.release ==> e.release && e.accepted == d.accepted)
  }

  /** A queue that is there goes on, or it is freed and its history is filed. */
  predicate GoesOn(s: State, s': State, q: Queue) {
    q in s.queues ==>
      (q in s'.queues && Extends(s.queues[q], s'.queues[q])) ||
      (q !in s'.queues && |s'.past| == |s.past| + 1 && Extends(s.queues[q], s'.past[|s.past|]))
  }

  predicate Grows(s: State, s': State) {
    IsPrefix(s.past, s'.past) && forall q <- s.queues :: GoesOn(s, s', q)
  }

  lemma SameGrows(s: State, s': State)
    requires s'.queues == s.queues && s'.past == s.past
    ensures Grows(s, s')
  {
  }

  lemma SetGrows(s: State, s': State, q: Queue)
    requires q in s.queues && q in s'.queues && s'.queues == s.queues[q := s'.queues[q]] && s'.past == s.past
    requires Extends(s.queues[q], s'.queues[q])
    ensures Grows(s, s')
  {
  }

  /** Agents that leave all queues as they are. */
  predicate Passive(p: Pc, a: Action) {
    (p.Idle? && !a.Launch?) || p.Sending? || p.Holding? || p.Releasing? || p.Starting? || p.Started? || p.Marking? ||
    p.Publishing? || p.Retiring? || p.Disposing? || p.Held? || p.Measuring? || p.Running? || p.Yielding? || p.Returning?
  }

  lemma PassiveKeeps(s: State, i: nat, a: Action)
    requires i < |s.agents| && !a.Fork? && Passive(s.agents[i], a) && Step(s, i, a).Next?
    ensures Step(s, i, a).state.queues == s.queues && Step(s, i, a).state.past == s.past
  {
    PutShape(s);
    hide GlobalPush;
  }

  lemma PutShape(s: State)
    ensures forall q :: GlobalPush(s, q).Next? ==>
      GlobalPush(s, q).state.queues == s.queues && GlobalPush(s, q).state.past == s.past
  {
  }

  lemma LaunchGrows(s: State, i: nat, a: Action)
    requires i < |s.agents| && s.agents[i].Idle? && a.Launch? && Step(s, i, a).Next?
    ensures Grows(s, Step(s, i, a).state)
  {
  }

  lemma PushGrows(s: State, i: nat, a: Action)
    requires i < |s.agents| && s.agents[i].Pushing? && !a.Fork? && Step(s, i, a).Next?
    ensures Grows(s, Step(s, i, a).state)
  {
    var p := s.agents[i];
    var q := s.contexts[p.c].queue;
    var s' := Step(s, i, a).state;
    NoLatePush(s, q, p.m, i, Holding(p.c));
    hide MqPush, Then;
    PushShape(s, s', i, q, p.m, Holding(p.c));
    SetGrows(s, s', q);
  }

  lemma NoLatePush(s: State, q: Queue, m: Message, i: nat, p: Pc)
    ensures Then(MqPush(s, q, m), i, p).Next? ==> q in s.queues && !s.queues[q].release
  {
  }

  lemma DeleteGrows(s: State, i: nat, a: Action)
    requires i < |s.agents| && s.agents[i].Deleting? && !a.Fork? && Step(s, i, a).Next?
    ensures Grows(s, Step(s, i, a).state)
  {
    var p := s.agents[i];
    var s' := Step(s, i, a).state;
    hide Delete, Then;
    DeleteShape(s, s', i, p.c, p.next);
    SetGrows(s, s', s.contexts[p.c].queue);
  }

  lemma PopGrows(s: State, i: nat, a: Action)
    requires i < |s.agents| && !a.Fork? && s.agents[i].Popping? && Step(s, i, a).Next?
    ensures Grows(s, Step(s, i, a).state)
  {
    SetGrows(s, Step(s, i, a).state, s.agents[i].q);
  }

  lemma CallGrows(s: State, i: nat, a: Action)
    requires i < |s.agents| && !a.Fork? && s.agents[i].Calling? && Step(s, i, a).Next?
    ensures Grows(s, Step(s, i, a).state)
  {
    SetGrows(s, Step(s, i, a).state, s.agents[i].q);
  }

  lemma DropGrows(s: State, i: nat, a: Action)
    requires i < |s.agents| && !a.Fork? && s.agents[i].Dropping? && Step(s, i, a).Next?
    ensures Grows(s, Step(s, i, a).state)
  {
    var q := s.agents[i].q;
    if s.queues[q].messages != [] { SetGrows(s, Step(s, i, a).state, q); }
  }

  /** Every step carries every queue's history on. */
  lemma HistoryGrows(s: State, i: nat, a: Action)
    requires Step(s, i, a).Next?
    ensures Grows(s, Step(s, i, a).state)
  {
    if a.Fork? {
      ForkShape(s, i);
      SameGrows(s, Step(s, i, a).state);
    } else if i < |s.agents| {
      var p := s.agents[i];
      hide Step, Grows;
      if Passive(p, a) {
        PassiveKeeps(s, i, a);
        SameGrows(s, Step(s, i, a).state);
      }
      else if p.Idle? { LaunchGrows(s, i, a); }
      else if p.Pushing? { PushGrows(s, i, a); }
      else if p.Deleting? { DeleteGrows(s, i, a); }
      else if p.Popping? { PopGrows(s, i, a); }
      else if p.Calling? { CallGrows(s, i, a); }
      else { DropGrows(s, i, a); }
    }
  }

  /** Messages leave a queue in the order in which they were accepted, each once: what has left so far
      stays a prefix of what was accepted so far, whatever steps follow. */
  lemma LeavesInOrder(s: State, q: Queue)
    requires Inv(s) && q in s.queues
    ensures IsPrefix(Told(s.queues[q].gone), s.queues[q].accepted)
    ensures |s.queues[q].gone| + |s.queues[q].messages| <= |s.queues[q].accepted|
      <= |s.queues[q].gone| + |s.queues[q].messages| + 1
  {
    assert QueueOk(s, q);
  }
}
