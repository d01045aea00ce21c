/** What becomes of a message: when a message is handed to the callback of its service, when it is freed, and when it is
    dropped and its sender told. */
module SchedulerFates {
  import opened Common
  import opened Scheduler
  import opened SchedulerInvariant
  import opened SchedulerSteps
  import opened SchedulerSafety
  import opened SchedulerHistory

  /** The last message that left queue `q` did so by a step of agent `i`, in the way in which it had to: it was
      handed to the callback if the service has one, freed if the service has none, and dropped if the service is
      gone. */
  ghost predicate Justified(s: State, s': State, i: nat, q: Queue)
    requires q in s.queues && q in s'.queues && s'.queues[q].gone != []
  {
    var d, f := s.queues[q], s'.queues[q].gone[|s'.queues[q].gone| - 1];
    i < |s.agents| && i < |s'.agents| &&
    (f.Dispatched? <==> d.handle in s.contexts && s.contexts[d.handle].cb) &&
    (f.Freed? <==> d.handle in s.contexts && !s.contexts[d.handle].cb) &&
    (f.Dropped? <==> d.release) &&
    (f.Dispatched? ==>
      s.contexts[d.handle].init && d.hand == Some(f.message) &&
      s'.agents[i].Running? && s'.agents[i].c == d.handle && s'.agents[i].q == q && s'.agents[i].m == f.message) &&
    (f.Freed? ==> d.hand == Some(f.message) && !s'.agents[i].Running? && s'.agents == s.agents[i := s'.agents[i]]) &&
    (f.Dropped? ==>
      d.messages != [] && f.message == d.messages[0] &&
      s'.agents == s.agents + [Sending(f.message.source, Message(d.handle, 0, 0))])
  }

  lemma CallFate(s: State, i: nat, a: Action)
    requires Inv(s) && i < |s.agents| && s.agents[i].Calling? && !a.Fork? && Step(s, i, a).Next?
    ensures
      var p, s' := s.agents[i], Step(s, i, a).state;
      p.q in s.queues && p.q in s'.queues && s.queues[p.q].handle == p.c && p.c in s.contexts &&
      s'.queues == s.queues[p.q := s'.queues[p.q]] && s'.past == s.past &&
      (exists f: Fate :: f.message == p.m && s'.queues[p.q].gone == s.queues[p.q].gone + [f]) &&
      Justified(s, s', i, p.q)
  {
    var p, s' := s.agents[i], Step(s, i, a).state;
    InvAt(s, i);
    OwnQueue(s, i, p.c, p.q);
    var f := if s.contexts[p.c].cb then Dispatched(p.m) else Freed(p.m);
    assert f.message == p.m && s'.queues[p.q].gone == s.queues[p.q].gone + [f];
  }

  lemma DropFate(s: State, i: nat, a: Action)
    requires Inv(s) && i < |s.agents| && s.agents[i].Dropping? && !a.Fork? && Step(s, i, a).Next?
    ensures
      var q, s' := s.agents[i].q, Step(s, i, a).state;
      q in s.queues &&
      if s.queues[q].messages == [] then
        s'.queues == s.queues - {q} && s'.past == s.past + [s.queues[q].(inGlobal := false)]
      else
        q in s'.queues && s'.queues == s.queues[q := s'.queues[q]] && s'.past == s.past &&
        s'.queues[q].gone == s.queues[q].gone + [Dropped(s.queues[q].messages[0])] && Justified(s, s', i, q)
  {
    var q := s.agents[i].q;
    InvAt(s, i);
    HeldAlive(s, i, q);
  }

  /** Other agents let no message leave. */
  lemma OthersKeep(s: State, i: nat, a: Action, q: Queue)
    requires Inv(s) && Step(s, i, a).Next? && q in s.queues
    requires a.Fork? || i >= |s.agents| || (!s.agents[i].Calling? && !s.agents[i].Dropping?)
    ensures
      var s' := Step(s, i, a).state;
      q in s'.queues && s'.queues[q].gone == s.queues[q].gone
  {
    if a.Fork? {
      ForkShape(s, i);
    } else if i < |s.agents| {
      var p := s.agents[i];
      hide Step, Inv;
      if Passive(p, a) {
        PassiveKeeps(s, i, a);
      }
      else if p.Idle? { LaunchKeepsGone(s, i, a); }
      else if p.Pushing? { PushKeepsGone(s, i, a); }
      else if p.Deleting? { DeleteKeepsGone(s, i, a); }
      else { PopKeepsGone(s, i, a); }
    }
  }

  lemma LaunchKeepsGone(s: State, i: nat, a: Action)
    requires i < |s.agents| && s.agents[i].Idle? && a.Launch? && Step(s, i, a).Next?
    ensures forall q <- s.queues :: q in Step(s, i, a).state.queues && Step(s, i, a).state.queues[q] == s.queues[q]
  {
  }

  lemma PushKeepsGone(s: State, i: nat, a: Action)
    requires i < |s.agents| && s.agents[i].Pushing? && !a.Fork? && Step(s, i, a).Next?
    ensures forall q <- s.queues ::
      q in Step(s, i, a).state.queues && Step(s, i, a).state.queues[q].gone == s.queues[q].gone
  {
    var p := s.agents[i];
    var s' := Step(s, i, a).state;
    hide MqPush, Then;
    PushShape(s, s', i, s.contexts[p.c].queue, p.m, Holding(p.c));
  }

  lemma DeleteKeepsGone(s: State, i: nat, a: Action)
    requires i < |s.agents| && s.agents[i].Deleting? && !a.Fork? && Step(s, i, a).Next?
    ensures forall q <- s.queues ::
      q in Step(s, i, a).state.queues && Step(s, i, a).state.queues[q].gone == s.queues[q].gone
  {
    var p := s.agents[i];
    hide Delete, Then;
    DeleteShape(s, Step(s, i, a).state, i, p.c, p.next);
  }

  lemma PopKeepsGone(s: State, i: nat, a: Action)
    requires i < |s.agents| && s.agents[i].Popping? && !a.Fork? && Step(s, i, a).Next?
    ensures forall q <- s.queues ::
      q in Step(s, i, a).state.queues && Step(s, i, a).state.queues[q].gone == s.queues[q].gone
  {
  }

  /** Whatever step any agent takes, a message that leaves a queue by it meets the fate it has to meet, and a queue is
      freed only with all its messages gone. */
  lemma RightFate(s: State, i: nat, a: Action, q: Queue)
    requires Inv(s) && Step(s, i, a).Next? && q in s.queues
    ensures
      var s' := Step(s, i, a).state;
      if q in s'.queues then s'.queues[q].gone == s.queues[q].gone || (
        |s'.queues[q].gone| == |s.queues[q].gone| + 1 && s.queues[q].gone <= s'.queues[q].gone &&
        Justified(s, s', i, q))
      else
        s.queues[q].release && s.queues[q].messages == [] && s'.past == s.past + [s.queues[q].(inGlobal := false)]
  {
    if a.Fork? || i >= |s.agents| || (!s.agents[i].Calling? && !s.agents[i].Dropping?) {
      OthersKeep(s, i, a, q);
    } else if s.agents[i].Calling? {
      hide Step, Inv, Justified;
      CallFate(s, i, a);
    } else {
      InvAt(s, i);
      DropRelease(s, i);
      hide Step, Inv, Justified;
      DropFate(s, i, a);
    }
  }

  lemma DropRelease(s: State, i: nat)
    requires Inv(s) && i < |s.agents| && s.agents[i].Dropping?
    ensures s.agents[i].q in s.queues && s.queues[s.agents[i].q].release
  {
    InvAt(s, i);
  }

  /** No agent begins to run a callback by this step. */
  predicate NoneBegins(s: State, s': State) {
    forall j :: 0 <= j < |s'.agents| && s'.agents[j].Running? ==> j < |s.agents| && s.agents[j] == s'.agents[j]
  }

  lemma SetBegins(s: State, s': State, i: nat)
    requires i < |s.agents| && i < |s'.agents| && s'.agents == s.agents[i := s'.agents[i]]
    requires !s'.agents[i].Running? || s'.agents[i] == s.agents[i]
    ensures NoneBegins(s, s')
  {
  }

  lemma PushedAgents(s: State, i: nat)
    requires i < |s.agents|
    ensures forall q, p :: Then(GlobalPush(s, q), i, p).Next? ==>
      Then(GlobalPush(s, q), i, p).state.agents == s.agents[i := p]
  {
  }

  lemma PlainBegins(s: State, i: nat, a: Action)
    requires i < |s.agents| && !a.Fork? && Step(s, i, a).Next? && Passive(s.agents[i], a)
    requires s.agents[i].Releasing? ==> Follows(s.agents[i].next)
    ensures NoneBegins(s, Step(s, i, a).state)
  {
    PushedAgents(s, i);
    hide GlobalPush, Then;
    SetBegins(s, Step(s, i, a).state, i);
  }

  lemma OtherBegins(s: State, i: nat, a: Action)
    requires i < |s.agents| && !a.Fork? && Step(s, i, a).Next?
    requires !Passive(s.agents[i], a) && !s.agents[i].Calling?
    requires s.agents[i].Deleting? ==> Follows(s.agents[i].next)
    ensures NoneBegins(s, Step(s, i, a).state)
  {
    var p, s' := s.agents[i], Step(s, i, a).state;
    if p.Pushing? {
      hide MqPush, Then;
      PushShape(s, s', i, s.contexts[p.c].queue, p.m, Holding(p.c));
    } else if p.Deleting? {
      hide Delete, Then;
      DeleteShape(s, s', i, p.c, p.next);
    }
  }

  /** A callback runs only for a message that is recorded as dispatched by the same step. */
  lemma RunsDispatched(s: State, i: nat, a: Action, j: nat)
    requires Inv(s) && Step(s, i, a).Next? && j < |Step(s, i, a).state.agents| && Step(s, i, a).state.agents[j].Running?
    ensures
      var s' := Step(s, i, a).state;
      var p := s'.agents[j];
      (j < |s.agents| && s.agents[j] == p) ||
      (j == i && p.q in s.queues && p.q in s'.queues && s.queues[p.q].hand == Some(p.m) &&
       s'.queues[p.q].gone == s.queues[p.q].gone + [Dispatched(p.m)])
  {
    if a.Fork? {
      ForkShape(s, i);
    } else if i < |s.agents| {
      InvAt(s, i);
      if s.agents[i].Calling? {
        hide Inv;
      } else {
        hide Inv, Step;
        if Passive(s.agents[i], a) { PlainBegins(s, i, a); } else { OtherBegins(s, i, a); }
      }
    }
  }
}
